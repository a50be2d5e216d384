/**
 * MusicFolderCrawler of src/MusicCrawler.cc: the walk over a music folder
 * that files every tagged track into a per-year and a per-artist bucket,
 * and the functors that name and sort each bucket before it is written.
 *
 * The directory tree is a value of type Entry: what stat, opendir and
 * readdir would report, with the tag reader's answer stored on each file.
 */
module MusicCrawler {
  import opened Wrappers
  import opened Utilities
  import opened Tracks
  import TrackSort

  /** A directory entry as stat and readdir see it. */
  datatype Entry =
    | File(name: string, modTime: int, tags: Option<Tags>)
    | Dir(name: string, readable: bool, children: seq<Entry>)
    | Other(name: string)

  /** The crawler's static settings: the depth bound (0 = none) and Track's path settings. */
  datatype CrawlConfig = CrawlConfig(maxDepth: nat, paths: PathConfig)

  /** ".", ".." and every dot-file. */
  predicate IsDotName(name: string)
  {
    |name| > 0 && name[0] == '.'
  }

  /**
   * The sub-entry name: parent and name joined by one '/', which is not
   * added when the parent already ends in one.
   */
  function ChildPath(parent: string, name: string): (r: string)
    ensures |r| > |name| && |r| >= |parent|
    ensures r[..|parent|] == parent && r[|r| - |name|..] == name
    ensures r[|r| - |name| - 1] == '/'
    ensures |parent| > 0 && parent[|parent| - 1] == '/' ==> |r| == |parent| + |name|
    ensures !(|parent| > 0 && parent[|parent| - 1] == '/') ==> |r| == |parent| + 1 + |name|
  {
    if |parent| > 0 && parent[|parent| - 1] == '/' then parent + name else parent + "/" + name
  }

  /**
   * The track a regular file contributes: tagged from its path, kept only
   * when its lower-cased artist is not empty and its year is not 0.
   */
  function FileTrack(path: string, modTime: int, tags: Option<Tags>, cfg: PathConfig): (r: Option<Track>)
  {
    var tagged := RetrieveTags(NewTrack(path, path, modTime), tags, cfg);
    if tagged.None? || Lower(tagged.value.artist) == "" || tagged.value.year == 0 then None
    else tagged
  }

  /** A file with a readable tag, a non-empty artist and a year enters a bucket; nothing else does. */
  lemma FileTrackAccepts(path: string, modTime: int, tags: Option<Tags>, cfg: PathConfig)
    ensures FileTrack(path, modTime, tags, cfg).Some? <==>
      tags.Some? && tags.value.artist != "" && tags.value.year != 0
    ensures FileTrack(path, modTime, tags, cfg).Some? ==>
      var t := FileTrack(path, modTime, tags, cfg).value;
      && t.sort == Alpha && t.modTime == modTime && t.name == path
      && t.artist == tags.value.artist && t.year == tags.value.year
      && t.uri == UriPrefix + cfg.musicLibrary + StrippedPath(path, cfg)
  {
    if tags.Some? {
      LowerEmpty(tags.value.artist);
    }
  }

  /**
   * The tracks crawl_folder appends, in order, when it is called on entry
   * e named path at the given depth.
   */
  function Accepted(path: string, e: Entry, depth: nat, cfg: CrawlConfig): seq<Track>
    decreases e, 1
  {
    match e
    case File(_, modTime, tags) =>
      var t := FileTrack(path, modTime, tags, cfg.paths);
      if t.Some? then [t.value] else []
    case Dir(_, readable, children) =>
      if cfg.maxDepth != 0 && depth > cfg.maxDepth then []
      else if !readable then []
      else AcceptedList(path, children, depth + 1, cfg)
    case Other(_) => []
  }

  /** The tracks of a directory's entries, in readdir order, dot-entries skipped. */
  function AcceptedList(path: string, children: seq<Entry>, depth: nat, cfg: CrawlConfig): seq<Track>
    decreases children
  {
    if |children| == 0 then []
    else
      var last := children[|children| - 1];
      AcceptedList(path, children[..|children| - 1], depth, cfg) + AcceptedChild(path, last, depth, cfg)
  }

  /** What one directory entry adds: nothing for a dot-entry, else its tracks under its own path. */
  function AcceptedChild(path: string, child: Entry, depth: nat, cfg: CrawlConfig): seq<Track>
    decreases child, 2
  {
    if IsDotName(child.name) then [] else Accepted(ChildPath(path, child.name), child, depth, cfg)
  }

  /** One step of the readdir loop: the tracks crawled so far grow by the next child's. */
  lemma AcceptedListSnoc(before: seq<Track>, path: string, children: seq<Entry>, i: nat, depth: nat, cfg: CrawlConfig)
    requires i < |children|
    ensures before + AcceptedList(path, children[..i + 1], depth, cfg)
      == before + AcceptedList(path, children[..i], depth, cfg) + AcceptedChild(path, children[i], depth, cfg)
  {
    assert children[..i + 1][..i] == children[..i];
  }

  /** Every accepted track is alphabetical, dated and has an artist. */
  ghost predicate WellFormed(ts: seq<Track>)
  {
    forall i :: 0 <= i < |ts| ==> ts[i].sort == Alpha && ts[i].year != 0 && Lower(ts[i].artist) != ""
  }

  lemma {:induction false} AcceptedWellFormed(path: string, e: Entry, depth: nat, cfg: CrawlConfig)
    ensures WellFormed(Accepted(path, e, depth, cfg))
    decreases e
  {
    match e
    case File(_, modTime, tags) =>
      FileTrackAccepts(path, modTime, tags, cfg.paths);
    case Dir(_, readable, children) =>
      AcceptedListWellFormed(path, children, depth + 1, cfg);
    case Other(_) =>
  }

  lemma {:induction false} AcceptedListWellFormed(path: string, children: seq<Entry>, depth: nat, cfg: CrawlConfig)
    ensures WellFormed(AcceptedList(path, children, depth, cfg))
    decreases children
  {
    if |children| > 0 {
      var last := children[|children| - 1];
      AcceptedListWellFormed(path, children[..|children| - 1], depth, cfg);
      if !IsDotName(last.name) {
        AcceptedWellFormed(ChildPath(path, last.name), last, depth, cfg);
      }
    }
  }

  /** Entries whose name starts with '.' are never crawled: dropping them changes nothing. */
  lemma {:induction false} DotEntriesIgnored(path: string, children: seq<Entry>, depth: nat, cfg: CrawlConfig)
    ensures AcceptedList(path, children, depth, cfg) == AcceptedList(path, NonDot(children), depth, cfg)
    decreases children
  {
    if |children| > 0 {
      var init, last := children[..|children| - 1], children[|children| - 1];
      assert children == init + [last];
      NonDotAppend(init, last);
      DotEntriesIgnored(path, init, depth, cfg);
      var nd := NonDot(children);
      if IsDotName(last.name) {
        assert nd == NonDot(init);
      } else {
        assert nd[..|nd| - 1] == NonDot(init) && nd[|nd| - 1] == last;
      }
    }
  }

  /** The entries whose name does not start with '.', in order. */
  function NonDot(children: seq<Entry>): (r: seq<Entry>)
    ensures forall i :: 0 <= i < |r| ==> !IsDotName(r[i].name)
  {
    if |children| == 0 then []
    else if IsDotName(children[0].name) then NonDot(children[1..])
    else [children[0]] + NonDot(children[1..])
  }

  lemma {:induction false} NonDotAppend(init: seq<Entry>, last: Entry)
    ensures NonDot(init + [last]) == NonDot(init) + (if IsDotName(last.name) then [] else [last])
    decreases |init|
  {
    if |init| > 0 {
      assert (init + [last])[1..] == init[1..] + [last];
      NonDotAppend(init[1..], last);
    }
  }

  /** With the bound 0, depth never matters. */
  lemma {:induction false} UnlimitedDepth(path: string, e: Entry, d1: nat, d2: nat, cfg: CrawlConfig)
    requires cfg.maxDepth == 0
    ensures Accepted(path, e, d1, cfg) == Accepted(path, e, d2, cfg)
    decreases e
  {
    match e
    case File(_, _, _) =>
    case Dir(_, _, children) =>
      UnlimitedDepthList(path, children, d1 + 1, d2 + 1, cfg);
    case Other(_) =>
  }

  lemma {:induction false} UnlimitedDepthList(path: string, children: seq<Entry>, d1: nat, d2: nat, cfg: CrawlConfig)
    requires cfg.maxDepth == 0
    ensures AcceptedList(path, children, d1, cfg) == AcceptedList(path, children, d2, cfg)
    decreases children
  {
    if |children| > 0 {
      var last := children[|children| - 1];
      UnlimitedDepthList(path, children[..|children| - 1], d1, d2, cfg);
      UnlimitedDepth(ChildPath(path, last.name), last, d1, d2, cfg);
    }
  }

  /** A directory deeper than a non-zero bound contributes nothing, whatever it holds. */
  lemma TooDeepSkipped(path: string, e: Entry, depth: nat, cfg: CrawlConfig)
    requires e.Dir? && cfg.maxDepth != 0 && depth > cfg.maxDepth
    ensures Accepted(path, e, depth, cfg) == []
  {
  }

  // ------------------------------------------------------------------ buckets

  /** The bucket stored under k, or the empty one. */
  function Bucket<K>(m: map<K, seq<Track>>, k: K): seq<Track>
  {
    if k in m then m[k] else []
  }

  /** Appending a track to its year bucket, which is created on first use. */
  function AddToYear(m: map<int, seq<Track>>, t: Track): map<int, seq<Track>>
  {
    m[t.year := Bucket(m, t.year) + [t]]
  }

  /** Appending a year-ordered copy of a track to its lower-cased artist's bucket. */
  function AddToArtist(m: map<string, seq<Track>>, t: Track): map<string, seq<Track>>
  {
    var key := Lower(t.artist);
    m[key := Bucket(m, key) + [t.(sort := Year)]]
  }

  function GroupByYear(m: map<int, seq<Track>>, ts: seq<Track>): map<int, seq<Track>>
  {
    if |ts| == 0 then m else AddToYear(GroupByYear(m, ts[..|ts| - 1]), ts[|ts| - 1])
  }

  function GroupByArtist(m: map<string, seq<Track>>, ts: seq<Track>): map<string, seq<Track>>
  {
    if |ts| == 0 then m else AddToArtist(GroupByArtist(m, ts[..|ts| - 1]), ts[|ts| - 1])
  }

  /** A directory within the depth bound that opens yields its entries' tracks, one level deeper. */
  lemma AcceptedOpenDir(path: string, e: Entry, depth: nat, cfg: CrawlConfig)
    requires e.Dir? && e.readable && !(cfg.maxDepth != 0 && depth > cfg.maxDepth)
    ensures Accepted(path, e, depth, cfg) == AcceptedList(path, e.children, depth + 1, cfg)
  {
  }

  lemma GroupedNone(years: map<int, seq<Track>>, artists: map<string, seq<Track>>)
    ensures GroupByYear(years, []) == years && GroupByArtist(artists, []) == artists
  {
  }

  /** Grouping the track a file may add changes the buckets as adding it does. */
  lemma GroupedFile(years: map<int, seq<Track>>, artists: map<string, seq<Track>>, ts: seq<Track>, t: Option<Track>)
    ensures var added := if t.Some? then [t.value] else [];
      && GroupByYear(years, ts + added)
        == (if t.Some? then AddToYear(GroupByYear(years, ts), t.value) else GroupByYear(years, ts))
      && GroupByArtist(artists, ts + added)
        == (if t.Some? then AddToArtist(GroupByArtist(artists, ts), t.value) else GroupByArtist(artists, ts))
  {
    if t.Some? {
      GroupedSnoc(years, artists, ts, t.value);
    } else {
      assert ts + [] == ts;
    }
  }

  /** Grouping one more track appends it to its two buckets. */
  lemma GroupedSnoc(years: map<int, seq<Track>>, artists: map<string, seq<Track>>, ts: seq<Track>, t: Track)
    ensures GroupByYear(years, ts + [t]) == AddToYear(GroupByYear(years, ts), t)
    ensures GroupByArtist(artists, ts + [t]) == AddToArtist(GroupByArtist(artists, ts), t)
  {
    assert (ts + [t])[..|ts|] == ts;
  }

  function OfYear(ts: seq<Track>, y: int): (r: seq<Track>)
    ensures forall i :: 0 <= i < |r| ==> r[i].year == y && r[i] in ts
  {
    if |ts| == 0 then []
    else OfYear(ts[..|ts| - 1], y) + (if ts[|ts| - 1].year == y then [ts[|ts| - 1]] else [])
  }

  /** Year-ordered copies of the tracks of ts whose lower-cased artist is k, in order. */
  function OfArtist(ts: seq<Track>, k: string): (r: seq<Track>)
    ensures forall i :: 0 <= i < |r| ==> Lower(r[i].artist) == k && r[i].sort == Year
  {
    if |ts| == 0 then []
    else
      var t := ts[|ts| - 1];
      OfArtist(ts[..|ts| - 1], k) + (if Lower(t.artist) == k then [t.(sort := Year)] else [])
  }

  /**
   * Grouping by year: every bucket gains exactly the tracks of its year, in
   * order; a year is a key afterwards exactly when it was one or some track
   * has it.
   */
  lemma {:induction false} GroupByYearBuckets(m: map<int, seq<Track>>, ts: seq<Track>, y: int)
    ensures Bucket(GroupByYear(m, ts), y) == Bucket(m, y) + OfYear(ts, y)
    ensures y in GroupByYear(m, ts) <==> y in m || |OfYear(ts, y)| > 0
    decreases |ts|
  {
    if |ts| > 0 {
      GroupByYearBuckets(m, ts[..|ts| - 1], y);
    }
  }

  /**
   * Grouping by artist: every bucket gains exactly the year-ordered copies
   * of its artist's tracks, in order; a key is present afterwards exactly
   * when it was or some track's lower-cased artist is that key.
   */
  lemma {:induction false} GroupByArtistBuckets(m: map<string, seq<Track>>, ts: seq<Track>, k: string)
    ensures Bucket(GroupByArtist(m, ts), k) == Bucket(m, k) + OfArtist(ts, k)
    ensures k in GroupByArtist(m, ts) <==> k in m || |OfArtist(ts, k)| > 0
    decreases |ts|
  {
    if |ts| > 0 {
      GroupByArtistBuckets(m, ts[..|ts| - 1], k);
    }
  }

  lemma {:induction false} GroupByYearAppend(m: map<int, seq<Track>>, a: seq<Track>, b: seq<Track>)
    ensures GroupByYear(m, a + b) == GroupByYear(GroupByYear(m, a), b)
    decreases |b|
  {
    if |b| == 0 {
      assert a + b == a;
    } else {
      assert (a + b)[..|a + b| - 1] == a + b[..|b| - 1];
      GroupByYearAppend(m, a, b[..|b| - 1]);
    }
  }

  lemma {:induction false} GroupByArtistAppend(m: map<string, seq<Track>>, a: seq<Track>, b: seq<Track>)
    ensures GroupByArtist(m, a + b) == GroupByArtist(GroupByArtist(m, a), b)
    decreases |b|
  {
    if |b| == 0 {
      assert a + b == a;
    } else {
      assert (a + b)[..|a + b| - 1] == a + b[..|b| - 1];
      GroupByArtistAppend(m, a, b[..|b| - 1]);
    }
  }

  /** Adding one track touches its own year bucket and artist bucket and no other. */
  lemma AddTouchesOnlyItsBuckets(ym: map<int, seq<Track>>, am: map<string, seq<Track>>, t: Track)
    ensures forall y :: y != t.year ==> Bucket(AddToYear(ym, t), y) == Bucket(ym, y)
    ensures forall k :: k != Lower(t.artist) ==> Bucket(AddToArtist(am, t), k) == Bucket(am, k)
    ensures Bucket(AddToYear(ym, t), t.year) == Bucket(ym, t.year) + [t]
    ensures Bucket(AddToArtist(am, t), Lower(t.artist)) == Bucket(am, Lower(t.artist)) + [t.(sort := Year)]
  {
  }

  /** Buckets filled from accepted tracks are each of a single mode: year buckets alphabetical. */
  lemma {:induction false} YearBucketsUniform(ts: seq<Track>, y: int)
    requires WellFormed(ts)
    ensures TrackSort.Uniform(Bucket(GroupByYear(map[], ts), y), Alpha)
  {
    GroupByYearBuckets(map[], ts, y);
    var b := OfYear(ts, y);
    forall i | 0 <= i < |b| ensures b[i].sort == Alpha {
      var j :| 0 <= j < |ts| && ts[j] == b[i];
    }
  }

  /** ...and artist buckets year-ordered. */
  lemma {:induction false} ArtistBucketsUniform(ts: seq<Track>, k: string)
    ensures TrackSort.Uniform(Bucket(GroupByArtist(map[], ts), k), Year)
  {
    GroupByArtistBuckets(map[], ts, k);
  }

  // ------------------------------------------------------------------ crawler

  /**
   * The state of a MusicFolderCrawler; buckets are sequences held by value.
   * The ghost fields record the buckets a crawl started from and the tracks
   * accepted since, so that Valid() ties the buckets to what was crawled.
   */
  class FolderCrawler {
    const topLevelDirName: string
    const config: CrawlConfig
    var currentDepth: nat
    var yearTracks: map<int, seq<Track>>
    var artistTracks: map<string, seq<Track>>
    ghost var startYears: map<int, seq<Track>>
    ghost var startArtists: map<string, seq<Track>>
    ghost var crawled: seq<Track>

    /** Both bucket maps hold exactly the tracks crawled, grouped in crawl order. */
    ghost predicate Valid()
      reads this
    {
      yearTracks == GroupByYear(startYears, crawled) && artistTracks == GroupByArtist(startArtists, crawled)
    }

    constructor (topLevelDirName: string, config: CrawlConfig)
      ensures this.topLevelDirName == topLevelDirName && this.config == config
      ensures currentDepth == 0 && yearTracks == map[] && artistTracks == map[]
    {
      this.topLevelDirName := topLevelDirName;
      this.config := config;
      currentDepth := 0;
      yearTracks := map[];
      artistTracks := map[];
    }

    /** crawl: the whole tree under the top-level directory. */
    method Crawl(root: Entry)
      modifies this
      ensures currentDepth == old(currentDepth)
      ensures yearTracks == GroupByYear(old(yearTracks), Accepted(topLevelDirName, root, old(currentDepth), config))
      ensures artistTracks == GroupByArtist(old(artistTracks), Accepted(topLevelDirName, root, old(currentDepth), config))
    {
      startYears, startArtists, crawled := yearTracks, artistTracks, [];
      GroupedNone(yearTracks, artistTracks);
      CrawlFolder(topLevelDirName, root);
      assert crawled == [] + Accepted(topLevelDirName, root, old(currentDepth), config)
                     == Accepted(topLevelDirName, root, old(currentDepth), config);
    }

    /**
     * The regular-file branch of crawl_folder: a track whose tags load and
     * that has an artist and a year goes to the end of its year bucket and,
     * as a year-ordered copy, to the end of its lower-cased artist's bucket.
     */
    method CrawlFile(entryName: string, modTime: int, tags: Option<Tags>)
      modifies `yearTracks, `artistTracks
      ensures var t := FileTrack(entryName, modTime, tags, config.paths);
        && yearTracks == (if t.Some? then AddToYear(old(yearTracks), t.value) else old(yearTracks))
        && artistTracks == (if t.Some? then AddToArtist(old(artistTracks), t.value) else old(artistTracks))
    {
      var newTrack := RetrieveTags(NewTrack(entryName, entryName, modTime), tags, config.paths);
      if newTrack.None? {
        return;
      }
      var track := newTrack.value;
      var artist := ToLowerCase(track.artist);
      var year := track.year;
      if artist == "" || year == 0 {
        return;
      }
      assert FileTrack(entryName, modTime, tags, config.paths) == Some(track);
      assert [] + [track] == [track];
      if year !in yearTracks {
        yearTracks := yearTracks[year := [track]];
      } else {
        yearTracks := yearTracks[year := yearTracks[year] + [track]];
      }
      track := track.(sort := Year);
      assert [] + [track] == [track];
      if artist !in artistTracks {
        artistTracks := artistTracks[artist := [track]];
      } else {
        artistTracks := artistTracks[artist := artistTracks[artist] + [track]];
      }
    }

    /**
     * crawl_folder: a file's track is appended to its buckets; a directory
     * within the depth bound that opens is crawled entry by entry one level
     * deeper; the depth is restored on return.
     */
    method CrawlFolder(entryName: string, entry: Entry)
      requires Valid()
      modifies `currentDepth, `yearTracks, `artistTracks, `crawled
      decreases entry, 1
      ensures Valid()
      ensures currentDepth == old(currentDepth)
      ensures crawled == old(crawled) + Accepted(entryName, entry, old(currentDepth), config)
    {
      match entry
      case File(_, modTime, tags) =>
        ghost var t := FileTrack(entryName, modTime, tags, config.paths);
        ghost var added := if t.Some? then [t.value] else [];
        GroupedFile(startYears, startArtists, crawled, t);
        CrawlFile(entryName, modTime, tags);
        crawled := crawled + added;
      case Dir(_, _, _) =>
        CrawlDirectory(entryName, entry);
      case Other(_) =>
        assert crawled == crawled + [];
    }

    /**
     * The directory branch of crawl_folder: skipped beyond the depth bound
     * or when it does not open, otherwise crawled one level deeper.
     */
    method CrawlDirectory(entryName: string, entry: Entry)
      requires entry.Dir? && Valid()
      modifies `currentDepth, `yearTracks, `artistTracks, `crawled
      decreases entry, 0
      ensures Valid()
      ensures currentDepth == old(currentDepth)
      ensures crawled == old(crawled) + Accepted(entryName, entry, old(currentDepth), config)
    {
      if (config.maxDepth != 0 && currentDepth > config.maxDepth) || !entry.readable {
        assert crawled == crawled + [];
        return;
      }
      AcceptedOpenDir(entryName, entry, currentDepth, config);
      CrawlEntries(entryName, entry.children);
    }

    /**
     * The readdir loop of crawl_folder, between the depth increment and
     * decrement around it: every entry but the dot-entries, in order.
     */
    method CrawlEntries(entryName: string, children: seq<Entry>)
      requires Valid()
      modifies `currentDepth, `yearTracks, `artistTracks, `crawled
      decreases children
      ensures Valid()
      ensures currentDepth == old(currentDepth)
      ensures crawled == old(crawled) + AcceptedList(entryName, children, old(currentDepth) + 1, config)
    {
      currentDepth := currentDepth + 1;
      ghost var depth := currentDepth;
      var i := 0;
      while i < |children|
        invariant 0 <= i <= |children|
        invariant Valid() && currentDepth == depth
        invariant crawled == old(crawled) + AcceptedList(entryName, children[..i], depth, config)
      {
        AcceptedListSnoc(old(crawled), entryName, children, i, depth, config);
        CrawlChild(entryName, children[i]);
        i := i + 1;
      }
      assert children[..i] == children;
      currentDepth := currentDepth - 1;
    }

    /** One pass of the readdir loop: a dot-entry is skipped, any other entry crawled under its path. */
    method CrawlChild(entryName: string, child: Entry)
      requires Valid()
      modifies `currentDepth, `yearTracks, `artistTracks, `crawled
      decreases child, 2
      ensures Valid()
      ensures currentDepth == old(currentDepth)
      ensures crawled == old(crawled) + AcceptedChild(entryName, child, old(currentDepth), config)
    {
      if child.name == "" || child.name[0] != '.' {
        var subEntryName := entryName;
        if entryName == "" || entryName[|entryName| - 1] != '/' {
          subEntryName := subEntryName + "/";
        }
        subEntryName := subEntryName + child.name;
        assert subEntryName == ChildPath(entryName, child.name);
        CrawlFolder(subEntryName, child);
      } else {
        assert crawled == crawled + [];
      }
    }
  }

  // ------------------------------------------------------------------ playlists

  /** A playlist file as Track::write_file would receive it. */
  datatype Playlist = Playlist(fileName: string, tracks: seq<Track>)

  function DigitChar(d: nat): char
    requires d < 10
  {
    ['0', '1', '2', '3', '4', '5', '6', '7', '8', '9'][d]
  }

  /** How a stream writes a non-negative int: decimal, no leading zero. */
  function Decimal(n: nat): (r: string)
    ensures |r| > 0
    ensures forall i :: 0 <= i < |r| ==> '0' <= r[i] <= '9'
    ensures n > 0 ==> r[0] != '0'
  {
    if n < 10 then [DigitChar(n)] else Decimal(n / 10) + [DigitChar(n % 10)]
  }

  /** The value of a string of decimal digits. */
  function DecimalValue(s: string): int
  {
    if |s| == 0 then 0 else DecimalValue(s[..|s| - 1]) * 10 + (s[|s| - 1] as int - '0' as int)
  }

  /** Reading back a written number gives that number. */
  lemma {:induction false} DecimalRoundTrip(n: nat)
    ensures DecimalValue(Decimal(n)) == n
  {
    if n >= 10 {
      DecimalRoundTrip(n / 10);
      var s := Decimal(n);
      assert s[..|s| - 1] == Decimal(n / 10);
    }
  }

  /** The name of year y's playlist, before the output directory. */
  function YearFileName(prefix: string, y: nat): string
  {
    Cleaned(prefix + Decimal(y))
  }

  /** Two years never share a playlist file. */
  lemma YearFileNamesDistinct(prefix: string, y1: nat, y2: nat)
    requires y1 != y2
    ensures YearFileName(prefix, y1) != YearFileName(prefix, y2)
  {
    var d1, d2 := Decimal(y1), Decimal(y2);
    CleanedAppend(prefix, d1);
    CleanedAppend(prefix, d2);
    CleanedDigits(d1);
    CleanedDigits(d2);
    if YearFileName(prefix, y1) == YearFileName(prefix, y2) {
      CleanedAt(prefix);
      assert Cleaned(prefix) + d1 == Cleaned(prefix) + d2;
      assert d1 == (Cleaned(prefix) + d1)[|prefix|..];
      DecimalRoundTrip(y1);
      DecimalRoundTrip(y2);
    }
  }

  lemma {:induction false} CleanedDigits(d: string)
    requires forall i :: 0 <= i < |d| ==> '0' <= d[i] <= '9'
    ensures Cleaned(d) == d
    decreases |d|
  {
    if |d| > 0 {
      DigitLegal(d[0]);
      CleanedDigits(d[1..]);
      assert d == [d[0]] + d[1..];
    }
  }

  /** No digit is a character file names may not hold. */
  lemma DigitLegal(c: char)
    requires '0' <= c <= '9'
    ensures !IsIllegal(c)
  {
    assert forall k :: 0 <= k < |IllegalChars| ==> IllegalChars[k] < '0' || '9' < IllegalChars[k];
  }

  /**
   * DumpAndDeleteYearTracksVectorFunc: a year above 0 with tracks becomes
   * the playlist prefix + year, cleaned, in the output directory, holding
   * the bucket sorted.
   */
  method DumpYearTracks(outputDirectory: string, prefix: string, year: int, tracks: seq<Track>)
    returns (written: Option<Playlist>)
    ensures written.Some? <==> year > 0 && |tracks| > 0
    ensures written.Some? ==> written.value.fileName == outputDirectory + YearFileName(prefix, year)
    ensures written.Some? ==> multiset(written.value.tracks) == multiset(tracks)
    ensures written.Some? && (exists m :: TrackSort.Uniform(tracks, m)) ==>
      TrackSort.SortedBy(written.value.tracks, Less)
  {
    written := None;
    if year > 0 && |tracks| > 0 {
      var fileName := CleanFileName(prefix + Decimal(year));
      CleanedAt(prefix + Decimal(year));
      if fileName != "" {
        if outputDirectory != "" {
          fileName := outputDirectory + fileName;
        }
        var sorted := SortedCopy(tracks);
        written := Some(Playlist(fileName, sorted));
      }
    }
  }

  /** The sort run on a bucket before it is written. */
  method SortedCopy(tracks: seq<Track>) returns (sorted: seq<Track>)
    ensures multiset(sorted) == multiset(tracks)
    ensures (exists m :: TrackSort.Uniform(tracks, m)) ==> TrackSort.SortedBy(sorted, Less)
  {
    var a := new Track[|tracks|](i requires 0 <= i < |tracks| => tracks[i]);
    assert a[..] == tracks;
    TrackSort.SortTracks(a);
    sorted := a[..];
  }

  /** islower then toupper on the first character, in the C locale. */
  function Capitalized(s: string): (r: string)
    ensures |r| == |s| && (|s| > 0 ==> r[1..] == s[1..])
    ensures |s| > 0 && 'a' <= s[0] <= 'z' ==> r[0] == s[0] - 'a' + 'A'
    ensures |s| > 0 && !('a' <= s[0] <= 'z') ==> r == s
  {
    if |s| > 0 && 'a' <= s[0] <= 'z' then [(s[0] as int - 32) as char] + s[1..] else s
  }

  /** The name of an artist's playlist: the cleaned artist with a capital first letter. */
  function ArtistFileName(artist: string): string
  {
    Capitalized(Cleaned(artist))
  }

  /** Artists that differ only in illegal characters or first-letter case share a file. */
  lemma ArtistFileNamesCollide()
    ensures ArtistFileName("a/") == ArtistFileName("A:")
  {
    assert IsIllegal('/') && IsIllegal(':') && !IsIllegal('a') && !IsIllegal('A');
    assert Cleaned("a/") == "a_";
    assert Cleaned("A:") == "A_";
  }

  /**
   * DumpAndDeleteArtistTracksVectorFunc: a non-empty key with tracks
   * becomes a playlist named after the first track's original artist,
   * cleaned and capitalised, in the output directory, holding the bucket
   * sorted.
   */
  method DumpArtistTracks(outputDirectory: string, key: string, tracks: seq<Track>)
    returns (written: Option<Playlist>)
    ensures written.Some? <==> key != "" && |tracks| > 0 && tracks[0].artist != ""
    ensures written.Some? ==> written.value.fileName == outputDirectory + ArtistFileName(tracks[0].artist)
    ensures written.Some? ==> multiset(written.value.tracks) == multiset(tracks)
    ensures written.Some? && (exists m :: TrackSort.Uniform(tracks, m)) ==>
      TrackSort.SortedBy(written.value.tracks, Less)
  {
    written := None;
    if key != "" && |tracks| > 0 {
      var fileName := CleanFileName(tracks[0].artist);
      CleanedAt(tracks[0].artist);
      if fileName != "" {
        if 'a' <= fileName[0] <= 'z' {
          var c := (fileName[0] as int - 32) as char;
          fileName := [c] + fileName[1..];
        }
        if outputDirectory != "" {
          fileName := outputDirectory + fileName;
        }
        var sorted := SortedCopy(tracks);
        written := Some(Playlist(fileName, sorted));
      }
    }
  }
}
