/**
 * BandcampMusicCrawler of src/BandcampMusicCrawler.cc: it matches the
 * purchases of a Bandcamp collection against the artists found by the
 * folder crawl, files the matching tracks into per-purchase-year buckets,
 * and keeps a store of user corrections (the lookup file) for artists and
 * albums it cannot match.
 *
 * The two JSON documents are values already interpreted the way json11
 * reads them: a missing or non-string field reads as "", a missing or
 * non-array "items" as no items. The purchase date is what strptime and
 * strftime("%s") make of it: a year and the epoch text (its value and size).
 */
module Bandcamp {
  import opened Wrappers
  import Strings
  import opened Utilities
  import opened Tracks
  import opened MusicCrawler

  // ------------------------------------------------------------------ albums

  /** BandcampAlbum: an artist and an album name. */
  datatype Album = Album(artist: string, album: string)

  /** to_key: the lookup-file key of an album. */
  function ToKey(a: Album): (r: string)
    ensures |r| == |a.artist| + 3 + |a.album|
    ensures r[..|a.artist|] == a.artist && r[|a.artist| + 3..] == a.album
  {
    a.artist + " - " + a.album
  }

  /** Two albums whose artists have the same length share a key only when they are equal. */
  lemma ToKeyInjective(a: Album, b: Album)
    requires |a.artist| == |b.artist| && ToKey(a) == ToKey(b)
    ensures a == b
  {
    assert a.artist == ToKey(a)[..|a.artist|];
    assert a.album == ToKey(a)[|a.artist| + 3..];
  }

  /** Otherwise the separator can occur inside a name, and different albums collide. */
  lemma ToKeyCollision()
    ensures Album("a - b", "c") != Album("a", "b - c")
    ensures ToKey(Album("a - b", "c")) == ToKey(Album("a", "b - c"))
  {
  }

  /** BandcampAlbum::operator<. */
  predicate AlbumLess(a: Album, b: Album)
  {
    if Strings.Less(a.artist, b.artist) then true
    else if a.artist == b.artist then Strings.Less(a.album, b.album)
    else false
  }

  /** operator< is a strict total order: irreflexive, transitive, and total on different albums. */
  lemma AlbumLessStrictTotal(a: Album, b: Album, c: Album)
    ensures !AlbumLess(a, a)
    ensures AlbumLess(a, b) && AlbumLess(b, c) ==> AlbumLess(a, c)
    ensures a != b ==> AlbumLess(a, b) || AlbumLess(b, a)
  {
    Strings.LessIrreflexive(a.artist);
    Strings.LessIrreflexive(a.album);
    Strings.LessIrreflexive(b.artist);
    if AlbumLess(a, b) && AlbumLess(b, c) {
      if Strings.Less(a.artist, b.artist) && Strings.Less(b.artist, c.artist) {
        Strings.LessTransitive(a.artist, b.artist, c.artist);
      }
      if a.artist == b.artist == c.artist {
        Strings.LessTransitive(a.album, b.album, c.album);
      }
    }
    Strings.LessTotal(a.artist, b.artist);
    Strings.LessTotal(a.album, b.album);
  }

  // ------------------------------------------------------------------ documents

  /** One element of the collection's "items" array. */
  datatype LedgerItem =
    | NotAnObject
    | Purchase(bandName: string, albumTitle: string, artUrl: string, year: int, epoch: int, epochSize: nat)

  /** The collection document: "more_available" and "items". */
  datatype Collection = Collection(moreAvailable: bool, items: seq<LedgerItem>)

  /** One value of the lookup object. */
  datatype LookupValue = NonObject | Fields(artist: string, album: string, path: string)

  /** The lookup document: an object mapping album keys to corrections, or anything else. */
  datatype LookupDoc = NoObject | Entries(entries: map<string, LookupValue>)

  // ------------------------------------------------------------------ corrections

  /**
   * What load_lookup_file registers for one lookup value: the lower-cased
   * artist and album when either is set; otherwise the album recorded for
   * the path, tried as given and then after the top-level directory.
   */
  function Correction(v: LookupValue, pathAlbums: map<string, Album>, top: string): (r: Option<Album>)
    ensures v.NonObject? ==> r.None?
    ensures v.Fields? && (v.artist != "" || v.album != "") ==> r == Some(Album(Lower(v.artist), Lower(v.album)))
    ensures v.Fields? && v.artist == v.album == v.path == "" ==> r.None?
    ensures v.Fields? && v.artist == v.album == "" != v.path && v.path in pathAlbums ==> r == Some(pathAlbums[v.path])
    ensures v.Fields? && v.artist == v.album == "" != v.path && v.path !in pathAlbums ==>
      r == (if top + v.path in pathAlbums then Some(pathAlbums[top + v.path]) else None)
  {
    match v
    case NonObject => None
    case Fields(artist, album, path) =>
      LowerEmpty(artist);
      LowerEmpty(album);
      var albumValue, artistValue := Lower(album), Lower(artist);
      if albumValue != "" || artistValue != "" then Some(Album(artistValue, albumValue))
      else if path != "" then
        if path in pathAlbums then Some(pathAlbums[path])
        else if top + path in pathAlbums then Some(pathAlbums[top + path])
        else None
      else None
  }

  /** The corrections a lookup document registers, by key. */
  function Corrections(doc: LookupDoc, pathAlbums: map<string, Album>, top: string): (r: map<string, Album>)
    ensures doc.NoObject? ==> r == map[]
    ensures doc.Entries? ==> forall k :: k in r <==> k in doc.entries && Correction(doc.entries[k], pathAlbums, top).Some?
    ensures forall k :: k in r ==> doc.Entries? && k in doc.entries && Some(r[k]) == Correction(doc.entries[k], pathAlbums, top)
  {
    match doc
    case NoObject => map[]
    case Entries(entries) =>
      map k | k in entries && Correction(entries[k], pathAlbums, top).Some? :: Correction(entries[k], pathAlbums, top).value
  }

  /**
   * resolve_missing_album on a known key: each field of the correction
   * that is not empty replaces the album's own.
   */
  function Overlay(a: Album, c: Album): Album
  {
    Album(if c.artist != "" then c.artist else a.artist, if c.album != "" then c.album else a.album)
  }

  /** A correction with both fields set is taken whole; applying a correction twice is applying it once. */
  lemma OverlayProperties(a: Album, c: Album)
    ensures c.artist != "" && c.album != "" ==> Overlay(a, c) == c
    ensures c == Album("", "") ==> Overlay(a, c) == a
    ensures Overlay(Overlay(a, c), c) == Overlay(a, c)
    ensures Overlay(a, c).artist == a.artist || Overlay(a, c).artist == c.artist != ""
    ensures Overlay(a, c).album == a.album || Overlay(a, c).album == c.album != ""
  {
  }

  // ------------------------------------------------------------------ purchases

  /**
   * The copies find_album_tracks makes of the tracks whose lower-cased album
   * is album: each gets the art URL and mtime order, and the purchase time
   * when its text is not empty.
   */
  function AlbumCopies(tracks: seq<Track>, album: string, artUrl: string, epoch: int, epochSize: nat): seq<Track>
  {
    if |tracks| == 0 then []
    else
      var t := tracks[|tracks| - 1];
      AlbumCopies(tracks[..|tracks| - 1], album, artUrl, epoch, epochSize)
        + (if album == Lower(t.album) then
             [t.(albumArt := artUrl, modTime := if epochSize > 0 then epoch else t.modTime, sort := Mtime)]
           else [])
  }

  /** The copies of the first i + 1 tracks: those of the first i, then the copy of track i if it matches. */
  lemma AlbumCopiesStep(tracks: seq<Track>, i: nat, album: string, artUrl: string, epoch: int, epochSize: nat)
    requires i < |tracks|
    ensures AlbumCopies(tracks[..i + 1], album, artUrl, epoch, epochSize)
      == AlbumCopies(tracks[..i], album, artUrl, epoch, epochSize)
         + (if album == Lower(tracks[i].album) then
              [tracks[i].(albumArt := artUrl, modTime := if epochSize > 0 then epoch else tracks[i].modTime, sort := Mtime)]
            else [])
  {
    assert tracks[..i + 1][..i] == tracks[..i];
  }

  /** How many of tracks have album as their lower-cased album. */
  function CountAlbum(tracks: seq<Track>, album: string): nat
  {
    if |tracks| == 0 then 0
    else CountAlbum(tracks[1..], album) + (if album == Lower(tracks[0].album) then 1 else 0)
  }

  /**
   * The copies are exactly one per matching track, each in mtime order with
   * the art URL, keeping the track's own time when the purchase time is
   * empty.
   */
  lemma {:induction false} AlbumCopiesProperties(tracks: seq<Track>, album: string, artUrl: string, epoch: int, epochSize: nat)
    ensures |AlbumCopies(tracks, album, artUrl, epoch, epochSize)| == CountAlbum(tracks, album)
    ensures forall c :: c in AlbumCopies(tracks, album, artUrl, epoch, epochSize) ==>
      c.sort == Mtime && c.albumArt == artUrl && Lower(c.album) == album
      && (epochSize > 0 ==> c.modTime == epoch)
    ensures epochSize == 0 ==> forall c :: c in AlbumCopies(tracks, album, artUrl, epoch, epochSize) ==>
      c.(albumArt := "", sort := Alpha) in Unsorted(tracks)
    decreases |tracks|
  {
    if |tracks| > 0 {
      var init, t := tracks[..|tracks| - 1], tracks[|tracks| - 1];
      AlbumCopiesProperties(init, album, artUrl, epoch, epochSize);
      CountAlbumSnoc(init, t, album);
      assert tracks == init + [t];
      UnsortedSnoc(init, t);
    }
  }

  /** The tracks with the fields the copies overwrite reset. */
  function Unsorted(tracks: seq<Track>): seq<Track>
  {
    if |tracks| == 0 then [] else [tracks[0].(albumArt := "", sort := Alpha)] + Unsorted(tracks[1..])
  }

  lemma {:induction false} UnsortedSnoc(init: seq<Track>, t: Track)
    ensures Unsorted(init + [t]) == Unsorted(init) + [t.(albumArt := "", sort := Alpha)]
    decreases |init|
  {
    if |init| > 0 {
      assert (init + [t])[1..] == init[1..] + [t];
      UnsortedSnoc(init[1..], t);
    }
  }

  lemma {:induction false} CountAlbumSnoc(init: seq<Track>, t: Track, album: string)
    ensures CountAlbum(init + [t], album) == CountAlbum(init, album) + (if album == Lower(t.album) then 1 else 0)
    decreases |init|
  {
    if |init| > 0 {
      assert (init + [t])[1..] == init[1..] + [t];
      CountAlbumSnoc(init[1..], t, album);
    }
  }

  /** Appending tracks to the bucket of a year; an empty list leaves the buckets alone. */
  function AddTracks(m: map<int, seq<Track>>, year: int, ts: seq<Track>): (r: map<int, seq<Track>>)
    ensures ts == [] ==> r == m
    ensures ts != [] ==> r.Keys == m.Keys + {year} && Bucket(r, year) == Bucket(m, year) + ts
    ensures forall y :: y != year ==> Bucket(r, y) == Bucket(m, y)
  {
    if ts == [] then m else m[year := Bucket(m, year) + ts]
  }

  // ------------------------------------------------------------------ reconciliation

  /** The state crawl's item loop changes: buckets, missing albums, the artist count and the resolution calls. */
  datatype Tally = Tally(purchased: map<int, seq<Track>>, missing: seq<Album>, count: nat, calls: nat)

  /**
   * One call of resolve_missing_album: an unknown key is recorded as
   * missing; a known one yields the corrected album.
   */
  function Resolve(st: Tally, resolved: map<string, Album>, a: Album): (Tally, Option<Album>)
  {
    var key := ToKey(a);
    if key in resolved then (st.(calls := st.calls + 1), Some(Overlay(a, resolved[key])))
    else (st.(calls := st.calls + 1, missing := st.missing + [a]), None)
  }

  /**
   * A purchase whose artist has tracks: it is counted and its album's
   * tracks are filed under the purchase year; when none match, the album
   * is resolved once and the corrected album is looked up among the same
   * artist's tracks.
   */
  function AlbumStep(st: Tally, tracks: seq<Track>, a: Album, p: LedgerItem, resolved: map<string, Album>): Tally
    requires p.Purchase?
  {
    var copies := AlbumCopies(tracks, a.album, p.artUrl, p.epoch, p.epochSize);
    var counted := st.(count := st.count + 1, purchased := AddTracks(st.purchased, p.year, copies));
    if |copies| > 0 then counted
    else
      var (st2, r) := Resolve(counted, resolved, a);
      if r.None? then st2
      else st2.(purchased := AddTracks(st2.purchased, p.year, AlbumCopies(tracks, r.value.album, p.artUrl, p.epoch, p.epochSize)))
  }

  /** One pass of crawl's item loop. */
  function ItemStep(st: Tally, item: LedgerItem, artists: map<string, seq<Track>>, resolved: map<string, Album>): Tally
  {
    match item
    case NotAnObject => st
    case Purchase(bandName, albumTitle, _, _, _, _) =>
      var a := Album(Lower(bandName), Lower(albumTitle));
      if a.artist in artists then AlbumStep(st, artists[a.artist], a, item, resolved)
      else
        var (st2, r) := Resolve(st, resolved, a);
        if r.None? then st2
        else if r.value.artist !in artists then st2
        else AlbumStep(st2, artists[r.value.artist], r.value, item, resolved)
  }

  /** The item loop over a prefix of the items. */
  function Reconcile(st: Tally, items: seq<LedgerItem>, artists: map<string, seq<Track>>, resolved: map<string, Album>): Tally
  {
    if |items| == 0 then st
    else ItemStep(Reconcile(st, items[..|items| - 1], artists, resolved), items[|items| - 1], artists, resolved)
  }

  /**
   * Per item: at most two resolutions, at most one album recorded as
   * missing (the list only grows), at most one artist counted; an item
   * whose artist stays unknown is not counted and files nothing.
   */
  lemma ItemStepBounds(st: Tally, item: LedgerItem, artists: map<string, seq<Track>>, resolved: map<string, Album>)
    ensures var st2 := ItemStep(st, item, artists, resolved);
      && st.calls <= st2.calls <= st.calls + 2
      && st2.count <= st.count + 1
      && |st.missing| <= |st2.missing| <= |st.missing| + 1
      && st2.missing[..|st.missing|] == st.missing
    ensures item.Purchase? ==>
      var a := Album(Lower(item.bandName), Lower(item.albumTitle));
      (a.artist !in artists && (ToKey(a) !in resolved || Overlay(a, resolved[ToKey(a)]).artist !in artists)) ==>
      var st2 := ItemStep(st, item, artists, resolved);
      st2.count == st.count && st2.purchased == st.purchased
  {
  }

  /** Over all items: at most two resolutions per item and one count per item. */
  lemma {:induction false} ReconcileBounds(st: Tally, items: seq<LedgerItem>, artists: map<string, seq<Track>>, resolved: map<string, Album>)
    ensures var r := Reconcile(st, items, artists, resolved);
      && st.calls <= r.calls <= st.calls + 2 * |items|
      && r.count <= st.count + |items|
      && |st.missing| <= |r.missing| <= |st.missing| + |items|
      && r.missing[..|st.missing|] == st.missing
    decreases |items|
  {
    if |items| > 0 {
      var init := items[..|items| - 1];
      ReconcileBounds(st, init, artists, resolved);
      var mid := Reconcile(st, init, artists, resolved);
      ItemStepBounds(mid, items[|items| - 1], artists, resolved);
      var r := Reconcile(st, items, artists, resolved);
      assert r.missing[..|mid.missing|] == mid.missing;
      assert r.missing[..|st.missing|] == r.missing[..|mid.missing|][..|st.missing|];
    }
  }

  /** No album recorded as missing has a key among the resolved albums. */
  ghost predicate MissingUnresolved(missing: seq<Album>, resolved: map<string, Album>)
  {
    forall a :: a in missing ==> ToKey(a) !in resolved
  }

  /**
   * An album is recorded as missing only when its key is not resolved, so
   * the item loop keeps every missing album's key out of the resolved map.
   */
  lemma {:induction false} ReconcileMissingUnresolved(st: Tally, items: seq<LedgerItem>, artists: map<string, seq<Track>>, resolved: map<string, Album>)
    requires MissingUnresolved(st.missing, resolved)
    ensures MissingUnresolved(Reconcile(st, items, artists, resolved).missing, resolved)
    decreases |items|
  {
    if |items| > 0 {
      ReconcileMissingUnresolved(st, items[..|items| - 1], artists, resolved);
    }
  }

  /**
   * The lookup file written after the item loop reads back as the resolved
   * albums: every one with an artist or an album, lower-cased, and nothing
   * for the albums recorded as missing.
   */
  lemma ReconciledLookupRoundTrip(st: Tally, items: seq<LedgerItem>, artists: map<string, seq<Track>>,
                                  resolved: map<string, Album>, pathAlbums: map<string, Album>, top: string)
    requires MissingUnresolved(st.missing, resolved)
    ensures var missing := Reconcile(st, items, artists, resolved).missing;
      var back := Corrections(WrittenDocument(resolved, missing), pathAlbums, top);
      && (forall k :: k in back <==> k in resolved && (resolved[k].artist != "" || resolved[k].album != ""))
      && (forall k :: k in back ==> back[k] == Album(Lower(resolved[k].artist), Lower(resolved[k].album)))
  {
    ReconcileMissingUnresolved(st, items, artists, resolved);
    WrittenDocumentRoundTrip(resolved, Reconcile(st, items, artists, resolved).missing, pathAlbums, top);
  }

  /** Purchase buckets hold only mtime-ordered tracks, so each can be sorted as one. */
  ghost predicate AllMtime(m: map<int, seq<Track>>)
  {
    forall y :: y in m ==> forall i :: 0 <= i < |m[y]| ==> m[y][i].sort == Mtime
  }

  lemma {:induction false} ReconcileKeepsMtime(st: Tally, items: seq<LedgerItem>, artists: map<string, seq<Track>>, resolved: map<string, Album>)
    requires AllMtime(st.purchased)
    ensures AllMtime(Reconcile(st, items, artists, resolved).purchased)
    decreases |items|
  {
    if |items| > 0 {
      var init := items[..|items| - 1];
      ReconcileKeepsMtime(st, init, artists, resolved);
      var mid := Reconcile(st, init, artists, resolved);
      var item := items[|items| - 1];
      if item.Purchase? {
        forall tracks: seq<Track>, a: Album, s: Tally | AllMtime(s.purchased)
          ensures AllMtime(AlbumStep(s, tracks, a, item, resolved).purchased)
        {
          AddCopiesKeepsMtime(s.purchased, tracks, a.album, item);
          var copies := AlbumCopies(tracks, a.album, item.artUrl, item.epoch, item.epochSize);
          var counted := s.(count := s.count + 1, purchased := AddTracks(s.purchased, item.year, copies));
          var (s2, r) := Resolve(counted, resolved, a);
          if r.Some? {
            AddCopiesKeepsMtime(s2.purchased, tracks, r.value.album, item);
          }
        }
      }
    }
  }

  lemma AddCopiesKeepsMtime(m: map<int, seq<Track>>, tracks: seq<Track>, album: string, p: LedgerItem)
    requires p.Purchase? && AllMtime(m)
    ensures AllMtime(AddTracks(m, p.year, AlbumCopies(tracks, album, p.artUrl, p.epoch, p.epochSize)))
  {
    var copies := AlbumCopies(tracks, album, p.artUrl, p.epoch, p.epochSize);
    AlbumCopiesProperties(tracks, album, p.artUrl, p.epoch, p.epochSize);
    var r: map<int, seq<Track>> := AddTracks(m, p.year, copies);
    forall y | y in r ensures forall i :: 0 <= i < |r[y]| ==> r[y][i].sort == Mtime {
      forall i | 0 <= i < |r[y]| ensures r[y][i].sort == Mtime {
        if y == p.year && copies != [] {
          var b := Bucket(m, p.year);
          assert r[y] == b + copies;
          if i >= |b| {
            assert r[y][i] == copies[i - |b|];
          }
        }
      }
    }
  }

  // ------------------------------------------------------------------ lookup file text

  /** A resolved entry as write_lookup_file spells it, escape_quotes given. */
  function ResolvedText(key: string, a: Album, escape: string -> string): (r: string)
    ensures |r| > 0 && r[0] == '"'
  {
    "\"" + escape(key) + "\":{ \"artist\":\"" + escape(a.artist) + "\", \"album\":\"" + escape(a.album) + "\" }"
  }

  /** The blank entry written for an album that could not be resolved. */
  function TemplateText(a: Album, escape: string -> string): (r: string)
    ensures |r| > 0 && r[0] == '"'
  {
    "\"" + escape(ToKey(a)) + "\": { \"artist\":\"\", \"album\":\"\", \"path\":\"\" }"
  }

  function Join(parts: seq<string>): string
  {
    if |parts| == 0 then "" else if |parts| == 1 then parts[0] else parts[0] + ", " + Join(parts[1..])
  }

  ghost function ResolvedTexts(keys: seq<string>, resolved: map<string, Album>, escape: string -> string): seq<string>
    requires forall i :: 0 <= i < |keys| ==> keys[i] in resolved
  {
    seq(|keys|, i requires 0 <= i < |keys| => ResolvedText(keys[i], resolved[keys[i]], escape))
  }

  function TemplateTexts(missing: seq<Album>, escape: string -> string): seq<string>
  {
    seq(|missing|, i requires 0 <= i < |missing| => TemplateText(missing[i], escape))
  }

  /** The whole lookup text: resolved entries in key order, then one template per missing album. */
  ghost function LookupText(resolved: map<string, Album>, missing: seq<Album>, escape: string -> string): string
  {
    var keys := Strings.InOrder(resolved.Keys);
    "{" + Join(ResolvedTexts(keys, resolved, escape) + TemplateTexts(missing, escape)) + "}"
  }

  /**
   * The document that text denotes when escape_quotes escapes correctly:
   * each resolved key with its artist and album, each missing album's key
   * with blank fields, a later duplicate key winning as in json11.
   */
  function WrittenDocument(resolved: map<string, Album>, missing: seq<Album>): LookupDoc
  {
    Entries((map k | k in resolved :: Fields(resolved[k].artist, resolved[k].album, ""))
      + (map a | a in missing :: ToKey(a) := Fields("", "", "")))
  }

  /**
   * Reading the written file back registers every resolved album that has
   * an artist or an album, lower-cased, and nothing for the templates.
   */
  lemma WrittenDocumentRoundTrip(resolved: map<string, Album>, missing: seq<Album>, pathAlbums: map<string, Album>, top: string)
    requires MissingUnresolved(missing, resolved)
    ensures var back := Corrections(WrittenDocument(resolved, missing), pathAlbums, top);
      && (forall k :: k in back <==> k in resolved && (resolved[k].artist != "" || resolved[k].album != ""))
      && (forall k :: k in back ==> back[k] == Album(Lower(resolved[k].artist), Lower(resolved[k].album)))
  {
    var doc := WrittenDocument(resolved, missing);
    var back := Corrections(doc, pathAlbums, top);
    forall k ensures k in back <==> k in resolved && (resolved[k].artist != "" || resolved[k].album != "") {
      if k in resolved {
        assert forall a :: a in missing ==> ToKey(a) != k;
        assert doc.entries[k] == Fields(resolved[k].artist, resolved[k].album, "");
      } else if k in doc.entries {
        assert doc.entries[k] == Fields("", "", "");
      }
    }
    forall k | k in back ensures back[k] == Album(Lower(resolved[k].artist), Lower(resolved[k].album)) {
      assert forall a :: a in missing ==> ToKey(a) != k;
    }
  }

  lemma {:induction false} JoinSnoc(parts: seq<string>, p: string)
    ensures Join(parts + [p]) == if |parts| == 0 then p else Join(parts) + ", " + p
    decreases |parts|
  {
    if |parts| > 1 {
      assert (parts + [p])[1..] == parts[1..] + [p];
      JoinSnoc(parts[1..], p);
    } else if |parts| == 1 {
      assert (parts + [p])[1..] == [p];
    }
  }

  /** One more entry: the text gains a separator, unless it was the first, and the entry. */
  lemma TextStep(parts: seq<string>, entry: string)
    requires |entry| > 0
    requires |"{" + Join(parts)| > 1 <==> |parts| > 0
    ensures "{" + Join(parts + [entry]) == ("{" + Join(parts)) + (if |"{" + Join(parts)| > 1 then ", " else "") + entry
    ensures |"{" + Join(parts + [entry])| > 1
  {
    JoinSnoc(parts, entry);
  }

  lemma TemplateStep(missing: seq<Album>, i: nat, escape: string -> string)
    requires i < |missing|
    ensures TemplateTexts(missing[..i + 1], escape) == TemplateTexts(missing[..i], escape) + [TemplateText(missing[i], escape)]
  {
  }

  /** Appending one track: the year's bucket is created holding it, or gains it at its end. */
  lemma AddOne(m: map<int, seq<Track>>, year: int, t: Track)
    ensures AddTracks(m, year, [t]) == if year in m then m[year := m[year] + [t]] else m[year := [t]]
  {
    assert [] + [t] == [t];
  }

  lemma AddTracksSnoc(m: map<int, seq<Track>>, year: int, ts: seq<Track>, t: Track)
    ensures AddTracks(m, year, ts + [t]) == AddTracks(AddTracks(m, year, ts), year, [t])
  {
    if ts == [] {
      assert ts + [t] == [t];
    } else {
      assert Bucket(m, year) + (ts + [t]) == (Bucket(m, year) + ts) + [t];
    }
  }
}
