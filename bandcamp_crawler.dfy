/**
 * The BandcampMusicCrawler class of src/BandcampMusicCrawler.cc: its state
 * and the methods that fill it, each proved against the functions of the
 * Bandcamp module.
 */
module BandcampCrawler {
  import opened Wrappers
  import Strings
  import opened Utilities
  import opened Tracks
  import opened MusicCrawler
  import opened Bandcamp

  /**
   * The corrections registered once the keys of done have been visited:
   * those there before, then each visited key's correction unless its key
   * was already taken.
   */
  ghost function Registered(before: map<string, Album>, all: map<string, Album>, done: set<string>): map<string, Album>
  {
    map k | k in before.Keys + (done * all.Keys) :: if k in before then before[k] else all[k]
  }

  /** Before any key is visited only the corrections there before are registered. */
  lemma RegisteredNone(before: map<string, Album>, all: map<string, Album>, universe: set<string>)
    ensures Registered(before, all, universe - universe) == before
  {
  }

  /** The entries' correction map agrees with each entry's own correction. */
  lemma CorrectionsAt(doc: LookupDoc, pathAlbums: map<string, Album>, top: string, key: string)
    requires doc.Entries? && key in doc.entries
    ensures var all := Corrections(doc, pathAlbums, top);
      (if key in all then Some(all[key]) else None) == Correction(doc.entries[key], pathAlbums, top)
  {
  }

  /**
   * Visiting one more key of those left registers its correction exactly
   * when there is one and the key is free.
   */
  lemma RegisteredStep(before: map<string, Album>, all: map<string, Album>, universe: set<string>, keys: set<string>,
                       key: string, correction: Option<Album>)
    requires key in keys && keys <= universe && correction == (if key in all then Some(all[key]) else None)
    ensures var r := Registered(before, all, universe - keys);
      Registered(before, all, universe - (keys - {key}))
        == if correction.Some? && key !in r then r[key := correction.value] else r
  {
    assert universe - (keys - {key}) == (universe - keys) + {key};
  }

  /** Once every key is visited the registered corrections are the new ones under the old. */
  lemma RegisteredAll(before: map<string, Album>, all: map<string, Album>, universe: set<string>)
    requires all.Keys <= universe
    ensures Registered(before, all, universe - {}) == all + before
  {
  }

  /** The next key in map order, and the text of the entries so far grown by its entry. */
  lemma ResolvedStep(resolved: map<string, Album>, escape: string -> string, order: seq<string>, n: nat, keys: set<string>,
                     albums: string)
    requires order == Strings.InOrder(resolved.Keys) && n <= |order|
    requires keys != {} && Strings.InOrder(keys) == order[n..]
    requires albums == "{" + Join(ResolvedTexts(order[..n], resolved, escape)) && (|albums| > 1 <==> n > 0)
    ensures n < |order| && Strings.Least(keys) == order[n] && order[n] in resolved
    ensures Strings.InOrder(keys - {Strings.Least(keys)}) == order[n + 1..]
    ensures albums + (if |albums| > 1 then ", " else "") + ResolvedText(order[n], resolved[order[n]], escape)
      == "{" + Join(ResolvedTexts(order[..n + 1], resolved, escape))
  {
    NextKey(order, n, keys);
    assert order[n] in resolved;
    var parts := ResolvedTexts(order[..n], resolved, escape);
    var entry := ResolvedText(order[n], resolved[order[n]], escape);
    ResolvedTextsSnoc(order, n, resolved, escape);
    TextStep(parts, entry);
  }

  /** The least key left is the next in map order, and the keys after it are the rest. */
  lemma NextKey(order: seq<string>, n: nat, keys: set<string>)
    requires n <= |order| && keys != {} && Strings.InOrder(keys) == order[n..]
    ensures n < |order| && Strings.Least(keys) == order[n] && order[n] in keys
    ensures Strings.InOrder(keys - {Strings.Least(keys)}) == order[n + 1..]
  {
    assert Strings.InOrder(keys)[1..] == order[n + 1..];
  }

  lemma ResolvedTextsSnoc(order: seq<string>, n: nat, resolved: map<string, Album>, escape: string -> string)
    requires n < |order| && forall i :: 0 <= i < |order| ==> order[i] in resolved
    ensures ResolvedTexts(order[..n + 1], resolved, escape)
      == ResolvedTexts(order[..n], resolved, escape) + [ResolvedText(order[n], resolved[order[n]], escape)]
  {
  }

  /** The text so far grown by the template of missing album i. */
  lemma TemplateEntryStep(parts: seq<string>, missing: seq<Album>, i: nat, escape: string -> string, albums: string)
    requires i < |missing|
    requires var done := parts + TemplateTexts(missing[..i], escape);
      albums == "{" + Join(done) && (|albums| > 1 <==> |done| > 0)
    ensures var done := parts + TemplateTexts(missing[..i + 1], escape);
      albums + (if |albums| > 1 then ", " else "") + TemplateText(missing[i], escape) == "{" + Join(done)
      && |"{" + Join(done)| > 1
  {
    var done := parts + TemplateTexts(missing[..i], escape);
    var entry := TemplateText(missing[i], escape);
    TextStep(done, entry);
    TemplateStep(missing, i, escape);
    assert parts + TemplateTexts(missing[..i + 1], escape) == done + [entry];
  }

  /** The text so far, followed by a blank template per missing album, comma-separated. */
  method TemplateEntriesText(text: string, ghost parts: seq<string>, missing: seq<Album>, escape: string -> string)
    returns (albums: string)
    requires text == "{" + Join(parts) && (|text| > 1 <==> |parts| > 0)
    ensures albums == "{" + Join(parts + TemplateTexts(missing, escape))
  {
    albums := text;
    assert parts + TemplateTexts(missing[..0], escape) == parts;
    for i := 0 to |missing|
      invariant albums == "{" + Join(parts + TemplateTexts(missing[..i], escape))
      invariant |albums| > 1 <==> |parts + TemplateTexts(missing[..i], escape)| > 0
    {
      TemplateEntryStep(parts, missing, i, escape, albums);
      if |albums| > 1 {
        albums := albums + ", ";
      }
      albums := albums + TemplateText(missing[i], escape);
    }
    assert missing[..|missing|] == missing;
  }

  /** The opening brace and the resolved entries, in key order, comma-separated. */
  method ResolvedEntriesText(resolved: map<string, Album>, escape: string -> string) returns (albums: string)
    ensures albums == "{" + Join(ResolvedTexts(Strings.InOrder(resolved.Keys), resolved, escape))
  {
    albums := "{";
    var keys := resolved.Keys;
    ghost var order := Strings.InOrder(resolved.Keys);
    ghost var n := 0;
    while keys != {}
      invariant 0 <= n <= |order|
      invariant Strings.InOrder(keys) == order[n..]
      invariant albums == "{" + Join(ResolvedTexts(order[..n], resolved, escape))
      invariant |albums| > 1 <==> n > 0
      decreases |keys|
    {
      var key := Strings.LeastOf(keys);
      ResolvedStep(resolved, escape, order, n, keys, albums);
      if |albums| > 1 {
        albums := albums + ", ";
      }
      albums := albums + ResolvedText(key, resolved[key], escape);
      n := n + 1;
      keys := keys - {key};
    }
    assert order[..n] == order;
  }

  // ------------------------------------------------------------------ crawler

  /**
   * The state of a BandcampMusicCrawler. The folder crawl it extends is the
   * FolderCrawler it holds; json11's shared error string is parseError.
   */
  class BandcampCrawler {
    const folder: FolderCrawler
    const parseError: bool
    const collection: Collection
    const lookup: LookupDoc
    var resolvedAlbums: map<string, Album>
    var pathAlbums: map<string, Album>
    var missingAlbums: seq<Album>
    var purchasedTracks: map<int, seq<Track>>
    /** How many times resolve_missing_album has run. */
    ghost var resolveCalls: nat

    /**
     * The constructor without a lookup document: the lookup object is an
     * empty object; an unparsable collection reads as null.
     */
    constructor (topLevelDirName: string, config: CrawlConfig, collection: Option<Collection>)
      ensures fresh(folder) && folder.topLevelDirName == topLevelDirName && folder.config == config
      ensures folder.currentDepth == 0 && folder.yearTracks == map[] && folder.artistTracks == map[]
      ensures parseError == collection.None?
      ensures this.collection == (if collection.Some? then collection.value else Collection(false, []))
      ensures lookup == Entries(map[])
      ensures resolvedAlbums == map[] && pathAlbums == map[] && missingAlbums == [] && purchasedTracks == map[]
      ensures resolveCalls == 0
    {
      folder := new FolderCrawler(topLevelDirName, config);
      parseError := collection.None?;
      this.collection := if collection.Some? then collection.value else Collection(false, []);
      lookup := Entries(map[]);
      resolvedAlbums, pathAlbums, missingAlbums, purchasedTracks := map[], map[], [], map[];
      resolveCalls := 0;
    }

    /**
     * The constructor with a lookup document: both parses report into the
     * same error string, so either failing is a parse error.
     */
    constructor WithLookup(topLevelDirName: string, config: CrawlConfig, collection: Option<Collection>, lookup: Option<LookupDoc>)
      ensures fresh(folder) && folder.topLevelDirName == topLevelDirName && folder.config == config
      ensures folder.currentDepth == 0 && folder.yearTracks == map[] && folder.artistTracks == map[]
      ensures parseError == (collection.None? || lookup.None?)
      ensures this.collection == (if collection.Some? then collection.value else Collection(false, []))
      ensures this.lookup == (if lookup.Some? then lookup.value else NoObject)
      ensures resolvedAlbums == map[] && pathAlbums == map[] && missingAlbums == [] && purchasedTracks == map[]
      ensures resolveCalls == 0
    {
      folder := new FolderCrawler(topLevelDirName, config);
      parseError := collection.None? || lookup.None?;
      this.collection := if collection.Some? then collection.value else Collection(false, []);
      this.lookup := if lookup.Some? then lookup.value else NoObject;
      resolvedAlbums, pathAlbums, missingAlbums, purchasedTracks := map[], map[], [], map[];
      resolveCalls := 0;
    }

    /** record_album_artist: the album of a folder, kept only for a path not yet recorded. */
    method RecordAlbumArtist(entryName: string, artist: string, album: string)
      modifies this
      ensures pathAlbums == if entryName in old(pathAlbums) then old(pathAlbums)
        else old(pathAlbums)[entryName := Album(artist, album)]
      ensures resolvedAlbums == old(resolvedAlbums) && missingAlbums == old(missingAlbums)
      ensures purchasedTracks == old(purchasedTracks) && resolveCalls == old(resolveCalls)
    {
      var thisAlbum := Album(artist, album);
      if entryName !in pathAlbums {
        pathAlbums := pathAlbums[entryName := thisAlbum];
      }
    }

    /**
     * load_lookup_file: every entry's correction is registered under its
     * key, without replacing a key already registered.
     */
    method LoadLookupFile()
      modifies this
      ensures resolvedAlbums == Corrections(lookup, pathAlbums, folder.topLevelDirName) + old(resolvedAlbums)
      ensures pathAlbums == old(pathAlbums) && missingAlbums == old(missingAlbums)
      ensures purchasedTracks == old(purchasedTracks) && resolveCalls == old(resolveCalls)
    {
      if !lookup.Entries? {
        return;
      }
      var entries := lookup.entries;
      ghost var all := Corrections(lookup, pathAlbums, folder.topLevelDirName);
      var keys := entries.Keys;
      RegisteredNone(resolvedAlbums, all, keys);
      while keys != {}
        invariant keys <= entries.Keys
        invariant resolvedAlbums == Registered(old(resolvedAlbums), all, entries.Keys - keys)
        invariant pathAlbums == old(pathAlbums) && missingAlbums == old(missingAlbums)
        invariant purchasedTracks == old(purchasedTracks) && resolveCalls == old(resolveCalls)
        decreases |keys|
      {
        var key :| key in keys;
        var correction := LookupCorrection(entries[key]);
        CorrectionsAt(lookup, pathAlbums, folder.topLevelDirName, key);
        RegisteredStep(old(resolvedAlbums), all, entries.Keys, keys, key, correction);
        if correction.Some? && key !in resolvedAlbums {
          resolvedAlbums := resolvedAlbums[key := correction.value];
        }
        keys := keys - {key};
      }
      RegisteredAll(old(resolvedAlbums), all, entries.Keys);
    }

    /** The correction one lookup value yields, as load_lookup_file computes it. */
    method LookupCorrection(value: LookupValue) returns (correction: Option<Album>)
      ensures correction == Correction(value, pathAlbums, folder.topLevelDirName)
    {
      correction := None;
      if value.Fields? {
        var albumValue := ToLowerCase(value.album);
        var artistValue := ToLowerCase(value.artist);
        var pathValue := value.path;
        if albumValue != "" || artistValue != "" {
          correction := Some(Album(artistValue, albumValue));
        } else if pathValue != "" {
          if pathValue !in pathAlbums {
            pathValue := folder.topLevelDirName + pathValue;
          }
          if pathValue in pathAlbums {
            correction := Some(pathAlbums[pathValue]);
          }
        }
      }
    }

    /**
     * resolve_missing_album: an album whose key has no correction is
     * recorded as missing and comes back unchanged; otherwise the correction
     * is laid over it.
     */
    method ResolveMissingAlbum(album: Album) returns (found: bool, resolved: Album)
      modifies `missingAlbums, `resolveCalls
      ensures found <==> ToKey(album) in resolvedAlbums
      ensures !found ==> resolved == album && missingAlbums == old(missingAlbums) + [album]
      ensures found ==> resolved == Overlay(album, resolvedAlbums[ToKey(album)]) && missingAlbums == old(missingAlbums)
      ensures resolveCalls == old(resolveCalls) + 1
    {
      resolveCalls := resolveCalls + 1;
      var key := ToKey(album);
      if key !in resolvedAlbums {
        missingAlbums := missingAlbums + [album];
        return false, album;
      }
      var resolvedAlbum := resolvedAlbums[key];
      resolved := album;
      if resolvedAlbum.artist != "" {
        resolved := resolved.(artist := resolvedAlbum.artist);
      }
      if resolvedAlbum.album != "" {
        resolved := resolved.(album := resolvedAlbum.album);
      }
      return true, resolved;
    }

    /**
     * find_album_tracks: the copies of the tracks of album go to the end of
     * the purchase year's bucket; the result is how many there were.
     */
    method FindAlbumTracks(tracks: seq<Track>, album: Album, artUrl: string, year: int, epoch: int, epochSize: nat)
      returns (albumTrackCount: nat)
      modifies `purchasedTracks
      ensures albumTrackCount == CountAlbum(tracks, album.album)
      ensures purchasedTracks == AddTracks(old(purchasedTracks), year, AlbumCopies(tracks, album.album, artUrl, epoch, epochSize))
    {
      AlbumCopiesProperties(tracks, album.album, artUrl, epoch, epochSize);
      albumTrackCount := 0;
      if |tracks| == 0 {
        return;
      }
      var purchased := purchasedTracks;
      for i := 0 to |tracks|
        invariant albumTrackCount == |AlbumCopies(tracks[..i], album.album, artUrl, epoch, epochSize)|
        invariant purchased == AddTracks(old(purchasedTracks), year, AlbumCopies(tracks[..i], album.album, artUrl, epoch, epochSize))
      {
        ghost var before := AlbumCopies(tracks[..i], album.album, artUrl, epoch, epochSize);
        AlbumCopiesStep(tracks, i, album.album, artUrl, epoch, epochSize);
        var newTrack := tracks[i];
        var albumValue := ToLowerCase(newTrack.album);
        if album.album != albumValue {
          assert before + [] == before;
          continue;
        }
        newTrack := newTrack.(albumArt := artUrl);
        if epochSize > 0 {
          newTrack := newTrack.(modTime := epoch);
        }
        newTrack := newTrack.(sort := Mtime);
        AddTracksSnoc(old(purchasedTracks), year, before, newTrack);
        AddOne(purchased, year, newTrack);
        if year !in purchased {
          purchased := purchased[year := [newTrack]];
        } else {
          purchased := purchased[year := purchased[year] + [newTrack]];
        }
        albumTrackCount := albumTrackCount + 1;
      }
      assert tracks[..|tracks|] == tracks;
      purchasedTracks := purchased;
    }

    /**
     * One pass of crawl's item loop, from an artist count of count: whether
     * the item's artist was counted, and the new buckets, missing albums and
     * resolution calls.
     */
    method ProcessItem(item: LedgerItem, ghost count: nat) returns (counted: bool)
      modifies `purchasedTracks, `missingAlbums, `resolveCalls
      ensures var t := ItemStep(Tally(old(purchasedTracks), old(missingAlbums), count, old(resolveCalls)),
                                item, folder.artistTracks, resolvedAlbums);
        && purchasedTracks == t.purchased && missingAlbums == t.missing && resolveCalls == t.calls
        && t.count == count + (if counted then 1 else 0)
    {
      ghost var st := Tally(purchasedTracks, missingAlbums, count, resolveCalls);
      counted := false;
      if item.NotAnObject? {
        return;
      }
      var bandName := ToLowerCase(item.bandName);
      var albumTitle := ToLowerCase(item.albumTitle);
      var thisAlbum := Album(bandName, albumTitle);
      if thisAlbum.artist in folder.artistTracks {
        assert ItemStep(st, item, folder.artistTracks, resolvedAlbums)
          == AlbumStep(st, folder.artistTracks[thisAlbum.artist], thisAlbum, item, resolvedAlbums);
        counted := true;
        ProcessAlbum(folder.artistTracks[thisAlbum.artist], thisAlbum, item, count);
        return;
      }
      ghost var res := Resolve(st, resolvedAlbums, thisAlbum);
      var found, r := ResolveMissingAlbum(thisAlbum);
      assert Tally(purchasedTracks, missingAlbums, count, resolveCalls) == res.0;
      if !found {
        return;
      }
      assert r == res.1.value;
      if r.artist !in folder.artistTracks {
        return;
      }
      assert ItemStep(st, item, folder.artistTracks, resolvedAlbums)
        == AlbumStep(res.0, folder.artistTracks[r.artist], r, item, resolvedAlbums);
      counted := true;
      ProcessAlbum(folder.artistTracks[r.artist], r, item, count);
    }

    /**
     * The rest of the pass once the artist has tracks: the album's tracks
     * are filed; when there are none the album is resolved once and the
     * corrected album looked up among the same tracks.
     */
    method ProcessAlbum(tracks: seq<Track>, album: Album, item: LedgerItem, ghost count: nat)
      requires item.Purchase?
      modifies `purchasedTracks, `missingAlbums, `resolveCalls
      ensures var t := AlbumStep(Tally(old(purchasedTracks), old(missingAlbums), count, old(resolveCalls)),
                                 tracks, album, item, resolvedAlbums);
        purchasedTracks == t.purchased && missingAlbums == t.missing && resolveCalls == t.calls
    {
      var albumTrackCount := FindAlbumTracks(tracks, album, item.artUrl, item.year, item.epoch, item.epochSize);
      AlbumCopiesProperties(tracks, album.album, item.artUrl, item.epoch, item.epochSize);
      if albumTrackCount == 0 {
        var found, r := ResolveMissingAlbum(album);
        if !found {
          return;
        }
        albumTrackCount := FindAlbumTracks(tracks, r, item.artUrl, item.year, item.epoch, item.epochSize);
      }
    }

    /**
     * crawl: nothing happens on a parse error, an incomplete collection or
     * an empty one; otherwise the folder is crawled, the lookup file loaded
     * and the items reconciled one after the other. The result is the
     * number of artists counted. Starting from no missing album with a
     * resolved key (as after construction), none has one afterwards, which
     * is what the lookup file's round trip needs.
     */
    method Crawl(root: Entry) returns (artistCount: nat)
      modifies this, folder
      ensures parseError || collection.moreAvailable || |collection.items| == 0 ==>
        && artistCount == 0
        && folder.yearTracks == old(folder.yearTracks) && folder.artistTracks == old(folder.artistTracks)
        && resolvedAlbums == old(resolvedAlbums) && missingAlbums == old(missingAlbums)
        && purchasedTracks == old(purchasedTracks) && resolveCalls == old(resolveCalls)
      ensures !(parseError || collection.moreAvailable || |collection.items| == 0) ==>
        var accepted := Accepted(folder.topLevelDirName, root, old(folder.currentDepth), folder.config);
        && folder.yearTracks == GroupByYear(old(folder.yearTracks), accepted)
        && folder.artistTracks == GroupByArtist(old(folder.artistTracks), accepted)
        && resolvedAlbums == Corrections(lookup, pathAlbums, folder.topLevelDirName) + old(resolvedAlbums)
        && var t := Reconcile(Tally(old(purchasedTracks), old(missingAlbums), 0, old(resolveCalls)),
                              collection.items, folder.artistTracks, resolvedAlbums);
           purchasedTracks == t.purchased && missingAlbums == t.missing
           && resolveCalls == t.calls && artistCount == t.count
      ensures folder.currentDepth == old(folder.currentDepth) && pathAlbums == old(pathAlbums)
      ensures MissingUnresolved(old(missingAlbums), resolvedAlbums) ==> MissingUnresolved(missingAlbums, resolvedAlbums)
    {
      artistCount := 0;
      if parseError {
        return;
      }
      if collection.moreAvailable {
        return;
      }
      var items := collection.items;
      if |items| == 0 {
        return;
      }
      folder.Crawl(root);
      LoadLookupFile();
      ghost var years, artists := folder.yearTracks, folder.artistTracks;
      ghost var start := Tally(old(purchasedTracks), old(missingAlbums), 0, old(resolveCalls));
      for i := 0 to |items|
        invariant resolvedAlbums == Corrections(lookup, pathAlbums, folder.topLevelDirName) + old(resolvedAlbums)
        invariant pathAlbums == old(pathAlbums) && folder.currentDepth == old(folder.currentDepth)
        invariant folder.yearTracks == years && folder.artistTracks == artists
        invariant var t := Reconcile(start, items[..i], folder.artistTracks, resolvedAlbums);
          purchasedTracks == t.purchased && missingAlbums == t.missing
          && resolveCalls == t.calls && artistCount == t.count
      {
        assert items[..i + 1][..i] == items[..i];
        var counted := ProcessItem(items[i], artistCount);
        if counted {
          artistCount := artistCount + 1;
        }
      }
      assert items[..|items|] == items;
      if MissingUnresolved(old(missingAlbums), resolvedAlbums) {
        ReconcileMissingUnresolved(start, items, artists, resolvedAlbums);
      }
    }

    /**
     * write_lookup_file: with a file name, the lookup text (resolved entries
     * in key order, then a blank template per missing album) is written when
     * it parses; escape_quotes and the parse check are given.
     */
    method WriteLookupFile(lookupFileName: string, escape: string -> string, parses: string -> bool)
      returns (written: Option<string>)
      ensures lookupFileName == "" ==> written.None?
      ensures lookupFileName != "" ==>
        written == if parses(LookupText(resolvedAlbums, missingAlbums, escape))
                   then Some(LookupText(resolvedAlbums, missingAlbums, escape)) else None
    {
      written := None;
      if lookupFileName == "" {
        return;
      }
      var albums := ResolvedEntriesText(resolvedAlbums, escape);
      Strings.InOrderSorted(resolvedAlbums.Keys);
      albums := TemplateEntriesText(albums, ResolvedTexts(Strings.InOrder(resolvedAlbums.Keys), resolvedAlbums, escape), missingAlbums, escape);
      albums := albums + "}";
      if parses(albums) {
        written := Some(albums);
      }
    }
  }
}
