/**
 * The track record of src/Track.cc: its defaults, the path rewriting done
 * by adjust_path and retrieve_tags, assignment, and the three-mode ordering.
 */
module Tracks {
  import opened Wrappers
  import Strings
  import opened Utilities

  /** TRACK_SORT_ALPHA, TRACK_SORT_YEAR and TRACK_SORT_MTIME. */
  datatype SortMode = Alpha | Year | Mtime

  /** What the tag reader reports for a readable, tagged file. */
  datatype Tags = Tags(title: string, artist: string, album: string, number: int, year: int)

  /** The settings the program keeps in Track's static members. */
  datatype PathConfig = PathConfig(musicLibrary: string, fromPath: string, toPath: string)

  datatype Track = Track(
    name: string,
    path: string,
    title: string,
    artist: string,
    album: string,
    uri: string,
    albumArt: string,
    number: int,
    year: int,
    modTime: int,
    sort: SortMode)

  /** Track(trackName, trackPath, modTime): number 0, year 2021, alphabetical order. */
  function NewTrack(name: string, path: string, modTime: int): Track
  {
    Track(name, path, "", "", "", "", "", 0, 2021, modTime, Alpha)
  }

  /**
   * operator=: the guard against self-assignment compares paths, so a source
   * with the same path leaves the target as it was.
   */
  function Assign(target: Track, other: Track): (r: Track)
    ensures r.path == other.path
    ensures target.path == other.path ==> r == target
    ensures target.path != other.path ==> r == other
  {
    if target.path == other.path then target else other
  }

  /** Two tracks with the same path but different tags: assignment keeps the stale tags. */
  lemma AssignKeepsStaleTags()
    ensures exists t: Track, u: Track :: Assign(t, u) != u
  {
    var t := NewTrack("a", "/m/a.flac", 0);
    var u := t.(artist := "Someone");
    assert Assign(t, u) == t != u;
  }

  /** adjust_path: the first occurrence of fromPath becomes toPath, only when both are set. */
  function AdjustPath(t: Track, cfg: PathConfig): (r: Track)
    ensures r == t.(path := r.path)
    ensures cfg.fromPath == "" || cfg.toPath == "" ==> r == t
    ensures cfg.fromPath != "" && cfg.toPath != "" ==>
      r.path == Strings.ReplaceFirst(t.path, cfg.fromPath, cfg.toPath)
  {
    if cfg.fromPath != "" && cfg.toPath != "" then
      t.(path := Strings.ReplaceFirst(t.path, cfg.fromPath, cfg.toPath))
    else
      t
  }

  const UriPrefix: string := "music-library/"

  /**
   * The path retrieve_tags keeps: the first toPath removed, or, when toPath
   * is empty, the first fromPath removed.
   */
  function StrippedPath(path: string, cfg: PathConfig): string
  {
    if cfg.toPath != "" then Strings.ReplaceFirst(path, cfg.toPath, "")
    else if cfg.fromPath != "" then Strings.ReplaceFirst(path, cfg.fromPath, "")
    else path
  }

  /**
   * retrieve_tags with the tag reader as an input: None when the reader
   * failed; otherwise the tags are copied in, the path is stripped and the
   * URI is the library prefix followed by the stripped path.
   */
  function RetrieveTags(t: Track, tags: Option<Tags>, cfg: PathConfig): (r: Option<Track>)
    ensures r.None? <==> tags.None?
    ensures r.Some? ==>
      && r.value.title == tags.value.title && r.value.artist == tags.value.artist
      && r.value.album == tags.value.album && r.value.number == tags.value.number
      && r.value.year == tags.value.year
      && r.value.path == StrippedPath(t.path, cfg)
      && r.value.uri == UriPrefix + cfg.musicLibrary + r.value.path
      && r.value.name == t.name && r.value.albumArt == t.albumArt
      && r.value.modTime == t.modTime && r.value.sort == t.sort
  {
    match tags
    case None => None
    case Some(g) =>
      var path := StrippedPath(t.path, cfg);
      Some(t.(title := g.title, artist := g.artist, album := g.album, number := g.number,
              year := g.year, path := path, uri := UriPrefix + cfg.musicLibrary + path))
  }

  /**
   * A freshly tagged track: the constructor's defaults other than the tags
   * survive, and when toPath first occurs at i the URI drops exactly that
   * occurrence (fromPath, when toPath is empty).
   */
  lemma NewTrackTagged(name: string, path: string, modTime: int, g: Tags, cfg: PathConfig, i: nat)
    ensures var r := RetrieveTags(NewTrack(name, path, modTime), Some(g), cfg);
      && r.Some? && r.value.sort == Alpha && r.value.modTime == modTime && r.value.albumArt == ""
      && (cfg.toPath != "" && Strings.IsFirstOccurrence(path, cfg.toPath, i) ==>
            r.value.uri == UriPrefix + cfg.musicLibrary + (path[..i] + path[i + |cfg.toPath|..]))
      && (cfg.toPath == "" && cfg.fromPath != "" && Strings.IsFirstOccurrence(path, cfg.fromPath, i) ==>
            r.value.uri == UriPrefix + cfg.musicLibrary + (path[..i] + path[i + |cfg.fromPath|..]))
      && (cfg.toPath == "" && cfg.fromPath == "" ==> r.value.uri == UriPrefix + cfg.musicLibrary + path)
  {
    var r := RetrieveTags(NewTrack(name, path, modTime), Some(g), cfg);
    assert r.value.uri == UriPrefix + cfg.musicLibrary + StrippedPath(path, cfg);
    if cfg.toPath != "" {
      if Strings.IsFirstOccurrence(path, cfg.toPath, i) {
        StrippedAt(path, cfg.toPath, i);
      }
    } else if cfg.fromPath != "" {
      if Strings.IsFirstOccurrence(path, cfg.fromPath, i) {
        StrippedAt(path, cfg.fromPath, i);
      }
    }
  }

  /** Removing the first occurrence of pat, found at i. */
  lemma StrippedAt(path: string, pat: string, i: nat)
    requires Strings.IsFirstOccurrence(path, pat, i)
    ensures Strings.ReplaceFirst(path, pat, "") == path[..i] + path[i + |pat|..]
  {
    assert path[..i] + "" + path[i + |pat|..] == path[..i] + path[i + |pat|..];
  }

  // ---------------------------------------------------------------- ordering

  predicate SortByAlbum(a: Track, b: Track)
  {
    if Strings.Less(a.album, b.album) then true
    else if a.album == b.album then a.number < b.number
    else false
  }

  predicate SortByYear(a: Track, b: Track)
  {
    if a.year < b.year then true
    else if a.year == b.year then SortByAlbum(a, b)
    else false
  }

  /** Lower-cased artists first; on a tie the left operand's mode picks album or year. */
  predicate SortByArtist(a: Track, b: Track)
  {
    var artist, otherArtist := Lower(a.artist), Lower(b.artist);
    if Strings.Less(artist, otherArtist) then true
    else if artist == otherArtist then
      if a.sort == Alpha then SortByAlbum(a, b)
      else if a.sort == Year then SortByYear(a, b)
      else false
    else false
  }

  predicate SortByMtime(a: Track, b: Track)
  {
    if a.modTime < b.modTime then true
    else if a.modTime == b.modTime then SortByArtist(a, b)
    else false
  }

  /** operator<: the left operand's mode chooses the comparison. */
  predicate Less(a: Track, b: Track)
  {
    if a.sort == Mtime then SortByMtime(a, b) else SortByArtist(a, b)
  }

  /** One component of a sort key. */
  datatype Field = Text(s: string) | Number(n: int)

  predicate FieldLess(x: Field, y: Field)
  {
    match (x, y)
    case (Text(a), Text(b)) => Strings.Less(a, b)
    case (Number(a), Number(b)) => a < b
    case _ => false
  }

  /** Lexicographic order on keys, component by component. */
  predicate KeyLess(x: seq<Field>, y: seq<Field>)
    decreases |x|
  {
    if |x| == 0 || |y| == 0 then false
    else FieldLess(x[0], y[0]) || (x[0] == y[0] && KeyLess(x[1..], y[1..]))
  }

  /** Keys whose components have the same kinds, position by position. */
  predicate SameShape(x: seq<Field>, y: seq<Field>)
  {
    |x| == |y| && forall i :: 0 <= i < |x| ==> x[i].Text? == y[i].Text?
  }

  /** The key each mode compares: the reference definition of the three orders. */
  function SortKey(mode: SortMode, t: Track): seq<Field>
  {
    match mode
    case Alpha => [Text(Lower(t.artist)), Text(t.album), Number(t.number)]
    case Year => [Text(Lower(t.artist)), Number(t.year), Text(t.album), Number(t.number)]
    case Mtime => [Number(t.modTime), Text(Lower(t.artist))]
  }

  lemma {:induction false} KeyLessIrreflexive(x: seq<Field>)
    ensures !KeyLess(x, x)
    decreases |x|
  {
    if |x| > 0 {
      if x[0].Text? {
        Strings.LessIrreflexive(x[0].s);
      }
      KeyLessIrreflexive(x[1..]);
    }
  }

  lemma {:induction false} KeyLessTransitive(x: seq<Field>, y: seq<Field>, z: seq<Field>)
    requires KeyLess(x, y) && KeyLess(y, z)
    ensures KeyLess(x, z)
    decreases |x|
  {
    if x[0].Text? && y[0].Text? && z[0].Text? {
      Strings.LessIrreflexive(x[0].s);
      Strings.LessIrreflexive(y[0].s);
      if FieldLess(x[0], y[0]) && FieldLess(y[0], z[0]) {
        Strings.LessTransitive(x[0].s, y[0].s, z[0].s);
      }
    }
    if x[0] == y[0] && y[0] == z[0] {
      KeyLessTransitive(x[1..], y[1..], z[1..]);
    }
  }

  /** On keys of one shape the order is total: equal or ordered one way. */
  lemma {:induction false} KeyLessTotal(x: seq<Field>, y: seq<Field>)
    requires SameShape(x, y)
    ensures x == y || KeyLess(x, y) || KeyLess(y, x)
    decreases |x|
  {
    if |x| > 0 {
      if x[0].Text? {
        Strings.LessTotal(x[0].s, y[0].s);
      }
      if x[0] == y[0] {
        assert SameShape(x[1..], y[1..]) by {
          forall i | 0 <= i < |x| - 1 ensures x[1..][i].Text? == y[1..][i].Text? {
            assert x[1..][i] == x[i + 1] && y[1..][i] == y[i + 1];
          }
        }
        KeyLessTotal(x[1..], y[1..]);
        if x[1..] == y[1..] {
          assert x == [x[0]] + x[1..] && y == [y[0]] + y[1..];
        }
      }
    }
  }

  /**
   * operator< is the key order of the left operand's mode: alphabetical is
   * (lower artist, album, number), year is (lower artist, year, album,
   * number), mtime is (mtime, lower artist); the right operand's mode is
   * never consulted.
   */
  lemma LessIsKeyOrder(a: Track, b: Track)
    ensures Less(a, b) <==> KeyLess(SortKey(a.sort, a), SortKey(a.sort, b))
  {
    var x, y := SortKey(a.sort, a), SortKey(a.sort, b);
    assert x[1..][1..] == x[2..] && y[1..][1..] == y[2..];
    match a.sort
    case Alpha =>
      assert x[2..][1..] == [] && y[2..][1..] == [];
      assert KeyLess(x[2..], y[2..]) <==> a.number < b.number;
      assert KeyLess(x[1..], y[1..]) <==> SortByAlbum(a, b);
    case Year =>
      assert x[2..][1..] == x[3..] && y[2..][1..] == y[3..];
      assert x[3..][1..] == [] && y[3..][1..] == [];
      assert KeyLess(x[3..], y[3..]) <==> a.number < b.number;
      assert KeyLess(x[2..], y[2..]) <==> SortByAlbum(a, b);
      assert KeyLess(x[1..], y[1..]) <==> SortByYear(a, b);
    case Mtime =>
      assert x[2..] == [] && y[2..] == [];
      assert !KeyLess(x[2..], y[2..]);
      assert KeyLess(x[1..], y[1..]) <==> Strings.Less(Lower(a.artist), Lower(b.artist));
  }

  lemma SortKeySameShape(m: SortMode, a: Track, b: Track)
    ensures SameShape(SortKey(m, a), SortKey(m, b))
  {
  }

  /** No track is less than itself, in any mode. */
  lemma LessIrreflexive(a: Track)
    ensures !Less(a, a)
  {
    LessIsKeyOrder(a, a);
    KeyLessIrreflexive(SortKey(a.sort, a));
  }

  /** The order of a mode does not depend on the right operand's own mode. */
  lemma LeftModeDecides(a: Track, b: Track, m: SortMode)
    ensures Less(a, b) == Less(a, b.(sort := m))
  {
  }

  /** In mtime mode: earlier first, equal mtimes by lower-cased artist, and nothing more. */
  lemma MtimeOrder(a: Track, b: Track)
    requires a.sort == Mtime
    ensures Less(a, b) <==>
      a.modTime < b.modTime || (a.modTime == b.modTime && Strings.Less(Lower(a.artist), Lower(b.artist)))
  {
  }

  lemma LessTransitive(a: Track, b: Track, c: Track)
    requires a.sort == b.sort == c.sort
    requires Less(a, b) && Less(b, c)
    ensures Less(a, c)
  {
    LessIsKeyOrder(a, b);
    LessIsKeyOrder(b, c);
    LessIsKeyOrder(a, c);
    KeyLessTransitive(SortKey(a.sort, a), SortKey(a.sort, b), SortKey(a.sort, c));
  }

  lemma LessAsymmetric(a: Track, b: Track)
    requires a.sort == b.sort
    requires Less(a, b)
    ensures !Less(b, a)
  {
    if Less(b, a) {
      LessTransitive(a, b, a);
      LessIrreflexive(a);
    }
  }

  /**
   * Among tracks of one mode, "not less than" is transitive: with the two
   * lemmas above, operator< is the strict weak order std::sort needs.
   */
  lemma NotLessTransitive(a: Track, b: Track, c: Track)
    requires a.sort == b.sort == c.sort
    requires !Less(a, b) && !Less(b, c)
    ensures !Less(a, c)
  {
    var m := a.sort;
    var x, y, z := SortKey(m, a), SortKey(m, b), SortKey(m, c);
    LessIsKeyOrder(a, b);
    LessIsKeyOrder(b, c);
    LessIsKeyOrder(a, c);
    KeyLessTotal(x, y);
    KeyLessTotal(y, z);
    if KeyLess(x, z) {
      if KeyLess(y, x) && KeyLess(z, y) {
        KeyLessTransitive(z, y, x);
        KeyLessTransitive(x, z, x);
        KeyLessIrreflexive(x);
      } else if KeyLess(y, x) {
        KeyLessTransitive(y, x, z);
        KeyLessIrreflexive(y);
      } else if KeyLess(z, y) {
        KeyLessTransitive(x, z, y);
        KeyLessIrreflexive(y);
      } else {
        KeyLessIrreflexive(x);
      }
    }
  }
}
