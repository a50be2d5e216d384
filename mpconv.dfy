/**
 * convert_playlist of src/mpconv.cc: an M3U8 playlist is read whole, every
 * carriage return is rewritten in place to a line feed, and the lines are
 * run through a small state machine (a #EXTM3U header, then #EXTINF: lines
 * each followed by a track path) that collects the tagged tracks.
 */
module Mpconv {
  import opened Wrappers
  import Strings
  import opened Tracks

  // ------------------------------------------------------- the '\r' rewrite

  /** The text once every carriage return has become a line feed. */
  function UnixNewlines(s: string): (r: string)
    ensures |r| == |s|
  {
    if |s| == 0 then ""
    else UnixNewlines(s[..|s| - 1]) + [if s[|s| - 1] == '\r' then '\n' else s[|s| - 1]]
  }

  /**
   * The rewrite keeps the length, leaves no carriage return, turns each one
   * into a line feed and changes nothing else.
   */
  lemma {:induction false} UnixNewlinesProperties(s: string)
    ensures forall i :: 0 <= i < |s| ==> UnixNewlines(s)[i] == if s[i] == '\r' then '\n' else s[i]
    ensures '\r' !in UnixNewlines(s)
    decreases |s|
  {
    if |s| > 0 {
      var init := s[..|s| - 1];
      UnixNewlinesProperties(init);
      forall i | 0 <= i < |init|
        ensures UnixNewlines(s)[i] == if s[i] == '\r' then '\n' else s[i]
      {
        assert UnixNewlines(s)[i] == UnixNewlines(init)[i];
      }
    }
  }

  /** Rewriting twice is rewriting once. */
  lemma UnixNewlinesIdempotent(s: string)
    ensures UnixNewlines(UnixNewlines(s)) == UnixNewlines(s)
  {
    UnixNewlinesProperties(s);
    UnixNewlinesProperties(UnixNewlines(s));
  }

  /** The text with the carriage returns before position k rewritten. */
  function Rewritten(text: string, k: nat): (r: string)
    requires k <= |text|
    ensures |r| == |text|
  {
    UnixNewlines(text[..k]) + text[k..]
  }

  /** Passing over characters that are not carriage returns rewrites nothing. */
  lemma {:induction false} RewrittenSkip(text: string, done: nat, p: nat)
    requires done <= p <= |text|
    requires forall i :: done <= i < p ==> text[i] != '\r'
    ensures Rewritten(text, done) == Rewritten(text, p)
    decreases p - done
  {
    if done < p {
      RewrittenSkip(text, done, p - 1);
      assert text[..p][..p - 1] == text[..p - 1];
      assert text[p - 1..] == [text[p - 1]] + text[p..];
    }
  }

  /** Overwriting the carriage return at p extends the rewritten part past it. */
  lemma RewrittenStep(text: string, p: nat)
    requires p < |text| && text[p] == '\r'
    ensures Rewritten(text, p)[p := '\n'] == Rewritten(text, p + 1)
  {
    assert text[..p + 1][..p] == text[..p];
    UnixNewlinesProperties(text[..p]);
  }

  /** find only looks at the characters from where it starts. */
  lemma {:induction false} FindFromSuffix(a: string, b: string, chars: string, from: nat)
    requires |a| == |b| && from <= |a| && a[from..] == b[from..]
    ensures Strings.FindFirstOf(a, chars, from) == Strings.FindFirstOf(b, chars, from)
    decreases |a| - from
  {
    if from < |a| {
      assert a[from] == a[from..][0] == b[from];
      assert a[from + 1..] == a[from..][1..];
      assert b[from + 1..] == b[from..][1..];
      FindFromSuffix(a, b, chars, from + 1);
    }
  }

  /**
   * The replace loop: from the first carriage return on, each one found is
   * overwritten with a line feed, and the search resumes just after it
   * unless that was the last character.
   */
  method ReplaceCarriageReturns(text: string) returns (playlist: string, replaceCount: nat)
    ensures playlist == UnixNewlines(text)
    ensures replaceCount == multiset(text)['\r']
  {
    playlist := text;
    ghost var done: nat := 0;
    var startPos := Strings.FindFirstOf(playlist, "\r", 0);
    replaceCount := 0;
    while startPos.Some?
      invariant done <= |playlist| == |text|
      invariant playlist == Rewritten(text, done)
      invariant startPos == Strings.FindFirstOf(playlist, "\r", done)
      invariant replaceCount == multiset(text[..done])['\r']
      decreases |playlist| - done
    {
      var p := startPos.value;
      ReplaceStep(text, done, p);
      playlist := playlist[p := '\n'];
      replaceCount := replaceCount + 1;
      done := p + 1;
      if p + 1 >= |playlist| {
        break;
      }
      startPos := Strings.FindFirstOf(playlist, "\r", p + 1);
    }
    ReplaceDone(text, done);
  }

  /**
   * One pass of the replace loop, at the first carriage return p from done
   * (the text from done on is still the original): the rewritten part
   * extends past p and the count grows by one.
   */
  lemma ReplaceStep(text: string, done: nat, p: nat)
    requires done <= |text| && Strings.FindFirstOf(Rewritten(text, done), "\r", done) == Some(p)
    ensures done <= p < |text| && Rewritten(text, done)[p := '\n'] == Rewritten(text, p + 1)
    ensures multiset(text[..p + 1])['\r'] == multiset(text[..done])['\r'] + 1
  {
    assert Rewritten(text, done)[done..] == text[done..];
    FindFromSuffix(Rewritten(text, done), text, "\r", done);
    RewrittenSkip(text, done, p);
    CountUpTo(text, done, p);
    RewrittenStep(text, p);
  }

  /** With no carriage return left from done on, the whole text is rewritten and counted. */
  lemma ReplaceDone(text: string, done: nat)
    requires done <= |text| && Strings.FindFirstOf(Rewritten(text, done), "\r", done).None?
    ensures Rewritten(text, done) == UnixNewlines(text)
    ensures multiset(text[..done])['\r'] == multiset(text)['\r']
  {
    assert Rewritten(text, done)[done..] == text[done..];
    FindFromSuffix(Rewritten(text, done), text, "\r", done);
    RewrittenSkip(text, done, |text|);
    CountUpTo(text, done, |text|);
    assert text[..|text|] == text;
  }

  /** Positions done to end hold no carriage return except perhaps the one at end. */
  lemma CountUpTo(text: string, done: nat, end: nat)
    requires done <= end <= |text|
    requires forall i :: done <= i < end ==> text[i] != '\r'
    ensures end < |text| ==>
      multiset(text[..end + 1])['\r'] == multiset(text[..done])['\r'] + (if text[end] == '\r' then 1 else 0)
    ensures multiset(text[..end])['\r'] == multiset(text[..done])['\r']
  {
    assert text[..end] == text[..done] + text[done..end];
    assert '\r' !in text[done..end];
    if end < |text| {
      assert text[..end + 1] == text[..end] + [text[end]];
    }
  }

  // --------------------------------------------------------------- getline

  /**
   * The lines the getline loop processes: each one ended by a line feed. A
   * last line without one is read with end-of-file set, which ends the loop
   * before that line is looked at.
   */
  function Lines(s: string): seq<string>
    decreases |s|
  {
    match Strings.FindFirstOf(s, "\n", 0)
    case None => []
    case Some(i) => [s[..i]] + Lines(s[i + 1..])
  }

  /** Each line followed by its line feed. */
  function Terminated(ls: seq<string>): string
  {
    if |ls| == 0 then "" else ls[0] + "\n" + Terminated(ls[1..])
  }

  /**
   * Lines undoes Terminated, and a final unterminated piece of text is
   * never seen.
   */
  lemma {:induction false} LinesOfTerminated(ls: seq<string>, tail: string)
    requires forall k :: 0 <= k < |ls| ==> '\n' !in ls[k]
    requires '\n' !in tail
    ensures Lines(Terminated(ls) + tail) == ls
    decreases |ls|
  {
    if |ls| == 0 {
      assert Terminated(ls) + tail == tail;
      LinesOfLast(tail);
    } else {
      var after := Terminated(ls[1..]) + tail;
      assert Terminated(ls) + tail == ls[0] + "\n" + after;
      LinesCons(ls[0], after);
      LinesOfTerminated(ls[1..], tail);
      assert ls == [ls[0]] + ls[1..];
    }
  }

  /** Text without a line feed gives no line. */
  lemma LinesOfLast(tail: string)
    requires '\n' !in tail
    ensures Lines(tail) == []
  {
    assert Strings.FindFirstOf(tail, "\n", 0).None? by {
      assert forall j :: 0 <= j < |tail| ==> tail[j] != '\n';
    }
  }

  /** A line ended by its line feed is read first, then the lines after it. */
  lemma LinesCons(l: string, after: string)
    requires '\n' !in l
    ensures Lines(l + "\n" + after) == [l] + Lines(after)
  {
    var s := l + "\n" + after;
    assert s[|l|] == '\n';
    assert Strings.FindFirstOf(s, "\n", 0) == Some(|l|) by {
      assert forall j :: 0 <= j < |l| ==> s[j] == l[j] && s[j] != '\n';
    }
    assert s[..|l|] == l;
    assert s[|l| + 1..] == after;
  }

  /** A line read by getline never holds a line feed. */
  lemma {:induction false} LinesHaveNoLineFeed(s: string)
    ensures forall k :: 0 <= k < |Lines(s)| ==> '\n' !in Lines(s)[k]
    decreases |s|
  {
    match Strings.FindFirstOf(s, "\n", 0)
    case None =>
    case Some(i) =>
      LinesHaveNoLineFeed(s[i + 1..]);
      assert '\n' !in s[..i];
      forall k | 0 <= k < |Lines(s)| ensures '\n' !in Lines(s)[k] {
        if k > 0 {
          assert Lines(s)[k] == Lines(s[i + 1..])[k - 1];
        }
      }
  }

  // ------------------------------------------------------ the line machine

  /** The settings convert_playlist reads: the sort option, the tag reader and the path rewriting. */
  datatype Conversion = Conversion(sortBy: string, catalog: map<string, Tags>, paths: PathConfig)

  /** The --sort option: "year" and "mtime" select those orders, anything else alphabetical. */
  function SortFor(sortBy: string): (m: SortMode)
    ensures sortBy == "year" ==> m == Year
    ensures sortBy == "mtime" ==> m == Mtime
    ensures sortBy != "year" && sortBy != "mtime" ==> m == Alpha
  {
    if sortBy == "year" then Year else if sortBy == "mtime" then Mtime else Alpha
  }

  /**
   * A track path line: the track made from it, with its path adjusted, the
   * tags read from the adjusted path and the selected order; None when no
   * tags could be read.
   */
  function PathTrack(line: string, conv: Conversion): (r: Option<Track>)
    ensures r.Some? ==> r.value.sort == SortFor(conv.sortBy)
    ensures r.Some? <==> AdjustPath(NewTrack(line, line, 0), conv.paths).path in conv.catalog
  {
    var t := AdjustPath(NewTrack(line, line, 0), conv.paths);
    var tags := if t.path in conv.catalog then Some(conv.catalog[t.path]) else None;
    match RetrieveTags(t, tags, conv.paths)
    case None => None
    case Some(u) => Some(u.(sort := SortFor(conv.sortBy)))
  }

  /**
   * Where the loop stands: still reading (with its firstLine and
   * getTrackPath flags and the tracks so far), failed (convert_playlist
   * returns false) or stopped by a break, keeping its tracks.
   */
  datatype Parse =
    | Running(firstLine: bool, getTrackPath: bool, tracks: seq<Track>)
    | Failed
    | Stopped(tracks: seq<Track>)

  const Header: string := "#EXTM3U"
  const Info: string := "#EXTINF:"

  /** One pass of the getline loop. */
  function Step(p: Parse, line: string, conv: Conversion): Parse
  {
    match p
    case Running(firstLine, getTrackPath, tracks) =>
      if firstLine then
        if Strings.Find(line, Header, 0) == Some(0) then Running(false, getTrackPath, tracks) else Failed
      else if Strings.Find(line, Info, 0) == Some(0) then
        match Strings.Find(line, ",", 0)
        case None => Failed
        case Some(c) => if c + 1 >= |line| then Failed else Running(false, true, tracks)
      else if getTrackPath then
        Running(false, false, tracks + match PathTrack(line, conv) case None => [] case Some(t) => [t])
      else
        Stopped(tracks)
    case _ => p
  }

  /** The loop run over lines, from its initial flags. */
  function Run(lines: seq<string>, conv: Conversion): Parse
  {
    if |lines| == 0 then Running(true, false, [])
    else Step(Run(lines[..|lines| - 1], conv), lines[|lines| - 1], conv)
  }

  lemma RunSnoc(lines: seq<string>, line: string, conv: Conversion)
    ensures Run(lines + [line], conv) == Step(Run(lines, conv), line, conv)
  {
    assert (lines + [line])[..|lines|] == lines;
  }

  /** Once the loop has failed or stopped, later lines change nothing. */
  lemma {:induction false} RunFinished(lines: seq<string>, rest: seq<string>, conv: Conversion)
    requires !Run(lines, conv).Running?
    ensures Run(lines + rest, conv) == Run(lines, conv)
    decreases |rest|
  {
    if |rest| > 0 {
      var init := rest[..|rest| - 1];
      RunFinished(lines, init, conv);
      assert (lines + rest)[..|lines + rest| - 1] == lines + init;
      assert Run(lines + rest, conv) == Step(Run(lines + init, conv), rest[|rest| - 1], conv);
      assert Step(Run(lines, conv), rest[|rest| - 1], conv) == Run(lines, conv);
    } else {
      assert lines + rest == lines;
    }
  }

  /** The header must open the first line: otherwise the parse fails. */
  lemma HeaderRequired(lines: seq<string>, conv: Conversion)
    requires |lines| > 0
    ensures Run(lines, conv) == Failed <== !Strings.StartsWith(lines[0], Header)
    ensures Run([lines[0]], conv) == if Strings.StartsWith(lines[0], Header) then Running(false, false, []) else Failed
  {
    Strings.FindAtZero(lines[0], Header);
    assert [lines[0]][..0] == [];
    if !Strings.StartsWith(lines[0], Header) {
      RunFinished([lines[0]], lines[1..], conv);
      assert [lines[0]] + lines[1..] == lines;
    }
  }

  /**
   * After the header, an #EXTINF: line succeeds exactly when some comma
   * stands before its last character, and then asks for a track path.
   */
  lemma InfoLine(getTrackPath: bool, tracks: seq<Track>, line: string, conv: Conversion)
    requires Strings.StartsWith(line, Info)
    ensures Step(Running(false, getTrackPath, tracks), line, conv)
      == if exists j :: 0 <= j < |line| - 1 && line[j] == ',' then Running(false, true, tracks) else Failed
  {
    Strings.FindAtZero(line, Info);
    var c := Strings.Find(line, ",", 0);
    if c.Some? {
      assert line[c.value] == ',' by { assert Strings.OccursAt(line, ",", c.value); }
      if exists j :: 0 <= j < |line| - 1 && line[j] == ',' {
        var j :| 0 <= j < |line| - 1 && line[j] == ',';
        assert line[j..j + 1] == ",";
        assert Strings.OccursAt(line, ",", j);
      }
    } else {
      forall j | 0 <= j < |line| - 1 ensures line[j] != ',' {
        assert !Strings.OccursAt(line, ",", j);
        assert line[j..j + 1] == [line[j]];
      }
    }
  }

  /**
   * After the header, a line that is not an #EXTINF: line is a track path
   * only straight after one; anywhere else the loop stops, keeping its
   * tracks.
   */
  lemma OtherLine(getTrackPath: bool, tracks: seq<Track>, line: string, conv: Conversion)
    requires !Strings.StartsWith(line, Info)
    ensures getTrackPath ==>
      (Step(Running(false, getTrackPath, tracks), line, conv)
         == Running(false, false, tracks + match PathTrack(line, conv) case None => [] case Some(t) => [t]))
    ensures !getTrackPath ==> Step(Running(false, getTrackPath, tracks), line, conv) == Stopped(tracks)
  {
    Strings.FindAtZero(line, Info);
  }

  /**
   * Whatever the lines, each track collected has the selected order and
   * comes from a path line directly after an #EXTINF: line, after the
   * header; at most two lines per track are read besides the header.
   */
  lemma {:induction false} RunTracks(lines: seq<string>, conv: Conversion)
    ensures var p := Run(lines, conv);
      p.Running? ==>
        ((p.firstLine <==> |lines| == 0)
         && 2 * |p.tracks| + (if p.getTrackPath then 1 else 0) + (if p.firstLine then 0 else 1) <= |lines|)
    ensures var p := Run(lines, conv);
      p.Stopped? ==> 2 * |p.tracks| + 1 <= |lines|
    ensures var p := Run(lines, conv);
      !p.Failed? ==> forall t :: t in p.tracks ==> t.sort == SortFor(conv.sortBy)
    ensures var p := Run(lines, conv);
      !p.Failed? ==> forall t :: t in p.tracks ==>
        exists k :: 2 <= k < |lines| && Strings.StartsWith(lines[k - 1], Info) && PathTrack(lines[k], conv) == Some(t)
    ensures var p := Run(lines, conv);
      p.Running? && p.getTrackPath ==> |lines| >= 2 && Strings.StartsWith(lines[|lines| - 1], Info)
    decreases |lines|
  {
    if |lines| > 0 {
      var init := lines[..|lines| - 1];
      var line := lines[|lines| - 1];
      RunTracks(init, conv);
      Strings.FindAtZero(line, Info);
      var p := Run(lines, conv);
      if !p.Failed? {
        forall t | t in p.tracks
          ensures exists k :: 2 <= k < |lines| && Strings.StartsWith(lines[k - 1], Info) && PathTrack(lines[k], conv) == Some(t)
        {
          if t in Run(init, conv).tracks {
            var k :| 2 <= k < |init| && Strings.StartsWith(init[k - 1], Info) && PathTrack(init[k], conv) == Some(t);
            assert lines[k - 1] == init[k - 1] && lines[k] == init[k];
          } else {
            assert lines[|lines| - 2] == init[|init| - 1];
          }
        }
      }
    }
  }

  /** What a finished loop leaves: nothing after a failure, otherwise its tracks. */
  function Collected(p: Parse): Option<seq<Track>>
  {
    match p
    case Failed => None
    case Running(_, _, tracks) => Some(tracks)
    case Stopped(tracks) => Some(tracks)
  }

  /**
   * The body of the getline loop for one line: the next flags and tracks,
   * Failed where it returns false, Stopped where it breaks. What that state
   * means is proved about Step by HeaderRequired, InfoLine, OtherLine and
   * RunFinished.
   */
  method ProcessLine(firstLine: bool, getTrackPath: bool, tracks: seq<Track>, line: string, conv: Conversion)
    returns (next: Parse)
    ensures next == Step(Running(firstLine, getTrackPath, tracks), line, conv)
  {
    if firstLine {
      var startPos := Strings.Find(line, Header, 0);
      if startPos.None? || startPos.value != 0 {
        return Failed;
      }
      return Running(false, getTrackPath, tracks);
    }
    var trackDataPos := Strings.Find(line, Info, 0);
    if trackDataPos.Some? && trackDataPos.value == 0 {
      var trackNamePos := Strings.Find(line, ",", trackDataPos.value);
      if trackNamePos.None? || trackNamePos.value + 1 >= |line| {
        return Failed;
      }
      next := Running(false, true, tracks);
    } else if getTrackPath {
      var newTrack := PathTrack(line, conv);
      var found := tracks;
      if newTrack.Some? {
        found := found + [newTrack.value];
      }
      next := Running(false, false, found);
    } else {
      next := Stopped(tracks);
    }
  }

  /**
   * One getline: the text left begins with the next line to read and its
   * line feed, and the lines read so far grow by that line.
   */
  lemma LinesStep(lines: seq<string>, n: nat, rest: string, i: nat)
    requires n <= |lines| && Lines(rest) == lines[n..]
    requires Strings.FindFirstOf(rest, "\n", 0) == Some(i)
    ensures n < |lines| && lines[n] == rest[..i]
    ensures Lines(rest[i + 1..]) == lines[n + 1..]
    ensures lines[..n + 1] == lines[..n] + [rest[..i]]
  {
    var after := Lines(rest[i + 1..]);
    assert Lines(rest) == [rest[..i]] + after;
    assert |lines[n..]| == 1 + |after|;
    assert lines[n] == lines[n..][0] == rest[..i];
    assert lines[n + 1..] == lines[n..][1..] == after;
    assert lines[..n + 1] == lines[..n] + [lines[n]];
  }

  /** The pass for one more line takes the loop to the state Step gives. */
  lemma RunAdvance(lines: seq<string>, line: string, conv: Conversion, next: Parse)
    requires next == Step(Run(lines, conv), line, conv)
    ensures Run(lines + [line], conv) == next
  {
    RunSnoc(lines, line, conv);
  }

  /**
   * One pass of the getline loop: the line read is the next of lines, and
   * the run so far is extended by it; once the run is no longer Running it
   * is the run of all the lines.
   */
  lemma ParseStep(lines: seq<string>, n: nat, rest: string, i: nat, conv: Conversion, next: Parse)
    requires n <= |lines| && Lines(rest) == lines[n..]
    requires Strings.FindFirstOf(rest, "\n", 0) == Some(i)
    requires next == Step(Run(lines[..n], conv), rest[..i], conv)
    ensures n < |lines| && Lines(rest[i + 1..]) == lines[n + 1..]
    ensures Run(lines[..n + 1], conv) == next
    ensures !next.Running? ==> Run(lines, conv) == next
  {
    LinesStep(lines, n, rest, i);
    RunAdvance(lines[..n], rest[..i], conv, next);
    if !next.Running? {
      RunFinished(lines[..n + 1], lines[n + 1..], conv);
      assert lines[..n + 1] + lines[n + 1..] == lines;
    }
  }

  /** The getline loop over the rewritten text, returning its tracks or None when it returned false. */
  method ParseText(text: string, conv: Conversion) returns (tracks: Option<seq<Track>>)
    ensures tracks == Collected(Run(Lines(text), conv))
  {
    var rest := text;
    ghost var lines := Lines(text);
    ghost var n: nat := 0;
    var firstLine, getTrackPath := true, false;
    var found: seq<Track> := [];
    while true
      invariant n <= |lines| && Lines(rest) == lines[n..]
      invariant Run(lines[..n], conv) == Running(firstLine, getTrackPath, found)
      decreases |rest|
    {
      var nl := Strings.FindFirstOf(rest, "\n", 0);
      if nl.None? {
        break;
      }
      var line := rest[..nl.value];
      var next := ProcessLine(firstLine, getTrackPath, found, line, conv);
      ParseStep(lines, n, rest, nl.value, conv, next);
      rest := rest[nl.value + 1..];
      n := n + 1;
      if !next.Running? {
        return Collected(next);
      }
      firstLine, getTrackPath, found := next.firstLine, next.getTrackPath, next.tracks;
    }
    assert lines[..n] == lines;
    tracks := Some(found);
  }

  // ------------------------------------------------------ convert_playlist

  /**
   * What convert_playlist writes to the output playlist, or None when it
   * returns false. contents is what load_file read, None when it failed.
   */
  function Converted(inputFileName: string, outputFileName: string, contents: Option<string>, conv: Conversion)
    : Option<seq<Track>>
  {
    if inputFileName == "" || outputFileName == "" then None
    else match contents
      case None => None
      case Some(text) =>
        if |text| == 0 then None
        else match Collected(Run(Lines(UnixNewlines(text)), conv))
          case None => None
          case Some(tracks) => if |tracks| == 0 then None else Some(tracks)
  }

  /**
   * convert_playlist succeeds only with both file names, a read, non-empty
   * file, a header and at least one collected track, every one in the
   * selected order.
   */
  lemma ConvertedProperties(inputFileName: string, outputFileName: string, contents: Option<string>, conv: Conversion)
    ensures inputFileName == "" || outputFileName == "" ==> Converted(inputFileName, outputFileName, contents, conv).None?
    ensures contents.None? || contents == Some("") ==> Converted(inputFileName, outputFileName, contents, conv).None?
    ensures var r := Converted(inputFileName, outputFileName, contents, conv);
      r.Some? ==>
        (|r.value| > 0 && contents.Some?
         && Strings.StartsWith(Lines(UnixNewlines(contents.value))[0], Header)
         && forall t :: t in r.value ==> t.sort == SortFor(conv.sortBy))
  {
    var r := Converted(inputFileName, outputFileName, contents, conv);
    if r.Some? {
      var lines := Lines(UnixNewlines(contents.value));
      RunTracks(lines, conv);
      HeaderRequired(lines, conv);
    }
  }

  /**
   * A playlist with Windows line ends: "\r\n" becomes two line feeds, the
   * blank second line is neither #EXTINF: nor a track path after one, so
   * the loop stops before any track and nothing is written.
   */
  lemma CrlfPlaylistRejected(inputFileName: string, outputFileName: string, rest: string, conv: Conversion)
    ensures Converted(inputFileName, outputFileName, Some(Header + "\r\n" + rest), conv).None?
  {
    var lines := Lines(UnixNewlines(Header + "\r\n" + rest));
    CrlfLines(rest);
    assert Run([Header], conv) == Running(false, false, []) by {
      HeaderRequired([Header], conv);
      assert Strings.StartsWith(Header, Header);
    }
    assert Run([Header, ""], conv) == Stopped([]) by {
      RunSnoc([Header], "", conv);
      assert [Header] + [""] == [Header, ""];
      OtherLine(false, [], "", conv);
    }
    RunFinished(lines[..2], lines[2..], conv);
    assert lines[..2] + lines[2..] == lines;
  }

  /** After the rewrite, a header ended by "\r\n" is read as the header line and then a blank line. */
  lemma CrlfLines(rest: string)
    ensures var lines := Lines(UnixNewlines(Header + "\r\n" + rest));
      |lines| >= 2 && lines[..2] == [Header, ""]
  {
    CrlfRewrite(rest);
    LinesOfBlankSecond(UnixNewlines(Header + "\r\n" + rest), Header);
  }

  /** The rewrite of a header ended by "\r\n" is the header and two line feeds, then the rest. */
  lemma CrlfRewrite(rest: string)
    ensures var u := UnixNewlines(Header + "\r\n" + rest);
      u[..|Header|] == Header && u[|Header|] == '\n' && u[|Header| + 1] == '\n'
  {
    var text := Header + "\r\n" + rest;
    var u := UnixNewlines(text);
    UnixNewlinesProperties(text);
    assert text[|Header|] == '\r' && text[|Header| + 1] == '\n';
    forall i | 0 <= i < |Header| ensures u[i] == Header[i] {
      assert text[i] == Header[i];
    }
  }

  /** A text starting with a line h and then an empty line reads as those two lines first. */
  lemma LinesOfBlankSecond(u: string, h: string)
    requires '\n' !in h && |u| >= |h| + 2
    requires u[..|h|] == h && u[|h|] == '\n' && u[|h| + 1] == '\n'
    ensures |Lines(u)| >= 2 && Lines(u)[..2] == [h, ""]
  {
    assert forall j :: 0 <= j < |h| ==> u[j] == h[j];
    assert Strings.FindFirstOf(u, "\n", 0) == Some(|h|);
    var tail := u[|h| + 1..];
    assert Strings.FindFirstOf(tail, "\n", 0) == Some(0);
    assert Lines(u) == [h] + Lines(tail);
    assert Lines(tail) == [""] + Lines(tail[1..]);
  }

  /**
   * convert_playlist with the file read already (contents, None when
   * load_file failed) and the tag reader given: the tracks written to
   * outputFileName, or None when it returns false.
   */
  method ConvertPlaylist(inputFileName: string, outputFileName: string, contents: Option<string>, conv: Conversion)
    returns (written: Option<seq<Track>>)
    ensures written == Converted(inputFileName, outputFileName, contents, conv)
  {
    if inputFileName == "" || outputFileName == "" {
      return None;
    }
    if contents.None? {
      return None;
    }
    var text := contents.value;
    if |text| == 0 {
      return None;
    }
    var playlist, replaceCount := ReplaceCarriageReturns(text);
    var tracks := ParseText(playlist, conv);
    if tracks.None? || |tracks.value| == 0 {
      return None;
    }
    written := tracks;
  }
}
