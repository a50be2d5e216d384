/** Lower-casing and file-name cleaning (src/Utilities.cc). */
module Utilities {
  import opened Wrappers
  import Strings

  /** tolower in the C locale: only 'A'..'Z' change. */
  function LowerChar(c: char): char
  {
    if 'A' <= c <= 'Z' then (c as int + 32) as char else c
  }

  /** The lower-cased copy of s, one character at a time. */
  function Lower(s: string): string
  {
    if |s| == 0 then [] else [LowerChar(s[0])] + Lower(s[1..])
  }

  /** Lower-casing keeps the length and maps each character on its own. */
  lemma {:induction false} LowerAt(s: string)
    ensures |Lower(s)| == |s|
    ensures forall i :: 0 <= i < |s| ==> Lower(s)[i] == LowerChar(s[i])
  {
    if |s| > 0 {
      LowerAt(s[1..]);
    }
  }

  /** Only the empty string lower-cases to the empty string. */
  lemma LowerEmpty(s: string)
    ensures Lower(s) == [] <==> s == []
  {
    LowerAt(s);
  }

  lemma {:induction false} LowerIdempotent(s: string)
    ensures Lower(Lower(s)) == Lower(s)
  {
    if |s| > 0 {
      LowerIdempotent(s[1..]);
      assert Lower(s)[1..] == Lower(s[1..]);
    }
  }

  /** Lower-casing a concatenation lower-cases each part independently. */
  lemma {:induction false} LowerAppend(a: string, b: string)
    ensures Lower(a + b) == Lower(a) + Lower(b)
  {
    if |a| > 0 {
      assert (a + b)[1..] == a[1..] + b;
      LowerAppend(a[1..], b);
    } else {
      assert a + b == b;
    }
  }

  /** to_lower_case: a copy of str with every character passed through tolower. */
  method ToLowerCase(str: string) returns (r: string)
    ensures r == Lower(str)
  {
    if |str| == 0 {
      return str;
    }
    var tmp := str;
    var i := 0;
    while i < |tmp|
      invariant 0 <= i <= |tmp| == |str|
      invariant forall k :: 0 <= k < i ==> tmp[k] == LowerChar(str[k])
      invariant forall k :: i <= k < |str| ==> tmp[k] == str[k]
    {
      tmp := tmp[i := LowerChar(tmp[i])];
      i := i + 1;
    }
    LowerAt(str);
    r := tmp;
  }

  /** The characters clean_file_name replaces. */
  const IllegalChars: string := "#$+%!`&'*?<>|/\\{}\"=:@"

  predicate IsIllegal(c: char)
  {
    c in IllegalChars
  }

  function CleanChar(c: char): char
  {
    if IsIllegal(c) then '_' else c
  }

  function Cleaned(s: string): string
  {
    if |s| == 0 then [] else [CleanChar(s[0])] + Cleaned(s[1..])
  }

  /** The number of illegal characters left in s: what the cleaning loop uses up. */
  function IllegalCount(s: string): nat
  {
    if |s| == 0 then 0 else (if IsIllegal(s[0]) then 1 else 0) + IllegalCount(s[1..])
  }

  /**
   * Cleaning keeps the length, turns each illegal character into '_',
   * leaves every other character alone and leaves no illegal character.
   */
  lemma {:induction false} CleanedAt(s: string)
    ensures |Cleaned(s)| == |s|
    ensures forall i :: 0 <= i < |s| ==> Cleaned(s)[i] == (if IsIllegal(s[i]) then '_' else s[i])
    ensures forall i :: 0 <= i < |s| ==> !IsIllegal(Cleaned(s)[i])
  {
    if |s| > 0 {
      CleanedAt(s[1..]);
    }
  }

  lemma {:induction false} CleanedIdempotent(s: string)
    ensures Cleaned(Cleaned(s)) == Cleaned(s)
  {
    if |s| > 0 {
      CleanedIdempotent(s[1..]);
      assert Cleaned(s)[1..] == Cleaned(s[1..]);
    }
  }

  lemma {:induction false} CleanedAppend(a: string, b: string)
    ensures Cleaned(a + b) == Cleaned(a) + Cleaned(b)
  {
    if |a| > 0 {
      assert (a + b)[1..] == a[1..] + b;
      CleanedAppend(a[1..], b);
    } else {
      assert a + b == b;
    }
  }

  /** Overwriting one illegal character with '_' removes exactly one illegal character. */
  lemma {:induction false} IllegalCountReplace(s: string, p: nat)
    requires p < |s| && IsIllegal(s[p])
    ensures IllegalCount(s[p := '_']) == IllegalCount(s) - 1
  {
    if p > 0 {
      assert s[p := '_'][1..] == s[1..][p - 1 := '_'];
      IllegalCountReplace(s[1..], p - 1);
    } else {
      assert s[p := '_'][1..] == s[1..];
    }
  }

  /**
   * clean_file_name: find_first_of loop overwriting each illegal character
   * with '_'; it terminates because every pass removes one illegal character.
   */
  method CleanFileName(outputFileName: string) returns (fileName: string)
    ensures fileName == Cleaned(outputFileName)
  {
    fileName := outputFileName;
    var n := |outputFileName|;
    var pos: Option<nat> := Strings.FindFirstOf(fileName, IllegalChars, 0);
    while pos.Some?
      invariant |fileName| == n
      invariant pos.Some? ==> pos.value < n && IsIllegal(fileName[pos.value])
      invariant forall k :: 0 <= k < (if pos.Some? then pos.value else n) ==> fileName[k] == CleanChar(outputFileName[k])
      invariant forall k :: pos.Some? && pos.value <= k < n ==> fileName[k] == outputFileName[k]
      decreases IllegalCount(fileName)
    {
      var p := pos.value;
      IllegalCountReplace(fileName, p);
      fileName := fileName[p := '_'];
      pos := Strings.FindFirstOf(fileName, IllegalChars, p);
    }
    CleanedAt(outputFileName);
  }
}
