/**
 * The std::string operations the program relies on: the ordering of
 * operator<, find, find_first_of and a first-occurrence replace.
 */
module Strings {
  import opened Wrappers

  /** std::string operator<: lexicographic on character codes, a proper prefix being smaller. */
  predicate Less(a: string, b: string)
    decreases |a|
  {
    if |a| == 0 then |b| > 0
    else if |b| == 0 then false
    else if a[0] != b[0] then a[0] < b[0]
    else Less(a[1..], b[1..])
  }

  lemma {:induction false} LessIrreflexive(a: string)
    ensures !Less(a, a)
    decreases |a|
  {
    if |a| > 0 {
      LessIrreflexive(a[1..]);
    }
  }

  lemma {:induction false} LessTransitive(a: string, b: string, c: string)
    requires Less(a, b) && Less(b, c)
    ensures Less(a, c)
    decreases |a|
  {
    if |a| > 0 && |b| > 0 && |c| > 0 && a[0] == b[0] && b[0] == c[0] {
      LessTransitive(a[1..], b[1..], c[1..]);
    }
  }

  /** Two different strings are always ordered one way or the other. */
  lemma {:induction false} LessTotal(a: string, b: string)
    ensures a == b || Less(a, b) || Less(b, a)
    decreases |a|
  {
    if |a| > 0 && |b| > 0 && a[0] == b[0] {
      LessTotal(a[1..], b[1..]);
      if a[1..] == b[1..] {
        assert a == [a[0]] + a[1..] && b == [b[0]] + b[1..];
      }
    }
  }

  lemma LessAsymmetric(a: string, b: string)
    requires Less(a, b)
    ensures !Less(b, a)
  {
    if Less(b, a) {
      LessTransitive(a, b, a);
      LessIrreflexive(a);
    }
  }

  predicate OccursAt(s: string, pat: string, i: nat)
  {
    i + |pat| <= |s| && s[i..i + |pat|] == pat
  }

  /** std::string::find(pat, from): the first index at or after from where pat occurs. */
  function Find(s: string, pat: string, from: nat): (r: Option<nat>)
    ensures r.Some? ==> from <= r.value && OccursAt(s, pat, r.value)
    ensures forall j: nat :: from <= j && (r.None? || j < r.value) ==> !OccursAt(s, pat, j)
    decreases |s| - from
  {
    if from + |pat| > |s| then None
    else if OccursAt(s, pat, from) then Some(from)
    else Find(s, pat, from + 1)
  }

  /** std::string::find_first_of(chars, from): the first index at or after from holding one of chars. */
  function FindFirstOf(s: string, chars: string, from: nat): (r: Option<nat>)
    ensures r.Some? ==> from <= r.value < |s| && s[r.value] in chars
    ensures forall j :: from <= j < |s| && (r.None? || j < r.value) ==> s[j] !in chars
    decreases |s| - from
  {
    if from >= |s| then None
    else if s[from] in chars then Some(from)
    else FindFirstOf(s, chars, from + 1)
  }

  predicate StartsWith(s: string, prefix: string)
  {
    |prefix| <= |s| && s[..|prefix|] == prefix
  }

  /** `find(pat) == 0`, the test the program uses, is exactly "s starts with pat". */
  lemma FindAtZero(s: string, pat: string)
    ensures Find(s, pat, 0) == Some(0) <==> StartsWith(s, pat)
  {
    if StartsWith(s, pat) {
      assert OccursAt(s, pat, 0);
    }
  }

  ghost predicate IsFirstOccurrence(s: string, pat: string, i: nat)
  {
    OccursAt(s, pat, i) && forall j: nat :: j < i ==> !OccursAt(s, pat, j)
  }

  /**
   * `s.replace(s.find(pat), |pat|, rep)` guarded by the find succeeding:
   * only the first occurrence of pat is replaced; without one s is unchanged.
   */
  function ReplaceFirst(s: string, pat: string, rep: string): (r: string)
    ensures (forall j: nat :: !OccursAt(s, pat, j)) ==> r == s
    ensures forall i: nat :: IsFirstOccurrence(s, pat, i) ==> r == s[..i] + rep + s[i + |pat|..]
  {
    match Find(s, pat, 0)
    case None => s
    case Some(i) => s[..i] + rep + s[i + |pat|..]
  }

  // ------------------------------------------------- std::map iteration order

  /** k is the smallest string of keys. */
  ghost predicate IsLeast(k: string, keys: set<string>)
  {
    k in keys && forall x :: x in keys && x != k ==> Less(k, x)
  }

  lemma {:induction false} LeastExists(keys: set<string>)
    requires keys != {}
    ensures exists k :: IsLeast(k, keys)
    decreases |keys|
  {
    var x :| x in keys;
    if keys - {x} == {} {
      assert keys == {x};
      assert IsLeast(x, keys);
    } else {
      LeastExists(keys - {x});
      var m :| IsLeast(m, keys - {x});
      LessTotal(m, x);
      if Less(x, m) {
        forall y | y in keys && y != x ensures Less(x, y) {
          if y != m {
            LessTransitive(x, m, y);
          }
        }
        assert IsLeast(x, keys);
      } else {
        assert IsLeast(m, keys);
      }
    }
  }

  lemma LeastUnique(k1: string, k2: string, keys: set<string>)
    requires IsLeast(k1, keys) && IsLeast(k2, keys)
    ensures k1 == k2
  {
    if k1 != k2 {
      LessAsymmetric(k1, k2);
    }
  }

  ghost function Least(keys: set<string>): (k: string)
    requires keys != {}
    ensures IsLeast(k, keys)
  {
    LeastExists(keys);
    var k :| IsLeast(k, keys); k
  }

  /** The keys of a std::map in the order its iterators visit them. */
  ghost function InOrder(keys: set<string>): (r: seq<string>)
    ensures |r| == |keys|
    ensures forall i :: 0 <= i < |r| ==> r[i] in keys
    decreases |keys|
  {
    if keys == {} then [] else [Least(keys)] + InOrder(keys - {Least(keys)})
  }

  /** Iteration order visits every key once, in increasing order. */
  lemma InOrderSorted(keys: set<string>)
    ensures forall i, j :: 0 <= i < j < |InOrder(keys)| ==> Less(InOrder(keys)[i], InOrder(keys)[j])
    ensures forall k :: k in keys ==> k in InOrder(keys)
  {
    InOrderIncreasing(keys);
    InOrderComplete(keys);
  }

  lemma {:induction false} InOrderIncreasing(keys: set<string>)
    ensures forall i, j :: 0 <= i < j < |InOrder(keys)| ==> Less(InOrder(keys)[i], InOrder(keys)[j])
    decreases |keys|
  {
    if keys != {} {
      var k := Least(keys);
      var r := InOrder(keys);
      var rest := InOrder(keys - {k});
      InOrderIncreasing(keys - {k});
      assert r == [k] + rest;
      forall i, j | 0 <= i < j < |r| ensures Less(r[i], r[j]) {
        assert r[j] == rest[j - 1];
        if i == 0 {
          assert rest[j - 1] in keys - {k};
        } else {
          assert r[i] == rest[i - 1];
        }
      }
    }
  }

  lemma {:induction false} InOrderComplete(keys: set<string>)
    ensures forall k :: k in keys ==> k in InOrder(keys)
    decreases |keys|
  {
    if keys != {} {
      var k := Least(keys);
      var rest := InOrder(keys - {k});
      InOrderComplete(keys - {k});
      assert InOrder(keys) == [k] + rest;
    }
  }

  /** The smallest of a non-empty set of keys, by a pass over the set. */
  method LeastOf(keys: set<string>) returns (k: string)
    requires keys != {}
    ensures k == Least(keys)
  {
    k :| k in keys;
    var rest := keys - {k};
    while rest != {}
      invariant rest <= keys && k in keys - rest
      invariant forall x :: x in keys - rest && x != k ==> Less(k, x)
      decreases |rest|
    {
      var x :| x in rest;
      if Less(x, k) {
        forall y | y in keys - (rest - {x}) && y != x ensures Less(x, y) {
          if y != k {
            LessTransitive(x, k, y);
          }
        }
        k := x;
      } else {
        if x != k {
          LessTotal(x, k);
        }
      }
      rest := rest - {x};
    }
    LeastUnique(k, Least(keys), keys);
  }
}
