/** Sequence-level building blocks shared by both ticket repositories:
    first-match lookup, order-preserving selection by a mask of flags,
    and the reference notions they are proved against. */
module Sequences {

  datatype Option<T> = None | Some(value: T)

  /** Position of the first occurrence of x in s, or None when x does not occur. */
  function IndexOf<T(==)>(s: seq<T>, x: T): (r: Option<nat>)
    ensures r.None? <==> x !in s
    ensures r.Some? ==> r.value < |s| && s[r.value] == x && x !in s[..r.value]
  {
    if s == [] then None
    else if s[0] == x then Some(0)
    else match IndexOf(s[1..], x)
      case None => None
      case Some(i) =>
        assert s[..i + 1] == [s[0]] + s[1..][..i];
        Some(i + 1)
  }

  /** The first index holding x is the only index i with s[i] == x and no x before it. */
  lemma IndexOfUnique<T>(s: seq<T>, x: T, i: nat)
    requires i < |s| && s[i] == x && x !in s[..i]
    ensures IndexOf(s, x) == Some(i)
  {
  }

  /** The flag p(s[i]) for every element, in order. */
  function Mask<T>(s: seq<T>, p: T -> bool): seq<bool>
  {
    seq(|s|, i requires 0 <= i < |s| => p(s[i]))
  }

  /** For every key, whether it equals k. */
  function EqualsKey(keys: seq<int>, k: int): seq<bool>
  {
    seq(|keys|, i requires 0 <= i < |keys| => keys[i] == k)
  }

  /** For every key, whether it differs from k. */
  function DiffersFromKey(keys: seq<int>, k: int): seq<bool>
  {
    seq(|keys|, i requires 0 <= i < |keys| => keys[i] != k)
  }

  /** The elements of s whose flag in keep is set, in their original order. */
  function Select<T>(s: seq<T>, keep: seq<bool>): (r: seq<T>)
    requires |keep| == |s|
    ensures |r| <= |s|
  {
    if s == [] then []
    else (if keep[0] then [s[0]] else []) + Select(s[1..], keep[1..])
  }

  /** Reference notion of "a keeps some of b's elements in b's order". */
  predicate IsSubsequence<T(==)>(a: seq<T>, b: seq<T>)
  {
    a == [] ||
    (b != [] && ((a[0] == b[0] && IsSubsequence(a[1..], b[1..])) || IsSubsequence(a, b[1..])))
  }

  /** No two positions of s hold the same value. */
  predicate Distinct<T(==)>(s: seq<T>)
  {
    forall i, j :: 0 <= i < j < |s| ==> s[i] != s[j]
  }

  /** Every value of s is smaller than the next one. */
  predicate StrictlyIncreasing(s: seq<int>)
  {
    forall i, j :: 0 <= i < j < |s| ==> s[i] < s[j]
  }

  /** s without its element at position i. */
  function RemoveAt<T>(s: seq<T>, i: nat): (r: seq<T>)
    requires i < |s|
    ensures |r| == |s| - 1
    ensures forall j :: 0 <= j < i ==> r[j] == s[j]
    ensures forall j :: i <= j < |r| ==> r[j] == s[j + 1]
  {
    s[..i] + s[i + 1..]
  }

  /** Selecting from a concatenation selects from each part. */
  lemma {:induction false} SelectConcat<T>(a: seq<T>, ka: seq<bool>, b: seq<T>, kb: seq<bool>)
    requires |ka| == |a| && |kb| == |b|
    ensures Select(a + b, ka + kb) == Select(a, ka) + Select(b, kb)
  {
    if a == [] {
      assert a + b == b && ka + kb == kb;
    } else {
      var ab, kab := a + b, ka + kb;
      var head := if ka[0] then [a[0]] else [];
      assert ab[0] == a[0] && kab[0] == ka[0];
      assert ab[1..] == a[1..] + b && kab[1..] == ka[1..] + kb;
      assert Select(ab, kab) == head + Select(a[1..] + b, ka[1..] + kb);
      SelectConcat(a[1..], ka[1..], b, kb);
      assert Select(a, ka) == head + Select(a[1..], ka[1..]);
      assert Select(ab, kab) == head + (Select(a[1..], ka[1..]) + Select(b, kb));
    }
  }

  /** One more element at the end is kept exactly when its flag is set. */
  lemma SelectSnoc<T>(s: seq<T>, keep: seq<bool>, x: T, b: bool)
    requires |keep| == |s|
    ensures Select(s + [x], keep + [b]) == Select(s, keep) + (if b then [x] else [])
  {
    SelectConcat(s, keep, [x], [b]);
  }

  /** The three pieces of a concatenation can be sliced back out of it. */
  lemma ConcatSlices<T>(a: seq<T>, b: seq<T>, c: seq<T>)
    ensures (a + b + c)[..|a|] == a
    ensures (a + b + c)[|a|..|a| + |b|] == b
    ensures (a + b + c)[|a| + |b|..] == c
  {
  }

  /** Selecting from a prefix one element longer: the loop step of a filter. */
  lemma SelectPrefixStep<T>(s: seq<T>, keep: seq<bool>, i: nat)
    requires |keep| == |s| && i < |s|
    ensures Select(s[..i + 1], keep[..i + 1]) == Select(s[..i], keep[..i]) + (if keep[i] then [s[i]] else [])
  {
    assert s[..i + 1] == s[..i] + [s[i]];
    assert keep[..i + 1] == keep[..i] + [keep[i]];
    SelectSnoc(s[..i], keep[..i], s[i], keep[i]);
  }

  /** An element is selected exactly when it sits at some flagged position. */
  lemma {:induction false} SelectMembership<T>(s: seq<T>, keep: seq<bool>, x: T)
    requires |keep| == |s|
    ensures x in Select(s, keep) <==> exists i :: 0 <= i < |s| && keep[i] && s[i] == x
  {
    if s != [] {
      SelectMembership(s[1..], keep[1..], x);
      if x in Select(s[1..], keep[1..]) {
        var i :| 0 <= i < |s| - 1 && keep[1..][i] && s[1..][i] == x;
        assert keep[i + 1] && s[i + 1] == x;
      }
      if exists i :: 0 <= i < |s| && keep[i] && s[i] == x {
        var i :| 0 <= i < |s| && keep[i] && s[i] == x;
        if i > 0 {
          assert keep[1..][i - 1] && s[1..][i - 1] == x;
        }
      }
    }
  }

  /** With every flag set, selection returns the whole sequence. */
  lemma {:induction false} SelectAll<T>(s: seq<T>, keep: seq<bool>)
    requires |keep| == |s|
    requires forall i :: 0 <= i < |s| ==> keep[i]
    ensures Select(s, keep) == s
  {
    if s != [] {
      SelectAll(s[1..], keep[1..]);
      assert [s[0]] + s[1..] == s;
    }
  }

  /** With no flag set, selection returns nothing. */
  lemma {:induction false} SelectNone<T>(s: seq<T>, keep: seq<bool>)
    requires |keep| == |s|
    requires forall i :: 0 <= i < |s| ==> !keep[i]
    ensures Select(s, keep) == []
  {
    if s != [] {
      SelectNone(s[1..], keep[1..]);
    }
  }

  /** Selection drops something exactly when some flag is clear. */
  lemma {:induction false} SelectShrinks<T>(s: seq<T>, keep: seq<bool>)
    requires |keep| == |s|
    ensures |Select(s, keep)| < |s| <==> false in keep
  {
    if s != [] {
      SelectShrinks(s[1..], keep[1..]);
      assert keep == [keep[0]] + keep[1..];
    }
  }

  /** Selection keeps the relative order of what it keeps. */
  lemma {:induction false} SelectIsSubsequence<T>(s: seq<T>, keep: seq<bool>)
    requires |keep| == |s|
    ensures IsSubsequence(Select(s, keep), s)
  {
    if s != [] {
      var rest := Select(s[1..], keep[1..]);
      SelectIsSubsequence(s[1..], keep[1..]);
      if keep[0] {
        assert Select(s, keep) == [s[0]] + rest;
        assert ([s[0]] + rest)[1..] == rest;
      } else {
        assert Select(s, keep) == rest;
      }
    }
  }

  /** The first selected element is the one at the first flagged position. */
  lemma {:induction false} SelectFirst<T>(s: seq<T>, keep: seq<bool>, i: nat)
    requires |keep| == |s|
    requires i < |s| && keep[i]
    requires forall j :: 0 <= j < i ==> !keep[j]
    ensures Select(s, keep) != [] && Select(s, keep)[0] == s[i]
  {
    if i > 0 {
      SelectFirst(s[1..], keep[1..], i - 1);
    }
  }

  /** Filtering by key and taking the first element finds the element at
      the first position holding the key, and nothing when the key is absent. */
  lemma FilterFirstIsIndexOf<T>(s: seq<T>, keys: seq<int>, k: int)
    requires |keys| == |s|
    ensures var found := Select(s, EqualsKey(keys, k));
      match IndexOf(keys, k)
      case None => found == []
      case Some(i) => found != [] && found[0] == s[i]
  {
    var m := EqualsKey(keys, k);
    match IndexOf(keys, k)
    case None =>
      SelectNone(s, m);
    case Some(i) =>
      forall j | 0 <= j < i ensures !m[j] {
        assert keys[..i][j] == keys[j];
      }
      SelectFirst(s, m, i);
  }

  /** When the keys are distinct, dropping every element whose key is k removes
      exactly the element at the first position holding k (and nothing when k is absent). */
  lemma {:induction false} SelectAwayDistinctKey<T>(s: seq<T>, keys: seq<int>, k: int)
    requires |keys| == |s| && Distinct(keys)
    ensures Select(s, DiffersFromKey(keys, k)) ==
            match IndexOf(keys, k)
            case None => s
            case Some(i) => RemoveAt(s, i)
  {
    var m := DiffersFromKey(keys, k);
    match IndexOf(keys, k)
    case None =>
      SelectAll(s, m);
    case Some(i) =>
      var front, back := s[..i], s[i + 1..];
      var frontKeep, backKeep := m[..i], m[i + 1..];
      assert s == front + ([s[i]] + back);
      assert m == frontKeep + ([m[i]] + backKeep);
      SelectConcat(front, frontKeep, [s[i]] + back, [m[i]] + backKeep);
      assert ([s[i]] + back)[1..] == back;
      assert ([m[i]] + backKeep)[1..] == backKeep;
      assert Select([s[i]] + back, [m[i]] + backKeep) == Select(back, backKeep);
      forall j | 0 <= j < i ensures frontKeep[j] {
        assert keys[..i][j] == keys[j];
      }
      SelectAll(front, frontKeep);
      forall j | 0 <= j < |back| ensures backKeep[j] {
        assert keys[i + 1 + j] != keys[i];
      }
      SelectAll(back, backKeep);
  }

  /** Increasing values are distinct. */
  lemma StrictlyIncreasingDistinct(s: seq<int>)
    requires StrictlyIncreasing(s)
    ensures Distinct(s)
  {
  }

  /** Removing one value keeps the others increasing. */
  lemma StrictlyIncreasingRemoveAt(s: seq<int>, i: nat)
    requires i < |s| && StrictlyIncreasing(s)
    ensures StrictlyIncreasing(RemoveAt(s, i))
  {
  }

  /** A value above all of an increasing sequence extends it. */
  lemma StrictlyIncreasingSnoc(s: seq<int>, x: int)
    requires StrictlyIncreasing(s)
    requires forall y :: y in s ==> y < x
    ensures StrictlyIncreasing(s + [x])
  {
    var t := s + [x];
    forall a, b | 0 <= a < b < |t| ensures t[a] < t[b] {
      if b == |s| {
        assert t[a] == s[a] && s[a] in s;
      } else {
        assert t[a] == s[a] && t[b] == s[b];
      }
    }
  }
}
