/**
 * Byte-wise string order and a sort by a string key: the model of PHP's
 * `sort` on a list of file names and of `ksort` on a key/value array.
 */
module Sorting {

  /** String order, character by character; a proper prefix comes first. */
  predicate LexLeq(a: string, b: string)
    decreases |a|
  {
    a == [] || (b != [] && (a[0] < b[0] || (a[0] == b[0] && LexLeq(a[1..], b[1..]))))
  }

  lemma {:induction false} LexLeqTotal(a: string, b: string)
    ensures LexLeq(a, b) || LexLeq(b, a)
    decreases |a|
  {
    if a != [] && b != [] && a[0] == b[0] {
      LexLeqTotal(a[1..], b[1..]);
    }
  }

  lemma {:induction false} LexLeqTransitive(a: string, b: string, c: string)
    requires LexLeq(a, b) && LexLeq(b, c)
    ensures LexLeq(a, c)
    decreases |a|
  {
    if a != [] && a[0] == b[0] && b[0] == c[0] {
      LexLeqTransitive(a[1..], b[1..], c[1..]);
    }
  }

  lemma {:induction false} LexLeqAntisymmetric(a: string, b: string)
    requires LexLeq(a, b) && LexLeq(b, a)
    ensures a == b
    decreases |a|
  {
    if a != [] {
      LexLeqAntisymmetric(a[1..], b[1..]);
      assert a == [a[0]] + a[1..] && b == [b[0]] + b[1..];
    }
  }

  /** A common prefix does not change the order. */
  lemma {:induction false} LexLeqPrefix(p: string, a: string, b: string)
    ensures LexLeq(p + a, p + b) <==> LexLeq(a, b)
    decreases |p|
  {
    if p != [] {
      assert (p + a)[0] == p[0] == (p + b)[0];
      assert (p + a)[1..] == p[1..] + a && (p + b)[1..] == p[1..] + b;
      LexLeqPrefix(p[1..], a, b);
    } else {
      assert p + a == a && p + b == b;
    }
  }

  /** Every earlier element's key is at most every later element's key. */
  ghost predicate SortedBy<T>(s: seq<T>, key: T -> string) {
    forall i, j :: 0 <= i < j < |s| ==> LexLeq(key(s[i]), key(s[j]))
  }

  /** Puts `x` in front of the first element whose key is not smaller. */
  function InsertBy<T>(x: T, s: seq<T>, key: T -> string): (r: seq<T>)
    ensures |r| == |s| + 1
  {
    if s == [] then [x]
    else if LexLeq(key(x), key(s[0])) then [x] + s
    else [s[0]] + InsertBy(x, s[1..], key)
  }

  /** Inserting adds `x` and loses nothing. */
  lemma {:induction false} InsertByPermutes<T>(x: T, s: seq<T>, key: T -> string)
    ensures multiset(InsertBy(x, s, key)) == multiset(s) + multiset{x}
  {
    if s != [] && !LexLeq(key(x), key(s[0])) {
      InsertByPermutes(x, s[1..], key);
      assert s == [s[0]] + s[1..];
    }
  }

  /** Insertion sort by `key`. */
  function SortBy<T>(s: seq<T>, key: T -> string): (r: seq<T>)
    ensures |r| == |s|
  {
    if s == [] then [] else InsertBy(s[0], SortBy(s[1..], key), key)
  }

  /** A bound below `x` and below every element of `s` stays below the insertion. */
  lemma InsertByBounded<T>(x: T, s: seq<T>, key: T -> string, b: string)
    requires LexLeq(b, key(x))
    requires forall i :: 0 <= i < |s| ==> LexLeq(b, key(s[i]))
    ensures forall j :: 0 <= j < |InsertBy(x, s, key)| ==> LexLeq(b, key(InsertBy(x, s, key)[j]))
  {
    var t := InsertBy(x, s, key);
    InsertByPermutes(x, s, key);
    forall j | 0 <= j < |t| ensures LexLeq(b, key(t[j])) {
      // t[j] is either x or an element of s
      assert t[j] in multiset(t) && t[j] in multiset(s) + multiset{x};
      if t[j] in s {
        var k :| 0 <= k < |s| && s[k] == t[j];
      }
    }
  }

  lemma {:induction false} InsertBySorted<T>(x: T, s: seq<T>, key: T -> string)
    requires SortedBy(s, key)
    ensures SortedBy(InsertBy(x, s, key), key)
  {
    var r := InsertBy(x, s, key);
    if s == [] {
    } else if LexLeq(key(x), key(s[0])) {
      forall i, j | 0 <= i < j < |r| ensures LexLeq(key(r[i]), key(r[j])) {
        if i == 0 {
          if j > 1 { LexLeqTransitive(key(x), key(s[0]), key(s[j - 1])); }
        } else {
          assert r[i] == s[i - 1] && r[j] == s[j - 1];
        }
      }
    } else {
      var t := InsertBy(x, s[1..], key);
      InsertBySorted(x, s[1..], key);
      LexLeqTotal(key(x), key(s[0]));
      assert forall i :: 0 <= i < |s[1..]| ==> s[1..][i] == s[i + 1];
      InsertByBounded(x, s[1..], key, key(s[0]));
      forall i, j | 0 <= i < j < |r| ensures LexLeq(key(r[i]), key(r[j])) {
        if i == 0 {
          assert r[j] == t[j - 1];
        } else {
          assert r[i] == t[i - 1] && r[j] == t[j - 1];
        }
      }
    }
  }

  /** SortBy yields a permutation of its input, ordered by key. */
  lemma {:induction false} SortBySorted<T>(s: seq<T>, key: T -> string)
    ensures SortedBy(SortBy(s, key), key)
    ensures multiset(SortBy(s, key)) == multiset(s)
  {
    if s != [] {
      SortBySorted(s[1..], key);
      InsertBySorted(s[0], SortBy(s[1..], key), key);
      InsertByPermutes(s[0], SortBy(s[1..], key), key);
      assert s == [s[0]] + s[1..];
    }
  }

  // ---------------------------------------------------------------------------
  // ksort

  /** The key of a key/value pair. */
  function KeyOf(kv: (string, string)): string { kv.0 }

  /** `InsertBy` on pairs, keyed by their first component. */
  function KeyInsert(x: (string, string), s: seq<(string, string)>): (r: seq<(string, string)>)
    ensures |r| == |s| + 1
  {
    if s == [] then [x]
    else if LexLeq(x.0, s[0].0) then [x] + s
    else [s[0]] + KeyInsert(x, s[1..])
  }

  /** `ksort`: the pairs of an array, ordered by key. */
  function KeySort(s: seq<(string, string)>): (r: seq<(string, string)>)
    ensures |r| == |s|
  {
    if s == [] then [] else KeyInsert(s[0], KeySort(s[1..]))
  }

  lemma {:induction false} KeyInsertIsInsertBy(x: (string, string), s: seq<(string, string)>)
    ensures KeyInsert(x, s) == InsertBy(x, s, KeyOf)
  {
    if s != [] && !LexLeq(x.0, s[0].0) {
      KeyInsertIsInsertBy(x, s[1..]);
    }
  }

  /** `ksort` is the sort of the pairs by their key. */
  lemma {:induction false} KeySortIsSortBy(s: seq<(string, string)>)
    ensures KeySort(s) == SortBy(s, KeyOf)
  {
    if s != [] {
      KeySortIsSortBy(s[1..]);
      KeyInsertIsInsertBy(s[0], KeySort(s[1..]));
    }
  }

  /** The sorted pairs are ordered by key and are the array's pairs. */
  lemma KeySortSpec(s: seq<(string, string)>)
    ensures SortedBy(KeySort(s), KeyOf)
    ensures multiset(KeySort(s)) == multiset(s)
  {
    KeySortIsSortBy(s);
    SortBySorted(s, KeyOf);
  }
}
