/** `Array.prototype.sort` with a descending numeric comparator
    (`(a, b) => key(b) - key(a)`), which is stable, and the database's
    `.order(column, { ascending: false })`; the ascending order of
    `.order(column, { ascending: true })` is the descending order of the
    negated key. */
module Sorting {

  /** Every element's key is at least the key of every later element. */
  predicate SortedDesc<T>(s: seq<T>, key: T -> int) {
    forall i, j :: 0 <= i < j < |s| ==> key(s[i]) >= key(s[j])
  }

  /** x placed before the first element whose key is not larger, so that it
      comes before the later elements with its key. */
  function InsertDesc<T>(x: T, s: seq<T>, key: T -> int): (r: seq<T>)
    ensures multiset(r) == multiset(s) + multiset{x}
    ensures SortedDesc(s, key) ==> SortedDesc(r, key)
  {
    if s == [] || key(s[0]) <= key(x) then [x] + s
    else
      var rest := InsertDesc(x, s[1..], key);
      InsertDescStep(x, s, key, rest);
      [s[0]] + rest
  }

  /** Keeping a larger head in front of the tail with x inserted keeps the
      elements and the order. */
  lemma InsertDescStep<T>(x: T, s: seq<T>, key: T -> int, rest: seq<T>)
    requires s != [] && key(s[0]) > key(x)
    requires multiset(rest) == multiset(s[1..]) + multiset{x}
    requires SortedDesc(s[1..], key) ==> SortedDesc(rest, key)
    ensures multiset([s[0]] + rest) == multiset(s) + multiset{x}
    ensures SortedDesc(s, key) ==> SortedDesc([s[0]] + rest, key)
  {
    assert s == [s[0]] + s[1..];
    BoundAfterInsert(x, s, key, rest);
    if SortedDesc(s, key) {
      assert SortedDesc(s[1..], key);
      var t := [s[0]] + rest;
      forall i, j | 0 <= i < j < |t| ensures key(t[i]) >= key(t[j]) {
        if i > 0 {
          assert t[i] == rest[i - 1] && t[j] == rest[j - 1];
        }
      }
    }
  }

  /** When s is in order and its head is larger than x, the head is at
      least every element of the tail with x inserted. */
  lemma BoundAfterInsert<T>(x: T, s: seq<T>, key: T -> int, rest: seq<T>)
    requires s != [] && key(s[0]) > key(x)
    requires multiset(rest) == multiset(s[1..]) + multiset{x}
    ensures SortedDesc(s, key) ==> forall i :: 0 <= i < |rest| ==> key(s[0]) >= key(rest[i])
  {
    if SortedDesc(s, key) {
      forall i | 0 <= i < |rest| ensures key(s[0]) >= key(rest[i]) {
        assert rest[i] in multiset(rest);
        if rest[i] != x {
          assert rest[i] in s[1..];
          var j :| 0 <= j < |s[1..]| && s[1..][j] == rest[i];
          assert s[j + 1] == rest[i];
        }
      }
    }
  }

  /** The elements ordered by descending key, elements with equal keys in
      their original order. */
  function SortDesc<T>(s: seq<T>, key: T -> int): (r: seq<T>)
    ensures multiset(r) == multiset(s)
    ensures |r| == |s|
    ensures SortedDesc(r, key)
  {
    if s == [] then []
    else
      assert s == [s[0]] + s[1..];
      InsertDesc(s[0], SortDesc(s[1..], key), key)
  }

  /** Sorting keeps exactly the elements it was given. */
  lemma SortDescMembership<T>(s: seq<T>, key: T -> int, x: T)
    ensures x in SortDesc(s, key) <==> x in s
  {
    assert x in SortDesc(s, key) <==> x in multiset(SortDesc(s, key));
    assert x in s <==> x in multiset(s);
  }

  /** A list that is already in order is left as it is. */
  lemma {:induction false} SortDescSorted<T>(s: seq<T>, key: T -> int)
    requires SortedDesc(s, key)
    ensures SortDesc(s, key) == s
  {
    if s != [] {
      assert SortedDesc(s[1..], key);
      SortDescSorted(s[1..], key);
    }
  }

  // ---------------------------------------------------------------- ascending

  /** Every element's key is at most the key of every later element. */
  predicate SortedAsc<T>(s: seq<T>, key: T -> int) {
    forall i, j :: 0 <= i < j < |s| ==> key(s[i]) <= key(s[j])
  }

  /** The elements ordered by ascending key, elements with equal keys in
      their original order. */
  function SortAsc<T>(s: seq<T>, key: T -> int): (r: seq<T>)
    ensures multiset(r) == multiset(s)
    ensures |r| == |s|
    ensures SortedAsc(r, key)
  {
    var r := SortDesc(s, (x: T) => -key(x));
    assert forall i, j :: 0 <= i < j < |r| ==> -key(r[i]) >= -key(r[j]);
    r
  }

  /** Sorting keeps exactly the elements it was given. */
  lemma SortAscMembership<T>(s: seq<T>, key: T -> int, x: T)
    ensures x in SortAsc(s, key) <==> x in s
  {
    assert x in SortAsc(s, key) <==> x in multiset(SortAsc(s, key));
    assert x in s <==> x in multiset(s);
  }
}
