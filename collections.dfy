/** The collection operations the foliage code performs with LINQ and List:
    `Where` (an order-preserving filter), "append unless already Contains" (a
    first-occurrence de-duplication) and `OrderBy` (a stable sort by an integer key). */
module Collections {

  datatype Option<T> = None | Some(value: T)

  // ------------------------------------------------------------------ Where

  /** The elements of s that satisfy p, in their original order. */
  function Filter<T>(s: seq<T>, p: T -> bool): (r: seq<T>)
    ensures |r| <= |s|
    ensures forall i :: 0 <= i < |r| ==> r[i] in s && p(r[i])
    ensures forall i :: 0 <= i < |s| && p(s[i]) ==> s[i] in r
  {
    if |s| == 0 then [] else (if p(s[0]) then [s[0]] else []) + Filter(s[1..], p)
  }

  /** Filtering distributes over concatenation: the relative order of kept elements is unchanged. */
  lemma {:induction false} FilterAppend<T>(a: seq<T>, b: seq<T>, p: T -> bool)
    ensures Filter(a + b, p) == Filter(a, p) + Filter(b, p)
  {
    if |a| == 0 {
      assert a + b == b;
    } else {
      assert (a + b)[0] == a[0];
      assert (a + b)[1..] == a[1..] + b;
      FilterAppend(a[1..], b, p);
    }
  }

  /** A filter that keeps nothing gives the empty sequence. */
  lemma FilterNone<T>(s: seq<T>, p: T -> bool)
    requires forall i :: 0 <= i < |s| ==> !p(s[i])
    ensures Filter(s, p) == []
  {
  }

  /** A filter that keeps everything is the identity. */
  lemma {:induction false} FilterAll<T>(s: seq<T>, p: T -> bool)
    requires forall i :: 0 <= i < |s| ==> p(s[i])
    ensures Filter(s, p) == s
  {
    if |s| > 0 {
      FilterAll(s[1..], p);
    }
  }

  // ------------------------------------------------------- Contains / Add

  predicate NoDuplicates<T(==)>(s: seq<T>)
  {
    forall i, j :: 0 <= i < j < |s| ==> s[i] != s[j]
  }

  /** The loop `foreach x in s: if (!list.Contains(x)) list.Add(x)` started from an empty list. */
  function Dedup<T(==)>(s: seq<T>): (r: seq<T>)
    ensures NoDuplicates(r)
    ensures forall i :: 0 <= i < |r| ==> r[i] in s
    ensures forall i :: 0 <= i < |s| ==> s[i] in r
    ensures |r| <= |s|
  {
    if |s| == 0 then []
    else
      var d := Dedup(s[..|s| - 1]);
      var x := s[|s| - 1];
      assert s == s[..|s| - 1] + [x];
      if x in d then d else d + [x]
  }

  /** One step of that loop, on a sequence extended at the end. */
  lemma DedupSnoc<T>(s: seq<T>, x: T)
    ensures Dedup(s + [x]) == if x in Dedup(s) then Dedup(s) else Dedup(s) + [x]
  {
    assert (s + [x])[..|s|] == s;
  }

  /** The same loop on a list that already holds d: each x of xs is added unless the list
      contains it. */
  function AddAbsent<T(==)>(d: seq<T>, xs: seq<T>): seq<T>
    decreases |xs|
  {
    if |xs| == 0 then d else AddAbsent(if xs[0] in d then d else d + [xs[0]], xs[1..])
  }

  /** Adding one more element at the end is the last step of the loop. */
  lemma {:induction false} AddAbsentSnoc<T>(d: seq<T>, xs: seq<T>, y: T)
    ensures AddAbsent(d, xs + [y]) == var e := AddAbsent(d, xs); if y in e then e else e + [y]
    decreases |xs|
  {
    if |xs| == 0 {
      assert xs + [y] == [y];
      assert [y][1..] == [];
    } else {
      assert (xs + [y])[0] == xs[0] && (xs + [y])[1..] == xs[1..] + [y];
      AddAbsentSnoc(if xs[0] in d then d else d + [xs[0]], xs[1..], y);
    }
  }

  /** Running the loop over xs and then over ys is running it over xs + ys. */
  lemma {:induction false} AddAbsentConcat<T>(d: seq<T>, xs: seq<T>, ys: seq<T>)
    ensures AddAbsent(d, xs + ys) == AddAbsent(AddAbsent(d, xs), ys)
    decreases |xs|
  {
    if |xs| == 0 {
      assert xs + ys == ys;
    } else {
      assert (xs + ys)[0] == xs[0] && (xs + ys)[1..] == xs[1..] + ys;
      AddAbsentConcat(if xs[0] in d then d else d + [xs[0]], xs[1..], ys);
    }
  }

  /** Started from an empty list, the loop computes Dedup. */
  lemma {:induction false} AddAbsentDedup<T>(s: seq<T>)
    ensures AddAbsent([], s) == Dedup(s)
    decreases |s|
  {
    if |s| > 0 {
      var p := s[..|s| - 1];
      assert s == p + [s[|s| - 1]];
      AddAbsentDedup(p);
      AddAbsentSnoc([], p, s[|s| - 1]);
    }
  }

  /** The position of the first occurrence of x in s. */
  function FirstIndex<T(==)>(s: seq<T>, x: T): (k: nat)
    requires x in s
    ensures k < |s| && s[k] == x
    ensures forall i :: 0 <= i < k ==> s[i] != x
  {
    if s[0] == x then 0 else 1 + FirstIndex(s[1..], x)
  }

  lemma {:induction false} FirstIndexPrefix<T>(s: seq<T>, n: nat, x: T)
    requires n <= |s| && x in s[..n]
    ensures FirstIndex(s, x) == FirstIndex(s[..n], x)
  {
    var k := FirstIndex(s[..n], x);
    assert s[k] == x;
  }

  predicate FirstOccurrenceOrder<T(==)>(s: seq<T>, r: seq<T>)
    requires forall i :: 0 <= i < |r| ==> r[i] in s
  {
    forall i, j :: 0 <= i < j < |r| ==> FirstIndex(s, r[i]) < FirstIndex(s, r[j])
  }

  /** An element of a prefix has the same first index in the whole sequence, and it lies in the prefix. */
  lemma FirstIndexSnoc<T>(p: seq<T>, x: T, y: T)
    requires y in p
    ensures FirstIndex(p + [x], y) == FirstIndex(p, y) < |p|
  {
    assert (p + [x])[..|p|] == p;
    FirstIndexPrefix(p + [x], |p|, y);
  }

  /** A new last element is first seen at the last position. */
  lemma FirstIndexOfNew<T>(p: seq<T>, x: T)
    requires x !in p
    ensures FirstIndex(p + [x], x) == |p|
  {
  }

  lemma DedupOrderSnoc<T>(p: seq<T>, x: T, i: nat, j: nat)
    requires FirstOccurrenceOrder(p, Dedup(p))
    requires i < j < |Dedup(p + [x])|
    ensures FirstIndex(p + [x], Dedup(p + [x])[i]) < FirstIndex(p + [x], Dedup(p + [x])[j])
  {
    var d := Dedup(p);
    var r := Dedup(p + [x]);
    DedupSnoc(p, x);
    assert r[i] == d[i] && d[i] in p;
    FirstIndexSnoc(p, x, d[i]);
    if j < |d| {
      assert r[j] == d[j] && d[j] in p;
      FirstIndexSnoc(p, x, d[j]);
    } else {
      assert x !in d && r[j] == x;
      FirstIndexOfNew(p, x);
    }
  }

  /** The de-duplicated sequence lists the elements in the order of their first occurrence. */
  lemma {:induction false} DedupFirstOccurrenceOrder<T>(s: seq<T>)
    ensures FirstOccurrenceOrder(s, Dedup(s))
  {
    if |s| > 0 {
      var n := |s| - 1;
      DedupFirstOccurrenceOrder(s[..n]);
      assert s == s[..n] + [s[n]];
      forall i, j | 0 <= i < j < |Dedup(s)|
        ensures FirstIndex(s, Dedup(s)[i]) < FirstIndex(s, Dedup(s)[j])
      {
        DedupOrderSnoc(s[..n], s[n], i, j);
      }
    }
  }

  // ---------------------------------------------------------------- OrderBy

  predicate SortedBy<T>(s: seq<T>, key: T -> int)
  {
    forall i, j :: 0 <= i < j < |s| ==> key(s[i]) <= key(s[j])
  }

  /** Insert x after every element whose key is at most key(x). */
  function Insert<T>(t: seq<T>, x: T, key: T -> int): (r: seq<T>)
    ensures |r| == |t| + 1
    ensures multiset(r) == multiset(t) + multiset{x}
  {
    if |t| == 0 then [x]
    else if key(x) < key(t[0]) then [x] + t
    else
      assert t == [t[0]] + t[1..];
      [t[0]] + Insert(t[1..], x, key)
  }

  /** A lower bound of every key of t and of x's key bounds every key after the insertion. */
  lemma {:induction false} InsertLowerBound<T>(t: seq<T>, x: T, key: T -> int, b: int)
    requires forall i :: 0 <= i < |t| ==> b <= key(t[i])
    requires b <= key(x)
    ensures forall i :: 0 <= i < |Insert(t, x, key)| ==> b <= key(Insert(t, x, key)[i])
  {
    if |t| > 0 && key(t[0]) <= key(x) {
      var tail := t[1..];
      assert forall i :: 0 <= i < |tail| ==> tail[i] == t[i + 1];
      InsertLowerBound(tail, x, key, b);
      assert Insert(t, x, key) == [t[0]] + Insert(tail, x, key);
    }
  }

  /** Inserting into a sorted sequence keeps it sorted. */
  lemma {:induction false} InsertSorted<T>(t: seq<T>, x: T, key: T -> int)
    requires SortedBy(t, key)
    ensures SortedBy(Insert(t, x, key), key)
  {
    if |t| > 0 && key(t[0]) <= key(x) {
      var tail := t[1..];
      assert forall i :: 0 <= i < |tail| ==> tail[i] == t[i + 1];
      InsertSorted(tail, x, key);
      InsertLowerBound(tail, x, key, key(t[0]));
      var rest := Insert(tail, x, key);
      var r := Insert(t, x, key);
      assert r == [t[0]] + rest;
      assert forall i :: 1 <= i < |r| ==> r[i] == rest[i - 1];
    } else if |t| > 0 {
      var r := Insert(t, x, key);
      assert r == [x] + t;
      assert forall i :: 1 <= i < |r| ==> r[i] == t[i - 1];
    }
  }

  /** LINQ OrderBy: a stable insertion sort by key. */
  function SortBy<T>(s: seq<T>, key: T -> int): (r: seq<T>)
    ensures |r| == |s|
    ensures SortedBy(r, key)
    ensures multiset(r) == multiset(s)
  {
    if |s| == 0 then []
    else
      assert s == s[..|s| - 1] + [s[|s| - 1]];
      var sorted := SortBy(s[..|s| - 1], key);
      InsertSorted(sorted, s[|s| - 1], key);
      Insert(sorted, s[|s| - 1], key)
  }

  /** The elements with key k. */
  function KeyIs<T>(key: T -> int, k: int): T -> bool
  {
    y => key(y) == k
  }

  /** Inserting in front of larger keys: nothing of t has x's key when x's key is k. */
  lemma InsertStableFront<T>(t: seq<T>, x: T, key: T -> int, k: int)
    requires SortedBy(t, key) && |t| > 0 && key(x) < key(t[0])
    ensures Filter([x] + t, KeyIs(key, k)) == Filter(t, KeyIs(key, k)) + Filter([x], KeyIs(key, k))
  {
    var p := KeyIs(key, k);
    FilterAppend([x], t, p);
    if key(x) == k {
      forall i | 0 <= i < |t| ensures !p(t[i]) {
        assert key(t[0]) <= key(t[i]);
      }
      FilterNone(t, p);
    } else {
      assert Filter([x], p) == [];
    }
  }

  lemma {:induction false} InsertStable<T>(t: seq<T>, x: T, key: T -> int, k: int)
    requires SortedBy(t, key)
    ensures Filter(Insert(t, x, key), KeyIs(key, k))
            == Filter(t, KeyIs(key, k)) + Filter([x], KeyIs(key, k))
  {
    var p := KeyIs(key, k);
    if |t| == 0 {
      assert Insert(t, x, key) == [x];
      assert Filter(t, p) == [];
    } else if key(x) < key(t[0]) {
      assert Insert(t, x, key) == [x] + t;
      InsertStableFront(t, x, key, k);
    } else {
      var rest := Insert(t[1..], x, key);
      assert Insert(t, x, key) == [t[0]] + rest;
      assert t == [t[0]] + t[1..];
      InsertStable(t[1..], x, key, k);
      FilterAppend([t[0]], rest, p);
      FilterAppend([t[0]], t[1..], p);
    }
  }

  /** OrderBy is stable: the elements sharing a key keep their relative order. */
  lemma {:induction false} SortStable<T>(s: seq<T>, key: T -> int, k: int)
    ensures Filter(SortBy(s, key), KeyIs(key, k)) == Filter(s, KeyIs(key, k))
  {
    if |s| > 0 {
      var n := |s| - 1;
      var p := KeyIs(key, k);
      var sorted := SortBy(s[..n], key);
      calc {
        Filter(SortBy(s, key), p);
        Filter(Insert(sorted, s[n], key), p);
        { InsertStable(sorted, s[n], key, k); }
        Filter(sorted, p) + Filter([s[n]], p);
        { SortStable(s[..n], key, k); }
        Filter(s[..n], p) + Filter([s[n]], p);
        { FilterAppend(s[..n], [s[n]], p); }
        Filter(s[..n] + [s[n]], p);
        { assert s[..n] + [s[n]] == s; }
        Filter(s, p);
      }
    }
  }
}
