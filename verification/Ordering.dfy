/** Sorting by a comparison, as the standard library does it, and the byte-wise order of strings. */
module Ordering {
  function Min(a: int, b: int): int {
    if a <= b then a else b
  }

  /** A comparison that puts any two values in some order, consistently. */
  ghost predicate TotalPreorder<T(!new)>(leq: (T, T) -> bool) {
    && (forall a, b :: leq(a, b) || leq(b, a))
    && (forall a, b, c :: leq(a, b) && leq(b, c) ==> leq(a, c))
  }

  ghost predicate SortedBy<T>(leq: (T, T) -> bool, s: seq<T>) {
    forall i, j :: 0 <= i < j < |s| ==> leq(s[i], s[j])
  }

  function Insert<T>(leq: (T, T) -> bool, x: T, s: seq<T>): seq<T> {
    if s == [] then [x]
    else if leq(x, s[0]) then [x] + s
    else [s[0]] + Insert(leq, x, s[1..])
  }

  /** A stable sort. */
  function Sort<T>(leq: (T, T) -> bool, s: seq<T>): seq<T> {
    if s == [] then [] else Insert(leq, s[0], Sort(leq, s[1..]))
  }

  lemma {:induction false} InsertAdds<T>(leq: (T, T) -> bool, x: T, s: seq<T>)
    ensures multiset(Insert(leq, x, s)) == multiset{x} + multiset(s)
    decreases |s|
  {
    if s != [] {
      assert s == [s[0]] + s[1..];
      if !leq(x, s[0]) {
        InsertAdds(leq, x, s[1..]);
      }
    }
  }

  lemma {:induction false} InsertSorts<T(!new)>(leq: (T, T) -> bool, x: T, s: seq<T>)
    requires TotalPreorder(leq) && SortedBy(leq, s)
    ensures SortedBy(leq, Insert(leq, x, s))
    decreases |s|
  {
    if s != [] && !leq(x, s[0]) {
      InsertSorts(leq, x, s[1..]);
      var rest := Insert(leq, x, s[1..]);
      InsertAdds(leq, x, s[1..]);
      forall k | 0 <= k < |rest| ensures leq(s[0], rest[k]) {
        assert rest[k] in multiset(rest);
        assert rest[k] == x || rest[k] in s[1..];
      }
    }
  }

  lemma {:induction false} SortPermutes<T>(leq: (T, T) -> bool, s: seq<T>)
    ensures multiset(Sort(leq, s)) == multiset(s) && |Sort(leq, s)| == |s|
    decreases |s|
  {
    if s != [] {
      SortPermutes(leq, s[1..]);
      InsertAdds(leq, s[0], Sort(leq, s[1..]));
      assert s == [s[0]] + s[1..];
      assert |Sort(leq, s)| == |multiset(Sort(leq, s))|;
    }
  }

  lemma {:induction false} SortSorts<T(!new)>(leq: (T, T) -> bool, s: seq<T>)
    requires TotalPreorder(leq)
    ensures SortedBy(leq, Sort(leq, s))
    decreases |s|
  {
    if s != [] {
      SortSorts(leq, s[1..]);
      InsertSorts(leq, s[0], Sort(leq, s[1..]));
    }
  }

  lemma SortMembers<T>(leq: (T, T) -> bool, s: seq<T>)
    ensures forall x :: x in Sort(leq, s) <==> x in s
  {
    SortPermutes(leq, s);
    forall x ensures x in Sort(leq, s) <==> x in s {
      assert x in Sort(leq, s) <==> x in multiset(Sort(leq, s));
      assert x in s <==> x in multiset(s);
    }
  }

  // ----- bytes -----

  type Byte = b: int | 0 <= b < 256

  type Bytes = seq<Byte>

  /** Byte-wise lexicographic order. */
  predicate LexLess(a: Bytes, b: Bytes) {
    b != [] && (a == [] || a[0] < b[0] || (a[0] == b[0] && LexLess(a[1..], b[1..])))
  }

  predicate LexLeq(a: Bytes, b: Bytes) {
    a == b || LexLess(a, b)
  }

  lemma {:induction false} LexTrichotomy(a: Bytes, b: Bytes)
    ensures (a == b && !LexLess(a, b) && !LexLess(b, a))
         || (a != b && LexLess(a, b) && !LexLess(b, a))
         || (a != b && !LexLess(a, b) && LexLess(b, a))
    decreases |a|
  {
    if a != [] && b != [] && a[0] == b[0] {
      LexTrichotomy(a[1..], b[1..]);
      assert a == [a[0]] + a[1..] && b == [b[0]] + b[1..];
    }
  }

  lemma {:induction false} LexTransitive(a: Bytes, b: Bytes, c: Bytes)
    requires LexLess(a, b) && LexLess(b, c)
    ensures LexLess(a, c)
    decreases |a|
  {
    if a != [] && a[0] == b[0] && b[0] == c[0] {
      LexTransitive(a[1..], b[1..], c[1..]);
    }
  }

  /** The lists have the same first k elements. */
  ghost predicate AgreeUpTo<T>(a: seq<T>, b: seq<T>, k: nat) {
    k <= |a| && k <= |b| && a[..k] == b[..k]
  }

  lemma AgreeOfNext<T>(a: seq<T>, b: seq<T>, k: nat)
    requires a != [] && b != []
    ensures AgreeUpTo(a, b, k + 1) <==> a[0] == b[0] && AgreeUpTo(a[1..], b[1..], k)
  {
    if AgreeUpTo(a, b, k + 1) {
      assert a[..k + 1][0] == b[..k + 1][0];
      assert a[1..][..k] == a[..k + 1][1..] && b[1..][..k] == b[..k + 1][1..];
    }
    if a[0] == b[0] && AgreeUpTo(a[1..], b[1..], k) {
      assert a[..k + 1] == [a[0]] + a[1..][..k] && b[..k + 1] == [b[0]] + b[1..][..k];
    }
  }

  /** At place k, up to which the lists agree, either the first one ends or its element is the lesser. */
  ghost predicate LessAt<T>(less: (T, T) -> bool, a: seq<T>, b: seq<T>, k: nat) {
    AgreeUpTo(a, b, k) && k < |b| && (k == |a| || less(a[k], b[k]))
  }

  /** The first list is a proper beginning of the second, or lesser where they first differ. */
  ghost predicate LessByFirstDifference<T>(less: (T, T) -> bool, a: seq<T>, b: seq<T>) {
    exists k: nat :: LessAt(less, a, b, k)
  }

  lemma FirstDifferenceOfNext<T>(less: (T, T) -> bool, a: seq<T>, b: seq<T>)
    ensures LessByFirstDifference(less, a, b)
       <==> b != [] && (a == [] || less(a[0], b[0]) || (a[0] == b[0] && LessByFirstDifference(less, a[1..], b[1..])))
  {
    if k: nat :| LessAt(less, a, b, k) {
      if k > 0 {
        AgreeOfNext(a, b, k - 1);
        assert LessAt(less, a[1..], b[1..], k - 1);
      }
    }
    if b != [] && (a == [] || less(a[0], b[0])) {
      assert LessAt(less, a, b, 0);
    }
    if a != [] && b != [] && a[0] == b[0] {
      if k: nat :| LessAt(less, a[1..], b[1..], k) {
        AgreeOfNext(a, b, k);
        assert LessAt(less, a, b, k + 1);
      }
    }
  }

  function ByteLess(): (Byte, Byte) -> bool {
    (x: Byte, y: Byte) => x < y
  }

  /** The byte-wise order goes by the first difference. */
  lemma {:induction false} LexLessByFirstDifference(a: Bytes, b: Bytes)
    ensures LexLess(a, b) <==> LessByFirstDifference(ByteLess(), a, b)
    decreases |a|
  {
    FirstDifferenceOfNext(ByteLess(), a, b);
    if a != [] && b != [] {
      LexLessByFirstDifference(a[1..], b[1..]);
    }
  }
}
