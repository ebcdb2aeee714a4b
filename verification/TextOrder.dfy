// Byte-wise identifier order and the sorted views built on it.
module TextOrder {
  import opened Domain
  import opened Wrappers

  // `Ord` of identifier text: lexicographic over bytes.
  predicate Less(a: seq<byte>, b: seq<byte>) {
    if b == [] then false
    else if a == [] then true
    else if a[0] != b[0] then a[0] < b[0]
    else Less(a[1..], b[1..])
  }

  predicate AtMost(a: seq<byte>, b: seq<byte>) {
    a == b || Less(a, b)
  }

  lemma {:induction false} LessIrreflexive(a: seq<byte>)
    ensures !Less(a, a)
  {
    if a != [] {
      LessIrreflexive(a[1..]);
    }
  }

  // Any two texts are equal or ordered one way, and never both ways.
  lemma {:induction false} LessTotal(a: seq<byte>, b: seq<byte>)
    ensures a == b || Less(a, b) || Less(b, a)
    ensures !(Less(a, b) && Less(b, a))
  {
    if a != [] && b != [] && a[0] == b[0] {
      LessTotal(a[1..], b[1..]);
      assert a == [a[0]] + a[1..] && b == [b[0]] + b[1..];
    }
  }

  lemma {:induction false} LessTransitive(a: seq<byte>, b: seq<byte>, c: seq<byte>)
    requires Less(a, b) && Less(b, c)
    ensures Less(a, c)
  {
    if a != [] && a[0] == b[0] && b[0] == c[0] {
      LessTransitive(a[1..], b[1..], c[1..]);
    }
  }

  lemma AtMostTransitive(a: seq<byte>, b: seq<byte>, c: seq<byte>)
    requires AtMost(a, b) && AtMost(b, c)
    ensures AtMost(a, c)
  {
    if a != b && b != c {
      LessTransitive(a, b, c);
    }
  }

  ghost predicate SortedBy<T>(s: seq<T>, key: T -> seq<byte>) {
    forall i, j :: 0 <= i < j < |s| ==> AtMost(key(s[i]), key(s[j]))
  }

  function InsertSorted<T>(x: T, s: seq<T>, key: T -> seq<byte>): (r: seq<T>)
    ensures multiset(r) == multiset([x]) + multiset(s)
    ensures SortedBy(s, key) ==> SortedBy(r, key)
  {
    if s == [] then [x]
    else if AtMost(key(x), key(s[0])) then
      SortedHead(x, s, key);
      [x] + s
    else
      var rest := InsertSorted(x, s[1..], key);
      InsertedTail(x, s, rest, key);
      [s[0]] + rest
  }

  lemma SortedHead<T>(x: T, s: seq<T>, key: T -> seq<byte>)
    requires s != [] && AtMost(key(x), key(s[0]))
    ensures SortedBy(s, key) ==> SortedBy([x] + s, key)
  {
    if SortedBy(s, key) {
      forall i | 0 <= i < |s| ensures AtMost(key(x), key(s[i])) {
        if i > 0 {
          AtMostTransitive(key(x), key(s[0]), key(s[i]));
        }
      }
    }
  }

  lemma InsertedTail<T>(x: T, s: seq<T>, rest: seq<T>, key: T -> seq<byte>)
    requires s != [] && !AtMost(key(x), key(s[0]))
    requires multiset(rest) == multiset([x]) + multiset(s[1..])
    requires SortedBy(s[1..], key) ==> SortedBy(rest, key)
    ensures multiset([s[0]] + rest) == multiset([x]) + multiset(s)
    ensures SortedBy(s, key) ==> SortedBy([s[0]] + rest, key)
  {
    assert s == [s[0]] + s[1..];
    if SortedBy(s, key) {
      LessTotal(key(x), key(s[0]));
      forall i | 0 <= i < |rest| ensures AtMost(key(s[0]), key(rest[i])) {
        assert rest[i] in multiset(rest);
        if rest[i] != x {
          assert rest[i] in multiset(s[1..]);
          assert rest[i] in s[1..];
        }
      }
    }
  }

  function Sort<T>(s: seq<T>, key: T -> seq<byte>): (r: seq<T>)
    ensures multiset(r) == multiset(s)
    ensures SortedBy(r, key)
    ensures |r| == |s|
  {
    if s == [] then []
    else
      var r := InsertSorted(s[0], Sort(s[1..], key), key);
      assert s == [s[0]] + s[1..];
      SameCount(r, s);
      r
  }

  lemma SameCount<T>(a: seq<T>, b: seq<T>)
    requires multiset(a) == multiset(b)
    ensures |a| == |b|
  {
    assert |multiset(a)| == |a| && |multiset(b)| == |b|;
  }

  // `sort_unstable_by` on a slice. Callers know the result only as some sorted
  // rearrangement, so nothing proved about them depends on how ties fall.
  method SortUnstableBy<T>(a: array<T>, n: nat, key: T -> seq<byte>)
    requires n <= a.Length
    modifies a
    ensures multiset(a[..n]) == multiset(old(a[..n]))
    ensures SortedBy(a[..n], key)
    ensures a[n..] == old(a[n..])
  {
    var sorted := Sort(a[..n], key);
    forall i | 0 <= i < n {
      a[i] := sorted[i];
    }
    assert a[..n] == sorted;
  }

  // In a sorted sequence, equal keys at i < j force equal keys at i and i + 1.
  lemma EqualKeysAreAdjacent<T>(s: seq<T>, key: T -> seq<byte>, i: nat, j: nat)
    requires SortedBy(s, key) && i < j < |s| && key(s[i]) == key(s[j])
    ensures key(s[i]) == key(s[i + 1])
    ensures key(s[j - 1]) == key(s[j])
  {
    LessTotal(key(s[i]), key(s[i + 1]));
    LessTotal(key(s[j - 1]), key(s[j]));
    LessIrreflexive(key(s[i]));
  }

  // `slice::binary_search` over strictly sorted text.
  method BinarySearch(ids: seq<Text>, x: Text) returns (found: Option<nat>)
    requires SortedBy(ids, (t: Text) => t)
    ensures found.Some? ==> found.value < |ids| && ids[found.value] == x
    ensures found.None? ==> x !in ids
  {
    var lo, hi := 0, |ids|;
    while lo < hi
      invariant 0 <= lo <= hi <= |ids|
      invariant forall k :: 0 <= k < lo ==> ids[k] != x
      invariant forall k :: hi <= k < |ids| ==> ids[k] != x
    {
      var mid := (lo + hi) / 2;
      if ids[mid] == x {
        return Some(mid);
      }
      LessTotal(ids[mid], x);
      if Less(ids[mid], x) {
        forall k | lo <= k < mid ensures ids[k] != x {
          LessTotal(ids[k], ids[mid]);
        }
        lo := mid + 1;
      } else {
        hi := mid;
      }
    }
    found := None;
  }

  // Takes the least text out of a non-empty set, as a heap's pop does.
  method PopLeast(ready: set<seq<byte>>) returns (least: seq<byte>, rest: set<seq<byte>>)
    requires ready != {}
    ensures least in ready && rest == ready - {least}
    ensures forall n :: n in ready ==> AtMost(least, n)
  {
    var todo := ready;
    least :| least in ready;
    while todo != {}
      invariant todo <= ready && least in ready
      invariant forall n :: n in ready && n !in todo ==> AtMost(least, n)
      decreases todo
    {
      var n :| n in todo;
      todo := todo - {n};
      LessTotal(n, least);
      if Less(n, least) {
        forall m | m in ready && m !in todo ensures AtMost(n, m) {
          if m != n {
            AtMostTransitive(n, least, m);
          }
        }
        least := n;
      }
    }
    rest := ready - {least};
  }

  // `sorted` over a set: every element once, least first.
  method InOrder(texts: set<seq<byte>>) returns (listed: seq<seq<byte>>)
    ensures forall t :: t in listed <==> t in texts
    ensures forall i, j :: 0 <= i < j < |listed| ==> Less(listed[i], listed[j])
  {
    listed := [];
    var todo := texts;
    while todo != {}
      invariant todo <= texts
      invariant forall t :: t in listed <==> t in texts && t !in todo
      invariant forall i, j :: 0 <= i < j < |listed| ==> Less(listed[i], listed[j])
      invariant forall i, t :: 0 <= i < |listed| && t in todo ==> Less(listed[i], t)
      decreases todo
    {
      var least, rest := PopLeast(todo);
      listed := listed + [least];
      todo := rest;
    }
  }
}
