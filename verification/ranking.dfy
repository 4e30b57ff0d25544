/** The exchange sort that orders strategies and scores, and what it leaves in place. */
module Ranking {
  ghost predicate Sorted<T>(s: seq<T>, key: T -> int) {
    forall i, j :: 0 <= i < j < |s| ==> key(s[i]) <= key(s[j])
  }

  /** Exchanging two elements from position i on permutes what is there. */
  lemma SwapPermutes<T>(s: seq<T>, i: nat, j: nat)
    requires i < j < |s|
    ensures multiset(s[i := s[j]][j := s[i]][i..]) == multiset(s[i..])
  {
    assert s[i := s[j]][j := s[i]][i..] == s[i..][0 := s[j]][j - i := s[i]];
  }

  lemma SplitPermutes<T>(s: seq<T>, r: seq<T>, i: nat)
    requires i <= |s| == |r|
    requires r[..i] == s[..i] && multiset(r[i..]) == multiset(s[i..])
    ensures multiset(r) == multiset(s)
  {
    assert s == s[..i] + s[i..] && r == r[..i] + r[i..];
  }

  /** The first n elements are in their final places. */
  ghost predicate Placed<T>(s: seq<T>, n: nat, key: T -> int) {
    forall a, b :: 0 <= a < n && a < b < |s| ==> key(s[a]) <= key(s[b])
  }

  lemma PlacedStep<T>(s: seq<T>, r: seq<T>, i: nat, key: T -> int)
    requires i < |s| == |r|
    requires Placed(s, i, key)
    requires r[..i] == s[..i] && multiset(r[i..]) == multiset(s[i..])
    requires forall k :: i <= k < |r| ==> key(r[i]) <= key(r[k])
    ensures Placed(r, i + 1, key)
  {
    forall a, b | 0 <= a < i && a < b < |r| ensures key(r[a]) <= key(r[b]) {
      assert r[a] == r[..i][a] == s[..i][a] == s[a];
      if b < i {
        assert r[b] == r[..i][b] == s[..i][b] == s[b];
      } else {
        assert r[b] == r[i..][b - i] && r[b] in multiset(s[i..]);
        var c :| 0 <= c < |s| - i && s[i..][c] == r[b];
        assert s[i + c] == r[b];
      }
    }
  }

  /** Each pass over the rest exchanges whatever is smaller than the element at its position. */
  method ExchangeSort<T(==)>(s: seq<T>, key: T -> int) returns (r: seq<T>)
    ensures Sorted(r, key)
    ensures multiset(r) == multiset(s) && |r| == |s|
  {
    r := s;
    var i := 0;
    while i < |r| - 1
      invariant |r| == |s| && 0 <= i && (|r| > 0 ==> i < |r|)
      invariant multiset(r) == multiset(s)
      invariant Placed(r, i, key)
    {
      ghost var before := r;
      r := SelectLeast(r, i, key);
      SplitPermutes(before, r, i);
      PlacedStep(before, r, i, key);
      i := i + 1;
    }
  }

  /** One pass: afterwards the element at i is a least one of those from i on. */
  method SelectLeast<T(==)>(s: seq<T>, i: nat, key: T -> int) returns (r: seq<T>)
    requires i < |s|
    ensures |r| == |s| && r[..i] == s[..i]
    ensures multiset(r[i..]) == multiset(s[i..])
    ensures forall k :: i <= k < |r| ==> key(r[i]) <= key(r[k])
  {
    r := s;
    var j := i + 1;
    while j < |r|
      invariant i < j <= |r| == |s|
      invariant r[..i] == s[..i]
      invariant multiset(r[i..]) == multiset(s[i..])
      invariant forall k :: i <= k < j ==> key(r[i]) <= key(r[k])
    {
      if key(r[i]) > key(r[j]) {
        SwapPermutes(r, i, j);
        r := r[i := r[j]][j := r[i]];
      }
      j := j + 1;
    }
  }

  /** Only one order sorts elements whose keys differ. */
  lemma {:induction false} SortedUnique<T>(a: seq<T>, b: seq<T>, key: T -> int)
    requires multiset(a) == multiset(b)
    requires forall i, j :: 0 <= i < j < |a| ==> key(a[i]) < key(a[j])
    requires Sorted(b, key)
    ensures a == b
  {
    assert |a| == |multiset(a)| == |multiset(b)| == |b|;
    if a != [] {
      SameFirst(a, b, key);
      DropFirst(a);
      DropFirst(b);
      SortedUnique(a[1..], b[1..], key);
    }
  }

  lemma SameFirst<T>(a: seq<T>, b: seq<T>, key: T -> int)
    requires a != [] && b != [] && multiset(a) == multiset(b)
    requires forall i, j :: 0 <= i < j < |a| ==> key(a[i]) < key(a[j])
    requires Sorted(b, key)
    ensures a[0] == b[0]
  {
    assert a[0] in multiset(b) && b[0] in multiset(a);
    var m :| 0 <= m < |b| && b[m] == a[0];
    var k :| 0 <= k < |a| && a[k] == b[0];
    assert key(b[0]) <= key(b[m]);
  }

  lemma DropFirst<T>(s: seq<T>)
    requires s != []
    ensures multiset(s[1..]) == multiset(s) - multiset{s[0]}
  {
    assert s == [s[0]] + s[1..];
  }
}
