/**
  The index lists published posts newest first: `sort.Slice` with a
  comparator that puts a post before another when its modification time is
  later. The sort is not stable, so posts with equal times come in some
  order the model does not fix.
 */
module Ordering {
  /** Later modification times come first; every pair of positions agrees. */
  predicate Descending(s: seq<string>, mtime: map<string, int>) {
    forall i, j :: 0 <= i < j < |s| && s[i] in mtime && s[j] in mtime ==> mtime[s[i]] >= mtime[s[j]]
  }

  /**
    Sorts the listing in place by descending modification time, by
    insertion: each entry is swapped towards the front past every entry
    that is strictly older.
   */
  method SortNewestFirst(a: array<string>, mtime: map<string, int>)
    requires forall k :: 0 <= k < a.Length ==> a[k] in mtime
    modifies a
    ensures Descending(a[..], mtime)
    ensures multiset(a[..]) == multiset(old(a[..]))
  {
    var i := 0;
    while i < a.Length
      invariant 0 <= i <= a.Length
      invariant forall k :: 0 <= k < a.Length ==> a[k] in mtime
      invariant forall p, q :: 0 <= p < q < i ==> mtime[a[p]] >= mtime[a[q]]
      invariant multiset(a[..]) == multiset(old(a[..]))
    {
      var j := i;
      while j > 0 && mtime[a[j - 1]] < mtime[a[j]]
        invariant 0 <= j <= i
        invariant forall k :: 0 <= k < a.Length ==> a[k] in mtime
        invariant forall p, q :: 0 <= p < q <= i && p != j && q != j ==> mtime[a[p]] >= mtime[a[q]]
        invariant forall q :: j < q <= i ==> mtime[a[j]] > mtime[a[q]]
        invariant multiset(a[..]) == multiset(old(a[..]))
      {
        a[j - 1], a[j] := a[j], a[j - 1];
        j := j - 1;
      }
      i := i + 1;
    }
  }

  /**
    Three posts with modification times 100, 300 and 200 are listed as the
    one from 300, then 200, then 100: with distinct times the order is
    forced.
   */
  lemma NewestFirstExample(s: seq<string>, a: string, b: string, c: string)
    requires a != b && b != c && a != c
    requires multiset(s) == multiset{a, b, c}
    requires Descending(s, map[a := 100, b := 300, c := 200])
    ensures s == [b, c, a]
  {
    var mtime := map[a := 100, b := 300, c := 200];
    assert |s| == 3 by {
      assert |multiset(s)| == |s|;
    }
    assert a in multiset(s) && b in multiset(s) && c in multiset(s);
    assert forall x :: x in s ==> x in multiset{a, b, c};
    var i :| 0 <= i < 3 && s[i] == b;
    var k :| 0 <= k < 3 && s[k] == a;
    var j :| 0 <= j < 3 && s[j] == c;
    assert i == 0 && k == 2 && j == 1;
  }
}
