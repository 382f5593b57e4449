/** The median pandas' `Series.median()` computes over the present values of a group. */
module Stats {

  predicate Sorted(s: seq<real>) {
    forall i, j :: 0 <= i < j < |s| ==> s[i] <= s[j]
  }

  /** Number of elements of `s` at most `m`. */
  function CountLe(s: seq<real>, m: real): (n: nat)
    ensures n <= |s|
  {
    if |s| == 0 then 0 else (if s[0] <= m then 1 else 0) + CountLe(s[1..], m)
  }

  /** Number of elements of `s` at least `m`. */
  function CountGe(s: seq<real>, m: real): (n: nat)
    ensures n <= |s|
  {
    if |s| == 0 then 0 else (if s[0] >= m then 1 else 0) + CountGe(s[1..], m)
  }

  /** `m` splits `s` in halves: at least half of `s` lies at or below `m`, and at
      least half at or above it. */
  ghost predicate IsMedian(s: seq<real>, m: real) {
    2 * CountLe(s, m) >= |s| && 2 * CountGe(s, m) >= |s|
  }

  function Insert(x: real, s: seq<real>): (r: seq<real>)
    requires Sorted(s)
    ensures Sorted(r) && |r| == |s| + 1
    ensures forall y :: y in r <==> y == x || y in s
    ensures multiset(r) == multiset(s) + multiset{x}
  {
    if |s| == 0 || x <= s[0] then [x] + s
    else
      var rest := Insert(x, s[1..]);
      assert forall k :: 0 <= k < |rest| ==> s[0] <= rest[k] by {
        forall k | 0 <= k < |rest|
          ensures s[0] <= rest[k]
        {
          assert rest[k] in rest;
          if rest[k] != x {
            var j :| 0 <= j < |s[1..]| && s[1..][j] == rest[k];
            assert s[j + 1] == rest[k];
          }
        }
      }
      assert s == [s[0]] + s[1..];
      [s[0]] + rest
  }

  /** Insertion sort. */
  function Sort(s: seq<real>): (r: seq<real>)
    ensures Sorted(r) && multiset(r) == multiset(s)
  {
    if |s| == 0 then []
    else
      assert s == [s[0]] + s[1..];
      Insert(s[0], Sort(s[1..]))
  }

  lemma SortedTail(a: seq<real>)
    requires |a| > 0 && Sorted(a)
    ensures Sorted(a[1..])
  {
  }

  lemma HeadTail(a: seq<real>)
    requires |a| > 0
    ensures multiset(a[1..]) == multiset(a) - multiset{a[0]}
  {
    assert a == [a[0]] + a[1..];
  }

  /** Two sorted arrangements of one multiset start with the same, least, element. */
  lemma SameHead(a: seq<real>, b: seq<real>)
    requires Sorted(a) && Sorted(b) && multiset(a) == multiset(b) && |a| > 0
    ensures |b| > 0 && a[0] == b[0]
  {
    assert |a| == |multiset(a)| == |multiset(b)| == |b|;
    assert a[0] in multiset(b) && b[0] in multiset(a);
    var j :| 0 <= j < |b| && b[j] == a[0];
    var k :| 0 <= k < |a| && a[k] == b[0];
    assert b[0] <= b[j] && a[0] <= a[k];
  }

  /** A multiset has one sorted arrangement: whichever sort produced it. */
  lemma {:induction false} SortedUnique(a: seq<real>, b: seq<real>)
    requires Sorted(a) && Sorted(b) && multiset(a) == multiset(b)
    ensures a == b
  {
    if |a| == 0 {
      assert |multiset(b)| == 0;
    } else {
      SameHead(a, b);
      HeadTail(a);
      HeadTail(b);
      SortedTail(a);
      SortedTail(b);
      SortedUnique(a[1..], b[1..]);
      assert a == [a[0]] + a[1..] && b == [b[0]] + b[1..];
    }
  }

  lemma {:induction false} InsertCounts(x: real, s: seq<real>, m: real)
    requires Sorted(s)
    ensures CountLe(Insert(x, s), m) == CountLe(s, m) + (if x <= m then 1 else 0)
    ensures CountGe(Insert(x, s), m) == CountGe(s, m) + (if x >= m then 1 else 0)
  {
    if |s| == 0 || x <= s[0] {
      assert ([x] + s)[1..] == s;
    } else {
      InsertCounts(x, s[1..], m);
      var r := Insert(x, s);
      assert r[0] == s[0] && r[1..] == Insert(x, s[1..]);
    }
  }

  /** Sorting moves elements but keeps how many lie on either side of any bound. */
  lemma {:induction false} SortCounts(s: seq<real>, m: real)
    ensures CountLe(Sort(s), m) == CountLe(s, m)
    ensures CountGe(Sort(s), m) == CountGe(s, m)
  {
    if |s| > 0 {
      SortCounts(s[1..], m);
      InsertCounts(s[0], Sort(s[1..]), m);
    }
  }

  /** A prefix of length `k` at or below `m` gives at least `k` such elements. */
  lemma {:induction false} CountLePrefix(s: seq<real>, m: real, k: nat)
    requires k <= |s|
    requires forall i :: 0 <= i < k ==> s[i] <= m
    ensures CountLe(s, m) >= k
  {
    if k > 0 {
      CountLePrefix(s[1..], m, k - 1);
    }
  }

  /** A suffix from `k` at or above `m` gives at least `|s| - k` such elements. */
  lemma {:induction false} CountGeSuffix(s: seq<real>, m: real, k: nat)
    requires k <= |s|
    requires forall i :: k <= i < |s| ==> s[i] >= m
    ensures CountGe(s, m) >= |s| - k
  {
    if |s| > 0 {
      CountGeSuffix(s[1..], m, if k == 0 then 0 else k - 1);
    }
  }

  /** A positive count is witnessed by an element. */
  lemma {:induction false} CountLeWitness(s: seq<real>, m: real)
    requires CountLe(s, m) > 0
    ensures exists i :: 0 <= i < |s| && s[i] <= m
  {
    if s[0] > m {
      CountLeWitness(s[1..], m);
      var i :| 0 <= i < |s[1..]| && s[1..][i] <= m;
      assert s[i + 1] <= m;
    }
  }

  lemma {:induction false} CountGeWitness(s: seq<real>, m: real)
    requires CountGe(s, m) > 0
    ensures exists i :: 0 <= i < |s| && s[i] >= m
  {
    if s[0] < m {
      CountGeWitness(s[1..], m);
      var i :| 0 <= i < |s[1..]| && s[1..][i] >= m;
      assert s[i + 1] >= m;
    }
  }

  /** The middle of a sorted sequence: its middle element, or the mean of its two
      middle elements when its length is even. */
  function Middle(r: seq<real>): real
    requires |r| > 0
  {
    var n := |r|;
    if n % 2 == 1 then r[n / 2] else (r[n / 2 - 1] + r[n / 2]) / 2.0
  }

  lemma MiddleSplits(r: seq<real>)
    requires |r| > 0 && Sorted(r)
    ensures 2 * CountLe(r, Middle(r)) >= |r| && 2 * CountGe(r, Middle(r)) >= |r|
  {
    var n := |r|;
    var h := n / 2;
    var m := Middle(r);
    if n % 2 == 1 {
      assert n == 2 * h + 1;
      assert m == r[h];
      assert forall i :: 0 <= i < h + 1 ==> r[i] <= m;
      assert forall i :: h <= i < n ==> r[i] >= m;
      CountLePrefix(r, m, h + 1);
      CountGeSuffix(r, m, h);
    } else {
      assert n == 2 * h && h >= 1;
      assert r[h - 1] <= m <= r[h];
      assert forall i :: 0 <= i < h ==> r[i] <= m;
      assert forall i :: h <= i < n ==> r[i] >= m;
      CountLePrefix(r, m, h);
      CountGeSuffix(r, m, h);
    }
  }

  /** Every sorted arrangement of `s` is `Sort(s)`. */
  lemma SortIsUnique(s: seq<real>)
    ensures forall r :: Sorted(r) && multiset(r) == multiset(s) ==> r == Sort(s)
  {
    forall r | Sorted(r) && multiset(r) == multiset(s)
      ensures r == Sort(s)
    {
      SortedUnique(Sort(s), r);
    }
  }

  /** pandas' median: the middle of the values once sorted, whichever way they
      are sorted. */
  function Median(s: seq<real>): (m: real)
    requires |s| > 0
    ensures IsMedian(s, m)
    ensures exists i :: 0 <= i < |s| && s[i] <= m
    ensures exists j :: 0 <= j < |s| && s[j] >= m
    ensures forall r :: Sorted(r) && multiset(r) == multiset(s) ==> |r| > 0 && m == Middle(r)
  {
    var m := Middle(Sort(s));
    SortIsUnique(s);
    MiddleSplits(Sort(s));
    SortCounts(s, m);
    CountLeWitness(s, m);
    CountGeWitness(s, m);
    m
  }
}
