/** Top-K bucketing of a high-cardinality categorical column: the K most frequent
    values are kept and every other row gets a sentinel. */
module TopK {
  import opened Wrappers
  import opened Values
  import opened Tables

  predicate NoDup<T(==)>(s: seq<T>) {
    forall i, j :: 0 <= i < j < |s| ==> s[i] != s[j]
  }

  function Min(a: int, b: int): int {
    if a <= b then a else b
  }

  /** A duplicate-free sequence has as many elements as its set. */
  lemma {:induction false} NoDupCard<T>(s: seq<T>)
    requires NoDup(s)
    ensures |set x | x in s| == |s|
  {
    if |s| > 0 {
      NoDupCard(s[1..]);
      assert (set x | x in s) == {s[0]} + (set x | x in s[1..]) by {
        assert s == [s[0]] + s[1..];
      }
    }
  }

  /** The distinct present values of a column (`value_counts().index`). */
  function Distinct(col: seq<Cell>): (r: seq<Value>)
    ensures NoDup(r)
    ensures forall v :: v in r <==> Some(v) in col
  {
    if |col| == 0 then []
    else
      var rest := Distinct(col[1..]);
      assert forall v :: Some(v) in col <==> col[0] == Some(v) || Some(v) in col[1..] by {
        assert col == [col[0]] + col[1..];
      }
      if col[0].Some? && col[0].value !in rest then [col[0].value] + rest else rest
  }

  lemma DistinctCard(col: seq<Cell>)
    ensures |Distinct(col)| == |Present(col)|
  {
    var d := Distinct(col);
    NoDupCard(d);
    assert (set x | x in d) == Present(col) by {
      forall v | v in Present(col) ensures v in d {
        var i :| 0 <= i < |col| && col[i].Some? && col[i].value == v;
        assert Some(v) == col[i];
      }
    }
  }

  /** `top` is what `value_counts().nlargest(k).index` may return, whatever order
      pandas gives to ties: `min(k, #distinct)` present values, none occurring
      less often than any value left out. */
  ghost predicate IsTopK(col: seq<Cell>, k: nat, top: set<Value>) {
    && top <= Present(col)
    && |top| == Min(k, |Present(col)|)
    && forall v, w :: v in top && w in Present(col) && w !in top ==> Count(col, v) >= Count(col, w)
  }

  /** The position of a most frequent candidate. */
  function ArgMax(cands: seq<Value>, col: seq<Cell>): (i: nat)
    requires |cands| > 0
    ensures i < |cands|
    ensures forall j :: 0 <= j < |cands| ==> Count(col, cands[j]) <= Count(col, cands[i])
  {
    if |cands| == 1 then 0
    else
      var i := ArgMax(cands[1..], col);
      if Count(col, cands[0]) >= Count(col, cands[i + 1]) then 0 else i + 1
  }

  function Remove(s: seq<Value>, i: nat): (r: seq<Value>)
    requires i < |s| && NoDup(s)
    ensures NoDup(r) && |r| == |s| - 1
    ensures forall x :: x in r <==> x in s && x != s[i]
  {
    var r := s[..i] + s[i + 1..];
    assert forall a :: 0 <= a < |r| ==> r[a] == if a < i then s[a] else s[a + 1];
    assert forall x :: x in s && x != s[i] ==> x in r by {
      forall x | x in s && x != s[i] ensures x in r {
        var a :| 0 <= a < |s| && s[a] == x;
        if a < i { assert r[a] == x; } else { assert r[a - 1] == x; }
      }
    }
    r
  }

  /** Repeatedly takes a most frequent remaining candidate, `k` times at most. */
  function SelectTop(cands: seq<Value>, col: seq<Cell>, k: nat): (top: set<Value>)
    requires NoDup(cands)
    ensures forall v :: v in top ==> v in cands
    ensures |top| == Min(k, |cands|)
    ensures forall v, w :: v in top && w in cands && w !in top ==> Count(col, v) >= Count(col, w)
    decreases |cands|
  {
    if k == 0 || |cands| == 0 then {}
    else
      var i := ArgMax(cands, col);
      var rest := SelectTop(Remove(cands, i), col, k - 1);
      assert cands[i] !in rest;
      {cands[i]} + rest
  }

  /** The kept values of a column: its `k` most frequent present values. */
  function TopValues(col: seq<Cell>, k: nat): (top: set<Value>)
    ensures IsTopK(col, k, top)
  {
    var d := Distinct(col);
    DistinctCard(col);
    var top := SelectTop(d, col, k);
    assert forall v :: v in d <==> v in Present(col) by {
      forall v | v in Present(col) ensures v in d {
        var i :| 0 <= i < |col| && col[i].Some? && col[i].value == v;
        assert Some(v) == col[i];
      }
    }
    top
  }

  /** `np.where(col.isin(top), col, sentinel)`: NaN is never in `top`. */
  function Bucket(col: seq<Cell>, top: set<Value>, sentinel: Value): (r: seq<Cell>)
    ensures |r| == |col|
    ensures forall i :: 0 <= i < |r| ==>
      r[i] == if col[i].Some? && col[i].value in top then col[i] else Some(sentinel)
  {
    seq(|col|, i requires 0 <= i < |col| => if col[i].Some? && col[i].value in top then col[i] else Some(sentinel))
  }

  /** The bucketed column has no missing cells and only kept values or the sentinel,
      so at most `k + 1` distinct values. */
  lemma BucketRange(col: seq<Cell>, k: nat, top: set<Value>, sentinel: Value)
    requires IsTopK(col, k, top)
    ensures forall i :: 0 <= i < |col| ==> Bucket(col, top, sentinel)[i].Some?
    ensures Present(Bucket(col, top, sentinel)) <= top + {sentinel}
    ensures |Present(Bucket(col, top, sentinel))| <= k + 1
  {
    var p := Present(Bucket(col, top, sentinel));
    SubsetCard(p, top + {sentinel});
  }

  lemma SubsetCard<T>(a: set<T>, b: set<T>)
    requires a <= b
    ensures |a| <= |b|
  {
    assert b == a + (b - a);
  }

  /** A kept value other than the sentinel occurs exactly as often after
      bucketing as before. */
  lemma {:induction false} BucketKeepsCount(col: seq<Cell>, top: set<Value>, sentinel: Value, v: Value)
    requires v in top && v != sentinel
    ensures Count(Bucket(col, top, sentinel), v) == Count(col, v)
  {
    if |col| > 0 {
      BucketKeepsCount(col[1..], top, sentinel, v);
      assert Bucket(col, top, sentinel)[1..] == Bucket(col[1..], top, sentinel);
    }
  }

  /** `df[target] = np.where(df[source].isin(top_k), df[source], sentinel)`. */
  function AddTopColumn(t: Table, source: ColName, target: ColName, k: nat, sentinel: Value): (u: Table)
    requires WellFormed(t) && source in t.cols
    ensures WellFormed(u) && |u.rows| == |t.rows| && u.cols == t.cols + {target}
    ensures Column(u, target) == Bucket(Column(t, source), TopValues(Column(t, source), k), sentinel)
    ensures forall d :: d in t.cols && d != target ==> SameColumn(t, u, d)
  {
    var col := Column(t, source);
    WithColumn(t, target, Bucket(col, TopValues(col, k), sentinel))
  }
}
