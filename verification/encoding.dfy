/** The categorical encodings of the feature engineering: top-K bucketing followed
    by one-hot encoding, and plain one-hot encoding of low-cardinality columns. */
module Encoding {
  import opened Wrappers
  import opened Values
  import opened Tables
  import opened Schema
  import opened TopK
  import OneHot

  /** The column `np.where(col.isin(top_k), col, sentinel)` makes of `col`. */
  function BucketTop(col: seq<Cell>, k: nat, sentinel: Value): seq<Cell> {
    Bucket(col, TopValues(col, k), sentinel)
  }

  /** Every indicator column of a bucketed column is for a kept value or for
      the sentinel. */
  lemma TopKCategories(target: Field, col: seq<Cell>, k: nat, sentinel: Value)
    ensures forall d :: d in OneHot.Indicators(target, BucketTop(col, k, sentinel)) ==>
      d.Dummy? && d.source == target && d.category in TopValues(col, k) + {sentinel}
  {
    var b := BucketTop(col, k, sentinel);
    var top := TopValues(col, k);
    BucketRange(col, k, top, sentinel);
    forall d | d in OneHot.Indicators(target, b)
      ensures d.Dummy? && d.source == target && d.category in top + {sentinel}
    {
      var cats := OneHot.Categories(b);
      var v :| v in OneHot.Kept(cats) && d == Dummy(target, v);
      assert v in cats;
      var i :| 0 <= i < |b| && b[i] == Some(v);
      assert v in Present(b);
    }
  }

  /** Top-K bucketing leaves at most `k` indicator columns: at most `k + 1`
      distinct bucketed values, less the dropped first one. */
  lemma TopKWidth(target: Field, col: seq<Cell>, k: nat, sentinel: Value)
    ensures |OneHot.Indicators(target, BucketTop(col, k, sentinel))| <= k
  {
    BucketRange(col, k, TopValues(col, k), sentinel);
    OneHot.EncodeWidth(target, BucketTop(col, k, sentinel));
  }

  /** In a frame holding the encoding of a bucketed column, the indicator of a
      kept category is set exactly in the rows holding it; a collapsed value (or
      NaN) sets the sentinel's indicator instead. */
  lemma TopKIndicatorMeaning(before: Table, u: Table, target: Field, col: seq<Cell>, k: nat, sentinel: Value, i: int, d: ColName)
    requires OneHot.EncodesAs(before, u, target, BucketTop(col, k, sentinel)) && 0 <= i < |col|
    ensures d in OneHot.Indicators(target, BucketTop(col, k, sentinel)) ==>
      && d in u.rows[i]
      && (u.rows[i][d] == Some(Num(1.0)) <==>
            if col[i].Some? && col[i].value in TopValues(col, k) then col[i] == Some(d.category)
            else d.category == sentinel)
  {
  }

  /** One top-K encoding step: `df[target] = np.where(df[source].isin(top), df[source],
      sentinel)` then `get_dummies(df, columns=[target], drop_first=True)`. `source`
      itself stays in the frame. */
  method EncodeTopK(t: Table, source: Field, target: Field, k: nat, sentinel: Value) returns (u: Table)
    requires WellFormed(t) && Col(source) in t.cols
    ensures WellFormed(u) && |u.rows| == |t.rows|
    ensures Replaces(t, u, {target})
    ensures OneHot.EncodesAs(t, u, target, BucketTop(Column(t, Col(source)), k, sentinel))
  {
    var t1 := AddTopColumn(t, Col(source), Col(target), k, sentinel);
    u := OneHot.Encode(t1, target);
    OneHot.EncodeReplaces(t1, target);
    ReplacesAfterSet(t, t1, u, target);
    OneHot.EncodeMeaning(t1, target);
    assert Adjusts(t, t1, {target}) by {
      forall d | d in t.cols && !Named(d, {target})
        ensures SameColumn(t, t1, d)
      {
      }
    }
    OneHot.EncodesAsAdjusted(t, t1, u, target, Column(t1, Col(target)), {target});
  }

  /** One bucketing: column `source` cut to its `k` most frequent values, the
      rest replaced by `sentinel`, written to column `target`. */
  datatype TopSpec = TopSpec(source: Field, target: Field, k: nat, sentinel: Value)

  /** The bucketed column of `s`, computed from frame `t`. */
  function SpecColumn(t: Table, s: TopSpec): seq<Cell>
    requires WellFormed(t) && Col(s.source) in t.cols
  {
    BucketTop(Column(t, Col(s.source)), s.k, s.sentinel)
  }

  /** The bucketed columns of `specs`. */
  function Targets(specs: seq<TopSpec>): set<Field> {
    set j | 0 <= j < |specs| :: specs[j].target
  }

  /** Sources present, no source an earlier (or later) target, no target twice. */
  ghost predicate ValidSpecs(t: Table, specs: seq<TopSpec>) {
    && (forall j :: 0 <= j < |specs| ==> Col(specs[j].source) in t.cols)
    && (forall j, k :: 0 <= j < |specs| && 0 <= k < |specs| ==> specs[j].source != specs[k].target)
    && (forall j, k :: 0 <= j < k < |specs| ==> specs[j].target != specs[k].target)
  }

  /** The top-K encodings of `specs`, in order. Each source must still be in the
      frame when its turn comes, so no source is a target. */
  method EncodeTopAll(t: Table, specs: seq<TopSpec>) returns (u: Table)
    requires WellFormed(t) && ValidSpecs(t, specs)
    ensures WellFormed(u) && Replaces(t, u, Targets(specs))
    ensures forall j :: 0 <= j < |specs| ==> OneHot.EncodesAs(t, u, specs[j].target, SpecColumn(t, specs[j]))
    decreases |specs|
  {
    if |specs| == 0 {
      ReplacesNothing(t);
      assert Targets(specs) == {};
      u := t;
    } else {
      var s := specs[0];
      var t1 := EncodeTopK(t, s.source, s.target, s.k, s.sentinel);
      var rest := specs[1..];
      ValidTail(t, t1, specs);
      u := EncodeTopAll(t1, rest);
      ReplacesTrans(t, t1, u, {s.target}, Targets(rest));
      TargetsCons(specs);
      TopAllStep(t, t1, u, specs);
    }
  }

  /** The encodings after the first still find valid sources once the first
      has run. */
  lemma ValidTail(t: Table, t1: Table, specs: seq<TopSpec>)
    requires |specs| > 0 && ValidSpecs(t, specs) && Replaces(t, t1, {specs[0].target})
    ensures ValidSpecs(t1, specs[1..])
  {
    var rest := specs[1..];
    forall j | 0 <= j < |rest|
      ensures Col(rest[j].source) in t1.cols
    {
      assert rest[j] == specs[j + 1];
      assert !Named(Col(rest[j].source), {specs[0].target});
    }
    assert forall j :: 0 <= j < |rest| ==> rest[j] == specs[j + 1];
  }

  lemma TargetsCons(specs: seq<TopSpec>)
    requires |specs| > 0
    ensures Targets(specs) == {specs[0].target} + Targets(specs[1..])
  {
    forall x | x in Targets(specs) ensures x in {specs[0].target} + Targets(specs[1..]) {
      var j :| 0 <= j < |specs| && specs[j].target == x;
      if j > 0 {
        assert specs[1..][j - 1].target == x;
      }
    }
  }

  /** The induction step of `EncodeTopAll`: the first encoding survives the
      later ones, and the later ones read the same sources from `t` as from `t1`. */
  lemma TopAllStep(t: Table, t1: Table, u: Table, specs: seq<TopSpec>)
    requires WellFormed(t) && WellFormed(t1) && |specs| > 0 && ValidSpecs(t, specs)
    requires Replaces(t, t1, {specs[0].target}) && OneHot.EncodesAs(t, t1, specs[0].target, SpecColumn(t, specs[0]))
    requires Replaces(t1, u, Targets(specs[1..]))
    requires forall j :: 0 <= j < |specs| - 1 ==>
      Col(specs[1..][j].source) in t1.cols && OneHot.EncodesAs(t1, u, specs[1..][j].target, SpecColumn(t1, specs[1..][j]))
    ensures forall j :: 0 <= j < |specs| ==> OneHot.EncodesAs(t, u, specs[j].target, SpecColumn(t, specs[j]))
  {
    var s := specs[0];
    forall j | 0 <= j < |specs|
      ensures OneHot.EncodesAs(t, u, specs[j].target, SpecColumn(t, specs[j]))
    {
      if j == 0 {
        assert s.target !in Targets(specs[1..]) by {
          forall l | 0 <= l < |specs| - 1
            ensures specs[1..][l].target != s.target
          {
            assert specs[1..][l] == specs[l + 1];
          }
        }
        OneHot.EncodesAsKept(t, t1, u, s.target, SpecColumn(t, s), Targets(specs[1..]));
      } else {
        var r := specs[j];
        assert specs[1..][j - 1] == r;
        ReplacesKeeps(t, t1, {s.target}, r.source);
        SameColumnRead(t, t1, Col(r.source));
        assert SpecColumn(t1, r) == SpecColumn(t, r);
        OneHot.EncodesAsFrom(t, t1, u, r.target, SpecColumn(t, r), {s.target});
      }
    }
  }

  /** The elements of a non-empty list: its head and the elements of its tail. */
  lemma ElementsCons<X>(xs: seq<X>)
    requires |xs| > 0
    ensures (set x | x in xs) == {xs[0]} + (set x | x in xs[1..])
  {
    forall y | y in xs
      ensures y == xs[0] || y in xs[1..]
    {
      var j :| 0 <= j < |xs| && xs[j] == y;
      if j > 0 {
        assert xs[1..][j - 1] == y;
      }
    }
  }

  /** `pd.get_dummies(df, columns=names, drop_first=True)`: each column in turn,
      each one-hot encoded from the cells it held in `t`. */
  function EncodeAll(t: Table, names: seq<Field>): (u: Table)
    requires WellFormed(t) && NoDup(names)
    requires forall j :: 0 <= j < |names| ==> Col(names[j]) in t.cols
    ensures WellFormed(u)
    ensures Replaces(t, u, set x | x in names)
    ensures forall j :: 0 <= j < |names| ==> OneHot.EncodesAs(t, u, names[j], Column(t, Col(names[j])))
    decreases |names|
  {
    if |names| == 0 then
      ReplacesNothing(t);
      t
    else
      var t1 := OneHot.Encode(t, names[0]);
      OneHot.EncodeReplaces(t, names[0]);
      OneHot.EncodeMeaning(t, names[0]);
      assert forall j :: 1 <= j < |names| ==> Col(names[j]) in t1.cols by {
        forall j | 1 <= j < |names| ensures Col(names[j]) in t1.cols {
          assert names[j] != names[0];
        }
      }
      assert NoDup(names[1..]);
      var u := EncodeAll(t1, names[1..]);
      ReplacesTrans(t, t1, u, {names[0]}, set x | x in names[1..]);
      ElementsCons(names);
      EncodeAllStep(t, t1, u, names);
      u
  }

  /** The induction step of `EncodeAll`. */
  lemma EncodeAllStep(t: Table, t1: Table, u: Table, names: seq<Field>)
    requires WellFormed(t) && WellFormed(t1) && |names| > 0 && NoDup(names)
    requires forall j :: 0 <= j < |names| ==> Col(names[j]) in t.cols
    requires Replaces(t, t1, {names[0]}) && OneHot.EncodesAs(t, t1, names[0], Column(t, Col(names[0])))
    requires Replaces(t1, u, set x | x in names[1..])
    requires forall j :: 0 <= j < |names| - 1 ==>
      Col(names[1..][j]) in t1.cols && OneHot.EncodesAs(t1, u, names[1..][j], Column(t1, Col(names[1..][j])))
    ensures forall j :: 0 <= j < |names| ==> OneHot.EncodesAs(t, u, names[j], Column(t, Col(names[j])))
  {
    forall j | 0 <= j < |names|
      ensures OneHot.EncodesAs(t, u, names[j], Column(t, Col(names[j])))
    {
      if j == 0 {
        assert names[0] !in (set x | x in names[1..]) by {
          forall l | 0 <= l < |names| - 1
            ensures names[1..][l] != names[0]
          {
            assert names[1..][l] == names[l + 1];
          }
        }
        OneHot.EncodesAsKept(t, t1, u, names[0], Column(t, Col(names[0])), set x | x in names[1..]);
      } else {
        var f := names[j];
        assert names[1..][j - 1] == f;
        assert f != names[0];
        ReplacesKeeps(t, t1, {names[0]}, f);
        SameColumnRead(t, t1, Col(f));
        OneHot.EncodesAsFrom(t, t1, u, f, Column(t, Col(f)), {names[0]});
      }
    }
  }
}
