/** `initiate_data_transformation`: both frames through `feature_engineering`,
    then each split into the feature frame `X` and the target column `y`. Reading
    and writing the CSV files is left out; the saved frame is `X` with `y`
    concatenated back, which `SplitRecombine` shows is the transformed frame. */
module Pipeline {
  import opened Wrappers
  import opened Values
  import opened Tables
  import opened Schema
  import opened Derived
  import opened Transformation

  /** The regression target, `taxvaluedollarcnt`. */
  const Target: ColName := Col(TaxValue)

  /** `df.drop(columns=[target])` and `df[target]`: both raise when the target
      column is missing; otherwise `X` is every other column and `y` the target. */
  function Split(t: Table): (r: Result<(Table, seq<Cell>), Error>)
    requires WellFormed(t)
    ensures r.Failure? <==> Target !in t.cols
    ensures r.Failure? ==> r.error == MissingColumn(Target)
    ensures r.Success? ==>
      && WellFormed(r.value.0) && Target !in r.value.0.cols
      && Replaces(t, r.value.0, {TaxValue})
      && |r.value.1| == |t.rows|
      && forall i :: 0 <= i < |t.rows| ==> r.value.1[i] == t.rows[i][Target]
  {
    if Target !in t.cols then
      Failure(MissingColumn(Target))
    else
      var x := WithoutColumn(t, Target);
      assert Replaces(t, x, {TaxValue}) by {
        forall d | d in t.cols && !Named(d, {TaxValue}) && !IndicatorOf(d, {TaxValue})
          ensures d in x.cols && SameColumn(t, x, d)
        {
          assert d != Target;
        }
      }
      Success((x, Column(t, Target)))
  }

  /** `pd.concat([X, y], axis=1)` puts back exactly the frame that was split. */
  lemma SplitRecombine(t: Table)
    requires WellFormed(t) && Target in t.cols
    ensures Split(t).Success?
    ensures var (x, y) := Split(t).value; WithColumn(x, Target, y) == t
  {
    var (x, y) := Split(t).value;
    var v := WithColumn(x, Target, y);
    assert v.cols == t.cols;
    forall i | 0 <= i < |t.rows|
      ensures v.rows[i] == t.rows[i]
    {
      assert v.rows[i].Keys == t.rows[i].Keys;
      forall d | d in t.rows[i]
        ensures v.rows[i][d] == t.rows[i][d]
      {
        if d == Target {
          assert Column(v, Target)[i] == y[i];
        } else {
          assert SameColumn(x, v, d) && SameColumn(t, x, d);
        }
      }
    }
  }

  /** Every row with a price per square foot determines its target from two
      feature columns: `y == price_per_sqft * (calculatedfinishedsquarefeet + 1e-5)`. */
  ghost predicate TargetLeaks(x: Table, y: seq<Cell>) {
    && WellFormed(x) && |y| == |x.rows|
    && Col(PricePerSqft) in x.cols && Col(FinishedSqft) in x.cols
    && forall i :: 0 <= i < |y| && AsReal(x.rows[i][Col(PricePerSqft)]).Some? ==>
         && AsReal(y[i]).Some? && AsReal(x.rows[i][Col(FinishedSqft)]).Some?
         && AsReal(y[i]).value ==
              AsReal(x.rows[i][Col(PricePerSqft)]).value * (AsReal(x.rows[i][Col(FinishedSqft)]).value + Eps)
  }

  /** Split parts that put back together satisfy the `price_per_sqft` relation
      leak the target through two of their feature columns. */
  lemma {:induction false} SplitLeaks(x: Table, y: seq<Cell>)
    requires WellFormed(x) && |y| == |x.rows| && Target !in x.cols
    requires RatioRows(WithColumn(x, Target, y), Col(PricePerSqft), Target, Col(FinishedSqft))
    ensures TargetLeaks(x, y)
  {
  }

  /** The four outputs of the pipeline. */
  datatype Prepared = Prepared(xTrain: Table, xTest: Table, yTrain: seq<Cell>, yTest: seq<Cell>)

  /** The frame written to disk for one part: `X` with `y` concatenated back,
      the transformed frame of `raw`. */
  ghost predicate SavedAs(raw: Table, x: Table, y: seq<Cell>) {
    && WellFormed(x) && |y| == |x.rows| && Target !in x.cols
    && Transformed(raw, WithColumn(x, Target, y))
  }

  /** `initiate_data_transformation` on two frames already read: fails with the
      training frame's first problem, else with the test frame's; otherwise each
      part is its transformed frame split at the target, and the target leaks. */
  method InitiateTransformation(train: Table, test: Table) returns (r: Result<Prepared, Error>)
    requires WellFormed(train) && WellFormed(test)
    ensures r.Success? <==> Readable(train) && Readable(test)
    ensures r.Failure? && !Readable(train) ==> Some(r.error) == FirstProblem(train, RequiredInputs)
    ensures r.Failure? && Readable(train) ==> Some(r.error) == FirstProblem(test, RequiredInputs)
    ensures r.Success? ==>
      && SavedAs(train, r.value.xTrain, r.value.yTrain) && SavedAs(test, r.value.xTest, r.value.yTest)
      && TargetLeaks(r.value.xTrain, r.value.yTrain) && TargetLeaks(r.value.xTest, r.value.yTest)
  {
    var a := FeatureEngineering(train);
    if a.Failure? {
      return Failure(a.error);
    }
    var b := FeatureEngineering(test);
    if b.Failure? {
      return Failure(b.error);
    }
    var trainParts := SplitPart(a.value);
    var testParts := SplitPart(b.value);
    SplitLeaks(trainParts.0, trainParts.1);
    SplitLeaks(testParts.0, testParts.1);
    r := Success(Prepared(trainParts.0, testParts.0, trainParts.1, testParts.1));
  }

  /** Splits one engineered part: the target is there, and `X` and `y` put
      back together give the part. */
  method SplitPart(u: Table) returns (parts: (Table, seq<Cell>))
    requires WellFormed(u) && Target in u.cols
    ensures WellFormed(parts.0) && |parts.1| == |parts.0.rows| && Target !in parts.0.cols
    ensures WithColumn(parts.0, Target, parts.1) == u
  {
    SplitRecombine(u);
    parts := Split(u).value;
  }
}
