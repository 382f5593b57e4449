/** `DataTransformation.feature_engineering` and the feature/target split of
    `initiate_data_transformation`. */
module Transformation {
  import opened Wrappers
  import opened Values
  import opened Tables
  import opened Schema
  import opened Cleaning
  import opened Derived
  import opened TopK
  import opened Encoding
  import OneHot

  /** Why the transformation raises: a column it reads is absent (`KeyError`),
      or a column it computes with holds text (`TypeError`). */
  datatype Error = MissingColumn(col: ColName) | NonNumeric(col: ColName)

  /** Columns read as numbers, in the order the transformation first reads them. */
  const NumericInputs: seq<ColName> :=
    [Col(RoomCnt), Col(BedroomCnt), Col(BathroomCnt), Col(GarageSqft), Col(GarageCarCnt), Col(TaxValue),
     Col(FinishedSqft), Col(YearBuilt), Col(UnitCnt)]

  /** Categorical columns read by the encodings, in the order they are read. */
  const CategoricalInputs: seq<ColName> :=
    [Col(RegionCity), Col(RegionZip), Col(RegionNeighborhood), Col(LandUseCode), Col(LandUseType),
     Col(AirConditioning), Col(Heating), Col(Fips), Col(RegionCounty)]

  /** Every column the transformation reads, in the order it first reads them:
      the numeric inputs, then the categorical ones. */
  const RequiredInputs: seq<ColName> := NumericInputs + CategoricalInputs

  /** Plain columns cleaning and feature construction drop, add or overwrite. */
  const PreparedFields: set<Field> := CleanedFields + FeatureFields

  /** The bucketed columns the top-K encodings create and one-hot encode. */
  const TopFields: set<Field> := {CityTop, ZipTop, NeighborhoodTop, LandUseTop, LandUseTypeTop}

  /** The low-cardinality columns. */
  const LowFields: set<Field> := {AirConditioning, Heating, Fips, RegionCounty}

  /** The columns the top-K encodings bucket; the encodings leave them in place. */
  const RawCategoricalFields: set<Field> := {RegionCity, RegionZip, RegionNeighborhood, LandUseCode, LandUseType}

  /** The categorical columns the encodings read. */
  const CategoricalFields: set<Field> := RawCategoricalFields + LowFields

  /** Plain columns the encodings and the final drop remove. */
  const EncodedFields: set<Field> := TopFields + LowFields + {ZoningDesc}

  /** Every cell of column `c` is a number or NaN. */
  predicate NumericColumn(t: Table, c: ColName)
    requires WellFormed(t) && c in t.cols
  {
    forall i :: 0 <= i < |t.rows| ==> t.rows[i][c].None? || t.rows[i][c].value.Num?
  }

  /** Text in the garage area raises only inside the group medians, which never
      see a row whose car count is missing: such a row is left out of every
      group, and its text is overwritten with NaN rather than raised on. */
  predicate GarageAreaNumeric(t: Table)
    requires WellFormed(t) && Col(GarageSqft) in t.cols && Col(GarageCarCnt) in t.cols
  {
    forall i :: 0 <= i < |t.rows| && AsReal(t.rows[i][Col(GarageCarCnt)]).Some? ==>
      t.rows[i][Col(GarageSqft)].None? || t.rows[i][Col(GarageSqft)].value.Num?
  }

  /** What reading column `c` raises, if anything. The garage area is read
      twice: its absence raises at once, its text only once the car count has
      been read successfully. */
  function ProblemWith(t: Table, c: ColName): Option<Error>
    requires WellFormed(t)
  {
    if c !in t.cols then Some(MissingColumn(c))
    else if c == Col(GarageSqft) then
      if Col(GarageCarCnt) in t.cols && NumericColumn(t, Col(GarageCarCnt)) && !GarageAreaNumeric(t)
      then Some(NonNumeric(c)) else None
    else if c in NumericInputs && !NumericColumn(t, c) then Some(NonNumeric(c))
    else None
  }

  /** The error of the first column of `cs` that cannot be read. */
  function FirstProblem(t: Table, cs: seq<ColName>): (e: Option<Error>)
    requires WellFormed(t)
    ensures e.None? <==> forall j :: 0 <= j < |cs| ==> ProblemWith(t, cs[j]).None?
    ensures e.Some? ==>
      exists j :: 0 <= j < |cs| && e == ProblemWith(t, cs[j]) && forall j' :: 0 <= j' < j ==> ProblemWith(t, cs[j']).None?
  {
    if |cs| == 0 then None
    else if ProblemWith(t, cs[0]).Some? then ProblemWith(t, cs[0])
    else
      var e := FirstProblem(t, cs[1..]);
      assert forall j :: 1 <= j < |cs| ==> cs[j] == cs[1..][j - 1];
      assert e.Some? ==>
        exists j :: 0 <= j < |cs| && e == ProblemWith(t, cs[j]) && forall j' :: 0 <= j' < j ==> ProblemWith(t, cs[j']).None? by {
        if e.Some? {
          var j :| 0 <= j < |cs| - 1 && e == ProblemWith(t, cs[1..][j]) &&
            forall j' :: 0 <= j' < j ==> ProblemWith(t, cs[1..][j']).None?;
          assert e == ProblemWith(t, cs[j + 1]);
        }
      }
      e
  }

  /** A frame the transformation can read: every input column present, every
      numeric input holding numbers or NaN only (the garage area only in the
      rows with a car count). */
  predicate Readable(t: Table)
    requires WellFormed(t)
  {
    forall j :: 0 <= j < |RequiredInputs| ==> ProblemWith(t, RequiredInputs[j]).None?
  }

  lemma NoProblemPresent(t: Table, c: ColName)
    requires WellFormed(t) && ProblemWith(t, c).None?
    ensures c in t.cols
  {
  }

  lemma ReadableInputs(t: Table)
    requires WellFormed(t) && Readable(t)
    ensures Col(RoomCnt) in t.cols && Col(BedroomCnt) in t.cols && Col(BathroomCnt) in t.cols
    ensures Col(GarageSqft) in t.cols && Col(GarageCarCnt) in t.cols && Col(TaxValue) in t.cols
    ensures Col(FinishedSqft) in t.cols && Col(YearBuilt) in t.cols && Col(UnitCnt) in t.cols
    ensures Col(RegionCity) in t.cols && Col(RegionZip) in t.cols && Col(RegionNeighborhood) in t.cols
    ensures Col(LandUseCode) in t.cols && Col(LandUseType) in t.cols && Col(AirConditioning) in t.cols
    ensures Col(Heating) in t.cols && Col(Fips) in t.cols && Col(RegionCounty) in t.cols
  {
    forall j | 0 <= j < |RequiredInputs|
      ensures RequiredInputs[j] in t.cols
    {
      NoProblemPresent(t, RequiredInputs[j]);
    }
    assert RequiredInputs[0] == Col(RoomCnt) && RequiredInputs[1] == Col(BedroomCnt) && RequiredInputs[2] == Col(BathroomCnt);
    assert RequiredInputs[3] == Col(GarageSqft) && RequiredInputs[4] == Col(GarageCarCnt) && RequiredInputs[5] == Col(TaxValue);
    assert RequiredInputs[6] == Col(FinishedSqft) && RequiredInputs[7] == Col(YearBuilt) && RequiredInputs[8] == Col(UnitCnt);
    assert RequiredInputs[9] == Col(RegionCity) && RequiredInputs[10] == Col(RegionZip);
    assert RequiredInputs[11] == Col(RegionNeighborhood) && RequiredInputs[12] == Col(LandUseCode);
    assert RequiredInputs[13] == Col(LandUseType);
    assert RequiredInputs[14] == Col(AirConditioning) && RequiredInputs[15] == Col(Heating);
    assert RequiredInputs[16] == Col(Fips) && RequiredInputs[17] == Col(RegionCounty);
  }

  /** The categorical columns, one by one, as a set. */
  lemma CategoricalPresent(t: Table)
    requires Col(RegionCity) in t.cols && Col(RegionZip) in t.cols && Col(RegionNeighborhood) in t.cols
    requires Col(LandUseCode) in t.cols && Col(LandUseType) in t.cols && Col(AirConditioning) in t.cols
    requires Col(Heating) in t.cols && Col(Fips) in t.cols && Col(RegionCounty) in t.cols
    ensures forall f :: f in CategoricalFields ==> Col(f) in t.cols
  {
  }

  // ---------------------------------------------------------------------------
  // The encodings, in source order. Each is a method so that its callers reason
  // from its contract alone.
  // ---------------------------------------------------------------------------

  /** The top-K bucketings, in source order: the top 50 region ids (sentinel
      -1), the top 15 land-use codes and the top 5 land-use types (sentinel
      "other"). */
  const TopSpecs: seq<TopSpec> :=
    [TopSpec(RegionCity, CityTop, 50, Num(-1.0)),
     TopSpec(RegionZip, ZipTop, 50, Num(-1.0)),
     TopSpec(RegionNeighborhood, NeighborhoodTop, 50, Num(-1.0)),
     TopSpec(LandUseCode, LandUseTop, 15, Text("other")),
     TopSpec(LandUseType, LandUseTypeTop, 5, Text("other"))]

  /** Bucketing `j` reads raw column 18 + j and writes bucketed column 23 + j. */
  lemma TopSpecsShape()
    ensures |TopSpecs| == 5
    ensures forall j :: 0 <= j < |TopSpecs| ==>
      TopSpecs[j].source as int == RegionCity as int + j && TopSpecs[j].target as int == CityTop as int + j
    ensures forall j :: 0 <= j < |TopSpecs| ==> TopSpecs[j].source in RawCategoricalFields && TopSpecs[j].target in TopFields
    ensures Targets(TopSpecs) == TopFields
  {
    forall j | 0 <= j < |TopSpecs|
      ensures TopSpecs[j].source as int == RegionCity as int + j && TopSpecs[j].target as int == CityTop as int + j
    {
      assert j == 0 || j == 1 || j == 2 || j == 3 || j == 4;
    }
    assert TopSpecs[0].target == CityTop && TopSpecs[1].target == ZipTop && TopSpecs[2].target == NeighborhoodTop;
    assert TopSpecs[3].target == LandUseTop && TopSpecs[4].target == LandUseTypeTop;
  }

  /** Low-cardinality field `j` is column 28 + j. */
  lemma LowShape()
    ensures |LowCardinality| == 4
    ensures forall j :: 0 <= j < |LowCardinality| ==> LowCardinality[j] as int == AirConditioning as int + j
    ensures forall j :: 0 <= j < |LowCardinality| ==> LowCardinality[j] in LowFields
    ensures NoDup(LowCardinality) && (set x | x in LowCardinality) == LowFields
  {
    forall j | 0 <= j < |LowCardinality|
      ensures LowCardinality[j] as int == AirConditioning as int + j
    {
      assert j == 0 || j == 1 || j == 2 || j == 3;
    }
  }

  /** Top-K bucketing and one-hot encoding of the five high-cardinality columns. */
  method EncodeHighCardinality(t: Table) returns (u: Table)
    requires WellFormed(t) && forall f :: f in RawCategoricalFields ==> Col(f) in t.cols
    ensures WellFormed(u) && Replaces(t, u, TopFields)
    ensures forall j :: 0 <= j < |TopSpecs| ==>
      Col(TopSpecs[j].source) in t.cols && OneHot.EncodesAs(t, u, TopSpecs[j].target, SpecColumn(t, TopSpecs[j]))
  {
    TopSpecsShape();
    u := EncodeTopAll(t, TopSpecs);
  }

  /** One-hot encoding of the low-cardinality columns. */
  method EncodeLowCardinality(t: Table) returns (u: Table)
    requires WellFormed(t)
    requires forall f :: f in LowFields ==> Col(f) in t.cols
    ensures WellFormed(u) && Replaces(t, u, LowFields)
    ensures forall j :: 0 <= j < |LowCardinality| ==>
      Col(LowCardinality[j]) in t.cols && OneHot.EncodesAs(t, u, LowCardinality[j], Column(t, Col(LowCardinality[j])))
  {
    LowShape();
    u := EncodeAll(t, LowCardinality);
  }

  /** Drops `propertyzoningdesc` when present; nothing else changes. */
  method DropZoning(t: Table) returns (u: Table)
    requires WellFormed(t)
    ensures WellFormed(u) && |u.rows| == |t.rows|
    ensures u.cols == t.cols - {Col(ZoningDesc)}
    ensures forall d :: d in u.cols ==> SameColumn(t, u, d)
    ensures Replaces(t, u, {ZoningDesc})
  {
    if Col(ZoningDesc) in t.cols {
      u := WithoutColumn(t, Col(ZoningDesc));
    } else {
      u := t;
    }
    forall d | d in t.cols && !Named(d, {ZoningDesc}) && !IndicatorOf(d, {ZoningDesc})
      ensures d in u.cols && SameColumn(t, u, d)
    {
    }
  }

  /** The indicator columns of every encoded field in `u` are those `get_dummies`
      derives from the columns of `t`: for each top-K bucketing from the bucketed
      source column, for each low-cardinality field from the column itself. */
  ghost predicate Encoded(t: Table, u: Table) {
    && WellFormed(t)
    && (forall j :: 0 <= j < |TopSpecs| ==>
          Col(TopSpecs[j].source) in t.cols && OneHot.EncodesAs(t, u, TopSpecs[j].target, SpecColumn(t, TopSpecs[j])))
    && (forall j :: 0 <= j < |LowCardinality| ==>
          Col(LowCardinality[j]) in t.cols && OneHot.EncodesAs(t, u, LowCardinality[j], Column(t, Col(LowCardinality[j]))))
  }

  /** All encodings and the final drop. */
  method EncodeStages(t: Table) returns (u: Table)
    requires WellFormed(t)
    requires forall f :: f in CategoricalFields ==> Col(f) in t.cols
    ensures WellFormed(u) && Replaces(t, u, EncodedFields) && Encoded(t, u)
    ensures forall d :: d in u.cols && d.Dummy? ==> d in t.cols || d.source in TopFields + LowFields
  {
    var t1 := EncodeHighCardinality(t);
    assert forall f :: f in LowFields ==> Col(f) in t1.cols && !Named(Col(f), TopFields);
    var t2 := EncodeLowCardinality(t1);
    ReplacesTrans(t, t1, t2, TopFields, LowFields);
    u := DropZoning(t2);
    ReplacesTrans(t, t2, u, TopFields + LowFields, {ZoningDesc});
    EncodingsCarried(t, t1, t2, u);
  }

  /** Each encoding survives the later ones, and the low-cardinality columns
      read the same after the top-K encodings as before. */
  lemma EncodingsCarried(t: Table, t1: Table, t2: Table, u: Table)
    requires WellFormed(t) && WellFormed(t1) && forall f :: f in LowFields ==> Col(f) in t.cols
    requires Replaces(t, t1, TopFields)
    requires forall j :: 0 <= j < |TopSpecs| ==>
      Col(TopSpecs[j].source) in t.cols && OneHot.EncodesAs(t, t1, TopSpecs[j].target, SpecColumn(t, TopSpecs[j]))
    requires Replaces(t1, t2, LowFields)
    requires forall j :: 0 <= j < |LowCardinality| ==>
      Col(LowCardinality[j]) in t1.cols && OneHot.EncodesAs(t1, t2, LowCardinality[j], Column(t1, Col(LowCardinality[j])))
    requires Replaces(t2, u, {ZoningDesc})
    ensures Encoded(t, u)
  {
    TopSpecsShape();
    LowShape();
    forall j | 0 <= j < |TopSpecs|
      ensures OneHot.EncodesAs(t, u, TopSpecs[j].target, SpecColumn(t, TopSpecs[j]))
    {
      var s := TopSpecs[j];
      OneHot.EncodesAsKept(t, t1, t2, s.target, SpecColumn(t, s), LowFields);
      OneHot.EncodesAsKept(t, t2, u, s.target, SpecColumn(t, s), {ZoningDesc});
    }
    forall j | 0 <= j < |LowCardinality|
      ensures Col(LowCardinality[j]) in t.cols
      ensures OneHot.EncodesAs(t, u, LowCardinality[j], Column(t, Col(LowCardinality[j])))
    {
      var f := LowCardinality[j];
      ReplacesKeeps(t, t1, TopFields, f);
      SameColumnRead(t, t1, Col(f));
      OneHot.EncodesAsFrom(t, t1, t2, f, Column(t, Col(f)), TopFields);
      OneHot.EncodesAsKept(t, t2, u, f, Column(t, Col(f)), {ZoningDesc});
    }
  }

  /** Cleaning and feature construction leave the categorical columns, and so
      their encodings, as they were in the raw frame. */
  lemma EncodedAdjusted(t: Table, t2: Table, u: Table)
    requires WellFormed(t) && WellFormed(t2) && Adjusts(t, t2, PreparedFields)
    requires forall f :: f in CategoricalFields ==> Col(f) in t.cols
    requires Encoded(t2, u)
    ensures Encoded(t, u)
  {
    PreparedNotCategorical();
    TopSpecsShape();
    LowShape();
    forall j | 0 <= j < |TopSpecs|
      ensures OneHot.EncodesAs(t, u, TopSpecs[j].target, SpecColumn(t, TopSpecs[j]))
    {
      var s := TopSpecs[j];
      assert !Named(Col(s.source), PreparedFields);
      SameColumnRead(t, t2, Col(s.source));
      OneHot.EncodesAsAdjusted(t, t2, u, s.target, SpecColumn(t, s), PreparedFields);
    }
    forall j | 0 <= j < |LowCardinality|
      ensures OneHot.EncodesAs(t, u, LowCardinality[j], Column(t, Col(LowCardinality[j])))
    {
      var f := LowCardinality[j];
      assert !Named(Col(f), PreparedFields);
      SameColumnRead(t, t2, Col(f));
      OneHot.EncodesAsAdjusted(t, t2, u, f, Column(t, Col(f)), PreparedFields);
    }
  }

  // ---------------------------------------------------------------------------
  // The whole transformation
  // ---------------------------------------------------------------------------

  /** What a successful `feature_engineering` call makes of frame `t`: the same
      rows in the same order; `roomcnt_fixed` repairing the room count and the
      garage area masked and imputed; every engineered column agreeing with its
      inputs; `roomcnt`, the bucketed columns, the low-cardinality columns and
      `propertyzoningdesc` gone; the only new columns the engineered ones and
      indicator columns of the top-K and low-cardinality fields (none for the
      dropped `propertyzoningdesc`), each indicator derived from the
      raw column it encodes; every other column unchanged. */
  ghost predicate Transformed(t: Table, u: Table) {
    && WellFormed(t) && WellFormed(u) && |u.rows| == |t.rows|
    && RoomRepaired(t, u) && GarageCleaned(t, u) && Engineered(u) && Encoded(t, u)
    && Col(RoomCnt) !in u.cols
    && (forall f :: f in EncodedFields ==> Col(f) !in u.cols)
    && (forall d :: d in u.cols ==> d in t.cols || Named(d, PreparedFields) || IndicatorOf(d, TopFields + LowFields))
    && PassesThrough(t, u)
  }

  /** Every column no stage names reaches the transformed frame unchanged. */
  ghost predicate PassesThrough(t: Table, u: Table) {
    forall d :: d in t.cols && !Named(d, PreparedFields + EncodedFields) && !IndicatorOf(d, EncodedFields) ==>
      d in u.cols && SameColumn(t, u, d)
  }

  /** The cleaned columns survive feature construction and the encodings. */
  lemma CleaningSurvives(t: Table, t1: Table, t2: Table, u: Table)
    requires RoomRepaired(t, t1) && GarageCleaned(t, t1) && WellFormed(t2) && WellFormed(u)
    requires Adjusts(t1, t2, FeatureFields) && Replaces(t2, u, EncodedFields)
    ensures RoomRepaired(t, u) && GarageCleaned(t, u)
  {
    assert !Named(Col(RoomCntFixed), FeatureFields) && !Named(Col(GarageSqft), FeatureFields);
    RoomRepairedKept(t, t1, t2);
    GarageCleanedKept(t, t1, t2);
    assert !Named(Col(RoomCntFixed), EncodedFields) && !Named(Col(GarageSqft), EncodedFields);
    RoomRepairedKept(t, t2, u);
    GarageCleanedKept(t, t2, u);
  }

  /** Cleaning and feature construction touch none of the categorical columns. */
  lemma PreparedNotCategorical()
    ensures PreparedFields !! CategoricalFields
  {
    assert forall f :: f in PreparedFields ==> f <= HasGarage;
    assert forall f :: f in CategoricalFields ==> f >= RegionCity;
  }

  /** No encoded field is an engineered column or one of their inputs. */
  lemma EncodedNotEngineered()
    ensures EncodedFields !! EngineeredFields
  {
    assert forall f :: f in EncodedFields ==> f == ZoningDesc || f >= CityTop;
    assert forall f :: f in EngineeredFields ==> f != ZoningDesc && f <= HasGarage;
  }

  /** The engineered relations survive the encodings. */
  lemma EngineeredSurvives(t2: Table, u: Table)
    requires Engineered(t2) && WellFormed(u) && Replaces(t2, u, EncodedFields)
    ensures Engineered(u)
  {
    EncodedNotEngineered();
    EngineeredReplaced(t2, u, EncodedFields);
  }

  /** Columns no stage names pass through all three; `roomcnt` and the
      encoded columns are gone, and nothing else is new: the only new
      indicators are those of the top-K and low-cardinality encodings. */
  lemma OthersSurvive(t: Table, t1: Table, t2: Table, u: Table)
    requires Adjusts(t, t1, CleanedFields) && Col(RoomCnt) !in t1.cols
    requires Adjusts(t1, t2, FeatureFields) && Replaces(t2, u, EncodedFields)
    requires forall d :: d in u.cols && d.Dummy? ==> d in t2.cols || d.source in TopFields + LowFields
    ensures forall d :: d in t.cols && !Named(d, PreparedFields + EncodedFields) && !IndicatorOf(d, EncodedFields) ==>
      d in u.cols && SameColumn(t, u, d)
    ensures forall d :: d in u.cols ==> d in t.cols || Named(d, PreparedFields) || IndicatorOf(d, TopFields + LowFields)
    ensures Col(RoomCnt) !in u.cols && forall f :: f in EncodedFields ==> Col(f) !in u.cols
  {
    AdjustsTrans(t, t1, t2, CleanedFields, FeatureFields);
    AdjustsThenReplaces(t, t2, u, PreparedFields, EncodedFields);
    assert !Named(Col(RoomCnt), FeatureFields) && !Named(Col(RoomCnt), EncodedFields);
  }

  /** No stage names a raw region id or land-use code, so a frame that passes
      the unnamed columns through (as `Transformed` demands) still holds them,
      unchanged: the top-K encodings add indicator columns beside them. */
  lemma RawCategoricalsKept(t: Table, u: Table)
    requires PassesThrough(t, u) && forall f :: f in RawCategoricalFields ==> Col(f) in t.cols
    ensures forall f :: f in RawCategoricalFields ==> Col(f) in u.cols && SameColumn(t, u, Col(f))
  {
  }

  /** In a frame holding the encodings of `t` (as the transformed frame does),
      bucketing `j` adds at most `k` indicator columns, each named after a kept
      value or the sentinel; in every row at most one of them is set, and a kept
      value's indicator is set exactly in the rows that held it in `t`, the
      sentinel's exactly in the rows whose value was collapsed. */
  lemma TransformedTopK(t: Table, u: Table, j: int, i: int, d: ColName)
    requires Encoded(t, u) && 0 <= j < |TopSpecs| && 0 <= i < |t.rows|
    ensures var s := TopSpecs[j];
            var col := Column(t, Col(s.source));
            var ind := OneHot.Indicators(s.target, SpecColumn(t, s));
            && |ind| <= s.k
            && (forall e :: e in ind ==> e.Dummy? && e.category in TopValues(col, s.k) + {s.sentinel})
            && OneHot.AtMostOneHot(u.rows[i], ind)
            && (d in ind ==>
                  && d in u.rows[i]
                  && (u.rows[i][d] == Some(Num(1.0)) <==>
                        if col[i].Some? && col[i].value in TopValues(col, s.k) then col[i] == Some(d.category)
                        else d.category == s.sentinel))
  {
    var s := TopSpecs[j];
    var col := Column(t, Col(s.source));
    TopKWidth(s.target, col, s.k, s.sentinel);
    TopKCategories(s.target, col, s.k, s.sentinel);
    OneHot.EncodedOneHot(t, u, s.target, SpecColumn(t, s), i);
    TopKIndicatorMeaning(t, u, s.target, col, s.k, s.sentinel, i, d);
  }

  /** In a frame holding the encodings of `t` (as the transformed frame does),
      each low-cardinality field's indicators hold the one-hot code of its value
      in `t`: at most one set per row, and all zero exactly when the value was
      NaN or the first category. */
  lemma TransformedLow(t: Table, u: Table, j: int, i: int, d: ColName)
    requires Encoded(t, u) && 0 <= j < |LowCardinality| && 0 <= i < |t.rows|
    ensures var f := LowCardinality[j];
            var col := Column(t, Col(f));
            var ind := OneHot.Indicators(f, col);
            && (d in ind ==> d in u.rows[i] && u.rows[i][d] == OneHot.Indicator(col[i], d.category))
            && OneHot.AtMostOneHot(u.rows[i], ind)
            && (OneHot.AllZero(u.rows[i], ind) <==> col[i].None? || col[i] == Some(OneHot.Categories(col)[0]))
  {
    var f := LowCardinality[j];
    var col := Column(t, Col(f));
    OneHot.EncodedOneHot(t, u, f, col, i);
    OneHot.EncodedAllZero(t, u, f, col, i);
  }

  /** `feature_engineering`: raises on a frame it cannot read (the first missing
      or non-numeric input, in the order the code reads them); otherwise returns
      the transformed frame. */
  method FeatureEngineering(t: Table) returns (r: Result<Table, Error>)
    requires WellFormed(t)
    ensures r.Success? <==> Readable(t)
    ensures r.Failure? ==> Some(r.error) == FirstProblem(t, RequiredInputs)
    ensures r.Success? ==> Transformed(t, r.value)
  {
    var problem := FirstProblem(t, RequiredInputs);
    if problem.Some? {
      return Failure(problem.value);
    }
    ReadableInputs(t);
    CategoricalPresent(t);
    var t1 := CleanStage(t);
    var t2 := AddFeatures(t1);
    AdjustsTrans(t, t1, t2, CleanedFields, FeatureFields);
    PreparedNotCategorical();
    AdjustsKeepsPresent(t, t2, PreparedFields, CategoricalFields);
    var u := EncodeStages(t2);
    EncodedAdjusted(t, t2, u);
    CleaningSurvives(t, t1, t2, u);
    EngineeredSurvives(t2, u);
    OthersSurvive(t, t1, t2, u);
    r := Success(u);
  }
}
