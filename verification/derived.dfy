/** Engineered numeric columns: the guarded ratios, the age of the home and the
    two binary flags. */
module Derived {
  import opened Wrappers
  import opened Values
  import opened Tables
  import opened Schema

  /** The reference year the age of a home is measured from. */
  const ReferenceYear: real := 2025.0

  /** The guard added to every ratio's denominator (`1e-5`). */
  const Eps: real := 0.00001

  /** `num / (den + 1e-5)`, missing when either operand is missing or the
      guarded denominator is zero. */
  function GuardedRatio(num: Option<real>, den: Option<real>): (r: Option<real>)
    ensures r.Some? <==> num.Some? && den.Some? && den.value + Eps != 0.0
    ensures r.Some? ==> r.value * (den.value + Eps) == num.value
  {
    if num.Some? && den.Some? && den.value + Eps != 0.0 then Some(num.value / (den.value + Eps)) else None
  }

  /** A non-negative denominator is never zero once guarded, so the ratio of two
      present non-negative-denominator operands is always present. */
  lemma GuardedDenominatorPositive(num: Option<real>, den: Option<real>)
    requires num.Some? && den.Some? && den.value >= 0.0
    ensures den.value + Eps > 0.0
    ensures GuardedRatio(num, den).Some?
  {
  }

  /** `2025 - yearbuilt`. */
  function HomeAge(year: Option<real>): (r: Option<real>)
    ensures r.Some? <==> year.Some?
    ensures r.Some? ==> r.value + year.value == ReferenceYear
  {
    if year.Some? then Some(ReferenceYear - year.value) else None
  }

  /** `(unitcnt > 1).astype(int)`: a missing unit count compares false. */
  function MultiUnitFlag(units: Option<real>): (r: real)
    ensures r == 0.0 || r == 1.0
    ensures r == 1.0 <==> units.Some? && units.value > 1.0
  {
    if units.Some? && units.value > 1.0 then 1.0 else 0.0
  }

  /** `has_garage`: a car count or a garage area above zero, missing read as 0. */
  function HasGarageFlag(cars: Option<real>, area: Option<real>): (r: real)
    ensures r == 0.0 || r == 1.0
    ensures r == 1.0 <==> cars.GetOr(0.0) > 0.0 || area.GetOr(0.0) > 0.0
  {
    if cars.GetOr(0.0) > 0.0 || area.GetOr(0.0) > 0.0 then 1.0 else 0.0
  }

  // ---------------------------------------------------------------------------
  // Each engineered column agrees, row by row, with the columns it is computed
  // from. All of them are stated within one frame: the inputs of every feature
  // stay in the frame, so the relation survives every later stage.
  // ---------------------------------------------------------------------------

  /** Column `c` holds the guarded ratio of columns `num` and `den`. */
  ghost predicate RatioRows(u: Table, c: ColName, num: ColName, den: ColName) {
    && WellFormed(u) && c in u.cols && num in u.cols && den in u.cols
    && forall i :: 0 <= i < |u.rows| ==>
         u.rows[i][c] == FromReal(GuardedRatio(AsReal(u.rows[i][num]), AsReal(u.rows[i][den])))
  }

  /** `age_of_home` is `2025 - yearbuilt`. */
  ghost predicate AgeRows(u: Table) {
    && WellFormed(u) && Col(AgeOfHome) in u.cols && Col(YearBuilt) in u.cols
    && forall i :: 0 <= i < |u.rows| ==> u.rows[i][Col(AgeOfHome)] == FromReal(HomeAge(AsReal(u.rows[i][Col(YearBuilt)])))
  }

  /** `multi_unit` flags more than one unit. */
  ghost predicate MultiUnitRows(u: Table) {
    && WellFormed(u) && Col(MultiUnit) in u.cols && Col(UnitCnt) in u.cols
    && forall i :: 0 <= i < |u.rows| ==> u.rows[i][Col(MultiUnit)] == Some(Num(MultiUnitFlag(AsReal(u.rows[i][Col(UnitCnt)]))))
  }

  /** `has_garage` flags a positive car count or garage area. */
  ghost predicate GarageFlagRows(u: Table) {
    && WellFormed(u) && Col(HasGarage) in u.cols && Col(GarageCarCnt) in u.cols && Col(GarageSqft) in u.cols
    && forall i :: 0 <= i < |u.rows| ==>
         u.rows[i][Col(HasGarage)] == Some(Num(HasGarageFlag(AsReal(u.rows[i][Col(GarageCarCnt)]), AsReal(u.rows[i][Col(GarageSqft)]))))
  }

  /** The plain columns the feature construction adds. */
  const FeatureFields: set<Field> := {PricePerSqft, AgeOfHome, BathPerBed, RoomsPerSqft, GarageSqftRatio, MultiUnit, HasGarage}

  /** The fields the engineered relations mention: every engineered column
      and every column one is computed from. */
  const EngineeredFields: set<Field> :=
    {PricePerSqft, AgeOfHome, BathPerBed, RoomsPerSqft, GarageSqftRatio, MultiUnit, HasGarage,
     TaxValue, FinishedSqft, YearBuilt, BathroomCnt, BedroomCnt, RoomCntFixed, GarageSqft, UnitCnt, GarageCarCnt}

  /** Every engineered column agrees with its inputs. */
  ghost predicate Engineered(u: Table) {
    && RatioRows(u, Col(PricePerSqft), Col(TaxValue), Col(FinishedSqft))
    && AgeRows(u)
    && RatioRows(u, Col(BathPerBed), Col(BathroomCnt), Col(BedroomCnt))
    && RatioRows(u, Col(RoomsPerSqft), Col(RoomCntFixed), Col(FinishedSqft))
    && RatioRows(u, Col(GarageSqftRatio), Col(GarageSqft), Col(FinishedSqft))
    && MultiUnitRows(u)
    && GarageFlagRows(u)
  }

  lemma RatioRowsKept(u: Table, v: Table, c: ColName, num: ColName, den: ColName)
    requires RatioRows(u, c, num, den) && WellFormed(v) && c in v.cols && num in v.cols && den in v.cols
    requires SameColumn(u, v, c) && SameColumn(u, v, num) && SameColumn(u, v, den)
    ensures RatioRows(v, c, num, den)
  {
  }

  lemma AgeRowsKept(u: Table, v: Table)
    requires AgeRows(u) && WellFormed(v) && Col(AgeOfHome) in v.cols && Col(YearBuilt) in v.cols
    requires SameColumn(u, v, Col(AgeOfHome)) && SameColumn(u, v, Col(YearBuilt))
    ensures AgeRows(v)
  {
  }

  /** A stage that keeps every column the relations mention keeps the
      relations. */
  lemma EngineeredKept(u: Table, v: Table)
    requires Engineered(u) && WellFormed(v)
    requires forall f :: f in EngineeredFields ==> Col(f) in v.cols && SameColumn(u, v, Col(f))
    ensures Engineered(v)
  {
    RatioRowsKept(u, v, Col(PricePerSqft), Col(TaxValue), Col(FinishedSqft));
    RatioRowsKept(u, v, Col(BathPerBed), Col(BathroomCnt), Col(BedroomCnt));
    RatioRowsKept(u, v, Col(RoomsPerSqft), Col(RoomCntFixed), Col(FinishedSqft));
    RatioRowsKept(u, v, Col(GarageSqftRatio), Col(GarageSqft), Col(FinishedSqft));
    AgeRowsKept(u, v);
    assert SameColumn(u, v, Col(MultiUnit)) && SameColumn(u, v, Col(UnitCnt));
    assert SameColumn(u, v, Col(HasGarage)) && SameColumn(u, v, Col(GarageCarCnt)) && SameColumn(u, v, Col(GarageSqft));
  }

  /** Replacing fields none of the relations mention keeps them all. */
  lemma EngineeredReplaced(u: Table, v: Table, cs: set<Field>)
    requires Engineered(u) && WellFormed(v) && Replaces(u, v, cs) && cs !! EngineeredFields
    ensures Engineered(v)
  {
    forall f | f in EngineeredFields
      ensures Col(f) in v.cols && SameColumn(u, v, Col(f))
    {
      assert f !in cs;
      assert Col(f) in u.cols;
      ReplacesKeeps(u, v, cs, f);
    }
    EngineeredKept(u, v);
  }

  /** A row whose price per square foot is present determines its target:
      `taxvaluedollarcnt == price_per_sqft * (calculatedfinishedsquarefeet + 1e-5)`. */
  lemma TargetRecoverable(u: Table)
    requires RatioRows(u, Col(PricePerSqft), Col(TaxValue), Col(FinishedSqft))
    ensures forall i :: 0 <= i < |u.rows| && AsReal(u.rows[i][Col(PricePerSqft)]).Some? ==>
      && AsReal(u.rows[i][Col(TaxValue)]).Some? && AsReal(u.rows[i][Col(FinishedSqft)]).Some?
      && AsReal(u.rows[i][Col(TaxValue)]).value ==
           AsReal(u.rows[i][Col(PricePerSqft)]).value * (AsReal(u.rows[i][Col(FinishedSqft)]).value + Eps)
  {
  }

  // ---------------------------------------------------------------------------
  // The feature-construction steps
  // ---------------------------------------------------------------------------

  /** Sets column `c` to the guarded ratio of columns `num` and `den`. */
  function WithRatio(t: Table, c: ColName, num: ColName, den: ColName): (u: Table)
    requires WellFormed(t) && num in t.cols && den in t.cols && c != num && c != den
    ensures WellFormed(u) && u.cols == t.cols + {c} && |u.rows| == |t.rows|
    ensures RatioRows(u, c, num, den)
    ensures forall d :: d in t.cols && d != c ==> SameColumn(t, u, d)
  {
    var n := RealColumn(t, num);
    var m := RealColumn(t, den);
    var vals := seq(|t.rows|, i requires 0 <= i < |t.rows| => FromReal(GuardedRatio(n[i], m[i])));
    var u := WithColumn(t, c, vals);
    assert Column(u, c) == vals;
    assert SameColumn(t, u, num) && SameColumn(t, u, den);
    u
  }

  /** Adds `price_per_sqft` and `age_of_home`. */
  method AddPriceAndAge(t: Table) returns (u: Table)
    requires WellFormed(t) && Col(TaxValue) in t.cols && Col(FinishedSqft) in t.cols && Col(YearBuilt) in t.cols
    ensures WellFormed(u) && |u.rows| == |t.rows|
    ensures u.cols == t.cols + {Col(PricePerSqft), Col(AgeOfHome)}
    ensures RatioRows(u, Col(PricePerSqft), Col(TaxValue), Col(FinishedSqft)) && AgeRows(u)
    ensures forall d :: d in t.cols && d != Col(PricePerSqft) && d != Col(AgeOfHome) ==> SameColumn(t, u, d)
  {
    var t1 := WithRatio(t, Col(PricePerSqft), Col(TaxValue), Col(FinishedSqft));
    var years := RealColumn(t1, Col(YearBuilt));
    var ages := seq(|t1.rows|, i requires 0 <= i < |t1.rows| => FromReal(HomeAge(years[i])));
    u := WithColumn(t1, Col(AgeOfHome), ages);
    assert Column(u, Col(AgeOfHome)) == ages;
    assert SameColumn(t1, u, Col(YearBuilt));
    RatioRowsKept(t1, u, Col(PricePerSqft), Col(TaxValue), Col(FinishedSqft));
  }

  /** Adds `bath_per_bed`, `rooms_per_sqft` and `garage_sqft_ratio`. */
  method AddDensities(t: Table) returns (u: Table)
    requires WellFormed(t) && Col(FinishedSqft) in t.cols
    requires Col(BathroomCnt) in t.cols && Col(BedroomCnt) in t.cols && Col(RoomCntFixed) in t.cols && Col(GarageSqft) in t.cols
    ensures WellFormed(u) && |u.rows| == |t.rows|
    ensures u.cols == t.cols + {Col(BathPerBed), Col(RoomsPerSqft), Col(GarageSqftRatio)}
    ensures RatioRows(u, Col(BathPerBed), Col(BathroomCnt), Col(BedroomCnt))
    ensures RatioRows(u, Col(RoomsPerSqft), Col(RoomCntFixed), Col(FinishedSqft))
    ensures RatioRows(u, Col(GarageSqftRatio), Col(GarageSqft), Col(FinishedSqft))
    ensures forall d :: d in t.cols && d != Col(BathPerBed) && d != Col(RoomsPerSqft) && d != Col(GarageSqftRatio) ==>
      SameColumn(t, u, d)
  {
    var t1 := WithRatio(t, Col(BathPerBed), Col(BathroomCnt), Col(BedroomCnt));
    var t2 := WithRatio(t1, Col(RoomsPerSqft), Col(RoomCntFixed), Col(FinishedSqft));
    u := WithRatio(t2, Col(GarageSqftRatio), Col(GarageSqft), Col(FinishedSqft));
    RatioRowsKept(t1, t2, Col(BathPerBed), Col(BathroomCnt), Col(BedroomCnt));
    RatioRowsKept(t2, u, Col(BathPerBed), Col(BathroomCnt), Col(BedroomCnt));
    RatioRowsKept(t2, u, Col(RoomsPerSqft), Col(RoomCntFixed), Col(FinishedSqft));
  }

  /** Adds `multi_unit` and `has_garage`. */
  method AddFlags(t: Table) returns (u: Table)
    requires WellFormed(t) && Col(UnitCnt) in t.cols && Col(GarageCarCnt) in t.cols && Col(GarageSqft) in t.cols
    ensures WellFormed(u) && |u.rows| == |t.rows|
    ensures u.cols == t.cols + {Col(MultiUnit), Col(HasGarage)}
    ensures MultiUnitRows(u) && GarageFlagRows(u)
    ensures forall d :: d in t.cols && d != Col(MultiUnit) && d != Col(HasGarage) ==> SameColumn(t, u, d)
  {
    var units := RealColumn(t, Col(UnitCnt));
    var multi := seq(|t.rows|, i requires 0 <= i < |t.rows| => Some(Num(MultiUnitFlag(units[i]))));
    var t1 := WithColumn(t, Col(MultiUnit), multi);
    assert Column(t1, Col(MultiUnit)) == multi;
    var cars := RealColumn(t1, Col(GarageCarCnt));
    var area := RealColumn(t1, Col(GarageSqft));
    var garage := seq(|t1.rows|, i requires 0 <= i < |t1.rows| => Some(Num(HasGarageFlag(cars[i], area[i]))));
    u := WithColumn(t1, Col(HasGarage), garage);
    assert Column(u, Col(HasGarage)) == garage;
    assert SameColumn(t1, u, Col(MultiUnit)) && SameColumn(t, t1, Col(UnitCnt)) && SameColumn(t1, u, Col(UnitCnt));
    assert SameColumn(t1, u, Col(GarageCarCnt)) && SameColumn(t1, u, Col(GarageSqft));
  }

  /** The relations each step establishes survive the later steps. */
  lemma FeaturesCarried(t: Table, t1: Table, t2: Table, u: Table)
    requires WellFormed(t) && WellFormed(t1) && WellFormed(t2) && WellFormed(u)
    requires RatioRows(t1, Col(PricePerSqft), Col(TaxValue), Col(FinishedSqft)) && AgeRows(t1)
    requires t2.cols == t1.cols + {Col(BathPerBed), Col(RoomsPerSqft), Col(GarageSqftRatio)}
    requires RatioRows(t2, Col(BathPerBed), Col(BathroomCnt), Col(BedroomCnt))
    requires RatioRows(t2, Col(RoomsPerSqft), Col(RoomCntFixed), Col(FinishedSqft))
    requires RatioRows(t2, Col(GarageSqftRatio), Col(GarageSqft), Col(FinishedSqft))
    requires forall d :: d in t1.cols && d != Col(BathPerBed) && d != Col(RoomsPerSqft) && d != Col(GarageSqftRatio) ==>
      SameColumn(t1, t2, d)
    requires u.cols == t2.cols + {Col(MultiUnit), Col(HasGarage)}
    requires MultiUnitRows(u) && GarageFlagRows(u)
    requires forall d :: d in t2.cols && d != Col(MultiUnit) && d != Col(HasGarage) ==> SameColumn(t2, u, d)
    ensures Engineered(u)
  {
    assert SameColumn(t1, t2, Col(PricePerSqft)) && SameColumn(t1, t2, Col(AgeOfHome));
    RatioRowsKept(t1, t2, Col(PricePerSqft), Col(TaxValue), Col(FinishedSqft));
    AgeRowsKept(t1, t2);
    assert SameColumn(t2, u, Col(PricePerSqft)) && SameColumn(t2, u, Col(AgeOfHome));
    assert SameColumn(t2, u, Col(BathPerBed)) && SameColumn(t2, u, Col(RoomsPerSqft)) && SameColumn(t2, u, Col(GarageSqftRatio));
    RatioRowsKept(t2, u, Col(PricePerSqft), Col(TaxValue), Col(FinishedSqft));
    AgeRowsKept(t2, u);
    RatioRowsKept(t2, u, Col(BathPerBed), Col(BathroomCnt), Col(BedroomCnt));
    RatioRowsKept(t2, u, Col(RoomsPerSqft), Col(RoomCntFixed), Col(FinishedSqft));
    RatioRowsKept(t2, u, Col(GarageSqftRatio), Col(GarageSqft), Col(FinishedSqft));
  }

  /** The three steps together add exactly the feature columns and leave every
      other column alone. */
  lemma FeaturesAdjust(t: Table, t1: Table, t2: Table, u: Table)
    requires |t1.rows| == |t.rows| && |t2.rows| == |t1.rows| && |u.rows| == |t2.rows|
    requires t1.cols == t.cols + {Col(PricePerSqft), Col(AgeOfHome)}
    requires forall d :: d in t.cols && d != Col(PricePerSqft) && d != Col(AgeOfHome) ==> SameColumn(t, t1, d)
    requires t2.cols == t1.cols + {Col(BathPerBed), Col(RoomsPerSqft), Col(GarageSqftRatio)}
    requires forall d :: d in t1.cols && d != Col(BathPerBed) && d != Col(RoomsPerSqft) && d != Col(GarageSqftRatio) ==>
      SameColumn(t1, t2, d)
    requires u.cols == t2.cols + {Col(MultiUnit), Col(HasGarage)}
    requires forall d :: d in t2.cols && d != Col(MultiUnit) && d != Col(HasGarage) ==> SameColumn(t2, u, d)
    ensures Adjusts(t, u, FeatureFields)
  {
    forall d | !Named(d, FeatureFields)
      ensures d in u.cols <==> d in t.cols
    {
      assert d != Col(PricePerSqft) && d != Col(AgeOfHome) && d != Col(BathPerBed) && d != Col(RoomsPerSqft);
      assert d != Col(GarageSqftRatio) && d != Col(MultiUnit) && d != Col(HasGarage);
    }
    forall d | d in t.cols && !Named(d, FeatureFields)
      ensures SameColumn(t, u, d)
    {
      assert d != Col(PricePerSqft) && d != Col(AgeOfHome) && d != Col(BathPerBed) && d != Col(RoomsPerSqft);
      assert d != Col(GarageSqftRatio) && d != Col(MultiUnit) && d != Col(HasGarage);
      SameColumnTrans(t, t1, t2, d);
      SameColumnTrans(t, t2, u, d);
    }
  }

  /** `price_per_sqft`, `age_of_home`, the three density ratios and the two flags,
      in source order. */
  method AddFeatures(t: Table) returns (u: Table)
    requires WellFormed(t)
    requires Col(TaxValue) in t.cols && Col(FinishedSqft) in t.cols && Col(YearBuilt) in t.cols && Col(UnitCnt) in t.cols
    requires Col(BathroomCnt) in t.cols && Col(BedroomCnt) in t.cols && Col(RoomCntFixed) in t.cols
    requires Col(GarageSqft) in t.cols && Col(GarageCarCnt) in t.cols
    ensures WellFormed(u) && Adjusts(t, u, FeatureFields) && Engineered(u)
  {
    var t1 := AddPriceAndAge(t);
    var t2 := AddDensities(t1);
    u := AddFlags(t2);
    FeaturesCarried(t, t1, t2, u);
    FeaturesAdjust(t, t1, t2, u);
  }
}
