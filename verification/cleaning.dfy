/** Repair of inconsistent raw values: the room count and the garage area. */
module Cleaning {
  import opened Wrappers
  import opened Values
  import opened Tables
  import opened Stats
  import opened Schema

  /** A usable room count is present and positive. */
  predicate PositiveCount(x: Option<real>) {
    x.Some? && x.value > 0.0
  }

  predicate NonNegative(x: Option<real>) {
    x.None? || x.value >= 0.0
  }

  // ---------------------------------------------------------------------------
  // Room count
  // ---------------------------------------------------------------------------

  /** `roomcnt_fixed` of one row: the room count when it is positive, otherwise
      bedrooms + bathrooms + 1 (missing when either of those is missing). */
  function RoomFixed(room: Option<real>, bed: Option<real>, bath: Option<real>): (r: Option<real>)
    ensures PositiveCount(room) ==> r == room
    ensures !PositiveCount(room) ==> (r.Some? <==> bed.Some? && bath.Some?)
    ensures !PositiveCount(room) && r.Some? ==> r.value - bath.value - bed.value == 1.0
    ensures NonNegative(bed) && NonNegative(bath) && r.Some? ==> r.value > 0.0
    ensures !PositiveCount(room) && NonNegative(bed) && NonNegative(bath) && r.Some? ==> r.value >= 1.0
  {
    if PositiveCount(room) then room
    else if bed.Some? && bath.Some? then Some(bed.value + bath.value + 1.0)
    else None
  }

  /** Repairing an already repaired room count changes nothing. */
  lemma RoomFixedIdempotent(room: Option<real>, bed: Option<real>, bath: Option<real>)
    ensures RoomFixed(RoomFixed(room, bed, bath), bed, bath) == RoomFixed(room, bed, bath)
  {
  }

  /** `roomcnt_fixed` of `u` is, row by row, the repaired room count of `t`. */
  ghost predicate RoomRepaired(t: Table, u: Table) {
    && WellFormed(t) && WellFormed(u) && |u.rows| == |t.rows|
    && Col(RoomCnt) in t.cols && Col(BedroomCnt) in t.cols && Col(BathroomCnt) in t.cols && Col(RoomCntFixed) in u.cols
    && forall i :: 0 <= i < |u.rows| ==>
         u.rows[i][Col(RoomCntFixed)] ==
           FromReal(RoomFixed(AsReal(t.rows[i][Col(RoomCnt)]), AsReal(t.rows[i][Col(BedroomCnt)]), AsReal(t.rows[i][Col(BathroomCnt)])))
  }

  lemma RoomRepairedKept(t: Table, u: Table, v: Table)
    requires RoomRepaired(t, u) && WellFormed(v) && Col(RoomCntFixed) in v.cols && SameColumn(u, v, Col(RoomCntFixed))
    ensures RoomRepaired(t, v)
  {
  }

  /** Adds `roomcnt_fixed` and drops `roomcnt`. */
  method FixRoomCount(t: Table) returns (u: Table)
    requires WellFormed(t) && Col(RoomCnt) in t.cols && Col(BedroomCnt) in t.cols && Col(BathroomCnt) in t.cols
    ensures WellFormed(u) && |u.rows| == |t.rows|
    ensures u.cols == t.cols + {Col(RoomCntFixed)} - {Col(RoomCnt)}
    ensures RoomRepaired(t, u)
    ensures forall d :: d in t.cols && d != Col(RoomCnt) && d != Col(RoomCntFixed) ==> SameColumn(t, u, d)
  {
    var room := RealColumn(t, Col(RoomCnt));
    var bed := RealColumn(t, Col(BedroomCnt));
    var bath := RealColumn(t, Col(BathroomCnt));
    var fixed := seq(|t.rows|, i requires 0 <= i < |t.rows| => FromReal(RoomFixed(room[i], bed[i], bath[i])));
    var t1 := WithColumn(t, Col(RoomCntFixed), fixed);
    assert forall i :: 0 <= i < |t1.rows| ==> t1.rows[i][Col(RoomCntFixed)] == fixed[i] by {
      assert Column(t1, Col(RoomCntFixed)) == fixed;
    }
    u := WithoutColumn(t1, Col(RoomCnt));
  }

  // ---------------------------------------------------------------------------
  // Garage area
  // ---------------------------------------------------------------------------

  /** A garage that holds cars but reports a zero area. */
  predicate Inconsistent(cars: Option<real>, area: Option<real>) {
    area == Some(0.0) && PositiveCount(cars)
  }

  /** Blanks the area of every inconsistent row. */
  function MaskGarage(cars: seq<Option<real>>, area: seq<Option<real>>): (r: seq<Option<real>>)
    requires |cars| == |area|
    ensures |r| == |area|
    ensures forall i :: 0 <= i < |r| ==> (r[i] != area[i] <==> Inconsistent(cars[i], area[i]))
    ensures forall i :: 0 <= i < |r| && r[i] != area[i] ==> r[i].None?
    ensures forall i :: 0 <= i < |r| ==> !Inconsistent(cars[i], r[i])
  {
    seq(|area|, i requires 0 <= i < |area| => if Inconsistent(cars[i], area[i]) then None else area[i])
  }

  /** The rows whose car count is `k` and whose area is `x`. */
  ghost function Holders(cars: seq<Option<real>>, area: seq<Option<real>>, k: real, x: real): set<int>
    requires |cars| == |area|
  {
    set j | 0 <= j < |cars| && cars[j] == Some(k) && area[j] == Some(x)
  }

  /** The group's rows holding `x` are those of the prefix plus, perhaps, the
      last row. */
  lemma HoldersStep(cars: seq<Option<real>>, area: seq<Option<real>>, k: real, x: real)
    requires |cars| == |area| > 0
    ensures var n := |cars| - 1;
      |Holders(cars, area, k, x)| ==
        |Holders(cars[..n], area[..n], k, x)| + (if cars[n] == Some(k) && area[n] == Some(x) then 1 else 0)
  {
    var n := |cars| - 1;
    var before := Holders(cars[..n], area[..n], k, x);
    assert n !in before;
    if cars[n] == Some(k) && area[n] == Some(x) {
      assert Holders(cars, area, k, x) == before + {n};
    } else {
      assert Holders(cars, area, k, x) == before;
    }
  }

  lemma HoldersSteps(cars: seq<Option<real>>, area: seq<Option<real>>, k: real)
    requires |cars| == |area| > 0
    ensures var n := |cars| - 1;
      forall x :: |Holders(cars, area, k, x)| ==
        |Holders(cars[..n], area[..n], k, x)| + (if cars[n] == Some(k) && area[n] == Some(x) then 1 else 0)
  {
    forall x {
      HoldersStep(cars, area, k, x);
    }
  }

  /** A row of the prefix belongs to a group exactly when it does in the whole. */
  lemma PrefixGroup(cars: seq<Option<real>>, area: seq<Option<real>>, k: real, n: int)
    requires |cars| == |area| && 0 <= n <= |cars|
    ensures forall x :: (exists j :: 0 <= j < n && cars[..n][j] == Some(k) && area[..n][j] == Some(x))
                    <==> (exists j :: 0 <= j < n && cars[j] == Some(k) && area[j] == Some(x))
  {
    assert forall j :: 0 <= j < n ==> cars[..n][j] == cars[j] && area[..n][j] == area[j];
  }

  /** The present areas of the rows whose car count is `k`, in row order: each
      area as many times as rows of the group hold it. */
  function GroupAreas(cars: seq<Option<real>>, area: seq<Option<real>>, k: real): (g: seq<real>)
    requires |cars| == |area|
    ensures forall x :: x in g <==> exists j :: 0 <= j < |cars| && cars[j] == Some(k) && area[j] == Some(x)
    ensures forall x :: multiset(g)[x] == |Holders(cars, area, k, x)|
  {
    if |cars| == 0 then []
    else
      var n := |cars| - 1;
      var init := GroupAreas(cars[..n], area[..n], k);
      HoldersSteps(cars, area, k);
      PrefixGroup(cars, area, k, n);
      init + if cars[n] == Some(k) && area[n].Some? then [area[n].value] else []
  }

  /** A sequence holding each area as often as the group does is an
      arrangement of `GroupAreas`. */
  lemma GroupArrangements(cars: seq<Option<real>>, area: seq<Option<real>>, k: real)
    requires |cars| == |area|
    ensures forall s :: Sorted(s) && (forall x :: multiset(s)[x] == |Holders(cars, area, k, x)|) ==>
      multiset(s) == multiset(GroupAreas(cars, area, k))
  {
    forall s | Sorted(s) && forall x :: multiset(s)[x] == |Holders(cars, area, k, x)|
      ensures multiset(s) == multiset(GroupAreas(cars, area, k))
    {
      var g := GroupAreas(cars, area, k);
      forall x
        ensures multiset(s)[x] == multiset(g)[x]
      {
      }
    }
  }

  /** Some row of the car-count group of row `i` has a present area. */
  ghost predicate GroupHasArea(cars: seq<Option<real>>, area: seq<Option<real>>, i: int)
    requires |cars| == |area| && 0 <= i < |cars|
  {
    exists j :: 0 <= j < |cars| && cars[j] == cars[i] && area[j].Some?
  }

  /** `x` lies between the smallest and the largest present area of the
      car-count group of row `i`. */
  ghost predicate WithinGroup(cars: seq<Option<real>>, area: seq<Option<real>>, i: int, x: real)
    requires |cars| == |area| && 0 <= i < |cars|
  {
    (exists j :: 0 <= j < |cars| && cars[j] == cars[i] && area[j].Some? && area[j].value <= x) &&
    (exists j :: 0 <= j < |cars| && cars[j] == cars[i] && area[j].Some? && area[j].value >= x)
  }

  /** The area of row `i` after `groupby(garagecarcnt).transform(fillna(median))`.
      A row whose car count is missing belongs to no group (`dropna=True`), and
      the transform yields a missing value for it. */
  function FillArea(cars: seq<Option<real>>, area: seq<Option<real>>, i: int): (r: Option<real>)
    requires |cars| == |area| && 0 <= i < |cars|
    ensures cars[i].None? ==> r.None?
    ensures cars[i].Some? && area[i].Some? ==> r == area[i]
    ensures cars[i].Some? && area[i].None? ==> (r.Some? <==> GroupHasArea(cars, area, i))
    ensures cars[i].Some? && r != area[i] ==>
              && r.Some?
              && WithinGroup(cars, area, i, r.value)
              && IsMedian(GroupAreas(cars, area, cars[i].value), r.value)
    ensures cars[i].Some? && r != area[i] ==>
              forall s :: Sorted(s) && (forall x :: multiset(s)[x] == |Holders(cars, area, cars[i].value, x)|) ==>
                |s| > 0 && r.value == Middle(s)
  {
    if cars[i].None? then None
    else if area[i].Some? then area[i]
    else
      var g := GroupAreas(cars, area, cars[i].value);
      if |g| == 0 then
        GroupNonEmpty(cars, area, i);
        None
      else
        GroupNonEmpty(cars, area, i);
        GroupMedian(cars, area, i);
        GroupArrangements(cars, area, cars[i].value);
        Some(Median(g))
  }

  /** A group has a present area exactly when its list of areas is non-empty. */
  lemma GroupNonEmpty(cars: seq<Option<real>>, area: seq<Option<real>>, i: int)
    requires |cars| == |area| && 0 <= i < |cars| && cars[i].Some?
    ensures GroupHasArea(cars, area, i) <==> |GroupAreas(cars, area, cars[i].value)| > 0
  {
    var g := GroupAreas(cars, area, cars[i].value);
    if GroupHasArea(cars, area, i) {
      var j :| 0 <= j < |cars| && cars[j] == cars[i] && area[j].Some?;
      assert area[j].value in g;
    }
    if |g| > 0 {
      assert g[0] in g;
    }
  }

  /** The median of a non-empty group lies between two of its areas. */
  lemma GroupMedian(cars: seq<Option<real>>, area: seq<Option<real>>, i: int)
    requires |cars| == |area| && 0 <= i < |cars| && cars[i].Some?
    requires |GroupAreas(cars, area, cars[i].value)| > 0
    ensures WithinGroup(cars, area, i, Median(GroupAreas(cars, area, cars[i].value)))
  {
    var g := GroupAreas(cars, area, cars[i].value);
    var m := Median(g);
    var lo :| 0 <= lo < |g| && g[lo] <= m;
    var hi :| 0 <= hi < |g| && g[hi] >= m;
    var jl := GroupRow(cars, area, i, lo);
    var jh := GroupRow(cars, area, i, hi);
    assert area[jl].Some? && area[jl].value <= m;
    assert area[jh].Some? && area[jh].value >= m;
  }

  /** Every area in a group's list comes from a row of that group. */
  lemma GroupRow(cars: seq<Option<real>>, area: seq<Option<real>>, i: int, n: int) returns (j: int)
    requires |cars| == |area| && 0 <= i < |cars| && cars[i].Some?
    requires 0 <= n < |GroupAreas(cars, area, cars[i].value)|
    ensures 0 <= j < |cars| && cars[j] == cars[i] && area[j] == Some(GroupAreas(cars, area, cars[i].value)[n])
  {
    var g := GroupAreas(cars, area, cars[i].value);
    assert g[n] in g;
    j :| 0 <= j < |cars| && cars[j] == Some(cars[i].value) && area[j] == Some(g[n]);
  }

  /** Fills each missing area with the median area of its car-count group;
      rows without a car count come out missing. */
  function Impute(cars: seq<Option<real>>, area: seq<Option<real>>): (r: seq<Option<real>>)
    requires |cars| == |area|
    ensures |r| == |area|
    ensures forall i :: 0 <= i < |r| ==> r[i] == FillArea(cars, area, i)
  {
    seq(|area|, i requires 0 <= i < |area| => FillArea(cars, area, i))
  }

  /** A second imputation pass changes nothing: what is still missing has no
      group or a group with no area. */
  lemma ImputeIdempotent(cars: seq<Option<real>>, area: seq<Option<real>>)
    requires |cars| == |area|
    ensures Impute(cars, Impute(cars, area)) == Impute(cars, area)
  {
    var r := Impute(cars, area);
    forall i | 0 <= i < |r|
      ensures FillArea(cars, r, i) == r[i]
    {
      if r[i].None? && cars[i].Some? {
        assert !GroupHasArea(cars, area, i);
      }
    }
  }

  /** After masking and imputation no garage that holds cars reports a zero area,
      provided the raw areas are non-negative. */
  lemma CleanedConsistent(cars: seq<Option<real>>, area: seq<Option<real>>)
    requires |cars| == |area|
    requires forall i :: 0 <= i < |area| ==> NonNegative(area[i])
    ensures forall i :: 0 <= i < |area| ==> !Inconsistent(cars[i], Impute(cars, MaskGarage(cars, area))[i])
  {
    var m := MaskGarage(cars, area);
    forall i | 0 <= i < |area|
      ensures !Inconsistent(cars[i], Impute(cars, m)[i])
    {
      FilledConsistent(cars, area, m, i);
    }
  }

  /** One row of `CleanedConsistent`: a filled value is at least the smallest
      present area of its group, and that area is neither negative nor a masked zero. */
  lemma FilledConsistent(cars: seq<Option<real>>, area: seq<Option<real>>, m: seq<Option<real>>, i: int)
    requires |cars| == |area| == |m| && 0 <= i < |area|
    requires forall j :: 0 <= j < |area| ==> NonNegative(area[j])
    requires forall j :: 0 <= j < |m| ==> (m[j] != area[j] <==> Inconsistent(cars[j], area[j]))
    requires forall j :: 0 <= j < |m| && m[j] != area[j] ==> m[j].None?
    requires forall j :: 0 <= j < |m| ==> !Inconsistent(cars[j], m[j])
    ensures !Inconsistent(cars[i], FillArea(cars, m, i))
  {
    var r := FillArea(cars, m, i);
    if r != m[i] && PositiveCount(cars[i]) {
      var x := r.value;
      assert WithinGroup(cars, m, i, x);
      var j :| 0 <= j < |cars| && cars[j] == cars[i] && m[j].Some? && m[j].value <= x;
      assert m[j] == area[j];
      assert PositiveCount(cars[j]) && !Inconsistent(cars[j], area[j]);
      assert area[j] != Some(0.0) && area[j] == Some(area[j].value);
      assert NonNegative(area[j]) && area[j].value != 0.0;
    }
  }

  /** The garage area column of `u` is that of `t` masked and imputed, cell by cell:
      a number where the imputed area is present and NaN (never text) where it is not. */
  ghost predicate GarageCleaned(t: Table, u: Table) {
    && WellFormed(t) && WellFormed(u) && |u.rows| == |t.rows|
    && Col(GarageSqft) in t.cols && Col(GarageCarCnt) in t.cols && Col(GarageSqft) in u.cols
    && var cars := RealColumn(t, Col(GarageCarCnt));
       var area := Impute(cars, MaskGarage(cars, RealColumn(t, Col(GarageSqft))));
       forall i :: 0 <= i < |u.rows| ==> u.rows[i][Col(GarageSqft)] == FromReal(area[i])
  }

  /** A later stage that keeps the garage area keeps the cleaning. */
  lemma GarageCleanedKept(t: Table, u: Table, v: Table)
    requires GarageCleaned(t, u) && WellFormed(v) && Col(GarageSqft) in v.cols && SameColumn(u, v, Col(GarageSqft))
    ensures GarageCleaned(t, v)
  {
  }

  /** An earlier stage that kept both garage columns does not change what was cleaned. */
  lemma GarageCleanedFrom(t: Table, t1: Table, u: Table)
    requires GarageCleaned(t1, u) && WellFormed(t) && Col(GarageSqft) in t.cols && Col(GarageCarCnt) in t.cols
    requires SameColumn(t, t1, Col(GarageSqft)) && SameColumn(t, t1, Col(GarageCarCnt))
    ensures GarageCleaned(t, u)
  {
    assert RealColumn(t1, Col(GarageSqft)) == RealColumn(t, Col(GarageSqft));
    assert RealColumn(t1, Col(GarageCarCnt)) == RealColumn(t, Col(GarageCarCnt));
  }

  /** Masks inconsistent zero areas, then imputes the garage area column. */
  method CleanGarage(t: Table) returns (u: Table)
    requires WellFormed(t) && Col(GarageSqft) in t.cols && Col(GarageCarCnt) in t.cols
    ensures WellFormed(u) && |u.rows| == |t.rows| && u.cols == t.cols
    ensures GarageCleaned(t, u)
    ensures forall d :: d in t.cols && d != Col(GarageSqft) ==> SameColumn(t, u, d)
  {
    var cars := RealColumn(t, Col(GarageCarCnt));
    var area := Impute(cars, MaskGarage(cars, RealColumn(t, Col(GarageSqft))));
    u := WithColumn(t, Col(GarageSqft), seq(|area|, i requires 0 <= i < |area| => FromReal(area[i])));
    assert RealColumn(u, Col(GarageSqft)) == area by {
      assert Column(u, Col(GarageSqft)) == seq(|area|, i requires 0 <= i < |area| => FromReal(area[i]));
    }
  }

  /** The plain columns cleaning adds, drops or overwrites. */
  const CleanedFields: set<Field> := {RoomCnt, RoomCntFixed, GarageSqft}

  /** Room-count repair, then garage-area cleaning. */
  method CleanStage(t: Table) returns (u: Table)
    requires WellFormed(t)
    requires Col(RoomCnt) in t.cols && Col(BedroomCnt) in t.cols && Col(BathroomCnt) in t.cols
    requires Col(GarageSqft) in t.cols && Col(GarageCarCnt) in t.cols
    ensures WellFormed(u) && Adjusts(t, u, CleanedFields) && Col(RoomCnt) !in u.cols
    ensures RoomRepaired(t, u) && GarageCleaned(t, u)
  {
    var t1 := FixRoomCount(t);
    u := CleanGarage(t1);
    RoomRepairedKept(t, t1, u);
    GarageCleanedFrom(t, t1, u);
    forall d | !Named(d, CleanedFields)
      ensures d in u.cols <==> d in t.cols
    {
      assert d != Col(RoomCnt) && d != Col(RoomCntFixed);
    }
    forall d | d in t.cols && !Named(d, CleanedFields)
      ensures SameColumn(t, u, d)
    {
      assert d != Col(RoomCnt) && d != Col(RoomCntFixed) && d != Col(GarageSqft);
      SameColumnTrans(t, t1, u, d);
    }
  }
}
