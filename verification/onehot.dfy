/** One-hot encoding with the first category dropped (`pd.get_dummies(df,
    columns=[c], drop_first=True)`). */
module OneHot {
  import opened Wrappers
  import opened Values
  import opened Tables
  import opened Schema
  import opened TopK

  /** The categories of a column: its distinct present values in ascending order. */
  function Categories(col: seq<Cell>): (cats: seq<Value>)
    ensures StrictlySorted(cats)
    ensures forall v :: v in cats <==> Some(v) in col
  {
    if |col| == 0 then []
    else
      var rest := Categories(col[1..]);
      assert forall v :: Some(v) in col <==> col[0] == Some(v) || Some(v) in col[1..] by {
        assert col == [col[0]] + col[1..];
      }
      if col[0].Some? then InsertSorted(col[0].value, rest) else rest
  }

  lemma SortedNoDup(s: seq<Value>)
    requires StrictlySorted(s)
    ensures NoDup(s)
  {
    forall i, j | 0 <= i < j < |s| ensures s[i] != s[j] {
      LtIrreflexive(s[i]);
    }
  }

  /** The first category is the least present value. */
  lemma FirstCategoryIsLeast(col: seq<Cell>, v: Value)
    requires Some(v) in col
    ensures |Categories(col)| > 0
    ensures v == Categories(col)[0] || Lt(Categories(col)[0], v)
  {
    var cats := Categories(col);
    assert v in cats;
  }

  /** The categories that get an indicator column: all but the first. */
  function Kept(cats: seq<Value>): seq<Value> {
    if |cats| == 0 then [] else cats[1..]
  }

  /** The indicator columns for `name` and categories `kept`. */
  function DummyCols(name: Field, kept: seq<Value>): set<ColName> {
    set v | v in kept :: Dummy(name, v)
  }

  lemma {:induction false} DummyColsCard(name: Field, kept: seq<Value>)
    requires NoDup(kept)
    ensures |DummyCols(name, kept)| == |kept|
  {
    if |kept| > 0 {
      DummyColsCard(name, kept[1..]);
      assert DummyCols(name, kept) == {Dummy(name, kept[0])} + DummyCols(name, kept[1..]) by {
        assert kept == [kept[0]] + kept[1..];
      }
    }
  }

  /** 1 when the cell holds `v`, otherwise 0 (NaN included). */
  function Indicator(c: Cell, v: Value): Cell {
    Some(Num(if c == Some(v) then 1.0 else 0.0))
  }

  /** The indicator columns `get_dummies` derives from the cells `col` of
      column `name`: one per category but the first. */
  function Indicators(name: Field, col: seq<Cell>): set<ColName> {
    DummyCols(name, Kept(Categories(col)))
  }

  /** The indicator columns `get_dummies` creates for column `name` of `t`. */
  function IndicatorCols(t: Table, name: Field): set<ColName>
    requires WellFormed(t) && Col(name) in t.cols
  {
    Indicators(name, Column(t, Col(name)))
  }

  /** At most one of the indicator columns `cols` of `row` is set. */
  ghost predicate AtMostOneHot(row: Row, cols: set<ColName>) {
    forall d1, d2 ::
      (d1 in cols && d2 in cols && d1 in row && d2 in row &&
       row[d1] == Some(Num(1.0)) && row[d2] == Some(Num(1.0))) ==> d1 == d2
  }

  function EncodeRow(row: Row, name: Field, cols: set<ColName>): (r: Row)
    requires Col(name) in row
    requires forall d :: d in cols ==> d.Dummy? && d.source == name
    ensures r.Keys == (row.Keys - {Col(name)}) + cols
    ensures forall d :: d in cols ==> r[d] == Indicator(row[Col(name)], d.category)
    ensures forall d :: d in row && d != Col(name) && d !in cols ==> r[d] == row[d]
    ensures AtMostOneHot(r, cols)
  {
    (row - {Col(name)}) + map d | d in cols :: Indicator(row[Col(name)], d.category)
  }

  /** Replaces column `name` by one indicator column per category but the first. */
  function Encode(t: Table, name: Field): (u: Table)
    requires WellFormed(t) && Col(name) in t.cols
    ensures WellFormed(u) && |u.rows| == |t.rows|
    ensures Col(name) !in u.cols
    ensures u.cols == (t.cols - {Col(name)}) + IndicatorCols(t, name)
    ensures forall i, d :: 0 <= i < |u.rows| && d in IndicatorCols(t, name) ==>
      u.rows[i][d] == Indicator(t.rows[i][Col(name)], d.category)
    ensures forall d :: d in t.cols && d != Col(name) && d !in IndicatorCols(t, name) ==> SameColumn(t, u, d)
    ensures forall i :: 0 <= i < |u.rows| ==> AtMostOneHot(u.rows[i], IndicatorCols(t, name))
  {
    var ind := IndicatorCols(t, name);
    assert Col(name) !in ind;
    var u := Table((t.cols - {Col(name)}) + ind,
                   seq(|t.rows|, i requires 0 <= i < |t.rows| => EncodeRow(t.rows[i], name, ind)));
    assert forall d :: d in t.cols && d != Col(name) && d !in ind ==> SameColumn(t, u, d) by {
      forall d, i | d in t.cols && d != Col(name) && d !in ind && 0 <= i < |t.rows|
        ensures d in u.rows[i] && u.rows[i][d] == t.rows[i][d]
      {
        assert u.rows[i] == EncodeRow(t.rows[i], name, ind);
      }
    }
    u
  }

  /** `drop_first` leaves one indicator column fewer than there are distinct
      present values (none for an all-NaN column). */
  lemma EncodeWidth(name: Field, col: seq<Cell>)
    ensures |Present(col)| > 0 ==> |Indicators(name, col)| == |Present(col)| - 1
    ensures |Present(col)| == 0 ==> Indicators(name, col) == {}
  {
    var cats := Categories(col);
    SortedNoDup(cats);
    assert NoDup(Kept(cats));
    DummyColsCard(name, Kept(cats));
    NoDupCard(cats);
    assert (set x | x in cats) == Present(col) by {
      forall v | v in Present(col) ensures v in cats {
        var i :| 0 <= i < |col| && col[i].Some? && col[i].value == v;
        assert Some(v) == col[i];
      }
    }
  }

  /** Every indicator column `cols` of `row` is 0. */
  ghost predicate AllZero(row: Row, cols: set<ColName>) {
    forall d :: d in cols ==> d in row && row[d] == Some(Num(0.0))
  }

  /** The indicators of one cell are all zero exactly when it is NaN or the
      first category. */
  lemma ZeroIndicators(x: Cell, name: Field, cats: seq<Value>)
    requires StrictlySorted(cats)
    requires x.Some? ==> x.value in cats
    ensures (forall d :: d in DummyCols(name, Kept(cats)) ==> Indicator(x, d.category) == Some(Num(0.0)))
        <==> (x.None? || x == Some(cats[0]))
  {
    var cols := DummyCols(name, Kept(cats));
    if x.Some? && x.value != cats[0] {
      var j :| 0 <= j < |cats| && cats[j] == x.value;
      assert Kept(cats)[j - 1] == x.value;
      assert Dummy(name, x.value) in cols;
    } else if x.Some? {
      forall d | d in cols ensures Indicator(x, d.category) == Some(Num(0.0)) {
        var v :| v in Kept(cats) && d == Dummy(name, v);
        var j :| 0 <= j < |Kept(cats)| && Kept(cats)[j] == v;
        assert cats[j + 1] == v;
        LtIrreflexive(cats[0]);
      }
    }
  }

  /** `u` holds the one-hot encoding of the cells `col` of column `name`: every
      indicator column `get_dummies` derives from `col` is there, 1 exactly in the
      rows holding its category, and no other indicator column of `name` is there
      unless it already was in `before`. */
  ghost predicate EncodesAs(before: Table, u: Table, name: Field, col: seq<Cell>) {
    && |col| == |u.rows|
    && (forall d :: d in Indicators(name, col) ==> d in u.cols)
    && (forall d :: d in u.cols && IndicatorOf(d, {name}) && d !in before.cols ==> d in Indicators(name, col))
    && (forall i, d :: 0 <= i < |u.rows| && d in Indicators(name, col) ==>
          d in u.rows[i] && u.rows[i][d] == Indicator(col[i], d.category))
  }

  /** `Encode` one-hot encodes the column it removes. */
  lemma EncodeMeaning(t: Table, name: Field)
    requires WellFormed(t) && Col(name) in t.cols
    ensures EncodesAs(t, Encode(t, name), name, Column(t, Col(name)))
  {
    var u := Encode(t, name);
    forall d | d in u.cols && IndicatorOf(d, {name}) && d !in t.cols
      ensures d in IndicatorCols(t, name)
    {
    }
  }

  /** A row's indicators are all zero exactly when its cell is NaN or the
      dropped first category. */
  lemma EncodedAllZero(before: Table, u: Table, name: Field, col: seq<Cell>, i: int)
    requires EncodesAs(before, u, name, col) && 0 <= i < |col|
    ensures AllZero(u.rows[i], Indicators(name, col))
        <==> (col[i].None? || col[i] == Some(Categories(col)[0]))
  {
    var cats := Categories(col);
    ZeroIndicators(col[i], name, cats);
  }

  /** At most one indicator is set in each row. */
  lemma EncodedOneHot(before: Table, u: Table, name: Field, col: seq<Cell>, i: int)
    requires EncodesAs(before, u, name, col) && 0 <= i < |col|
    ensures AtMostOneHot(u.rows[i], Indicators(name, col))
  {
    var row := u.rows[i];
    forall d1, d2 | d1 in Indicators(name, col) && d2 in Indicators(name, col) && d1 in row && d2 in row &&
                    row[d1] == Some(Num(1.0)) && row[d2] == Some(Num(1.0))
      ensures d1 == d2
    {
      assert row[d1] == Indicator(col[i], d1.category) && row[d2] == Indicator(col[i], d2.category);
      assert d1.Dummy? && d1.source == name && d2.Dummy? && d2.source == name;
    }
  }

  /** A later replacement of other fields keeps the encoding of `name`. */
  lemma EncodesAsKept(before: Table, u: Table, v: Table, name: Field, col: seq<Cell>, cs: set<Field>)
    requires EncodesAs(before, u, name, col) && Replaces(u, v, cs) && name !in cs
    ensures EncodesAs(before, v, name, col)
  {
    forall d | d in Indicators(name, col)
      ensures d in v.cols && SameColumn(u, v, d)
    {
      assert !Named(d, cs) && !IndicatorOf(d, cs);
    }
  }

  /** An earlier replacement of other fields added no indicator of `name`. */
  lemma EncodesAsFrom(t: Table, t1: Table, u: Table, name: Field, col: seq<Cell>, cs: set<Field>)
    requires Replaces(t, t1, cs) && name !in cs && EncodesAs(t1, u, name, col)
    ensures EncodesAs(t, u, name, col)
  {
    forall d | d in u.cols && IndicatorOf(d, {name}) && d !in t.cols
      ensures d in Indicators(name, col)
    {
      assert d !in t1.cols;
    }
  }

  /** An earlier adjustment of plain columns added no indicator at all. */
  lemma EncodesAsAdjusted(t: Table, t1: Table, u: Table, name: Field, col: seq<Cell>, cs: set<Field>)
    requires Adjusts(t, t1, cs) && EncodesAs(t1, u, name, col)
    ensures EncodesAs(t, u, name, col)
  {
    forall d | d in u.cols && IndicatorOf(d, {name}) && d !in t.cols
      ensures d in Indicators(name, col)
    {
      assert !Named(d, cs);
    }
  }

  /** Encoding column `name` replaces it by indicator columns of source `name`
      and leaves every other column as it was. */
  lemma EncodeReplaces(t: Table, name: Field)
    requires WellFormed(t) && Col(name) in t.cols
    ensures Replaces(t, Encode(t, name), {name})
  {
    var u := Encode(t, name);
    var ind := IndicatorCols(t, name);
    assert forall d :: d in ind ==> d.Dummy? && d.source == name;
    forall d: ColName | !d.Dummy?
      ensures d in u.cols <==> d in t.cols && !Named(d, {name})
    {
      assert d !in ind;
    }
    forall d | d in t.cols && !Named(d, {name}) && !IndicatorOf(d, {name})
      ensures d in u.cols && SameColumn(t, u, d)
    {
      assert d != Col(name) && d !in ind;
    }
  }
}
