/** A data frame as a set of column labels and a sequence of records, one per row. */
module Tables {
  import opened Wrappers
  import opened Values
  import opened Schema

  /** A column label. `Col` is an ordinary named column; `Dummy(source, category)`
      is the indicator column that one-hot encoding of `source` creates for
      `category`. */
  datatype ColName = Col(field: Field) | Other(name: string) | Dummy(source: Field, category: Value)

  /** One record: a cell for each column label. */
  type Row = map<ColName, Cell>

  datatype Table = Table(cols: set<ColName>, rows: seq<Row>)

  /** The frame is rectangular: every record has exactly the frame's columns. */
  predicate WellFormed(t: Table) {
    forall i :: 0 <= i < |t.rows| ==> t.rows[i].Keys == t.cols
  }

  /** The column `c`, top to bottom. */
  function Column(t: Table, c: ColName): (col: seq<Cell>)
    requires WellFormed(t) && c in t.cols
    ensures |col| == |t.rows|
    ensures forall i :: 0 <= i < |col| ==> col[i] == t.rows[i][c]
  {
    seq(|t.rows|, i requires 0 <= i < |t.rows| => t.rows[i][c])
  }

  /** The column `c` read as numbers. */
  function RealColumn(t: Table, c: ColName): (col: seq<Option<real>>)
    requires WellFormed(t) && c in t.cols
    ensures |col| == |t.rows|
    ensures forall i :: 0 <= i < |col| ==> col[i] == AsReal(t.rows[i][c])
  {
    seq(|t.rows|, i requires 0 <= i < |t.rows| => AsReal(t.rows[i][c]))
  }

  /** Column `c` of `t` and of `u` hold the same cells, row by row. */
  ghost predicate SameColumn(t: Table, u: Table, c: ColName) {
    |t.rows| == |u.rows| &&
    forall i :: 0 <= i < |t.rows| ==> c in t.rows[i] && c in u.rows[i] && u.rows[i][c] == t.rows[i][c]
  }

  /** A column two frames share reads the same in both. */
  lemma SameColumnRead(t: Table, u: Table, c: ColName)
    requires WellFormed(t) && WellFormed(u) && c in t.cols && c in u.cols && SameColumn(t, u, c)
    ensures Column(t, c) == Column(u, c)
  {
  }

  lemma SameColumnTrans(t: Table, u: Table, v: Table, c: ColName)
    requires SameColumn(t, u, c) && SameColumn(u, v, c)
    ensures SameColumn(t, v, c)
  {
  }

  /** `d` is the plain column of one of the fields `cs`. */
  predicate Named(d: ColName, cs: set<Field>) {
    d.Col? && d.field in cs
  }

  /** `d` is an indicator column of one of the fields `cs`. */
  predicate IndicatorOf(d: ColName, cs: set<Field>) {
    d.Dummy? && d.source in cs
  }

  /** `u` keeps the rows of `t` and changes nothing outside the plain columns
      of `cs`: those may be added, removed or overwritten. */
  ghost predicate Adjusts(t: Table, u: Table, cs: set<Field>) {
    && |u.rows| == |t.rows|
    && (forall d :: !Named(d, cs) ==> (d in u.cols <==> d in t.cols))
    && (forall d :: d in t.cols && !Named(d, cs) ==> SameColumn(t, u, d))
  }

  /** Two adjustments in a row adjust the union of their fields. */
  lemma AdjustsTrans(t: Table, u: Table, v: Table, a: set<Field>, b: set<Field>)
    requires Adjusts(t, u, a) && Adjusts(u, v, b)
    ensures Adjusts(t, v, a + b)
  {
    forall d | d in t.cols && !Named(d, a + b)
      ensures SameColumn(t, v, d)
    {
      SameColumnTrans(t, u, v, d);
    }
  }

  /** `u` is `t` with the plain columns of `cs` removed and indicator columns of
      sources in `cs` added: no other column appears or disappears, and every
      column that is neither passes through unchanged. */
  ghost predicate Replaces(t: Table, u: Table, cs: set<Field>) {
    && |u.rows| == |t.rows|
    && (forall d: ColName :: !d.Dummy? ==> (d in u.cols <==> d in t.cols && !Named(d, cs)))
    && (forall d :: d in u.cols && d.Dummy? ==> d in t.cols || d.source in cs)
    && (forall d :: d in t.cols && !Named(d, cs) && !IndicatorOf(d, cs) ==> d in u.cols && SameColumn(t, u, d))
  }

  /** Nothing replaced. */
  lemma ReplacesNothing(t: Table)
    requires WellFormed(t)
    ensures Replaces(t, t, {})
  {
    forall d | d in t.cols
      ensures SameColumn(t, t, d)
    {
    }
  }

  /** Plain columns of fields outside the adjusted ones stay present. */
  lemma AdjustsKeepsPresent(t: Table, u: Table, cs: set<Field>, fs: set<Field>)
    requires Adjusts(t, u, cs) && cs !! fs && forall f :: f in fs ==> Col(f) in t.cols
    ensures forall f :: f in fs ==> Col(f) in u.cols
  {
    forall f | f in fs
      ensures Col(f) in u.cols
    {
      assert !Named(Col(f), cs);
    }
  }

  /** An adjustment followed by a replacement: every column neither touches
      passes through, and every column of the result was in the input, is an
      adjusted plain column or is an indicator of a replaced field. */
  lemma AdjustsThenReplaces(t: Table, t1: Table, u: Table, a: set<Field>, b: set<Field>)
    requires Adjusts(t, t1, a) && Replaces(t1, u, b)
    ensures forall d :: d in t.cols && !Named(d, a + b) && !IndicatorOf(d, b) ==> d in u.cols && SameColumn(t, u, d)
    ensures forall d :: d in u.cols ==> d in t.cols || Named(d, a) || IndicatorOf(d, b)
  {
    forall d | d in t.cols && !Named(d, a + b) && !IndicatorOf(d, b)
      ensures d in u.cols && SameColumn(t, u, d)
    {
      assert !Named(d, a) && !Named(d, b);
      SameColumnTrans(t, t1, u, d);
    }
    forall d | d in u.cols && !Named(d, a)
      ensures d in t.cols || IndicatorOf(d, b)
    {
      if !d.Dummy? {
        assert d in t1.cols;
      }
    }
  }

  /** A plain column outside the replaced fields passes through a replacement. */
  lemma ReplacesKeeps(t: Table, u: Table, cs: set<Field>, f: Field)
    requires Replaces(t, u, cs) && Col(f) in t.cols && f !in cs
    ensures Col(f) in u.cols && SameColumn(t, u, Col(f))
  {
    assert !Named(Col(f), cs) && !IndicatorOf(Col(f), cs);
  }

  /** Two replacements in a row replace the union of their fields. */
  lemma ReplacesTrans(t: Table, u: Table, v: Table, a: set<Field>, b: set<Field>)
    requires Replaces(t, u, a) && Replaces(u, v, b)
    ensures Replaces(t, v, a + b)
  {
    forall d | d in t.cols && !Named(d, a + b) && !IndicatorOf(d, a + b)
      ensures d in v.cols && SameColumn(t, v, d)
    {
      SameColumnTrans(t, u, v, d);
    }
  }

  /** Setting plain column `c` and then replacing it replaces it. */
  lemma ReplacesAfterSet(t: Table, t1: Table, u: Table, c: Field)
    requires t1.cols == t.cols + {Col(c)} && |t1.rows| == |t.rows|
    requires forall d :: d in t.cols && d != Col(c) ==> SameColumn(t, t1, d)
    requires Replaces(t1, u, {c})
    ensures Replaces(t, u, {c})
  {
    forall d | d in t.cols && !Named(d, {c}) && !IndicatorOf(d, {c})
      ensures d in u.cols && SameColumn(t, u, d)
    {
      SameColumnTrans(t, t1, u, d);
    }
  }

  /** `df[c] = vals`: sets (adding or overwriting) column `c`. */
  function WithColumn(t: Table, c: ColName, vals: seq<Cell>): (u: Table)
    requires WellFormed(t) && |vals| == |t.rows|
    ensures WellFormed(u) && u.cols == t.cols + {c} && |u.rows| == |t.rows|
    ensures c in u.cols && Column(u, c) == vals
    ensures forall d :: d in t.cols && d != c ==> SameColumn(t, u, d)
  {
    var u := Table(t.cols + {c}, seq(|t.rows|, i requires 0 <= i < |t.rows| => t.rows[i][c := vals[i]]));
    assert Column(u, c) == vals;
    u
  }

  /** `df.drop(columns=[c])` for a column that is present. */
  function WithoutColumn(t: Table, c: ColName): (u: Table)
    requires WellFormed(t)
    ensures WellFormed(u) && u.cols == t.cols - {c} && |u.rows| == |t.rows|
    ensures forall d :: d in t.cols && d != c ==> SameColumn(t, u, d)
  {
    Table(t.cols - {c}, seq(|t.rows|, i requires 0 <= i < |t.rows| => t.rows[i] - {c}))
  }

  /** Number of rows whose cell is `v` (pandas `value_counts()[v]`; NaN is never counted). */
  function Count(col: seq<Cell>, v: Value): (n: nat)
    ensures n == multiset(col)[Some(v)]
    ensures n <= |col|
    ensures n > 0 <==> Some(v) in col
  {
    if |col| == 0 then 0
    else
      assert col == [col[0]] + col[1..];
      (if col[0] == Some(v) then 1 else 0) + Count(col[1..], v)
  }

  /** The distinct present values of a column. */
  function Present(col: seq<Cell>): set<Value> {
    set i | 0 <= i < |col| && col[i].Some? :: col[i].value
  }
}
