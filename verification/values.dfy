/** Cell values of a data frame and the total order pandas uses when it sorts
    the categories of a column. */
module Values {
  import opened Wrappers

  /** A present cell value: a number or a piece of text. */
  datatype Value = Num(n: real) | Text(s: string)

  /** A cell of a data frame; `None` is pandas' NaN. */
  type Cell = Option<Value>

  /** The numeric reading of a cell: text and NaN both read as missing. */
  function AsReal(c: Cell): Option<real> {
    match c
    case Some(Num(x)) => Some(x)
    case _ => None
  }

  /** The cell holding an optional number. */
  function FromReal(x: Option<real>): (c: Cell)
    ensures AsReal(c) == x
  {
    match x
    case Some(v) => Some(Num(v))
    case None => None
  }

  /** Lexicographic order on strings, character by character. */
  predicate StrLt(a: string, b: string)
    decreases |a|
  {
    |b| > 0 && (|a| == 0 || a[0] < b[0] || (a[0] == b[0] && StrLt(a[1..], b[1..])))
  }

  /** Category order: numbers before text, numbers by value, text lexicographically. */
  predicate Lt(a: Value, b: Value) {
    match (a, b)
    case (Num(x), Num(y)) => x < y
    case (Num(_), Text(_)) => true
    case (Text(_), Num(_)) => false
    case (Text(x), Text(y)) => StrLt(x, y)
  }

  lemma {:induction false} StrLtIrreflexive(a: string)
    ensures !StrLt(a, a)
    decreases |a|
  {
    if |a| > 0 {
      StrLtIrreflexive(a[1..]);
    }
  }

  lemma {:induction false} StrLtTransitive(a: string, b: string, c: string)
    requires StrLt(a, b) && StrLt(b, c)
    ensures StrLt(a, c)
    decreases |a|
  {
    if |a| > 0 && a[0] == b[0] && b[0] == c[0] {
      StrLtTransitive(a[1..], b[1..], c[1..]);
    }
  }

  lemma {:induction false} StrLtTotal(a: string, b: string)
    ensures a == b || StrLt(a, b) || StrLt(b, a)
    decreases |a|
  {
    if |a| > 0 && |b| > 0 && a[0] == b[0] {
      StrLtTotal(a[1..], b[1..]);
      if a[1..] == b[1..] {
        assert a == [a[0]] + a[1..] && b == [b[0]] + b[1..];
      }
    }
  }

  /** `Lt` is a strict total order, so a set of categories has one sorted listing. */
  lemma LtIrreflexive(a: Value)
    ensures !Lt(a, a)
  {
    if a.Text? {
      StrLtIrreflexive(a.s);
    }
  }

  lemma LtTransitive(a: Value, b: Value, c: Value)
    requires Lt(a, b) && Lt(b, c)
    ensures Lt(a, c)
  {
    if a.Text? && b.Text? && c.Text? {
      StrLtTransitive(a.s, b.s, c.s);
    }
  }

  lemma LtTotal(a: Value, b: Value)
    ensures a == b || Lt(a, b) || Lt(b, a)
  {
    if a.Text? && b.Text? {
      StrLtTotal(a.s, b.s);
    }
  }

  /** Every element of `s` is strictly before every later one. */
  predicate StrictlySorted(s: seq<Value>) {
    forall i, j :: 0 <= i < j < |s| ==> Lt(s[i], s[j])
  }

  /** Inserts `x` into a strictly sorted listing, keeping it strictly sorted and
      without duplicates. */
  function InsertSorted(x: Value, s: seq<Value>): (r: seq<Value>)
    requires StrictlySorted(s)
    ensures StrictlySorted(r)
    ensures forall y :: y in r <==> y == x || y in s
    ensures |r| == if x in s then |s| else |s| + 1
  {
    if |s| == 0 then [x]
    else if x == s[0] then s
    else if Lt(x, s[0]) then
      assert forall j :: 0 < j < |s| ==> Lt(x, s[j]) by {
        forall j | 0 < j < |s| {
          LtTransitive(x, s[0], s[j]);
        }
      }
      assert x !in s by {
        if x in s {
          LtIrreflexive(x);
        }
      }
      [x] + s
    else
      LtTotal(x, s[0]);
      var rest := InsertSorted(x, s[1..]);
      assert s[0] !in s[1..] by {
        if s[0] in s[1..] {
          LtIrreflexive(s[0]);
        }
      }
      assert x in s <==> x in s[1..] by {
        assert s == [s[0]] + s[1..];
      }
      assert forall k :: 0 <= k < |rest| ==> Lt(s[0], rest[k]) by {
        forall k | 0 <= k < |rest|
          ensures Lt(s[0], rest[k])
        {
          assert rest[k] in rest;
          if rest[k] != x {
            assert rest[k] in s[1..];
            var j :| 0 <= j < |s[1..]| && s[1..][j] == rest[k];
            assert s[j + 1] == rest[k];
          }
        }
      }
      [s[0]] + rest
  }
}
