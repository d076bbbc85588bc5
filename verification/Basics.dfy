/** Small shared vocabulary. */
module Basics {

  datatype Option<+T> = None | Some(value: T)

  /** A table row: one value per column, or NULL. */
  type Row = seq<Option<string>>

  /** How often row `r` occurs. */
  function Occ(rows: seq<Row>, r: Row): nat {
    if rows == [] then 0 else Occ(rows[..|rows| - 1], r) + if rows[|rows| - 1] == r then 1 else 0
  }

  lemma {:induction false} OccConcat(a: seq<Row>, b: seq<Row>, r: Row)
    ensures Occ(a + b, r) == Occ(a, r) + Occ(b, r)
    decreases |b|
  {
    if b == [] {
      assert a + b == a;
    } else {
      assert (a + b)[..|a + b| - 1] == a + b[..|b| - 1];
      OccConcat(a, b[..|b| - 1], r);
    }
  }

  lemma OccOfLast(rows: seq<Row>)
    requires rows != []
    ensures Occ(rows, rows[|rows| - 1]) > 0
  {
  }
}
