/** Options and sums over table rows, the vocabulary shared by the action protocol modules. */
module Wrappers {
  datatype Option<+T> = None | Some(value: T)
}

/** Totals over a table held as a sequence of rows. `f` is the weight of one row. */
module Sums {
  function Sum<T>(rows: seq<T>, f: T -> int): (total: int) {
    if rows == [] then 0 else Sum(rows[..|rows| - 1], f) + f(rows[|rows| - 1])
  }

  lemma {:induction false} SumAppend<T>(rows: seq<T>, row: T, f: T -> int)
    ensures Sum(rows + [row], f) == Sum(rows, f) + f(row)
  {
    assert (rows + [row])[..|rows|] == rows;
  }

  lemma {:induction false} SumConcat<T>(left: seq<T>, right: seq<T>, f: T -> int)
    ensures Sum(left + right, f) == Sum(left, f) + Sum(right, f)
    decreases |right|
  {
    if right == [] {
      assert left + right == left;
    } else {
      var front, last := right[..|right| - 1], right[|right| - 1];
      SumConcat(left, front, f);
      assert left + right == (left + front) + [last];
      SumAppend(left + front, last, f);
    }
  }

  lemma {:induction false} SumUpdate<T>(rows: seq<T>, i: nat, row: T, f: T -> int)
    requires i < |rows|
    ensures Sum(rows[i := row], f) == Sum(rows, f) - f(rows[i]) + f(row)
    decreases |rows|
  {
    var n := |rows| - 1;
    if i == n {
      assert rows[i := row][..n] == rows[..n];
    } else {
      SumUpdate(rows[..n], i, row, f);
      assert rows[i := row][..n] == rows[..n][i := row];
    }
  }

  /** Rows that weigh the same row by row add up to the same total. */
  lemma {:induction false} SumSame<T, U>(left: seq<T>, f: T -> int, right: seq<U>, g: U -> int)
    requires |left| == |right|
    requires forall i :: 0 <= i < |left| ==> f(left[i]) == g(right[i])
    ensures Sum(left, f) == Sum(right, g)
    decreases |left|
  {
    if left != [] {
      SumSame(left[..|left| - 1], f, right[..|right| - 1], g);
    }
  }

  /** With nonnegative weights the total is at least any single weight. */
  lemma {:induction false} SumAtLeast<T>(rows: seq<T>, f: T -> int)
    requires forall i :: 0 <= i < |rows| ==> 0 <= f(rows[i])
    ensures 0 <= Sum(rows, f)
    ensures forall i :: 0 <= i < |rows| ==> f(rows[i]) <= Sum(rows, f)
    decreases |rows|
  {
    if rows != [] {
      SumAtLeast(rows[..|rows| - 1], f);
      assert forall i :: 0 <= i < |rows| - 1 ==> rows[i] == rows[..|rows| - 1][i];
    }
  }

  lemma {:induction false} SumZero<T>(rows: seq<T>, f: T -> int)
    requires forall i :: 0 <= i < |rows| ==> f(rows[i]) == 0
    ensures Sum(rows, f) == 0
    decreases |rows|
  {
    if rows != [] {
      SumZero(rows[..|rows| - 1], f);
    }
  }
}
