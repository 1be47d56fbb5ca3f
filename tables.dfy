/**
 * `pandas.concat` on a list of tables: the rows of every table, one table
 * after the other. pandas refuses an empty list ("No objects to
 * concatenate").
 */
module Tables {

  import opened Results

  datatype ConcatError = NoObjectsToConcatenate

  /** Total row count of a list of tables. */
  function TotalRows<T>(tables: seq<seq<T>>): nat
  {
    if tables == [] then 0 else |tables[0]| + TotalRows(tables[1..])
  }

  /** Row-wise union of the tables, in list order. */
  function Flatten<T>(tables: seq<seq<T>>): (rows: seq<T>)
    ensures |rows| == TotalRows(tables)
  {
    if tables == [] then [] else tables[0] + Flatten(tables[1..])
  }

  /** `pd.concat(tables)`. */
  function Concat<T>(tables: seq<seq<T>>): (r: Result<seq<T>, ConcatError>)
    ensures r.Failure? <==> tables == []
    ensures r.Success? ==> r.value == Flatten(tables)
  {
    if tables == [] then Failure(NoObjectsToConcatenate) else Success(Flatten(tables))
  }

  /** Concatenating two lists of tables concatenates their rows. */
  lemma {:induction false} FlattenAppend<T>(a: seq<seq<T>>, b: seq<seq<T>>)
    ensures Flatten(a + b) == Flatten(a) + Flatten(b)
  {
    if a != [] {
      assert (a + b)[1..] == a[1..] + b;
      FlattenAppend(a[1..], b);
    } else {
      assert a + b == b;
    }
  }

  /**
   * Block order: row j of table i sits at the position after all rows of the
   * tables before it, so table 0's rows come first.
   */
  lemma {:induction false} FlattenBlockOrder<T>(tables: seq<seq<T>>, i: nat, j: nat)
    requires i < |tables| && j < |tables[i]|
    ensures TotalRows(tables[..i]) + j < |Flatten(tables)|
    ensures Flatten(tables)[TotalRows(tables[..i]) + j] == tables[i][j]
  {
    assert tables == tables[..i] + tables[i..];
    FlattenAppend(tables[..i], tables[i..]);
    assert tables[i..][0] == tables[i];
  }

  /** Nothing is added and nothing is lost: a row is in the result iff it is in one of the tables. */
  lemma {:induction false} FlattenMembership<T>(tables: seq<seq<T>>, x: T)
    ensures x in Flatten(tables) <==> exists i :: 0 <= i < |tables| && x in tables[i]
  {
    if tables != [] {
      FlattenMembership(tables[1..], x);
      if exists i :: 0 <= i < |tables| && x in tables[i] {
        var i :| 0 <= i < |tables| && x in tables[i];
        if i > 0 {
          assert tables[1..][i - 1] == tables[i];
        }
      }
      if exists i :: 0 <= i < |tables[1..]| && x in tables[1..][i] {
        var i :| 0 <= i < |tables[1..]| && x in tables[1..][i];
        assert tables[i + 1] == tables[1..][i];
      }
    }
  }

  /** Three tables of 3, 5 and 2 rows concatenate to their 10 rows, in block order. */
  lemma ThreeTablesRowCount<T>(t0: seq<T>, t1: seq<T>, t2: seq<T>)
    requires |t0| == 3 && |t1| == 5 && |t2| == 2
    ensures Concat([t0, t1, t2]).Success?
    ensures Concat([t0, t1, t2]).value == t0 + t1 + t2
    ensures |Concat([t0, t1, t2]).value| == 10
  {
    assert [t0, t1, t2][1..] == [t1, t2];
    assert [t1, t2][1..] == [t2];
    assert [t2][1..] == [];
    assert Flatten([t2]) == t2;
    assert Flatten([t1, t2]) == t1 + t2;
  }
}
