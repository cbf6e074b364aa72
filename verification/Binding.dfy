/** The bulk insert statement: numbered placeholders for n rows of 11 columns, cached by n, and the
    flattened parameter list they bind. */
module Binding {

  const COLUMNS: nat := 11

  // The column values of one event, in the order of the column list.
  type Row = r: seq<string> | |r| == COLUMNS witness seq(COLUMNS, _ => "")

  // Row i of the VALUES clause lists the parameter numbers 11i+1 .. 11i+11.
  function Placeholders(count: nat): seq<seq<nat>>
  {
    seq(count, i => seq(COLUMNS, c => i * COLUMNS + c + 1))
  }

  class PlaceholderCache {
    var cache: map<nat, seq<seq<nat>>>

    constructor ()
      ensures cache == map[] && Valid()
    {
      cache := map[];
    }

    predicate Valid()
      reads this
    {
      forall n :: n in cache ==> cache[n] == Placeholders(n)
    }

    method GetBetInsertPlaceholders(count: nat) returns (rows: seq<seq<nat>>)
      requires Valid()
      modifies this
      ensures Valid()
      ensures rows == Placeholders(count)
    {
      if count in cache && cache[count] != [] {
        return cache[count];
      }
      rows := seq(count, i => var b := i * COLUMNS; [b+1, b+2, b+3, b+4, b+5, b+6, b+7, b+8, b+9, b+10, b+11]);
      assert rows == Placeholders(count) by {
        forall i | 0 <= i < count
          ensures rows[i] == Placeholders(count)[i]
        {
        }
      }
      cache := cache[count := rows];
    }
  }

  // flatMap: each row's values after those of the rows before it.
  method Flatten(events: seq<Row>) returns (values: seq<string>)
    ensures |values| == |events| * COLUMNS
    ensures forall i, c :: 0 <= i < |events| && 0 <= c < COLUMNS ==> values[i * COLUMNS + c] == events[i][c]
  {
    values := [];
    for n := 0 to |events|
      invariant |values| == n * COLUMNS
      invariant forall i, c :: 0 <= i < n && 0 <= c < COLUMNS ==> values[i * COLUMNS + c] == events[i][c]
    {
      values := values + events[n];
    }
  }

  // Parameter $k of a statement is the k-th value of its list.
  predicate Binds(rows: seq<seq<nat>>, values: seq<string>, events: seq<Row>)
  {
    && |rows| == |events|
    && forall i, c :: 0 <= i < |rows| && 0 <= c < COLUMNS ==>
         |rows[i]| == COLUMNS && 1 <= rows[i][c] <= |values| && values[rows[i][c] - 1] == events[i][c]
  }

  // Placeholder c of row i always reads field c of event i, however often the statement is reused.
  lemma RowsBindFields(events: seq<Row>, values: seq<string>)
    requires |values| == |events| * COLUMNS
    requires forall i, c :: 0 <= i < |events| && 0 <= c < COLUMNS ==> values[i * COLUMNS + c] == events[i][c]
    ensures Binds(Placeholders(|events|), values, events)
  {
    var rows := Placeholders(|events|);
    forall i, c | 0 <= i < |rows| && 0 <= c < COLUMNS
      ensures |rows[i]| == COLUMNS && 1 <= rows[i][c] <= |values| && values[rows[i][c] - 1] == events[i][c]
    {
      assert rows[i][c] - 1 == i * COLUMNS + c;
    }
  }
}
