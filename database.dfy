/** The relational store as the repository's queries see it: tables of rows
    keyed by a serial id, single-statement INSERT, UPDATE and DELETE, and
    transactions as a snapshot that ROLLBACK restores. */
module Postgres {
  import opened Util
  import opened Sql

  type Id = string

  datatype Table = Tickets | Regions | Activities | Arenas | Users

  type Rows = map<Id, Row>
  type Tables = map<Table, Rows>

  function RowsOf(ts: Tables, t: Table): Rows
  {
    if t in ts then ts[t] else map[]
  }

  /** Replacing other tables leaves a table's rows as they were. */
  lemma RowsOfOther(ts: Tables, t: Table, u: Table, rows: Rows)
    requires t != u
    ensures RowsOf(ts[u := rows], t) == RowsOf(ts, t)
  {
  }

  /** The id the serial sequence hands out as its n-th value. */
  function SerialId(n: nat): Id
  {
    NatToString(n)
  }

  /** The sequence's n-th value is not an id of table t. */
  ghost predicate Unused(ts: Tables, t: Table, n: nat)
  {
    SerialId(n) !in RowsOf(ts, t)
  }

  /** No id the sequence has yet to hand out is in use. */
  ghost predicate FreshAbove(ts: Tables, next: nat)
  {
    forall t: Table, n: nat :: n >= next ==> Unused(ts, t, n)
  }

  /** Every table exists. */
  ghost predicate Complete(ts: Tables)
  {
    forall t: Table :: t in ts
  }

  /** Whether a row satisfies "WHERE column = value"; the key column _id is
      the row's id. */
  predicate Matches(id: Id, row: Row, column: string, v: Value)
  {
    if column == "_id" then v == Text(id) else column in row && row[column] == v
  }

  /** A SET list is refused when it binds a non-number. */
  predicate BindsNotANumber(fields: seq<Assign>, params: seq<Value>)
    requires forall i :: 0 <= i < |fields| ==> 1 <= fields[i].param <= |params|
  {
    exists i :: 0 <= i < |fields| && params[fields[i].param - 1] == NotANumber
  }

  /** The rows an UPDATE reaches, after its SET list is applied. */
  function Updated(rows: Rows, fields: seq<Assign>, column: string, key: Value, params: seq<Value>): (r: Rows)
    requires forall i :: 0 <= i < |fields| ==> 1 <= fields[i].param <= |params|
    ensures r.Keys <= rows.Keys
    ensures forall id :: id in r <==> id in rows && Matches(id, rows[id], column, key)
  {
    map id | id in rows && Matches(id, rows[id], column, key) :: ApplySet(rows[id], fields, params)
  }

  /** An UPDATE whose parameters are the pushed values followed by the WHERE
      key gives each selected row the pushed values. */
  lemma UpdatedWithPushed(rows: Rows, fields: seq<Assign>, values: seq<Value>, column: string, key: Value)
    requires |values| == |fields| && Consecutive(fields)
    ensures forall i :: 0 <= i < |fields| ==> 1 <= fields[i].param <= |values + [key]|
    ensures Updated(rows, fields, column, key, values + [key])
            == map id | id in rows && Matches(id, rows[id], column, key) :: Override(rows[id], Zip(fields, values))
  {
    WhereKeyFollowsValues(map[], fields, values, key);
    forall id | id in rows {
      WhereKeyFollowsValues(rows[id], fields, values, key);
    }
  }

  /** Selecting by the key column reaches the one row with that id, if any. */
  lemma UpdatedById(rows: Rows, fields: seq<Assign>, values: seq<Value>, id: Id)
    requires |values| == |fields| && Consecutive(fields)
    ensures forall i :: 0 <= i < |fields| ==> 1 <= fields[i].param <= |values + [Text(id)]|
    ensures Updated(rows, fields, "_id", Text(id), values + [Text(id)])
            == if id in rows then map[id := Override(rows[id], Zip(fields, values))] else map[]
  {
    UpdatedWithPushed(rows, fields, values, "_id", Text(id));
  }

  /** Merging a one-row answer back into its table overwrites that row. */
  lemma MergeOne(rows: Rows, id: Id, row: Row)
    ensures rows + map[id := row] == rows[id := row]
  {
  }

  /** The rows a run of inserts stores when the sequence stands at next:
      the k-th row under the sequence's value next+k. */
  function Inserted(next: nat, rows: seq<Row>): Rows
    decreases |rows|
  {
    if rows == [] then map[]
    else
      var n := |rows| - 1;
      Inserted(next, rows[..n])[SerialId(next + n) := rows[n]]
  }

  /** The k-th insert's id holds the k-th row: the sequence never hands out
      the same id twice. */
  lemma {:induction false} InsertedAt(next: nat, rows: seq<Row>, k: nat)
    requires k < |rows|
    ensures SerialId(next + k) in Inserted(next, rows) && Inserted(next, rows)[SerialId(next + k)] == rows[k]
    decreases |rows|
  {
    var n := |rows| - 1;
    assert Inserted(next, rows) == Inserted(next, rows[..n])[SerialId(next + n) := rows[n]];
    if k < n {
      InsertedAt(next, rows[..n], k);
      assert rows[..n][k] == rows[k];
      NatToStringInjective(next + k, next + n);
    }
  }

  /** A run stores nothing under an id the sequence did not hand it. */
  lemma {:induction false} InsertedOnly(next: nat, rows: seq<Row>)
    ensures forall id :: id in Inserted(next, rows) ==> exists m :: next <= m < next + |rows| && id == SerialId(m)
    decreases |rows|
  {
    if rows != [] {
      InsertedOnly(next, rows[..|rows| - 1]);
    }
  }

  /** The sequence hands out distinct ids, so a run stores one row per
      insert. */
  lemma {:induction false} InsertedCount(next: nat, rows: seq<Row>)
    ensures |Inserted(next, rows)| == |rows|
    decreases |rows|
  {
    if rows != [] {
      var n := |rows| - 1;
      InsertedCount(next, rows[..n]);
      InsertedOnly(next, rows[..n]);
      if SerialId(next + n) in Inserted(next, rows[..n]) {
        var m :| next <= m < next + n && SerialId(next + n) == SerialId(m);
        NatToStringInjective(next + n, m);
      }
    }
  }

  /** One more insert extends the run by its row. */
  lemma AppendInserted(before: Rows, next: nat, rows: seq<Row>, row: Row)
    ensures (before + Inserted(next, rows))[SerialId(next + |rows|) := row] == before + Inserted(next, rows + [row])
  {
    assert (rows + [row])[..|rows|] == rows;
  }

  /** Map union is associative. */
  lemma UnionAssociative<K, V>(a: map<K, V>, b: map<K, V>, c: map<K, V>)
    ensures (a + b) + c == a + (b + c)
  {
  }

  /** Replacing an entry r + a of a map of maps by (r + a) + b is
      replacing it by r + w, when a + b is w. */
  lemma ReplaceByUnion<T, K, V>(m: map<T, map<K, V>>, t: T, r: map<K, V>, a: map<K, V>, b: map<K, V>, w: map<K, V>)
    requires a + b == w
    ensures m[t := r + a][t := (r + a) + b] == m[t := r + w]
  {
    UnionAssociative(r, a, b);
  }

  /** Two runs back to back store what one run of both stores; the second
      run starts where the first ends. */
  lemma {:induction false} InsertedConcat(next: nat, first: seq<Row>, at: nat, second: seq<Row>)
    requires at == next + |first|
    ensures Inserted(next, first) + Inserted(at, second) == Inserted(next, first + second)
    decreases |second|
  {
    if second == [] {
      assert first + second == first;
    } else {
      var m := |second| - 1;
      var n := |first + second| - 1;
      InsertedConcat(next, first, at, second[..m]);
      assert (first + second)[..n] == first + second[..m];
      assert (first + second)[n] == second[m];
      assert SerialId(at + m) == SerialId(next + n) by {
        assert at + m == next + n;
      }
      UnionUpdate(Inserted(next, first), Inserted(at, second[..m]), SerialId(at + m), second[m]);
    }
  }

  /** Updating the right operand of a union updates the union. */
  lemma UnionUpdate<K, V>(a: map<K, V>, b: map<K, V>, k: K, v: V)
    ensures a + b[k := v] == (a + b)[k := v]
  {
  }

  class Database {
    var tables: Tables
    var nextId: nat

    ghost predicate Valid()
      reads this
    {
      FreshAbove(tables, nextId) && Complete(tables)
    }

    function Rows(t: Table): Rows
      reads this
    {
      RowsOf(tables, t)
    }

    constructor ()
      ensures Valid() && nextId == 0 && forall t: Table :: Rows(t) == map[]
    {
      tables := map[Tickets := map[], Regions := map[], Activities := map[], Arenas := map[], Users := map[]];
      nextId := 0;
      new;
      forall t: Table ensures t in tables {
        match t
        case Tickets =>
        case Regions =>
        case Activities =>
        case Arenas =>
        case Users =>
      }
    }

    /** INSERT ... RETURNING *: the row is stored under the next serial id. */
    method Insert(t: Table, row: Row) returns (id: Id, stored: Row)
      requires Valid()
      modifies this
      ensures Valid()
      ensures id == SerialId(old(nextId)) && id !in old(Rows(t)) && nextId == old(nextId) + 1
      ensures stored == row["_id" := Text(id)]
      ensures tables == old(tables)[t := old(Rows(t))[id := stored]]
    {
      id := SerialId(nextId);
      assert Unused(tables, t, nextId);
      stored := row["_id" := Text(id)];
      tables := tables[t := Rows(t)[id := stored]];
      FreshAfterInsert(old(tables), t, id, stored, nextId);
      nextId := nextId + 1;
    }

    /** The next insert of a run into table t that started with the
        sequence at n0 and has stored rows so far: it extends the run by
        its row. */
    method InsertInRun(t: Table, row: Row, ghost t0: Tables, ghost r0: Rows, ghost n0: nat, ghost rows: seq<Row>)
      returns (id: Id, stored: Row)
      requires Valid() && nextId == n0 + |rows| && tables == t0[t := r0 + Inserted(n0, rows)]
      modifies this
      ensures Valid() && nextId == n0 + |rows| + 1
      ensures id == SerialId(n0 + |rows|) && stored == row["_id" := Text(id)]
      ensures tables == t0[t := r0 + Inserted(n0, rows + [stored])]
    {
      id, stored := Insert(t, row);
      AppendInserted(r0, n0, rows, stored);
    }

    /** UPDATE t SET ... WHERE column = $w RETURNING *. The statement throws
        (None) when it binds a non-number or when the environment makes it
        fail; otherwise it answers the updated rows. */
    method Update(t: Table, fields: seq<Assign>, column: string, w: nat, params: seq<Value>, fault: bool)
      returns (r: Option<Rows>)
      requires Valid()
      requires forall i :: 0 <= i < |fields| ==> 1 <= fields[i].param <= |params|
      requires 1 <= w <= |params|
      modifies this
      ensures Valid() && nextId == old(nextId)
      ensures r.None? <==> fault || BindsNotANumber(fields, params)
      ensures r.None? ==> tables == old(tables)
      ensures r.Some? ==> r.value == Updated(old(Rows(t)), fields, column, params[w - 1], params)
                          && tables == old(tables)[t := old(Rows(t)) + r.value]
    {
      if fault || BindsNotANumber(fields, params) {
        return None;
      }
      var changed := Updated(Rows(t), fields, column, params[w - 1], params);
      tables := tables[t := Rows(t) + changed];
      r := Some(changed);
      FreshAfterShrink(old(tables), tables, nextId);
    }

    /** UPDATE t SET ... WHERE _id = $(k+1) RETURNING *, bound to the pushed
        values followed by the id: None when the statement throws, Some(None)
        when no row has that id, otherwise the updated row. */
    method UpdateRow(t: Table, fields: seq<Assign>, values: seq<Value>, id: Id, fault: bool)
      returns (r: Option<Option<Row>>)
      requires Valid() && |values| == |fields| && Consecutive(fields)
      modifies this
      ensures Valid() && nextId == old(nextId)
      ensures r.None? <==> fault || HasNotANumber(Zip(fields, values))
      ensures r.Some? ==> (r.value.Some? <==> id in old(Rows(t)))
      ensures r.None? || r.value.None? ==> tables == old(tables)
      ensures r.Some? && r.value.Some? ==>
                && r.value.value == Override(old(Rows(t))[id], Zip(fields, values))
                && tables == old(tables)[t := old(Rows(t))[id := r.value.value]]
    {
      var before := Rows(t);
      UpdatedById(before, fields, values, id);
      BindsPushedNotANumber(fields, values, Text(id));
      var result := Update(t, fields, "_id", |fields| + 1, values + [Text(id)], fault);
      if result.None? {
        return None;
      }
      if id !in before {
        assert result.value == map[];
        assert before + map[] == before;
        return Some(None);
      }
      var row := result.value[id];
      MergeOne(before, id, row);
      r := Some(Some(row));
    }

    /** DELETE FROM t WHERE ...: the rows the condition selects are removed
        and counted. The statement throws (None) when the environment makes
        it fail. */
    method Delete(t: Table, doomed: (Id, Row) -> bool, fault: bool) returns (count: Option<nat>)
      requires Valid()
      modifies this
      ensures Valid() && nextId == old(nextId)
      ensures count.None? <==> fault
      ensures count.None? ==> tables == old(tables)
      ensures count.Some? ==>
        && count.value == |set id | id in old(Rows(t)) && doomed(id, old(Rows(t))[id])|
        && tables == old(tables)[t := map id | id in old(Rows(t)) && !doomed(id, old(Rows(t))[id]) :: old(Rows(t))[id]]
    {
      if fault {
        return None;
      }
      var rows := Rows(t);
      count := Some(|set id | id in rows && doomed(id, rows[id])|);
      tables := tables[t := map id | id in rows && !doomed(id, rows[id]) :: rows[id]];
      FreshAfterShrink(old(tables), tables, nextId);
    }

    /** ROLLBACK to a snapshot taken at BEGIN. The serial sequence is not
        transactional and keeps its position. */
    method Rollback(saved: Tables)
      requires FreshAbove(saved, nextId) && Complete(saved)
      modifies this
      ensures Valid() && tables == saved && nextId == old(nextId)
    {
      tables := saved;
    }
  }

  /** Storing a row under the next serial id keeps every later id unused. */
  lemma FreshAfterInsert(ts: Tables, t: Table, id: Id, row: Row, next: nat)
    requires FreshAbove(ts, next) && id == SerialId(next)
    ensures FreshAbove(ts[t := RowsOf(ts, t)[id := row]], next + 1)
  {
    var ts' := ts[t := RowsOf(ts, t)[id := row]];
    forall u: Table, n: nat | n >= next + 1 ensures Unused(ts', u, n) {
      NatToStringInjective(n, next);
      assert Unused(ts, u, n);
    }
  }

  /** Removing or rewriting rows in place never reuses an id. */
  lemma FreshAfterShrink(ts: Tables, ts': Tables, next: nat)
    requires FreshAbove(ts, next)
    requires forall u: Table :: RowsOf(ts', u).Keys <= RowsOf(ts, u).Keys
    ensures FreshAbove(ts', next)
  {
    forall u: Table, n: nat | n >= next ensures Unused(ts', u, n) {
      assert Unused(ts, u, n);
    }
  }

  /** A snapshot stays free of unissued ids while the sequence advances. */
  lemma FreshAboveMonotone(ts: Tables, a: nat, b: nat)
    requires FreshAbove(ts, a) && a <= b
    ensures FreshAbove(ts, b)
  {
    forall t: Table, n: nat | n >= b ensures Unused(ts, t, n) {
      assert Unused(ts, t, n);
    }
  }
}
