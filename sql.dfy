/** Values and rows of the relational store, and the dynamic "UPDATE ... SET"
    clause that the update functions assemble column by column: a list of
    "column = $n" assignments, a parallel list of bound values, and a
    placeholder counter. */
module Sql {
  import opened Util

  /** A value bound to a placeholder or stored in a column. NotANumber is
      what JavaScript's Number() yields for a non-numeric string; an integer
      column refuses it. */
  datatype Value = Null | Bool(b: bool) | Num(n: int) | NotANumber | Text(s: string) | Time(ms: int) | Blob(bytes: seq<int>)

  type Row = map<string, Value>

  /** JavaScript truthiness of a value: null, false, 0, NaN and the empty
      string are falsy; dates and buffers are objects and always truthy. */
  predicate JsTruthy(v: Value)
  {
    match v
    case Null => false
    case Bool(b) => b
    case Num(n) => n != 0
    case NotANumber => false
    case Text(s) => s != ""
    case Time(_) => true
    case Blob(_) => true
  }

  /** JavaScript's Number() applied to a possibly missing string, for the
      strings the model distinguishes: a missing value and anything that is
      not a run of decimal digits is NaN, the empty string is 0. */
  function JsNumber(s: Option<string>): (v: Value)
    ensures s.Some? && s.value == "" ==> v == Num(0)
    ensures s.Some? && ParseNat(s.value).Some? ==> v == Num(ParseNat(s.value).value)
    ensures v.NotANumber? <==> s.None? || (s.value != "" && ParseNat(s.value).None?)
  {
    if s.None? then NotANumber
    else if s.value == "" then Num(0)
    else match ParseNat(s.value)
      case Some(n) => Num(n)
      case None => NotANumber
  }

  /** What a query reads from a column of a row: a column never written
      reads as null. */
  function Cell(row: Row, c: string): Value
  {
    if c in row then row[c] else Null
  }

  /** One "column = $param" item of a SET list. */
  datatype Assign = Assign(column: string, param: nat)

  /** The column of each assignment, in order. */
  function Columns(fields: seq<Assign>): (r: seq<string>)
    ensures |r| == |fields| && forall i :: 0 <= i < |r| ==> r[i] == fields[i].column
  {
    seq(|fields|, i requires 0 <= i < |fields| => fields[i].column)
  }

  /** Placeholders $1..$k, one per assignment, in order. */
  predicate Consecutive(fields: seq<Assign>)
  {
    forall i :: 0 <= i < |fields| ==> fields[i].param == i + 1
  }

  /** What the SET list does to a row when the query runs with the given
      parameters: each assignment, in order, stores its bound parameter. */
  function ApplySet(row: Row, fields: seq<Assign>, params: seq<Value>): Row
    requires forall i :: 0 <= i < |fields| ==> 1 <= fields[i].param <= |params|
    decreases |fields|
  {
    if fields == [] then row
    else
      var last := fields[|fields| - 1];
      ApplySet(row, fields[..|fields| - 1], params)[last.column := params[last.param - 1]]
  }

  /** The intended effect: each listed column takes its value, later
      entries winning. */
  function Override(row: Row, pairs: seq<(string, Value)>): Row
    decreases |pairs|
  {
    if pairs == [] then row
    else Override(row, pairs[..|pairs| - 1])[pairs[|pairs| - 1].0 := pairs[|pairs| - 1].1]
  }

  /** The (column, value) pairs of a SET list and its values. */
  function Zip(fields: seq<Assign>, values: seq<Value>): (r: seq<(string, Value)>)
    requires |fields| == |values|
    ensures |r| == |fields| && forall i :: 0 <= i < |r| ==> r[i] == (fields[i].column, values[i])
  {
    seq(|fields|, i requires 0 <= i < |fields| => (fields[i].column, values[i]))
  }

  /** With consecutive placeholders, running the SET list on parameters
      that begin with the pushed values stores exactly the pushed value in
      each pushed column. */
  lemma {:induction false} SetBindsPushedValues(row: Row, fields: seq<Assign>, values: seq<Value>, params: seq<Value>)
    requires |values| == |fields| <= |params| && Consecutive(fields) && params[..|fields|] == values
    ensures forall i :: 0 <= i < |fields| ==> 1 <= fields[i].param <= |params|
    ensures ApplySet(row, fields, params) == Override(row, Zip(fields, values))
    decreases |fields|
  {
    if fields != [] {
      var n := |fields| - 1;
      assert params[..n] == values[..n];
      SetBindsPushedValues(row, fields[..n], values[..n], params);
      assert Zip(fields, values)[..n] == Zip(fields[..n], values[..n]);
      assert params[fields[n].param - 1] == values[n];
    }
  }

  /** The WHERE key bound after the pushed values does not disturb them. */
  lemma WhereKeyFollowsValues(row: Row, fields: seq<Assign>, values: seq<Value>, key: Value)
    requires |values| == |fields| && Consecutive(fields)
    ensures |fields| + 1 <= |values + [key]| && (values + [key])[|fields|] == key
    ensures forall i :: 0 <= i < |fields| ==> 1 <= fields[i].param <= |values + [key]|
    ensures ApplySet(row, fields, values + [key]) == Override(row, Zip(fields, values))
  {
    assert (values + [key])[..|fields|] == values;
    SetBindsPushedValues(row, fields, values, values + [key]);
  }

  /** The value the pairs give a column last, if any. */
  function LastValue(pairs: seq<(string, Value)>, c: string): Option<Value>
    decreases |pairs|
  {
    if pairs == [] then None
    else if pairs[|pairs| - 1].0 == c then Some(pairs[|pairs| - 1].1)
    else LastValue(pairs[..|pairs| - 1], c)
  }

  /** A column the pairs mention ends up with the value they give it last;
      a column they never mention keeps what it had. */
  lemma {:induction false} OverrideAt(row: Row, pairs: seq<(string, Value)>, c: string)
    ensures LastValue(pairs, c).Some? ==> c in Override(row, pairs) && Override(row, pairs)[c] == LastValue(pairs, c).value
    ensures LastValue(pairs, c).None? ==> (c in Override(row, pairs) <==> c in row) && (c in row ==> Override(row, pairs)[c] == row[c])
    decreases |pairs|
  {
    if pairs != [] {
      OverrideAt(row, pairs[..|pairs| - 1], c);
    }
  }

  /** Appends a (column, value) pair when the condition holds. */
  function PushIf(pairs: seq<(string, Value)>, cond: bool, column: string, v: Value): (r: seq<(string, Value)>)
    ensures LastValue(r, column) == (if cond then Some(v) else LastValue(pairs, column))
  {
    if cond then pairs + [(column, v)] else pairs
  }

  /** After a conditional push, a column's last value is the pushed one
      when the push happened and named it, and what it was otherwise. */
  lemma PushIfLast(pairs: seq<(string, Value)>, cond: bool, column: string, v: Value, c: string)
    ensures LastValue(PushIf(pairs, cond, column, v), c) == if cond && c == column then Some(v) else LastValue(pairs, c)
  {
    if cond {
      assert (pairs + [(column, v)])[..|pairs|] == pairs;
    }
  }

  /** A value Postgres refuses to bind to a numeric column. */
  predicate HasNotANumber(pairs: seq<(string, Value)>)
  {
    exists i :: 0 <= i < |pairs| && pairs[i].1 == NotANumber
  }

  /** The SET list binds a non-number exactly when one was pushed. */
  lemma BindsPushedNotANumber(fields: seq<Assign>, values: seq<Value>, key: Value)
    requires |values| == |fields| && Consecutive(fields)
    ensures forall i :: 0 <= i < |fields| ==> 1 <= fields[i].param <= |values + [key]|
    ensures (exists i :: 0 <= i < |fields| && (values + [key])[fields[i].param - 1] == NotANumber) <==> HasNotANumber(Zip(fields, values))
  {
    var p := values + [key];
    forall i | 0 <= i < |fields|
      ensures p[fields[i].param - 1] == Zip(fields, values)[i].1
    {
      assert fields[i].param == i + 1 && p[i] == values[i];
    }
  }

  /** One property a builder tests: the pair (column, value) is pushed
      when applies holds. */
  datatype Candidate = Candidate(applies: bool, column: string, value: Value)

  /** The pairs a builder pushes testing the candidates in order. */
  function Pushed(cands: seq<Candidate>): seq<(string, Value)>
    decreases |cands|
  {
    if cands == [] then []
    else
      var n := |cands| - 1;
      PushIf(Pushed(cands[..n]), cands[n].applies, cands[n].column, cands[n].value)
  }

  /** Nothing is pushed exactly when no candidate is included. */
  lemma {:induction false} PushedEmpty(cands: seq<Candidate>)
    ensures Pushed(cands) == [] <==> forall k :: 0 <= k < |cands| ==> !cands[k].applies
    decreases |cands|
  {
    if cands != [] {
      var n := |cands| - 1;
      PushedEmpty(cands[..n]);
      assert forall k :: 0 <= k < n ==> cands[..n][k] == cands[k];
    }
  }

  /** Candidates that never bind a non-number push none. */
  lemma {:induction false} PushedNoNotANumber(cands: seq<Candidate>)
    requires forall k :: 0 <= k < |cands| ==> cands[k].value != NotANumber
    ensures !HasNotANumber(Pushed(cands))
    decreases |cands|
  {
    if cands != [] {
      var n := |cands| - 1;
      assert forall k :: 0 <= k < n ==> cands[..n][k] == cands[k];
      PushedNoNotANumber(cands[..n]);
      var before := Pushed(cands[..n]);
      if cands[n].applies {
        assert forall i :: 0 <= i < |before| ==> (before + [(cands[n].column, cands[n].value)])[i] == before[i];
      }
    }
  }

  /** The columns of the candidates are pairwise distinct. */
  predicate DistinctColumns(cands: seq<Candidate>)
  {
    forall i, j :: 0 <= i < j < |cands| ==> cands[i].column != cands[j].column
  }

  /** A column no candidate names is never assigned. */
  lemma {:induction false} PushedAbsent(cands: seq<Candidate>, c: string)
    requires forall k :: 0 <= k < |cands| ==> cands[k].column != c
    ensures LastValue(Pushed(cands), c) == None
    decreases |cands|
  {
    if cands != [] {
      var n := |cands| - 1;
      assert forall k :: 0 <= k < n ==> cands[..n][k] == cands[k];
      PushedAbsent(cands[..n], c);
      PushIfLast(Pushed(cands[..n]), cands[n].applies, cands[n].column, cands[n].value, c);
    }
  }

  /** With distinct columns, a candidate's column is assigned its value
      when it is included and not at all otherwise. */
  lemma {:induction false} PushedColumn(cands: seq<Candidate>, k: nat)
    requires k < |cands| && DistinctColumns(cands)
    ensures LastValue(Pushed(cands), cands[k].column) == if cands[k].applies then Some(cands[k].value) else None
    decreases |cands|
  {
    var n := |cands| - 1;
    var prefix := cands[..n];
    assert forall i :: 0 <= i < n ==> prefix[i] == cands[i];
    PushIfLast(Pushed(prefix), cands[n].applies, cands[n].column, cands[n].value, cands[k].column);
    if k == n {
      PushedAbsent(prefix, cands[n].column);
    } else {
      PushedColumn(prefix, k);
    }
  }

  /** The SET list and its values for the candidates, numbered $1..$k in
      push order. */
  method BuildSet(cands: seq<Candidate>) returns (fields: seq<Assign>, values: seq<Value>)
    ensures |values| == |fields| && Consecutive(fields)
    ensures Zip(fields, values) == Pushed(cands)
  {
    var b := new SetBuilder();
    for k := 0 to |cands|
      invariant b.Valid() && b.Pairs() == Pushed(cands[..k])
    {
      b.PushCandidate(cands, k);
    }
    assert cands[..|cands|] == cands;
    fields, values := b.fields, b.values;
  }

  /** The SET list under construction: fields and values are pushed
      together and the placeholder counter advances by one. */
  class SetBuilder {
    var fields: seq<Assign>
    var values: seq<Value>
    var index: nat

    ghost predicate Valid()
      reads this
    {
      index == |fields| + 1 && |values| == |fields| && Consecutive(fields)
    }

    /** The (column, value) pairs pushed so far. */
    ghost function Pairs(): seq<(string, Value)>
      reads this
      requires Valid()
    {
      Zip(fields, values)
    }

    constructor ()
      ensures Valid() && fields == [] && values == []
    {
      fields := [];
      values := [];
      index := 1;
    }

    /** Appends one assignment, numbered with the counter, and its value. */
    method Push(column: string, v: Value)
      requires Valid()
      modifies this
      ensures Valid()
      ensures fields == old(fields) + [Assign(column, old(index))] && values == old(values) + [v]
      ensures Pairs() == old(Pairs()) + [(column, v)]
    {
      fields := fields + [Assign(column, index)];
      values := values + [v];
      index := index + 1;
    }

    /** Tests the k-th candidate: pushes its assignment when it is
        included, and leaves the list as it is otherwise. */
    method PushCandidate(cands: seq<Candidate>, k: nat)
      requires Valid() && k < |cands| && Pairs() == Pushed(cands[..k])
      modifies this
      ensures Valid() && Pairs() == Pushed(cands[..k + 1])
    {
      assert cands[..k + 1][..k] == cands[..k];
      if cands[k].applies {
        Push(cands[k].column, cands[k].value);
      }
    }
  }
}
