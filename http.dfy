/** What the route handlers share: JavaScript objects read property by
    property, the comparison of two `new Date(...)` values, strict and loose
    equality, the JSON replies, and the two lookups getActivityById and
    getRegionById, which answer an object carrying an error message instead
    of a row when there is none. */
module Http {
  import opened Util
  import opened Sql
  import opened Postgres

  /** A plain JavaScript object: a row, the decoded claims, or an
      {error} object. */
  type Object = map<string, Value>

  /** Reading a property; None is undefined. */
  function Prop(o: Object, key: string): (v: Option<Value>)
    ensures v.Some? <==> key in o
  {
    if key in o then Some(o[key]) else None
  }

  /** Truthiness of a property read; undefined is falsy. */
  predicate Truthy(v: Option<Value>)
  {
    v.Some? && JsTruthy(v.value)
  }

  /** A text field of a request body as a property read. */
  function Field(s: Option<string>): (v: Option<Value>)
    ensures Truthy(v) <==> s.Some? && s.value != ""
  {
    if s.Some? then Some(Text(s.value)) else None
  }

  /** The time `new Date(v)` stands for, in milliseconds; None is an
      Invalid Date. undefined is invalid, null is the epoch, a string is
      whatever the date parser makes of it. */
  function DateOf(v: Option<Value>, parse: string -> Option<int>): Option<int>
  {
    if v.None? then None
    else match v.value
      case Null => Some(0)
      case Bool(b) => Some(if b then 1 else 0)
      case Num(n) => Some(n)
      case Time(ms) => Some(ms)
      case Text(s) => parse(s)
      case NotANumber => None
      case Blob(_) => None
  }

  /** JavaScript's `a <= b` on two dates: false as soon as either is an
      Invalid Date, whose time is NaN. */
  predicate AtOrBefore(a: Option<int>, b: Option<int>)
  {
    a.Some? && b.Some? && a.value <= b.value
  }

  /** An Invalid Date on either side makes every such check pass. */
  lemma InvalidDatePasses(a: Option<int>, b: Option<int>)
    requires a.None? || b.None?
    ensures !AtOrBefore(a, b) && !AtOrBefore(b, a)
  {
  }

  /** The values that compare by value. NaN equals nothing, not even
      itself; a Date or a Buffer is an object, which equals only itself,
      and the properties compared here are always read from two different
      objects. */
  predicate ByValue(v: Value)
  {
    !v.NotANumber? && !v.Time? && !v.Blob?
  }

  /** `a === b` on property reads of two different objects: same type and
      same primitive value. */
  predicate StrictEquals(a: Option<Value>, b: Option<Value>)
  {
    a == b && (a.None? || ByValue(a.value))
  }

  predicate Nullish(v: Option<Value>)
  {
    v.None? || v == Some(Null)
  }

  /** `a == b`: null and undefined equal each other and nothing else; a
      number and a string compare after the string is made a number. */
  predicate LooseEquals(a: Option<Value>, b: Option<Value>)
  {
    if Nullish(a) || Nullish(b) then Nullish(a) && Nullish(b)
    else
      (a.value == b.value && ByValue(a.value))
      || (a.value.Num? && b.value.Text? && JsNumber(Some(b.value.s)) == a.value)
      || (a.value.Text? && b.value.Num? && JsNumber(Some(a.value.s)) == b.value)
  }

  /** Loose equality admits everything strict equality does, and more: an
      id stored as a number equals its decimal string, and a missing
      creator equals a missing claim. */
  lemma LooseWeakerThanStrict(a: Option<Value>, b: Option<Value>, n: nat)
    ensures StrictEquals(a, b) ==> LooseEquals(a, b)
    ensures LooseEquals(Some(Num(n)), Some(Text(NatToString(n)))) && !StrictEquals(Some(Num(n)), Some(Text(NatToString(n))))
    ensures LooseEquals(Some(Null), None) && !StrictEquals(Some(Null), None)
    ensures !LooseEquals(Some(NotANumber), Some(NotANumber)) && !StrictEquals(Some(NotANumber), Some(NotANumber))
  {
    ParseNatToString(n);
    NatToStringDigits(n);
  }

  /** A JSON answer: an error, or a message with the rows it returns. */
  datatype Reply = Fail(status: int, error: string) | Done(status: int, message: string, rows: seq<Row>)

  const ActivityMissing := "Activity not found"
  const ActivityFetchFailed := "Failed to fetch activity"
  const RegionMissing := "Region not found"
  const RegionFetchFailed := "Failed to fetch region"

  /** "SELECT * ... WHERE _id = $1" with the key bound: the stored row whose
      id the key names, if any. An undefined key binds null, which names
      no row. */
  function SelectById(rows: Rows, key: Option<Value>): (r: Option<Row>)
    ensures r.Some? <==> exists id :: id in rows && key == Some(Text(id))
    ensures r.Some? ==> key.value.s in rows && r.value == rows[key.value.s]
  {
    if key.Some? && key.value.Text? && key.value.s in rows then Some(rows[key.value.s]) else None
  }

  /** The shape both lookups share: the row, or {error: missing} when there
      is none, or {error: failed} when the query throws. */
  function Lookup(rows: Rows, key: Option<Value>, fault: bool, missing: string, failed: string): Object
  {
    if fault then map["error" := Text(failed)]
    else match SelectById(rows, key)
      case Some(row) => row
      case None => map["error" := Text(missing)]
  }

  /** getActivityById. */
  function ActivityById(rows: Rows, key: Option<Value>, fault: bool): Object
  {
    Lookup(rows, key, fault, ActivityMissing, ActivityFetchFailed)
  }

  /** getRegionById. */
  function RegionById(rows: Rows, key: Option<Value>, fault: bool): Object
  {
    Lookup(rows, key, fault, RegionMissing, RegionFetchFailed)
  }

  /** Either lookup answers an object, which JavaScript never takes for
      false, so a `!activity` test never fires; when there is no row the
      object has no property but its error message. */
  lemma LookupMissing(rows: Rows, key: Option<Value>, fault: bool, missing: string, failed: string, column: string)
    requires fault || SelectById(rows, key).None?
    requires column != "error"
    ensures Prop(Lookup(rows, key, fault, missing, failed), column) == None
    ensures Prop(Lookup(rows, key, fault, missing, failed), "error") == Some(Text(if fault then failed else missing))
  {
  }

  /** When the row exists and the query succeeds, every property read is
      the stored column. */
  lemma LookupFound(rows: Rows, id: Id, fault: bool, missing: string, failed: string, column: string)
    requires !fault && id in rows
    ensures Prop(Lookup(rows, Some(Text(id)), fault, missing, failed), column) == Prop(rows[id], column)
  {
  }
}
