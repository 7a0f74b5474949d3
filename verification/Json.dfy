/** JSON values as the scripts see them after JSON.parse. An absent property is None. */
module Json {
  import opened Wrappers
  import opened Text

  datatype Value =
    | Null
    | Bool(b: bool)
    | Number(n: real)
    | Str(s: string)
    | List(items: seq<Value>)
    | Object(fields: map<string, Value>)

  /** value?.name for a property no built-in value inherits. */
  function Get(v: Value, name: string): Option<Value> {
    if v.Object? && name in v.fields then Some(v.fields[name]) else None
  }

  function Lookup(fields: map<string, Value>, name: string): Option<Value> {
    if name in fields then Some(fields[name]) else None
  }

  predicate Truthy(v: Option<Value>) {
    match v
    case None => false
    case Some(Null) => false
    case Some(Bool(b)) => b
    case Some(Number(n)) => n != 0.0
    case Some(Str(s)) => s != ""
    case Some(_) => true
  }

  /** What spreading a value into an object literal adds. */
  function Spread(v: Value): map<string, Value> {
    match v
    case Object(fields) => fields
    case List(items) => IndexedFields(items)
    case Str(s) => IndexedFields(Characters(s))
    case _ => map[]
  }

  function IndexedFields(items: seq<Value>): map<string, Value> {
    if items == [] then map[]
    else IndexedFields(items[..|items| - 1])[Decimal(|items| - 1) := items[|items| - 1]]
  }

  function Characters(s: string): (items: seq<Value>)
    ensures |items| == |s|
  {
    if s == "" then [] else [Str(s[..1])] + Characters(s[1..])
  }

  /** (value || []).filter and its relatives: only arrays have them. */
  function ArrayItems(v: Option<Value>): Result<seq<Value>> {
    if !Truthy(v) then Success([])
    else if v.value.List? then Success(v.value.items)
    else Failure("not a function")
  }

  /** for (const item of value || []). */
  function Iterated(v: Option<Value>): Result<seq<Value>> {
    if !Truthy(v) then Success([])
    else match v.value
      case List(items) => Success(items)
      case Str(s) => Success(Characters(s))
      case _ => Failure("not iterable")
  }

  /** Set.prototype.has after JSON.parse: primitives compare by value, arrays and objects by identity. */
  predicate Has(ids: seq<Option<Value>>, v: Option<Value>) {
    (v.Some? ==> !v.value.List? && !v.value.Object?) && v in ids
  }

  function Property(items: seq<Value>, name: string): (r: seq<Option<Value>>)
    ensures |r| == |items| && forall i | 0 <= i < |items| :: r[i] == Get(items[i], name)
  {
    if items == [] then [] else [Get(items[0], name)] + Property(items[1..], name)
  }
}
