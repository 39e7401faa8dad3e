/**
 * JSON-like values as the request middleware sees them: a parsed query
 * string or request body is a finite tree of objects and arrays whose
 * leaves are primitives. Arrays are objects whose keys are the decimal
 * index strings "0", "1", ..., which is how `Object.entries` enumerates
 * them, so both kinds of container carry an ordered list of properties.
 */
module Json {

  datatype Option<T> = None | Some(value: T)

  /** The primitive values a property can hold (numbers are modelled as integers). */
  datatype Scalar = Undefined | Null | Bool(b: bool) | Num(n: int) | Str(s: string)

  /** A property of an object: its key and its value, in enumeration order. */
  datatype Prop = Prop(key: string, val: Value)

  datatype Value =
    | Atom(a: Scalar)
    | Obj(isArray: bool, props: seq<Prop>)

  /** JavaScript truthiness of a value: containers are always truthy. */
  predicate Truthy(v: Value) {
    match v
    case Obj(_, _) => true
    case Atom(a) =>
      match a
      case Undefined => false
      case Null => false
      case Bool(b) => b
      case Num(n) => n != 0
      case Str(s) => s != ""
  }

  /** The string `typeof v` yields. */
  function TypeOf(v: Value): string {
    match v
    case Obj(_, _) => "object"
    case Atom(a) =>
      match a
      case Undefined => "undefined"
      case Null => "object"
      case Bool(_) => "boolean"
      case Num(_) => "number"
      case Str(_) => "string"
  }

  /**
   * The guard `v && typeof v === 'object'`: exactly the containers pass it;
   * `null` is excluded by the truthiness test although its type is "object".
   */
  predicate IsTraversable(v: Value)
    ensures IsTraversable(v) <==> v.Obj?
    ensures v == Atom(Null) ==> TypeOf(v) == "object" && !IsTraversable(v)
  {
    Truthy(v) && TypeOf(v) == "object"
  }

  /**
   * The keys of a container as `Object.keys` lists them. A primitive is given
   * none; in JavaScript a string would list its index keys and `null` would
   * throw, but every use here passes a query, a body or a nested container.
   */
  function Keys(v: Value): (ks: seq<string>)
    ensures |ks| == (if v.Obj? then |v.props| else 0)
    ensures v.Obj? ==> forall i :: 0 <= i < |ks| ==> ks[i] == v.props[i].key
    ensures forall k :: k in ks <==> v.Obj? && Get(v.props, k).Some?
  {
    match v
    case Atom(_) => []
    case Obj(_, props) => seq(|props|, i requires 0 <= i < |props| => props[i].key)
  }

  function Digit(d: nat): char
    requires d < 10
  {
    "0123456789"[d]
  }

  /** The decimal string of an array index, the key under which the element is enumerated. */
  function IndexKey(n: nat): (s: string)
    ensures |s| > 0
    decreases n
  {
    if n < 10 then [Digit(n)] else IndexKey(n / 10) + [Digit(n % 10)]
  }

  /** Distinct keys within an object; the index keys in order within an array; at every depth. */
  predicate WellFormed(v: Value)
    decreases v
  {
    match v
    case Atom(_) => true
    case Obj(isArray, props) =>
      && (isArray ==> forall i :: 0 <= i < |props| ==> props[i].key == IndexKey(i))
      && (forall i, j :: 0 <= i < j < |props| ==> props[i].key != props[j].key)
      && (forall i :: 0 <= i < |props| ==> WellFormed(props[i].val))
  }

  /** Property access `o[k]` on the property list: the first property with key k. */
  function Get(props: seq<Prop>, k: string): (r: Option<Value>)
    ensures r.None? <==> forall i :: 0 <= i < |props| ==> props[i].key != k
    ensures r.Some? ==> exists i :: 0 <= i < |props| && props[i] == Prop(k, r.value)
  {
    if props == [] then None
    else if props[0].key == k then Some(props[0].val)
    else Get(props[1..], k)
  }

  /** The value reached by following a path of keys from v, if every step exists. */
  function Lookup(v: Value, path: seq<string>): Option<Value>
    decreases |path|
  {
    if path == [] then Some(v)
    else match v
      case Atom(_) => None
      case Obj(_, props) =>
        match Get(props, path[0])
        case None => None
        case Some(c) => Lookup(c, path[1..])
  }

  /** No key of the path is in ks. */
  predicate Avoids(path: seq<string>, ks: seq<string>) {
    forall i :: 0 <= i < |path| ==> path[i] !in ks
  }
}
