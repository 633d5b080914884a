/** Python runtime values as the checker sees them: a value, its exact runtime class,
    `isinstance` as a given subclass relation, iteration, equality, and the exceptions
    a check can end with. */
module PyValues {

  datatype Option<+T> = None | Some(value: T)

  /** A runtime class. `User(id)` stands for any class defined by the program. */
  datatype Class =
    | NoneType | Bool | Int | Float | Str | List | Tuple | Dict | Function | Object
    | User(id: nat)

  /** A runtime value. Floats appear only through their class and their numeric value;
      `FuncV` is a function object with its identity `fid`, `Instance` an object of a user
      class with its identity `oid`; the default `==` of both compares identity. */
  datatype Value =
    | NoneV
    | BoolV(b: bool)
    | IntV(i: int)
    | FloatV(r: real)
    | StrV(s: string)
    | ListV(items: seq<Value>)
    | TupleV(items: seq<Value>)
    | DictV(entries: seq<(Value, Value)>)
    | FuncV(isLambda: bool, fid: nat)
    | Instance(cls: nat, oid: nat)

  /** An int, float, str or bool object: what an annotation can be when it is not a type
      (a forward reference "Person", or `x: 5`). */
  type ScalarValue = v: Value | v.BoolV? || v.IntV? || v.FloatV? || v.StrV? witness IntV(0)

  /** Identifies a user predicate (a validator function or, in the small validator, any callable). */
  type PredId = nat

  /** What calling a user predicate on a value gives: the truthiness of its result, or an exception. */
  datatype PredResult = Answered(truthy: bool) | Threw

  /** The parts of the host runtime the checker consults but cannot see:
      the subclass relation among user classes and the behaviour of user predicates. */
  datatype Runtime = Runtime(userSubclass: (nat, nat) -> bool, call: (PredId, Value) -> PredResult)

  /** `type(v)`: the exact runtime class of a value. */
  function TypeOf(v: Value): Class
  {
    match v
    case NoneV => NoneType
    case BoolV(_) => Bool
    case IntV(_) => Int
    case FloatV(_) => Float
    case StrV(_) => Str
    case ListV(_) => List
    case TupleV(_) => Tuple
    case DictV(_) => Dict
    case FuncV(_, _) => Function
    case Instance(c, _) => User(c)
  }

  /** `issubclass(c, d)`: every class is a subclass of itself and of `object`, `bool` is a
      subclass of `int`, and user classes relate among themselves as the runtime says. */
  predicate IsSubclass(rt: Runtime, c: Class, d: Class)
  {
    c == d || d == Object || (c == Bool && d == Int) ||
    (c.User? && d.User? && rt.userSubclass(c.id, d.id))
  }

  /** `isinstance(v, c)`. */
  predicate IsInstance(rt: Runtime, v: Value, c: Class)
  {
    IsSubclass(rt, TypeOf(v), c)
  }

  /** `callable(v)`: only function objects are modelled as callable values. */
  predicate IsCallable(v: Value)
  {
    v.FuncV?
  }

  /** What `for x in v` visits, or None when `v` is not iterable (Python raises TypeError).
      A dict yields its keys and a string its one-character strings. */
  function Items(v: Value): (r: Option<seq<Value>>)
    ensures r.Some? <==> (v.ListV? || v.TupleV? || v.DictV? || v.StrV?)
    ensures (v.ListV? || v.TupleV?) ==> r == Some(v.items)
    ensures v.DictV? ==> r.Some? && |r.value| == |v.entries|
    ensures v.DictV? ==> forall i :: 0 <= i < |v.entries| ==> r.value[i] == v.entries[i].0
    ensures v.StrV? ==> r.Some? && |r.value| == |v.s|
    ensures v.StrV? ==> forall i :: 0 <= i < |v.s| ==> r.value[i] == StrV([v.s[i]])
  {
    match v
    case ListV(xs) => Some(xs)
    case TupleV(xs) => Some(xs)
    case DictV(es) => Some(seq(|es|, i requires 0 <= i < |es| => es[i].0))
    case StrV(s) => Some(seq(|s|, i requires 0 <= i < |s| => StrV([s[i]])))
    case _ => None
  }

  /** The numeric value of a bool, int or float. */
  function NumericValue(v: Value): Option<real>
  {
    match v
    case BoolV(b) => Some(if b then 1.0 else 0.0)
    case IntV(i) => Some(i as real)
    case FloatV(r) => Some(r)
    case _ => None
  }

  /** Python's `==` on values: numbers compare by value across bool, int and float
      (so `True == 1 == 1.0`); function objects and objects of user classes compare by
      identity, which the constructors carry; containers compare structurally. */
  predicate PyEq(a: Value, b: Value)
  {
    if NumericValue(a).Some? && NumericValue(b).Some? then NumericValue(a) == NumericValue(b)
    else a == b
  }

  /** Exceptions that are not validation errors: an unknown type parameter or field name,
      a missing annotation position, iterating a non-iterable, or an exception raised
      by a user callable that the checker does not catch. */
  datatype HostError = KeyError | IndexError | TypeError | PredicateError

  /** How a check fails. The first three are the ValidationError family
      (InvalidType and BindingError subclass ValidationError). */
  datatype Failure = ValidationError | InvalidType | BindingError | Raised(error: HostError)
  {
    /** True when `except ValidationError` catches this failure. */
    predicate IsValidationError()
    {
      !Raised?
    }
  }

  /** The outcome of one check: it returns normally or raises. */
  datatype Outcome = Pass | Fail(failure: Failure)

  /** The outcome of a validated call: the wrapped function's result, or the failure raised. */
  datatype CallOutcome = Returned(value: Value) | Rejected(failure: Failure)
}
