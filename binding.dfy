/** The recursive conformance checker of lilvali/binding.py (with the validator-function
    leaf that lilvali/validate.py registers on it).

    `Verdict` and its helpers are the checker as pure functions of the binding table:
    each returns the outcome and the table after the check. `BindChecker.Check` is the
    checker as the source runs it, updating `GenericBinding` objects in place, and is
    proved to compute exactly `Verdict`. */
module Binding {
  import opened PyValues
  import opened Generics
  import opened ValidatorFunctions

  /** The shapes of annotation the checker dispatches on. */
  datatype TypeExpr =
    | TypeVarAnn(tv: TypeVar)                    // a TypeVar
    | NoneAnn                                    // the annotation `None`, also what a missing annotation reads as
    | AnyAnn                                     // typing.Any
    | ClassAnn(cls: Class)                       // a class: int, str, dict, a user class, ...
    | ValueAnn(v: ScalarValue)                   // an int, float, str or bool object where a type is expected:
                                                 // a forward reference "Person", or `x: 5`
    | AliasAnn(origin: Class, args: seq<TypeExpr>) // a generic alias: dict[K, V], list[int], typing.List
    | DictAnn                                    // a dict instance used as an annotation
    | SeqAnn(elems: seq<TypeExpr>)               // a list or tuple of annotations
    | UnionAnn(members: seq<TypeExpr>)           // X | Y, Union[...], Optional[...]
    | TypedDictAnn(fields: seq<Field>)           // a TypedDict class and its field annotations
    | LiteralAnn(allowed: seq<Value>)            // Literal[...]
    | CallableAnn(args: seq<TypeExpr>)           // Callable[...]; args are its __args__
                                                 // (never empty for a subscripted Callable)
    | ValidatorAnn(vf: ValidatorFunction)        // a ValidatorFunction
    | Unhandled                                  // any other annotation object

  /** One entry of a TypedDict's `__annotations__`. */
  datatype Field = Field(name: string, ann: TypeExpr)

  /** `BindCheckerConfig`. `strict` is carried but never consulted. */
  datatype BindCheckerConfig = BindCheckerConfig(strict: bool, impliedLambdas: bool)

  const DefaultConfig := BindCheckerConfig(true, false)

  /** The annotation mentions no type parameter. */
  predicate Closed(ann: TypeExpr)
  {
    match ann
    case TypeVarAnn(_) => false
    case AliasAnn(_, args) => forall i :: 0 <= i < |args| ==> Closed(args[i])
    case SeqAnn(elems) => forall i :: 0 <= i < |elems| ==> Closed(elems[i])
    case UnionAnn(members) => forall i :: 0 <= i < |members| ==> Closed(members[i])
    case TypedDictAnn(fields) => forall i :: 0 <= i < |fields| ==> Closed(fields[i].ann)
    case CallableAnn(args) => forall i :: 0 <= i < |args| ==> Closed(args[i])
    case _ => true
  }

  predicate AllClosed(anns: seq<TypeExpr>)
  {
    forall i :: 0 <= i < |anns| ==> Closed(anns[i])
  }

  /** `ann.__annotations__[key]` of a TypedDict: the first field named by a string key. */
  function FieldIndex(fields: seq<Field>, key: Value): (r: Option<nat>)
    ensures r.Some? <==> key.StrV? && exists j :: 0 <= j < |fields| && fields[j].name == key.s
    ensures r.Some? ==> r.value < |fields| && fields[r.value].name == key.s
  {
    if !key.StrV? || |fields| == 0 then None
    else if fields[0].name == key.s then Some(0)
    else match FieldIndex(fields[1..], key)
      case None => None
      case Some(j) => Some(j + 1)
  }

  /** The TypeVar branch: a constrained parameter rejects an argument whose exact class is
      not a constraint; a parameter missing from the table raises KeyError; otherwise the
      parameter's binding tries to bind the argument. */
  function VerdictTypeVar(tv: TypeVar, arg: Value, t: Table): (r: (Outcome, Table))
    ensures Extends(t, r.1)
    ensures AllCanBind(t) ==> AllCanBind(r.1)
  {
    if |tv.constraints| > 0 && TypeOf(arg) !in tv.constraints then (Fail(ValidationError), t)
    else if tv !in t then (Fail(Raised(KeyError)), t)
    else
      TableBindStep(t, tv, arg);
      var (o, b) := t[tv].TryBindNewArg(arg);
      (o, t[tv := b])
  }

  /** `arg in ann.__args__`: the argument is `==` to one of the allowed values. */
  predicate LiteralAccepts(allowed: seq<Value>, arg: Value)
  {
    exists i :: 0 <= i < |allowed| && PyEq(arg, allowed[i])
  }

  /** `check(ann, arg)`: the outcome, and the binding table afterwards.
      The table keeps its parameters, only ever gains instances, never changes a committed
      class, keeps every entry of `checked` true, and is untouched by annotations without
      type parameters. */
  function Verdict(rt: Runtime, cfg: BindCheckerConfig, ann: TypeExpr, arg: Value, t: Table)
    : (r: (Outcome, Table))
    decreases ann, 1
    ensures Extends(t, r.1)
    ensures AllCanBind(t) ==> AllCanBind(r.1)
    ensures Closed(ann) ==> r.1 == t
  {
    match ann
    case TypeVarAnn(tv) => VerdictTypeVar(tv, arg, t)
    case NoneAnn => (Pass, t)
    case AnyAnn => (Pass, t)
    case ClassAnn(c) => (if IsInstance(rt, arg, c) then Pass else Fail(InvalidType), t)
    case ValueAnn(_) => (Fail(Raised(TypeError)), t)
    case AliasAnn(_, _) => VerdictAlias(rt, cfg, ann, arg, t)
    case DictAnn => (if arg.DictV? then Pass else Fail(ValidationError), t)
    case SeqAnn(_) => VerdictSeq(rt, cfg, ann, arg, t)
    case UnionAnn(members) => VerdictUnion(rt, cfg, members, arg, t)
    case TypedDictAnn(_) => VerdictTypedDict(rt, cfg, ann, arg, t)
    case LiteralAnn(allowed) =>
      (if LiteralAccepts(allowed, arg) then Pass else Fail(ValidationError), t)
    case CallableAnn(args) =>
      if !IsCallable(arg) then (Fail(ValidationError), t)
      else if |args| > 0 && arg.isLambda && !cfg.impliedLambdas then (Fail(ValidationError), t)
      else (Pass, t)
    case ValidatorAnn(vf) => (VfCheck(rt, vf, arg), t)
    case Unhandled => (Fail(ValidationError), t)
  }

  /** The generic-alias branch: an alias of a dict class with arguments checks a dict's
      items against them and rejects anything else; any other alias performs no check. */
  function VerdictAlias(rt: Runtime, cfg: BindCheckerConfig, ann: TypeExpr, arg: Value, t: Table)
    : (r: (Outcome, Table))
    requires ann.AliasAnn?
    decreases ann, 0
    ensures Extends(t, r.1)
    ensures AllCanBind(t) ==> AllCanBind(r.1)
    ensures Closed(ann) ==> r.1 == t
  {
    if |ann.args| > 0 && IsSubclass(rt, ann.origin, Dict) then
      match arg
      case DictV(entries) => VerdictItems(rt, cfg, ann.args, entries, t)
      case _ => (Fail(ValidationError), t)
    else (Pass, t)
  }

  /** The list/tuple branch: a non-iterable argument raises TypeError; a one-element
      annotation checks every item against it, one of the argument's length checks
      position by position, and any other length performs no check. */
  function VerdictSeq(rt: Runtime, cfg: BindCheckerConfig, ann: TypeExpr, arg: Value, t: Table)
    : (r: (Outcome, Table))
    requires ann.SeqAnn?
    decreases ann, 0
    ensures Extends(t, r.1)
    ensures AllCanBind(t) ==> AllCanBind(r.1)
    ensures Closed(ann) ==> r.1 == t
  {
    match Items(arg)
    case None => (Fail(Raised(TypeError)), t)
    case Some(xs) =>
      if |ann.elems| == 1 then VerdictEach(rt, cfg, ann.elems[0], xs, t)
      else if |ann.elems| == |xs| then VerdictZip(rt, cfg, ann.elems, xs, t)
      else (Pass, t)
  }

  /** The TypedDict branch on its argument: only a dict is checked, field by field. */
  function VerdictTypedDict(rt: Runtime, cfg: BindCheckerConfig, ann: TypeExpr, arg: Value, t: Table)
    : (r: (Outcome, Table))
    requires ann.TypedDictAnn?
    decreases ann, 0
    ensures Extends(t, r.1)
    ensures AllCanBind(t) ==> AllCanBind(r.1)
    ensures Closed(ann) ==> r.1 == t
  {
    match arg
    case DictV(entries) => VerdictFields(rt, cfg, ann.fields, entries, t)
    case _ => (Fail(ValidationError), t)
  }

  /** `for a in arg: check(ann[0], a)`: stops at the first failure. */
  function VerdictEach(rt: Runtime, cfg: BindCheckerConfig, a: TypeExpr, xs: seq<Value>, t: Table)
    : (r: (Outcome, Table))
    decreases a, 2, |xs|
    ensures Extends(t, r.1)
    ensures AllCanBind(t) ==> AllCanBind(r.1)
    ensures Closed(a) ==> r.1 == t
  {
    if xs == [] then (Pass, t)
    else
      var (o, t1) := Verdict(rt, cfg, a, xs[0], t);
      if o.Fail? then (o, t1)
      else
        var r := VerdictEach(rt, cfg, a, xs[1..], t1);
        ExtendsTransitive(t, t1, r.1);
        r
  }

  /** `for a, b in zip(ann, arg): check(a, b)` on sequences of equal length. */
  function VerdictZip(rt: Runtime, cfg: BindCheckerConfig, anns: seq<TypeExpr>, xs: seq<Value>, t: Table)
    : (r: (Outcome, Table))
    requires |anns| == |xs|
    decreases anns
    ensures Extends(t, r.1)
    ensures AllCanBind(t) ==> AllCanBind(r.1)
    ensures AllClosed(anns) ==> r.1 == t
  {
    if anns == [] then (Pass, t)
    else
      var (o, t1) := Verdict(rt, cfg, anns[0], xs[0], t);
      if o.Fail? then (o, t1)
      else
        var r := VerdictZip(rt, cfg, anns[1..], xs[1..], t1);
        ExtendsTransitive(t, t1, r.1);
        assert AllClosed(anns) ==> AllClosed(anns[1..]) by {
          if AllClosed(anns) {
            forall i | 0 <= i < |anns[1..]| ensures Closed(anns[1..][i]) { assert anns[1..][i] == anns[i + 1]; }
          }
        }
        r
  }

  /** `for k, v in arg.items(): check(arg_types[0], k); check(arg_types[1], v)`;
      a one-argument alias raises IndexError at the first value. */
  function VerdictItems(rt: Runtime, cfg: BindCheckerConfig, kv: seq<TypeExpr>, entries: seq<(Value, Value)>, t: Table)
    : (r: (Outcome, Table))
    requires |kv| > 0
    decreases kv, |entries|
    ensures Extends(t, r.1)
    ensures AllCanBind(t) ==> AllCanBind(r.1)
    ensures AllClosed(kv) ==> r.1 == t
  {
    if entries == [] then (Pass, t)
    else
      var (o1, t1) := Verdict(rt, cfg, kv[0], entries[0].0, t);
      if o1.Fail? then (o1, t1)
      else if |kv| < 2 then (Fail(Raised(IndexError)), t1)
      else
        var (o2, t2) := Verdict(rt, cfg, kv[1], entries[0].1, t1);
        ExtendsTransitive(t, t1, t2);
        if o2.Fail? then (o2, t2)
        else
          var r := VerdictItems(rt, cfg, kv, entries[1..], t2);
          ExtendsTransitive(t, t2, r.1);
          r
  }

  /** The union branch: members in declared order, the first success wins, a
      ValidationError moves on to the next member WITHOUT undoing the bindings the
      failed member made, any other exception propagates. */
  function VerdictUnion(rt: Runtime, cfg: BindCheckerConfig, members: seq<TypeExpr>, arg: Value, t: Table)
    : (r: (Outcome, Table))
    decreases members
    ensures Extends(t, r.1)
    ensures AllCanBind(t) ==> AllCanBind(r.1)
    ensures AllClosed(members) ==> r.1 == t
  {
    if members == [] then (Fail(ValidationError), t)
    else
      var (o, t1) := Verdict(rt, cfg, members[0], arg, t);
      if o.Pass? then (Pass, t1)
      else if o.failure.IsValidationError() then
        var r := VerdictUnion(rt, cfg, members[1..], arg, t1);
        ExtendsTransitive(t, t1, r.1);
        assert AllClosed(members) ==> AllClosed(members[1..]) by {
          if AllClosed(members) {
            forall i | 0 <= i < |members[1..]| ensures Closed(members[1..][i]) { assert members[1..][i] == members[i + 1]; }
          }
        }
        r
      else (o, t1)
  }

  /** The TypedDict branch: `for k, v in arg.items(): check(annotations[k], v)`.
      A key that is not a declared field raises KeyError; absent fields are not noticed. */
  function VerdictFields(rt: Runtime, cfg: BindCheckerConfig, fields: seq<Field>, entries: seq<(Value, Value)>, t: Table)
    : (r: (Outcome, Table))
    decreases fields, |entries|
    ensures Extends(t, r.1)
    ensures AllCanBind(t) ==> AllCanBind(r.1)
    ensures (forall i :: 0 <= i < |fields| ==> Closed(fields[i].ann)) ==> r.1 == t
  {
    if entries == [] then (Pass, t)
    else
      match FieldIndex(fields, entries[0].0)
      case None => (Fail(Raised(KeyError)), t)
      case Some(j) =>
        var (o, t1) := Verdict(rt, cfg, fields[j].ann, entries[0].1, t);
        if o.Fail? then (o, t1)
        else
          var r := VerdictFields(rt, cfg, fields, entries[1..], t1);
          ExtendsTransitive(t, t1, r.1);
          r
  }

  /** Distinct parameters hold distinct binding objects, so binding one leaves the others. */
  ghost predicate Distinct(m: map<TypeVar, GenericBinding>)
  {
    forall a, b :: a in m && b in m && a != b ==> m[a] != m[b]
  }

  /** The value of every binding object of a table. */
  function Snapshot(m: map<TypeVar, GenericBinding>): Table
    reads m.Values
  {
    map tv | tv in m :: m[tv].State()
  }

  /** `GenericBinding`: one type parameter's binding, updated in place. */
  class GenericBinding {
    var ty: Option<Class>
    var instances: seq<Value>

    constructor ()
      ensures State() == Unbound
    {
      ty := None;
      instances := [];
    }

    function State(): BindingState
      reads this
    {
      BindingState(ty, instances)
    }

    /** `try_bind_new_arg`: commits the argument's class and appends the argument when
        the binding is unbound or bound to exactly that class; otherwise raises
        BindingError and changes nothing. */
    method TryBindNewArg(arg: Value) returns (res: Outcome)
      modifies this
      ensures (res, State()) == old(State()).TryBindNewArg(arg)
    {
      if State().CanNewArgBind(arg) {
        ty := Some(TypeOf(arg));
        instances := instances + [arg];
        res := Pass;
      } else {
        res := Fail(BindingError);
      }
    }
  }

  /** `BindChecker`: the binding table of the current call and the configuration. */
  class BindChecker {
    var gbinds: map<TypeVar, GenericBinding>
    var config: BindCheckerConfig

    /** `BindChecker(config)`: `config or BindCheckerConfig()`; no bindings yet. */
    constructor (config: Option<BindCheckerConfig>)
      ensures this.config == (if config.Some? then config.value else DefaultConfig)
      ensures gbinds == map[]
    {
      this.config := if config.Some? then config.value else DefaultConfig;
      gbinds := map[];
    }

    ghost predicate Valid()
      reads this
    {
      Distinct(gbinds)
    }

    /** The current binding table as a value. */
    function Table(): Table
      reads this, gbinds.Values
    {
      Snapshot(gbinds)
    }

    /** `checked`, as `all(checked)`. */
    predicate Checked()
      reads this, gbinds.Values
    {
      AllCanBind(Table())
    }

    /** `new_bindings(generics)`: a fresh, unbound binding object per type parameter. */
    method NewBindings(generics: seq<TypeVar>)
      modifies this
      ensures Valid() && config == old(config)
      ensures Table() == FreshTable(generics)
      ensures forall tv :: tv in gbinds ==> fresh(gbinds[tv])
    {
      var m: map<TypeVar, GenericBinding> := map[];
      for i := 0 to |generics|
        invariant config == old(config)
        invariant Distinct(m)
        invariant forall tv :: tv in m ==> fresh(m[tv]) && m[tv].State() == Unbound
        invariant forall tv :: tv in m <==> tv in generics[..i]
      {
        var b := new GenericBinding();
        m := m[generics[i] := b];
        assert generics[..i + 1] == generics[..i] + [generics[i]];
      }
      assert generics[..|generics|] == generics;
      gbinds := m;
      assert Table() == FreshTable(generics);
    }

    /** `check(ann, arg)`: dispatches on the annotation's shape, binding type parameters
        in place; its outcome and the new table are those of `Verdict`. */
    method Check(rt: Runtime, ann: TypeExpr, arg: Value) returns (res: Outcome)
      requires Valid()
      modifies gbinds.Values
      decreases ann, 1
      ensures (res, Table()) == Verdict(rt, config, ann, arg, old(Table()))
    {
      match ann {
        case TypeVarAnn(_) => res := CheckTypeVar(ann, arg);
        case NoneAnn => res := Pass;
        case AnyAnn => res := Pass;
        case ClassAnn(c) =>
          res := if IsInstance(rt, arg, c) then Pass else Fail(InvalidType);
        case ValueAnn(_) =>
          res := Fail(Raised(TypeError));
        case AliasAnn(origin, args) =>
          if |args| > 0 && IsSubclass(rt, origin, Dict) {
            res := CheckDictItems(rt, ann, arg);
          } else {
            res := Pass;
          }
        case DictAnn =>
          res := if arg.DictV? then Pass else Fail(ValidationError);
        case SeqAnn(_) => res := CheckSequence(rt, ann, arg);
        case UnionAnn(_) => res := CheckUnion(rt, ann, arg);
        case TypedDictAnn(_) => res := CheckTypedDict(rt, ann, arg);
        case LiteralAnn(allowed) =>
          res := if LiteralAccepts(allowed, arg) then Pass else Fail(ValidationError);
        case CallableAnn(args) =>
          if !IsCallable(arg) {
            res := Fail(ValidationError);
          } else if |args| > 0 && arg.isLambda && !config.impliedLambdas {
            res := Fail(ValidationError);
          } else {
            res := Pass;
          }
        case ValidatorAnn(vf) => res := VfCheck(rt, vf, arg);
        case Unhandled => res := Fail(ValidationError);
      }
    }

    /** The TypeVar branch: a constrained parameter rejects an argument whose exact class
        is not a constraint; otherwise its binding object tries to bind the argument. */
    method CheckTypeVar(ann: TypeExpr, arg: Value) returns (res: Outcome)
      requires Valid() && ann.TypeVarAnn?
      modifies gbinds.Values
      ensures (res, Table()) == VerdictTypeVar(ann.tv, arg, old(Table()))
    {
      var tv := ann.tv;
      if |tv.constraints| > 0 && TypeOf(arg) !in tv.constraints {
        res := Fail(ValidationError);
      } else if tv !in gbinds {
        res := Fail(Raised(KeyError));
      } else {
        var b := gbinds[tv];
        ghost var before := Table();
        res := b.TryBindNewArg(arg);
        assert Table() == before[tv := b.State()] by {
          forall k | k in gbinds ensures Table()[k] == before[tv := b.State()][k] {
            if k != tv { assert gbinds[k] != b; }
          }
        }
      }
    }

    /** The list/tuple branch: a one-element annotation checks every item against it, an
        annotation of the argument's length checks position by position, and any other
        length performs no check. */
    method CheckSequence(rt: Runtime, ann: TypeExpr, arg: Value) returns (res: Outcome)
      requires Valid() && ann.SeqAnn?
      modifies gbinds.Values
      decreases ann, 0
      ensures (res, Table()) == Verdict(rt, config, ann, arg, old(Table()))
    {
      var elems := ann.elems;
      var items := Items(arg);
      if items.None? {
        res := Fail(Raised(TypeError));
      } else if |elems| == 1 {
        res := CheckEachItem(rt, elems[0], items.value);
      } else if |elems| == |items.value| {
        res := CheckPositions(rt, elems, items.value);
      } else {
        res := Pass;
      }
    }

    /** `for a in arg: check(ann[0], a)`. */
    method CheckEachItem(rt: Runtime, a: TypeExpr, xs: seq<Value>) returns (res: Outcome)
      requires Valid()
      modifies gbinds.Values
      decreases a, 2
      ensures (res, Table()) == VerdictEach(rt, config, a, xs, old(Table()))
    {
      res := Pass;
      for i := 0 to |xs|
        invariant res == Pass
        invariant VerdictEach(rt, config, a, xs[i..], Table()) == VerdictEach(rt, config, a, xs, old(Table()))
      {
        assert xs[i..][1..] == xs[i + 1..];
        res := Check(rt, a, xs[i]);
        if res.Fail? {
          return;
        }
      }
    }

    /** `for a, b in zip(ann, arg): check(a, b)`. */
    method CheckPositions(rt: Runtime, anns: seq<TypeExpr>, xs: seq<Value>) returns (res: Outcome)
      requires Valid() && |anns| == |xs|
      modifies gbinds.Values
      decreases anns
      ensures (res, Table()) == VerdictZip(rt, config, anns, xs, old(Table()))
    {
      res := Pass;
      for i := 0 to |xs|
        invariant res == Pass
        invariant VerdictZip(rt, config, anns[i..], xs[i..], Table()) == VerdictZip(rt, config, anns, xs, old(Table()))
      {
        assert anns[i..][1..] == anns[i + 1..] && xs[i..][1..] == xs[i + 1..];
        res := Check(rt, anns[i], xs[i]);
        if res.Fail? {
          return;
        }
      }
    }

    /** The union branch: members in order, stopping at the first that passes; a member's
        ValidationError is swallowed without undoing its bindings. */
    method CheckUnion(rt: Runtime, ann: TypeExpr, arg: Value) returns (res: Outcome)
      requires Valid() && ann.UnionAnn?
      modifies gbinds.Values
      decreases ann, 0
      ensures (res, Table()) == Verdict(rt, config, ann, arg, old(Table()))
    {
      var members := ann.members;
      for i := 0 to |members|
        invariant VerdictUnion(rt, config, members[i..], arg, Table()) == Verdict(rt, config, ann, arg, old(Table()))
      {
        assert members[i..][1..] == members[i + 1..];
        var o := Check(rt, members[i], arg);
        if o.Pass? || !o.failure.IsValidationError() {
          return o;
        }
      }
      res := Fail(ValidationError);
    }

    /** The TypedDict branch: a dict whose every value matches the annotation of its key. */
    method CheckTypedDict(rt: Runtime, ann: TypeExpr, arg: Value) returns (res: Outcome)
      requires Valid() && ann.TypedDictAnn?
      modifies gbinds.Values
      decreases ann, 0
      ensures (res, Table()) == Verdict(rt, config, ann, arg, old(Table()))
    {
      if !arg.DictV? {
        return Fail(ValidationError);
      }
      var fields, entries := ann.fields, arg.entries;
      res := Pass;
      for i := 0 to |entries|
        invariant res == Pass
        invariant VerdictFields(rt, config, fields, entries[i..], Table()) == Verdict(rt, config, ann, arg, old(Table()))
      {
        assert entries[i..][1..] == entries[i + 1..];
        var j := FieldIndex(fields, entries[i].0);
        if j.None? {
          return Fail(Raised(KeyError));
        }
        res := Check(rt, fields[j.value].ann, entries[i].1);
        if res.Fail? {
          return;
        }
      }
    }

    /** The dict branch reached through a `dict[K, V]` alias:
        `check({}, arg, arg_types=ann.__args__)`. */
    method CheckDictItems(rt: Runtime, ann: TypeExpr, arg: Value) returns (res: Outcome)
      requires Valid()
      requires ann.AliasAnn? && |ann.args| > 0 && IsSubclass(rt, ann.origin, Dict)
      modifies gbinds.Values
      decreases ann, 0
      ensures (res, Table()) == Verdict(rt, config, ann, arg, old(Table()))
    {
      if !arg.DictV? {
        return Fail(ValidationError);
      }
      var kv, entries := ann.args, arg.entries;
      res := Pass;
      for i := 0 to |entries|
        invariant res == Pass
        invariant VerdictItems(rt, config, kv, entries[i..], Table()) == Verdict(rt, config, ann, arg, old(Table()))
      {
        assert entries[i..][1..] == entries[i + 1..];
        res := Check(rt, kv[0], entries[i].0);
        if res.Fail? {
          return;
        }
        if |kv| < 2 {
          return Fail(Raised(IndexError));
        }
        res := Check(rt, kv[1], entries[i].1);
        if res.Fail? {
          return;
        }
      }
    }
  }
}
