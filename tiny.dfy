/** The small validator of tiny_validate.py: `check_binding` dispatches on the annotation
    (type parameter, list/tuple of annotations, or any callable used as a predicate),
    updating the call's binding dictionary in place, and `validate` wraps a function so
    that every call checks its annotated arguments and, unless the return annotation is
    the result's own class, its result. */
module TinyValidate {
  import opened PyValues
  import opened Generics
  import Validate

  /** An annotation as the small validator sees it: a type parameter, a list or tuple of
      annotations, a callable (a predicate, or a class, which is called like one; `asClass`
      is the class when it is one), `None`, or any other object. */
  datatype TinyAnn =
    | TVar(tv: TypeVar)
    | TSeq(elems: seq<TinyAnn>)
    | TCall(fn: PredId, asClass: Option<Class>)
    | TNone
    | TOther

  /** The annotation mentions no type parameter. */
  predicate TinyClosed(ann: TinyAnn)
  {
    match ann
    case TVar(_) => false
    case TSeq(elems) => forall i :: 0 <= i < |elems| ==> TinyClosed(elems[i])
    case _ => true
  }

  /** The TypeVar branch: a constrained parameter rejects another exact class, a
      parameter missing from `Gbinds` raises KeyError, a parameter bound to another class
      fails with ValidationError; otherwise `type(arg)` is committed and `arg` recorded. */
  function TinyVarVerdict(tv: TypeVar, arg: Value, t: Table): (r: (Outcome, Table))
    ensures Extends(t, r.1)
    ensures AllCanBind(t) ==> AllCanBind(r.1)
  {
    if |tv.constraints| > 0 && TypeOf(arg) !in tv.constraints then (Fail(ValidationError), t)
    else if tv !in t then (Fail(Raised(KeyError)), t)
    else if t[tv].ty.Some? && t[tv].ty.value != TypeOf(arg) then (Fail(ValidationError), t)
    else
      TableBindStep(t, tv, arg);
      (Pass, t[tv := BindingState(Some(TypeOf(arg)), t[tv].instances + [arg])])
  }

  /** `check_binding(ann, arg, Gbinds)` as a function of the dictionary's contents: the
      outcome and the new contents. A checked call only extends the bindings, keeps every
      binding able to bind, and leaves them alone when no type parameter is involved. */
  function TinyVerdict(rt: Runtime, ann: TinyAnn, arg: Value, t: Table): (r: (Outcome, Table))
    decreases ann, 1
    ensures Extends(t, r.1)
    ensures AllCanBind(t) ==> AllCanBind(r.1)
    ensures TinyClosed(ann) ==> r.1 == t
  {
    match ann
    case TVar(tv) => TinyVarVerdict(tv, arg, t)
    case TSeq(elems) =>
      if arg.TupleV? && |elems| == |arg.items| then TinyZip(rt, elems, arg.items, t)
      else if arg.ListV? then
        if arg.items == [] then (Pass, t)
        else if elems == [] then (Fail(Raised(IndexError)), t)
        else TinyEach(rt, elems[0], arg.items, t)
      else (Fail(ValidationError), t)
    case TCall(fn, _) =>
      (match rt.call(fn, arg)
       case Threw => (Fail(Raised(PredicateError)), t)
       case Answered(truthy) => (if truthy then Pass else Fail(ValidationError), t))
    case TNone => (Fail(ValidationError), t)
    case TOther => (Fail(ValidationError), t)
  }

  /** `for a in arg: check_binding(ann[0], a, Gbinds)`. */
  function TinyEach(rt: Runtime, a: TinyAnn, xs: seq<Value>, t: Table): (r: (Outcome, Table))
    decreases a, 2, |xs|
    ensures Extends(t, r.1)
    ensures AllCanBind(t) ==> AllCanBind(r.1)
    ensures TinyClosed(a) ==> r.1 == t
  {
    if xs == [] then (Pass, t)
    else
      var (o, t1) := TinyVerdict(rt, a, xs[0], t);
      if o.Fail? then (o, t1)
      else
        var r := TinyEach(rt, a, xs[1..], t1);
        ExtendsTransitive(t, t1, r.1);
        r
  }

  /** `for a, b in zip(ann, arg): check_binding(a, b, Gbinds)` on equal lengths. */
  function TinyZip(rt: Runtime, anns: seq<TinyAnn>, xs: seq<Value>, t: Table): (r: (Outcome, Table))
    requires |anns| == |xs|
    decreases anns
    ensures Extends(t, r.1)
    ensures AllCanBind(t) ==> AllCanBind(r.1)
    ensures (forall i :: 0 <= i < |anns| ==> TinyClosed(anns[i])) ==> r.1 == t
  {
    if anns == [] then (Pass, t)
    else
      var (o, t1) := TinyVerdict(rt, anns[0], xs[0], t);
      if o.Fail? then (o, t1)
      else
        var r := TinyZip(rt, anns[1..], xs[1..], t1);
        ExtendsTransitive(t, t1, r.1);
        assert forall i :: 1 <= i < |anns| ==> anns[1..][i - 1] == anns[i];
        r
  }

  /** The binding dictionary `Gbinds` of one call, which `check_binding` updates in place. */
  class GbindsDict {
    var entries: Table

    /** `{G: GenericBinding() for G in generics}`. */
    constructor (generics: seq<TypeVar>)
      ensures entries == FreshTable(generics)
    {
      entries := FreshTable(generics);
    }
  }

  /** `check_binding`: its outcome and the dictionary's new contents are `TinyVerdict`'s. */
  method CheckBinding(rt: Runtime, ann: TinyAnn, arg: Value, gbinds: GbindsDict) returns (res: Outcome)
    modifies gbinds
    decreases ann, 1
    ensures (res, gbinds.entries) == TinyVerdict(rt, ann, arg, old(gbinds.entries))
  {
    match ann {
      case TVar(tv) =>
        if |tv.constraints| > 0 && TypeOf(arg) !in tv.constraints {
          return Fail(ValidationError);
        }
        if tv !in gbinds.entries {
          return Fail(Raised(KeyError));
        }
        var b := gbinds.entries[tv];
        if b.ty.None? {
          b := b.(ty := Some(TypeOf(arg)));
        } else if b.ty.value != TypeOf(arg) {
          return Fail(ValidationError);
        }
        gbinds.entries := gbinds.entries[tv := b.(instances := b.instances + [arg])];
        res := Pass;
      case TSeq(elems) =>
        if arg.TupleV? && |elems| == |arg.items| {
          res := CheckPositions(rt, elems, arg.items, gbinds);
        } else if arg.ListV? {
          if arg.items == [] {
            res := Pass;
          } else if elems == [] {
            res := Fail(Raised(IndexError));
          } else {
            res := CheckItems(rt, elems[0], arg.items, gbinds);
          }
        } else {
          res := Fail(ValidationError);
        }
      case TCall(fn, _) =>
        match rt.call(fn, arg) {
          case Threw => res := Fail(Raised(PredicateError));
          case Answered(truthy) => res := if truthy then Pass else Fail(ValidationError);
        }
      case TNone => res := Fail(ValidationError);
      case TOther => res := Fail(ValidationError);
    }
  }

  /** The zip loop of `handle_sequence`. */
  method CheckPositions(rt: Runtime, anns: seq<TinyAnn>, xs: seq<Value>, gbinds: GbindsDict) returns (res: Outcome)
    requires |anns| == |xs|
    modifies gbinds
    decreases anns, 0
    ensures (res, gbinds.entries) == TinyZip(rt, anns, xs, old(gbinds.entries))
  {
    res := Pass;
    for i := 0 to |anns|
      invariant res == Pass
      invariant TinyZip(rt, anns[i..], xs[i..], gbinds.entries) == TinyZip(rt, anns, xs, old(gbinds.entries))
    {
      assert anns[i..][1..] == anns[i + 1..] && xs[i..][1..] == xs[i + 1..];
      res := CheckBinding(rt, anns[i], xs[i], gbinds);
      if res.Fail? {
        return;
      }
    }
  }

  /** The list loop of `handle_sequence`. */
  method CheckItems(rt: Runtime, a: TinyAnn, xs: seq<Value>, gbinds: GbindsDict) returns (res: Outcome)
    modifies gbinds
    decreases a, 2
    ensures (res, gbinds.entries) == TinyEach(rt, a, xs, old(gbinds.entries))
  {
    res := Pass;
    for i := 0 to |xs|
      invariant res == Pass
      invariant TinyEach(rt, a, xs[i..], gbinds.entries) == TinyEach(rt, a, xs, old(gbinds.entries))
    {
      assert xs[i..][1..] == xs[i + 1..];
      res := CheckBinding(rt, a, xs[i], gbinds);
      if res.Fail? {
        return;
      }
    }
  }

  /** What the small validator reads off a function: positional parameter names, parameter
      annotations, the return annotation, type parameters and what calling it returns. */
  datatype TinyFunction = TinyFunction(
    params: seq<string>,
    anns: map<string, TinyAnn>,
    returnAnn: Option<TinyAnn>,
    generics: seq<TypeVar>,
    body: (seq<Value>, seq<(string, Value)>) -> Value)

  /** The argument has an annotation other than `None` and so is checked. */
  predicate Annotated(f: TinyFunction, name: string)
  {
    name in f.anns && !f.anns[name].TNone?
  }

  /** The argument loop: annotated arguments are checked in order, the first failure ends
      the call, unannotated ones are skipped. */
  function TinyArgs(rt: Runtime, f: TinyFunction, pairs: seq<(string, Value)>, t: Table): (r: (Outcome, Table))
    ensures Extends(t, r.1)
    ensures AllCanBind(t) ==> AllCanBind(r.1)
  {
    if pairs == [] then (Pass, t)
    else if !Annotated(f, pairs[0].0) then TinyArgs(rt, f, pairs[1..], t)
    else
      var (o, t1) := TinyVerdict(rt, f.anns[pairs[0].0], pairs[0].1, t);
      if o.Fail? then (o, t1)
      else
        var r := TinyArgs(rt, f, pairs[1..], t1);
        ExtendsTransitive(t, t1, r.1);
        r
  }

  /** The outcome and bindings after the argument loop of a call. */
  function TinyArgumentsVerdict(rt: Runtime, f: TinyFunction, args: seq<Value>, kwargs: seq<(string, Value)>): (Outcome, Table)
  {
    TinyArgs(rt, f, Validate.ArgPairs(f.params, args, kwargs), FreshTable(f.generics))
  }

  /** The return check is skipped when the return annotation is the result's own class. */
  predicate ReturnSkipped(ra: TinyAnn, result: Value)
  {
    ra.TCall? && ra.asClass == Some(TypeOf(result))
  }

  /** One call of a wrapped function. Its result is returned unchanged, and only after
      the annotated arguments passed. */
  function TinyCallSpec(rt: Runtime, f: TinyFunction, args: seq<Value>, kwargs: seq<(string, Value)>): (r: CallOutcome)
    ensures r.Returned? ==> r.value == f.body(args, kwargs)
    ensures r.Returned? ==> TinyArgumentsVerdict(rt, f, args, kwargs).0.Pass?
  {
    var (o, t) := TinyArgumentsVerdict(rt, f, args, kwargs);
    if o.Fail? then Rejected(o.failure)
    else if !AllCanBind(t) then Rejected(ValidationError)
    else
      var result := f.body(args, kwargs);
      match f.returnAnn
      case None => Returned(result)
      case Some(ra) =>
        if ReturnSkipped(ra, result) then Returned(result)
        else
          var o2 := TinyVerdict(rt, ra, result, t).0;
          if o2.Fail? then Rejected(o2.failure) else Returned(result)
  }

  /** `validate(func)(*args, **kwargs)`: a fresh dictionary per call, the argument loop,
      the `can_bind` guard, the call and the return check. */
  method Wrapper(rt: Runtime, f: TinyFunction, args: seq<Value>, kwargs: seq<(string, Value)>) returns (r: CallOutcome)
    ensures r == TinyCallSpec(rt, f, args, kwargs)
  {
    var gbinds := new GbindsDict(f.generics);
    var pairs := Validate.ArgPairs(f.params, args, kwargs);
    for i := 0 to |pairs|
      invariant TinyArgs(rt, f, pairs[i..], gbinds.entries) == TinyArgumentsVerdict(rt, f, args, kwargs)
    {
      assert pairs[i..][1..] == pairs[i + 1..];
      var (name, arg) := pairs[i];
      if Annotated(f, name) {
        var res := CheckBinding(rt, f.anns[name], arg, gbinds);
        if res.Fail? {
          return Rejected(res.failure);
        }
      }
    }
    if !AllCanBind(gbinds.entries) {
      return Rejected(ValidationError);
    }
    var result := f.body(args, kwargs);
    if f.returnAnn.Some? && !ReturnSkipped(f.returnAnn.value, result) {
      var res := CheckBinding(rt, f.returnAnn.value, result, gbinds);
      if res.Fail? {
        return Rejected(res.failure);
      }
    }
    r := Returned(result);
  }
}
