/** What the small validator of tiny_validate.py promises, and how it relates to the
    checker of lilvali/binding.py. */
module TinyProps {
  import opened PyValues
  import opened Generics
  import Binding
  import Validate
  import opened TinyValidate

  /** On a type parameter both validators reach the same bindings and the same verdict,
      except that the small validator reports a conflicting binding as a plain
      ValidationError where lilvali raises BindingError. */
  lemma TinyTypeVarAgreesWithBinding(rt: Runtime, cfg: Binding.BindCheckerConfig, tv: TypeVar, arg: Value, t: Table)
    ensures var (o, u) := Binding.Verdict(rt, cfg, Binding.TypeVarAnn(tv), arg, t);
      TinyVerdict(rt, TVar(tv), arg, t) == (if o == Fail(BindingError) then Fail(ValidationError) else o, u)
  {
    assert Binding.Verdict(rt, cfg, Binding.TypeVarAnn(tv), arg, t) == Binding.VerdictTypeVar(tv, arg, t);
    assert TinyVerdict(rt, TVar(tv), arg, t) == TinyVarVerdict(tv, arg, t);
    if (|tv.constraints| == 0 || TypeOf(arg) in tv.constraints) && tv in t {
      var b := t[tv].TryBindNewArg(arg);
      if b.0.Fail? {
        assert t[tv := t[tv]] == t;
      }
    }
  }

  /** The dispatch, shape by shape: a constrained type parameter rejects an argument of
      another exact class; a tuple of the annotation's length is checked position by
      position, a tuple of another length and anything but a list or tuple fail with
      ValidationError; a non-empty list against an empty annotation raises IndexError;
      a list is checked item by item against the first annotation even when the
      annotation is a longer tuple; a predicate that raises propagates its exception and
      a falsy answer fails; `None` and any other object are not handled. */
  lemma TinyShapes(rt: Runtime, tv: TypeVar, elems: seq<TinyAnn>, fn: PredId, c: Option<Class>, arg: Value, t: Table)
    ensures |tv.constraints| > 0 && TypeOf(arg) !in tv.constraints ==>
      TinyVerdict(rt, TVar(tv), arg, t) == (Fail(ValidationError), t)
    ensures arg.TupleV? && |elems| == |arg.items| ==> TinyVerdict(rt, TSeq(elems), arg, t) == TinyZip(rt, elems, arg.items, t)
    ensures arg.TupleV? && |elems| != |arg.items| ==> TinyVerdict(rt, TSeq(elems), arg, t) == (Fail(ValidationError), t)
    ensures !arg.TupleV? && !arg.ListV? ==> TinyVerdict(rt, TSeq(elems), arg, t) == (Fail(ValidationError), t)
    ensures arg.ListV? && arg.items != [] && elems == [] ==>
      TinyVerdict(rt, TSeq(elems), arg, t) == (Fail(Raised(IndexError)), t)
    ensures arg.ListV? && elems != [] ==>
      TinyVerdict(rt, TSeq(elems), arg, t) == TinyEach(rt, elems[0], arg.items, t)
    ensures rt.call(fn, arg) == Threw ==> TinyVerdict(rt, TCall(fn, c), arg, t) == (Fail(Raised(PredicateError)), t)
    ensures rt.call(fn, arg) == Answered(false) ==> TinyVerdict(rt, TCall(fn, c), arg, t) == (Fail(ValidationError), t)
    ensures rt.call(fn, arg) == Answered(true) ==> TinyVerdict(rt, TCall(fn, c), arg, t) == (Pass, t)
    ensures TinyVerdict(rt, TNone, arg, t) == (Fail(ValidationError), t)
    ensures TinyVerdict(rt, TOther, arg, t) == (Fail(ValidationError), t)
  {
  }

  /** A list against `[T]`, with `T` unconstrained and already bound to class `c`, passes
      exactly when every item is exactly a `c`. */
  lemma {:induction false} TinyListSharesBinding(rt: Runtime, T: TypeVar, c: Class, xs: seq<Value>, t: Table)
    requires T.constraints == [] && T in t && t[T].ty == Some(c)
    ensures TinyEach(rt, TVar(T), xs, t).0.Pass? <==> forall i :: 0 <= i < |xs| ==> TypeOf(xs[i]) == c
  {
    if xs != [] {
      var (o, t1) := TinyVerdict(rt, TVar(T), xs[0], t);
      if o.Pass? {
        assert t1[T].ty == Some(c);
        TinyListSharesBinding(rt, T, c, xs[1..], t1);
        assert forall i :: 1 <= i < |xs| ==> xs[1..][i - 1] == xs[i];
      }
    }
  }

  /** Arguments whose parameter has no annotation, or `None`, are never checked. */
  lemma {:induction false} UnannotatedArgumentsSkipped(rt: Runtime, f: TinyFunction, pairs: seq<(string, Value)>, t: Table)
    requires forall i :: 0 <= i < |pairs| ==> !Annotated(f, pairs[i].0)
    ensures TinyArgs(rt, f, pairs, t) == (Pass, t)
  {
    if pairs != [] {
      assert forall i :: 1 <= i < |pairs| ==> pairs[1..][i - 1] == pairs[i];
      UnannotatedArgumentsSkipped(rt, f, pairs[1..], t);
    }
  }

  /** The outcomes of a call: the first failing annotated argument is raised without
      calling the function (the `can_bind` guard always holds after the argument loop);
      otherwise the result is returned unchanged when there is no return annotation, when
      the return annotation is the result's own class, or when it passes the check. */
  lemma TinyCallOutcomes(rt: Runtime, f: TinyFunction, args: seq<Value>, kwargs: seq<(string, Value)>)
    ensures var (o, t) := TinyArgumentsVerdict(rt, f, args, kwargs);
      var result := f.body(args, kwargs);
      TinyCallSpec(rt, f, args, kwargs) ==
        if o.Fail? then Rejected(o.failure)
        else if f.returnAnn.None? || ReturnSkipped(f.returnAnn.value, result) then Returned(result)
        else
          var o2 := TinyVerdict(rt, f.returnAnn.value, result, t).0;
          if o2.Fail? then Rejected(o2.failure) else Returned(result)
  {
    FreshTableAllCanBind(f.generics);
  }

  /** A return annotation that is the result's own class is not checked at all: the
      result comes back even if calling the class on it would be falsy. */
  lemma ExactClassReturnUnchecked(rt: Runtime, f: TinyFunction, args: seq<Value>, kwargs: seq<(string, Value)>, fn: PredId)
    requires TinyArgumentsVerdict(rt, f, args, kwargs).0.Pass?
    requires f.returnAnn == Some(TCall(fn, Some(TypeOf(f.body(args, kwargs)))))
    ensures TinyCallSpec(rt, f, args, kwargs) == Returned(f.body(args, kwargs))
  {
    TinyCallOutcomes(rt, f, args, kwargs);
  }

  /** A `-> None` return annotation rejects every call whose arguments pass: `None` is
      neither the result's class nor a handled annotation. */
  lemma NoneReturnAlwaysRejects(rt: Runtime, f: TinyFunction, args: seq<Value>, kwargs: seq<(string, Value)>)
    requires TinyArgumentsVerdict(rt, f, args, kwargs).0.Pass?
    requires f.returnAnn == Some(TNone)
    ensures TinyCallSpec(rt, f, args, kwargs) == Rejected(ValidationError)
  {
    TinyCallOutcomes(rt, f, args, kwargs);
  }

  /** `mymod[T](a: T, b: T)`: the call goes through exactly when both arguments have the
      same class, and fails with ValidationError otherwise. */
  lemma TinySharedParameterNeedsSameClass(rt: Runtime, T: TypeVar, a: string, b: string,
                                          body: (seq<Value>, seq<(string, Value)>) -> Value, x: Value, y: Value)
    requires T.constraints == [] && a != b
    ensures var f := TinyFunction([a, b], map[a := TVar(T), b := TVar(T)], None, [T], body);
      TinyCallSpec(rt, f, [x, y], []) ==
        if TypeOf(x) == TypeOf(y) then Returned(body([x, y], [])) else Rejected(ValidationError)
  {
    var f := TinyFunction([a, b], map[a := TVar(T), b := TVar(T)], None, [T], body);
    assert FreshTable(f.generics) == map[T := Unbound];
    assert Annotated(f, a) && Annotated(f, b) && f.anns[a] == TVar(T) && f.anns[b] == TVar(T);
    var pairs := Validate.ArgPairs(f.params, [x, y], []);
    assert pairs == [(a, x), (b, y)];
    TinySharedArgs(rt, f, a, b, T, x, y);
    TinyCallOutcomes(rt, f, [x, y], []);
  }

  /** The argument loop of a function whose two parameters are both annotated `T`. */
  lemma TinySharedArgs(rt: Runtime, f: TinyFunction, a: string, b: string, T: TypeVar, x: Value, y: Value)
    requires T.constraints == []
    requires Annotated(f, a) && Annotated(f, b) && f.anns[a] == TVar(T) && f.anns[b] == TVar(T)
    ensures TinyArgs(rt, f, [(a, x), (b, y)], map[T := Unbound]).0 ==
      if TypeOf(x) == TypeOf(y) then Pass else Fail(ValidationError)
  {
    var t0 := map[T := Unbound];
    var t1 := map[T := BindingState(Some(TypeOf(x)), [x])];
    assert Unbound.instances + [x] == [x];
    assert t0[T := BindingState(Some(TypeOf(x)), [x])] == t1;
    assert TinyVerdict(rt, TVar(T), x, t0) == TinyVarVerdict(T, x, t0) == (Pass, t1);
    var r2 := TinyVerdict(rt, TVar(T), y, t1);
    assert r2 == TinyVarVerdict(T, y, t1);
    assert r2.0 == if TypeOf(x) == TypeOf(y) then Pass else Fail(ValidationError);
    assert [(a, x), (b, y)][1..] == [(b, y)] && [(b, y)][1..] == [];
    assert TinyArgs(rt, f, [(b, y)], t1).0 == r2.0;
  }
}
