/** What a validated call of lilvali/validate.py promises: when the function is called,
    what comes back, and how a type parameter ties arguments and result together. */
module ValidateProps {
  import opened PyValues
  import opened Generics
  import opened Binding
  import opened Validate

  /** After the argument loop every binding can still bind, so the `all(checked)` guard
      always holds and its `bad_binds` branch is never taken. */
  lemma CheckedGuardAlwaysHolds(rt: Runtime, f: PyFunction, args: seq<Value>, kwargs: seq<(string, Value)>)
    ensures AllCanBind(ArgumentsVerdict(rt, f, args, kwargs).1)
  {
    FreshTableAllCanBind(f.generics);
  }

  /** The outcomes of a call: the first argument failure is raised without calling the
      function; otherwise the function is called and its result is returned when there is
      no return annotation or the result passes it, and the return check's failure is
      raised when it does not. */
  lemma CallOutcomes(rt: Runtime, f: PyFunction, args: seq<Value>, kwargs: seq<(string, Value)>)
    ensures var (o, t) := ArgumentsVerdict(rt, f, args, kwargs);
      var result := f.body(args, kwargs);
      CallSpec(rt, f, args, kwargs) ==
        if o.Fail? then Rejected(o.failure)
        else if f.returnAnn.None? then Returned(result)
        else
          var o2 := Verdict(rt, DefaultConfig, f.returnAnn.value, result, t).0;
          if o2.Fail? then Rejected(o2.failure) else Returned(result)
  {
    CheckedGuardAlwaysHolds(rt, f, args, kwargs);
  }

  /** A call whose arguments fail does not depend on what the function would do. */
  lemma FailedArgumentsNeverCall(rt: Runtime, f: PyFunction, other: (seq<Value>, seq<(string, Value)>) -> Value,
                                 args: seq<Value>, kwargs: seq<(string, Value)>)
    requires ArgumentsVerdict(rt, f, args, kwargs).0.Fail?
    ensures CallSpec(rt, f, args, kwargs) == CallSpec(rt, f.(body := other), args, kwargs)
    ensures CallSpec(rt, f, args, kwargs) == Rejected(ArgumentsVerdict(rt, f, args, kwargs).0.failure)
  {
    assert ArgPairs(f.params, args, kwargs) == ArgPairs(f.(body := other).params, args, kwargs);
    VerdictArgsIgnoresBody(rt, f, other, ArgPairs(f.params, args, kwargs), FreshTable(f.generics));
  }

  /** The argument loop reads only the annotations of the function. */
  lemma {:induction false} VerdictArgsIgnoresBody(rt: Runtime, f: PyFunction, other: (seq<Value>, seq<(string, Value)>) -> Value,
                                                  pairs: seq<(string, Value)>, t: Table)
    ensures VerdictArgs(rt, f, pairs, t) == VerdictArgs(rt, f.(body := other), pairs, t)
  {
    if pairs != [] {
      var t1 := Verdict(rt, DefaultConfig, AnnotationOf(f, pairs[0].0), pairs[0].1, t).1;
      VerdictArgsIgnoresBody(rt, f, other, pairs[1..], t1);
    }
  }

  /** The one-parameter function `f[T](a: T) -> T`, whatever it computes. */
  function IdentityLike(T: TypeVar, name: string, body: (seq<Value>, seq<(string, Value)>) -> Value): PyFunction
  {
    PyFunction([name], map[name := TypeVarAnn(T)], Some(TypeVarAnn(T)), [T], body)
  }

  /** `f[T](a: T) -> T` returns its result exactly when the result has the argument's
      class, and raises BindingError otherwise; the argument may be given by position or
      by keyword. */
  lemma GenericReturnMatchesArgument(rt: Runtime, T: TypeVar, name: string,
                                     body: (seq<Value>, seq<(string, Value)>) -> Value, x: Value)
    requires T.constraints == []
    ensures var f := IdentityLike(T, name, body);
      CallSpec(rt, f, [x], []) ==
        if TypeOf(body([x], [])) == TypeOf(x) then Returned(body([x], [])) else Rejected(BindingError)
    ensures var f := IdentityLike(T, name, body);
      CallSpec(rt, f, [], [(name, x)]) ==
        if TypeOf(body([], [(name, x)])) == TypeOf(x) then Returned(body([], [(name, x)])) else Rejected(BindingError)
  {
    var f := IdentityLike(T, name, body);
    var bound := map[T := BindingState(Some(TypeOf(x)), [x])];
    assert FreshTable(f.generics) == map[T := Unbound];
    assert AnnotationOf(f, name) == TypeVarAnn(T);
    assert Unbound.instances + [x] == [x];
    assert map[T := Unbound][T := BindingState(Some(TypeOf(x)), [x])] == bound;
    assert bound[T := bound[T]] == bound;
    var positional := ArgPairs(f.params, [x], []);
    assert positional == [(name, x)];
    assert positional[1..] == [];
    assert Verdict(rt, DefaultConfig, TypeVarAnn(T), x, map[T := Unbound]) == (Pass, bound);
    assert VerdictArgs(rt, f, [(name, x)], map[T := Unbound]) == (Pass, bound);
    assert ArgumentsVerdict(rt, f, [x], []) == (Pass, bound);
    CallOutcomes(rt, f, [x], []);
    var keyword := ArgPairs(f.params, [], [(name, x)]);
    assert keyword == [(name, x)];
    assert ArgumentsVerdict(rt, f, [], [(name, x)]) == (Pass, bound);
    CallOutcomes(rt, f, [], [(name, x)]);
  }

  /** Two parameters sharing `T`, `f[T](a: T, b: T)`, with no return annotation: the call
      goes through exactly when both arguments have the same class, and raises
      BindingError otherwise. */
  lemma SharedParameterNeedsSameClass(rt: Runtime, T: TypeVar, a: string, b: string,
                                      body: (seq<Value>, seq<(string, Value)>) -> Value, x: Value, y: Value)
    requires T.constraints == [] && a != b
    ensures var f := PyFunction([a, b], map[a := TypeVarAnn(T), b := TypeVarAnn(T)], None, [T], body);
      CallSpec(rt, f, [x, y], []) ==
        if TypeOf(x) == TypeOf(y) then Returned(body([x, y], [])) else Rejected(BindingError)
  {
    var f := PyFunction([a, b], map[a := TypeVarAnn(T), b := TypeVarAnn(T)], None, [T], body);
    var t0 := map[T := Unbound];
    var t1 := map[T := BindingState(Some(TypeOf(x)), [x])];
    assert FreshTable(f.generics) == t0;
    assert AnnotationOf(f, a) == TypeVarAnn(T) && AnnotationOf(f, b) == TypeVarAnn(T);
    assert Unbound.instances + [x] == [x];
    assert t0[T := BindingState(Some(TypeOf(x)), [x])] == t1;
    var pairs := ArgPairs(f.params, [x, y], []);
    assert pairs == [(a, x), (b, y)];
    assert pairs[1..] == [(b, y)] && pairs[1..][1..] == [];
    var r1 := Verdict(rt, DefaultConfig, TypeVarAnn(T), x, t0);
    assert r1 == (Pass, t1);
    var r2 := Verdict(rt, DefaultConfig, TypeVarAnn(T), y, t1);
    assert r2.0.Pass? <==> TypeOf(x) == TypeOf(y);
    if r2.0.Fail? {
      assert r2.0 == Fail(BindingError);
    }
    assert VerdictArgs(rt, f, [(b, y)], t1).0 == r2.0;
    assert VerdictArgs(rt, f, pairs, t0).0 == r2.0;
    assert ArgumentsVerdict(rt, f, [x, y], []).0 == r2.0;
    CallOutcomes(rt, f, [x, y], []);
  }

  /** A parameter annotated `Callable[[...], R]` rejects a lambda with ValidationError:
      the wrapper's checker always has the default configuration, so implied lambdas are
      never enabled through `validate`. */
  lemma LambdaRejectedForCallableParameter(rt: Runtime, name: string, cargs: seq<TypeExpr>,
                                           body: (seq<Value>, seq<(string, Value)>) -> Value)
    requires |cargs| > 0
    ensures var f := PyFunction([name], map[name := CallableAnn(cargs)], None, [], body);
      CallSpec(rt, f, [FuncV(true, 0)], []) == Rejected(ValidationError)
  {
    var f := PyFunction([name], map[name := CallableAnn(cargs)], None, [], body);
    assert AnnotationOf(f, name) == CallableAnn(cargs);
    var pairs := ArgPairs(f.params, [FuncV(true, 0)], []);
    assert pairs == [(name, FuncV(true, 0))];
    assert ArgumentsVerdict(rt, f, [FuncV(true, 0)], []).0 == Fail(ValidationError);
  }

  /** Positional arguments beyond the named parameters are not checked: the argument loop
      sees only as many positional arguments as there are parameter names. */
  lemma ExtraPositionalArgumentsUnchecked(rt: Runtime, f: PyFunction, args: seq<Value>, extra: seq<Value>,
                                          kwargs: seq<(string, Value)>)
    requires |args| == |f.params|
    ensures ArgumentsVerdict(rt, f, args + extra, kwargs) == ArgumentsVerdict(rt, f, args, kwargs)
  {
    ArgPairsIgnoresExtra(f.params, args, extra, kwargs);
  }

  /** Pairing stops at the last parameter name, whatever positional arguments follow. */
  lemma ArgPairsIgnoresExtra(params: seq<string>, args: seq<Value>, extra: seq<Value>, kwargs: seq<(string, Value)>)
    requires |args| == |params|
    ensures ArgPairs(params, args + extra, kwargs) == ArgPairs(params, args, kwargs)
  {
    var n := |params|;
    var all := args + extra;
    var long := ArgPairs(params, all, kwargs);
    var short := ArgPairs(params, args, kwargs);
    assert Min(n, |all|) == n && Min(n, |args|) == n;
    assert |long| == |short|;
    forall k | 0 <= k < n ensures long[k] == short[k] {
      assert all[k] == args[k];
    }
    forall k | n <= k < |long| ensures long[k] == short[k] {
      assert long[n + (k - n)] == short[n + (k - n)];
    }
  }

  /** A `_Validator` used for two calls gives the second call the same outcome as a fresh
      one: `new_bindings` discards whatever the first call bound. */
  method ReusedValidatorForgetsEarlierCalls(rt: Runtime, f: PyFunction, args1: seq<Value>, kwargs1: seq<(string, Value)>,
                                            args2: seq<Value>, kwargs2: seq<(string, Value)>)
    returns (r1: CallOutcome, r2: CallOutcome)
    ensures r1 == CallSpec(rt, f, args1, kwargs1)
    ensures r2 == CallSpec(rt, f, args2, kwargs2)
  {
    var v := new Validator(f);
    r1 := v.Call(rt, args1, kwargs1);
    r2 := v.Call(rt, args2, kwargs2);
  }
}
