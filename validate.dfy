/** The call wrapper of lilvali/validate.py: `_Validator.__call__` checks every argument
    against its parameter's annotation with one binding table per call, calls the
    function, checks its result against the return annotation with the same table, and
    `validate` builds a fresh `_Validator` for every call. */
module Validate {
  import opened PyValues
  import opened Generics
  import opened Binding

  /** What the wrapper reads off a function: its positional parameter names, the
      annotations of its parameters, its return annotation, its type parameters
      (`__type_params__`) and what calling it returns. */
  datatype PyFunction = PyFunction(
    params: seq<string>,
    paramAnns: map<string, TypeExpr>,
    returnAnn: Option<TypeExpr>,
    generics: seq<TypeVar>,
    body: (seq<Value>, seq<(string, Value)>) -> Value)

  function Min(a: nat, b: nat): nat
  {
    if a <= b then a else b
  }

  /** `chain(zip(argspec.args, args), kwargs.items())`: positional arguments paired with
      parameter names up to the shorter of the two, then the keyword arguments in order. */
  function ArgPairs(params: seq<string>, args: seq<Value>, kwargs: seq<(string, Value)>): (r: seq<(string, Value)>)
    ensures |r| == Min(|params|, |args|) + |kwargs|
    ensures forall i :: 0 <= i < Min(|params|, |args|) ==> r[i] == (params[i], args[i])
    ensures forall j :: 0 <= j < |kwargs| ==> r[Min(|params|, |args|) + j] == kwargs[j]
  {
    var n := Min(|params|, |args|);
    seq(n, i requires 0 <= i < n => (params[i], args[i])) + kwargs
  }

  /** `argspec.annotations.get(name)`: an unannotated parameter reads as `None`. */
  function AnnotationOf(f: PyFunction, name: string): (ann: TypeExpr)
    ensures name !in f.paramAnns ==> ann == NoneAnn
    ensures name in f.paramAnns ==> ann == f.paramAnns[name]
  {
    if name in f.paramAnns then f.paramAnns[name] else NoneAnn
  }

  /** The argument loop: each named argument against its annotation, in order, each on
      the bindings the previous ones left; the first failure ends the call. Starting
      from bindings that can all still bind, the result keeps them so. */
  function VerdictArgs(rt: Runtime, f: PyFunction, pairs: seq<(string, Value)>, t: Table): (r: (Outcome, Table))
    ensures Extends(t, r.1)
    ensures AllCanBind(t) ==> AllCanBind(r.1)
  {
    if pairs == [] then (Pass, t)
    else
      var (o, t1) := Verdict(rt, DefaultConfig, AnnotationOf(f, pairs[0].0), pairs[0].1, t);
      if o.Fail? then (o, t1)
      else
        var r := VerdictArgs(rt, f, pairs[1..], t1);
        ExtendsTransitive(t, t1, r.1);
        r
  }

  /** The bindings and outcome after the argument loop of a call. */
  function ArgumentsVerdict(rt: Runtime, f: PyFunction, args: seq<Value>, kwargs: seq<(string, Value)>): (Outcome, Table)
  {
    VerdictArgs(rt, f, ArgPairs(f.params, args, kwargs), FreshTable(f.generics))
  }

  /** One validated call. The function is called only when every argument passed and
      every binding can still bind; its result is returned unchanged, after being checked
      against the return annotation when there is one. */
  function CallSpec(rt: Runtime, f: PyFunction, args: seq<Value>, kwargs: seq<(string, Value)>): (r: CallOutcome)
    ensures r.Returned? ==> r.value == f.body(args, kwargs)
    ensures r.Returned? ==> ArgumentsVerdict(rt, f, args, kwargs).0.Pass?
  {
    var (o, t) := ArgumentsVerdict(rt, f, args, kwargs);
    if o.Fail? then Rejected(o.failure)
    else if !AllCanBind(t) then Rejected(ValidationError)
    else
      var result := f.body(args, kwargs);
      match f.returnAnn
      case None => Returned(result)
      case Some(ra) =>
        var (o2, _) := Verdict(rt, DefaultConfig, ra, result, t);
        if o2.Fail? then Rejected(o2.failure) else Returned(result)
  }

  /** `_Validator`: a function with its own binding checker. */
  class Validator {
    const func: PyFunction
    const bindChecker: BindChecker

    /** The checker is a `ValidationBindChecker`, which always has the default configuration. */
    ghost predicate Valid()
      reads this, bindChecker
    {
      bindChecker.config == DefaultConfig
    }

    constructor (func: PyFunction)
      ensures this.func == func && Valid() && fresh(bindChecker)
    {
      this.func := func;
      bindChecker := new BindChecker(None);
    }

    /** `__call__`: refreshes the bindings, checks the arguments in order, then calls
        the function and checks its result. */
    method Call(rt: Runtime, args: seq<Value>, kwargs: seq<(string, Value)>) returns (r: CallOutcome)
      requires Valid()
      modifies bindChecker
      ensures Valid()
      ensures r == CallSpec(rt, func, args, kwargs)
    {
      bindChecker.NewBindings(func.generics);
      var res := CheckArguments(rt, ArgPairs(func.params, args, kwargs));
      if res.Fail? {
        return Rejected(res.failure);
      }
      if !bindChecker.Checked() {
        return Rejected(ValidationError);
      }
      var result := func.body(args, kwargs);
      if func.returnAnn.Some? {
        res := bindChecker.Check(rt, func.returnAnn.value, result);
        if res.Fail? {
          return Rejected(res.failure);
        }
      }
      r := Returned(result);
    }

    /** The argument loop of `__call__`: each named argument against its parameter's
        annotation, stopping at the first failure. */
    method CheckArguments(rt: Runtime, pairs: seq<(string, Value)>) returns (res: Outcome)
      requires Valid() && bindChecker.Valid()
      modifies bindChecker.gbinds.Values
      ensures (res, bindChecker.Table()) == VerdictArgs(rt, func, pairs, old(bindChecker.Table()))
    {
      ghost var t0 := bindChecker.Table();
      res := Pass;
      var i := 0;
      while i < |pairs|
        invariant 0 <= i <= |pairs|
        invariant bindChecker.Valid() && res == Pass
        invariant VerdictArgs(rt, func, pairs[i..], bindChecker.Table()) == VerdictArgs(rt, func, pairs, t0)
      {
        assert pairs[i..][0] == pairs[i] && pairs[i..][1..] == pairs[i + 1..];
        res := bindChecker.Check(rt, AnnotationOf(func, pairs[i].0), pairs[i].1);
        if res.Fail? {
          return;
        }
        i := i + 1;
      }
    }
  }

  /** `validate(func)`: every call goes through a new `_Validator`. */
  method ValidateWrapper(rt: Runtime, f: PyFunction, args: seq<Value>, kwargs: seq<(string, Value)>) returns (r: CallOutcome)
    ensures r == CallSpec(rt, f, args, kwargs)
  {
    var v := new Validator(f);
    r := v.Call(rt, args, kwargs);
  }
}
