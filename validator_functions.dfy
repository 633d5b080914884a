/** User predicates used as annotations (lilvali/validate.py): `ValidatorFunction`,
    the `validator` decorator and the checker branch `vf_check`. */
module ValidatorFunctions {
  import opened PyValues

  /** A predicate with an optional base type. */
  datatype ValidatorFunction = ValidatorFunction(fn: PredId, baseType: Option<Class>)

  /** `ValidatorFunction.__call__`: calls the wrapped predicate. */
  function Invoke(rt: Runtime, vf: ValidatorFunction, value: Value): PredResult
  {
    rt.call(vf.fn, value)
  }

  /** `validator(func, base=...)`, in both spellings: applying the parenthesised form
      `validator(base=...)` to a function builds the same leaf. */
  function MakeValidator(fn: PredId, base: Option<Class>): (vf: ValidatorFunction)
    ensures forall rt: Runtime, v :: Invoke(rt, vf, v) == rt.call(fn, v)
    ensures vf.baseType == base
  {
    ValidatorFunction(fn, base)
  }

  /** `vf_check`: a predicate that raises counts as false; a true predicate passes;
      a false one fails with InvalidType when the argument is not an instance of the base
      type, with ValidationError when there is no base type, and passes otherwise. */
  function VfCheck(rt: Runtime, vf: ValidatorFunction, arg: Value): (r: Outcome)
    ensures r.Pass? <==>
      Invoke(rt, vf, arg) == Answered(true) ||
      (vf.baseType.Some? && IsInstance(rt, arg, vf.baseType.value))
    ensures r == Fail(InvalidType) <==>
      Invoke(rt, vf, arg) != Answered(true) &&
      vf.baseType.Some? && !IsInstance(rt, arg, vf.baseType.value)
    ensures r == Fail(ValidationError) <==>
      Invoke(rt, vf, arg) != Answered(true) && vf.baseType.None?
  {
    var result := match Invoke(rt, vf, arg)
      case Answered(truthy) => truthy
      case Threw => false;
    if !result then
      if vf.baseType.Some? && !IsInstance(rt, arg, vf.baseType.value) then Fail(InvalidType)
      else if vf.baseType.None? then Fail(ValidationError)
      else Pass
    else Pass
  }

  /** A predicate that raises is treated exactly like one that returns a false value. */
  lemma ThrowingPredicateActsAsFalse(rt1: Runtime, rt2: Runtime, vf: ValidatorFunction, arg: Value)
    requires rt1.userSubclass == rt2.userSubclass
    requires Invoke(rt1, vf, arg) == Threw && Invoke(rt2, vf, arg) == Answered(false)
    ensures VfCheck(rt1, vf, arg) == VfCheck(rt2, vf, arg)
  {
    if vf.baseType.Some? {
      assert IsInstance(rt1, arg, vf.baseType.value) == IsInstance(rt2, arg, vf.baseType.value);
    }
  }
}
