# lilvali: runtime type conformance with generic binding, in Dafny

lilvali checks, at call time, that a function's arguments and result conform to the
function's type annotations. Type parameters (`def f[T](a: T, b: T) -> T`) are bound to
the exact runtime class of the first value that meets them. Every later value that meets
the same parameter in the same call must have exactly that class. The repository has
two versions of this checker, and this project models both:

- `lilvali/binding.py` and `lilvali/validate.py`: the full checker.
  - `GenericBinding` is one parameter's binding, updated in place.
  - `BindChecker.check` is a recursive matcher over annotations: type parameter,
    class / `None` / `Any`, list or tuple of annotations, `dict` and `dict[K, V]`,
    union, TypedDict, `Literal`, `Callable`, and user validator functions.
  - `_Validator.__call__` runs one validated call. It starts fresh bindings, checks
    the arguments in order, calls the function, then checks the result with the same
    bindings.
- `tiny_validate.py`: the earlier, self-contained version.
  - `check_binding` dispatches in the order type parameter → list/tuple → any callable
    used as a predicate.
  - It keeps immutable binding records in a dictionary that it updates in place.

## Layout

| file | module | contents |
|---|---|---|
| `values.dfy` | `PyValues` | runtime values, exact classes, `isinstance`, iteration, `==`, and the exceptions a check ends with |
| `generics.dfy` | `Generics` | type parameters; `BindingState`, the value of one binding, with `try_bind_new_arg`; binding tables and how they may evolve |
| `validator_functions.dfy` | `ValidatorFunctions` | `ValidatorFunction`, `validator`, `vf_check` |
| `binding.dfy` | `Binding` | the annotation datatype; the checker as pure functions (`Verdict` and helpers); the classes `GenericBinding` and `BindChecker`, whose methods are proved to compute those functions in place |
| `binding_props.dfy` | `BindingProps` | what each branch of the checker promises, the union's missing rollback, scenarios from the tests |
| `validate.dfy` | `Validate` | the call wrapper: the `_Validator` class and `validate` |
| `validate_props.dfy` | `ValidateProps` | outcomes of a validated call, generic return contracts |
| `tiny.dfy` | `TinyValidate` | the small validator: `check_binding` over a mutable dictionary, and its wrapper |
| `tiny_props.dfy` | `TinyProps` | what the small validator promises, and how it agrees with lilvali |

The host runtime is the parameter `Runtime`. It gives the subclass relation among user
classes and the behaviour of user predicates: each call of a predicate answers a truth
value or raises. Exceptions appear as the datatype `Failure`:

- `ValidationError`, `InvalidType` and `BindingError` form the family that
  `except ValidationError` catches.
- `Raised(KeyError | IndexError | TypeError | PredicateError)` covers the exceptions that
  escape it.

lilvali/errors.py is not part of this model. The hierarchy above is the one
`tiny_validate.py:14-21` declares, with the same names.

How the code is followed where other sources differ or a detail is easy to miss:

- `BindCheckerConfig.strict` is declared but never read, so it has no effect in the model.
- `ValidationBindChecker` always takes the default configuration. A lambda therefore never
  passes a `Callable[[...], R]` parameter through `validate`. The tests call
  `validate(config=...)` and `checking_off()`, which this `validate.py` does not have.
- A TypedDict check looks only at the keys the argument has. An empty dict passes every
  TypedDict, and an undeclared key raises KeyError.
- `list[int]` and other non-dict generic aliases perform no check.
- An int, float, str or bool object used as an annotation (a forward reference `"Person"`,
  or `x: 5`) reaches the class branch, where `isinstance` raises TypeError
  (`TypeExpr.ValueAnn`, `BindingProps.ValueAnnotationRaises`). The union's
  `except ValidationError` does not catch it. A string inside `typing.Union` becomes a
  `ForwardRef` instead, which the checker does not handle, so that case fails with
  ValidationError (`TypeExpr.Unhandled`). Bytes objects are not among the modelled values, so a
  bytes annotation is not modelled.
- The union branch does not undo the bindings of a member that failed (the TODO at
  `lilvali/binding.py:146`). The model keeps this behaviour:
  - `BindingProps.UnionKeepsFailedMemberBindings` shows that `dict[T, int] | dict[int, T]`
    rejects `{1: 2.0}` as written;
  - `BindingProps.UnionWithRollbackAcceptsExample` shows that it accepts that dict with
    rollback;
  - `BindingProps.RollbackIrrelevantWithoutTypeVars` proves that rollback makes no
    difference when no member mentions a type parameter.
- The `all(checked)` guard of both wrappers never fails after the argument loop, so the
  `bad_binds` branch is dead code (`ValidateProps.CheckedGuardAlwaysHolds`,
  `TinyProps.TinyCallOutcomes`).
- In the small validator:
  - a class used as an annotation is a callable, so it is called on the argument like a
    predicate;
  - a `-> None` return annotation rejects every call that gets that far;
  - a predicate that raises propagates its exception, whereas lilvali's `vf_check`
    treats it as false.

## Model

| member | source | states |
|---|---|---|
| `PyValues.Items` | lilvali/binding.py:121-126 | what `for x in arg` visits: exactly lists, tuples, dicts and strings are iterable; a list or tuple yields its items, a dict its keys in order, a string its one-character strings |
| `PyValues.PyEq` | lilvali/binding.py:166-167 | Python's `==` as `in` uses it: numbers equal by value across bool, int and float; function objects and user objects equal only to themselves; containers equal item by item in order |
| `Generics.BindingState.IsBound` | lilvali/binding.py:24-27 | `is_bound`: a class has been committed |
| `Generics.BindingState.NoneBound` | lilvali/binding.py:29-31 | `none_bound`: no value has been bound yet |
| `Generics.BindingState.CanBindGeneric` | lilvali/binding.py:33-36 | `can_bind_generic`: bound or still empty; also the small validator's `can_bind` |
| `Generics.BindingState.CanNewArgBind` | lilvali/binding.py:38-40 | `can_new_arg_bind`: unbound, or bound to exactly the argument's class |
| `Generics.BindingState.TryBindNewArg` | lilvali/binding.py:38-49 | binding passes iff the binding is unbound or bound to exactly `type(arg)`; then `ty` becomes `type(arg)` and `instances` grows by `arg`; otherwise BindingError and nothing changes |
| `Generics.FreshTable` | lilvali/binding.py:65-66 | the fresh table has exactly the declared type parameters, each unbound |
| `Generics.TryBindKeepsInvariant` | lilvali/binding.py:24-49 | binding keeps `can_bind_generic`, commits a class when it passes, and never changes a committed class |
| `Generics.FreshTableAllCanBind` | lilvali/binding.py:65-73 | after `new_bindings`, every entry of `checked` holds |
| `Generics.TableBindStep` | lilvali/binding.py:79-86 | updating one parameter's binding keeps `all(checked)` and only extends the table |
| `Generics.ExtendsTransitive` | lilvali/binding.py:42-45 | bindings only grow across successive checks: same parameters, instances extended at the end, committed class kept |
| `ValidatorFunctions.Invoke` | lilvali/validate.py:31-32 | calling a validator function calls its predicate on the value |
| `ValidatorFunctions.MakeValidator` | lilvali/validate.py:111-117 | `validator(fn, base=...)` builds a leaf that calls `fn` and carries `base` |
| `ValidatorFunctions.VfCheck` | lilvali/validate.py:43-56 | passes iff the predicate answers true or the argument is an instance of the base type; InvalidType iff not true, base given, not an instance; ValidationError iff not true and no base |
| `ValidatorFunctions.ThrowingPredicateActsAsFalse` | lilvali/validate.py:45-49 | a predicate that raises gives the same verdict as one that returns false |
| `Binding.FieldIndex` | lilvali/binding.py:159-162 | finds the declared field named by a key, or reports that none exists |
| `Binding.Verdict` | lilvali/binding.py:75-191 | one `check`: the table only grows, `all(checked)` is preserved, and an annotation without type parameters leaves the table unchanged |
| `Binding.VerdictTypeVar` | lilvali/binding.py:79-86 | the TypeVar branch only extends the table and keeps `all(checked)` |
| `Binding.VerdictAlias` | lilvali/binding.py:104-116 | the generic-alias branch keeps the three table properties |
| `Binding.VerdictSeq` | lilvali/binding.py:118-126 | the list/tuple branch keeps the three table properties |
| `Binding.VerdictTypedDict` | lilvali/binding.py:153-162 | the TypedDict branch keeps the three table properties |
| `Binding.VerdictEach` | lilvali/binding.py:121-123 | same three table properties for the one-element loop |
| `Binding.VerdictZip` | lilvali/binding.py:124-126 | same three table properties for the position-by-position loop |
| `Binding.VerdictItems` | lilvali/binding.py:134-137 | same three table properties for the key/value loop |
| `Binding.VerdictUnion` | lilvali/binding.py:139-151 | same three table properties for the union, failed members' bindings included |
| `Binding.VerdictFields` | lilvali/binding.py:153-162 | same three table properties for the TypedDict loop |
| `Binding.LiteralAccepts` | lilvali/binding.py:166-167 | `arg in ann.__args__`: some allowed value is `==` to the argument |
| `Binding.GenericBinding.constructor` | lilvali/binding.py:17-22 | a new binding is unbound with no instances |
| `Binding.GenericBinding.TryBindNewArg` | lilvali/binding.py:42-49 | the object's outcome and new fields are those of `BindingState.TryBindNewArg` on its old fields |
| `Binding.BindChecker.constructor` | lilvali/binding.py:61-63 | `config or BindCheckerConfig()`; no table yet (`None` in the source, an empty map here) |
| `Binding.BindChecker.Checked` | lilvali/binding.py:71-73 | `all(checked)`: every binding object of the table can still bind |
| `Binding.BindChecker.NewBindings` | lilvali/binding.py:65-66 | replaces the table with one new, distinct, unbound binding object per type parameter; configuration kept |
| `Binding.BindChecker.Check` | lilvali/binding.py:75-191 | outcome and new bindings equal `Verdict` of the old bindings |
| `Binding.BindChecker.CheckTypeVar` | lilvali/binding.py:79-86 | the TypeVar branch updates only the parameter's own binding object, as `VerdictTypeVar` says: a constrained parameter rejects another exact class, a missing one raises KeyError, otherwise the binding object tries to bind |
| `Binding.BindChecker.CheckSequence` | lilvali/binding.py:118-126 | the list/tuple branch equals `Verdict` |
| `Binding.BindChecker.CheckEachItem` | lilvali/binding.py:121-123 | the element loop equals `VerdictEach` |
| `Binding.BindChecker.CheckPositions` | lilvali/binding.py:124-126 | the zip loop equals `VerdictZip` |
| `Binding.BindChecker.CheckDictItems` | lilvali/binding.py:128-137 | the dict branch with key/value types equals `Verdict` |
| `Binding.BindChecker.CheckUnion` | lilvali/binding.py:139-151 | the union loop equals `Verdict`, without rollback |
| `Binding.BindChecker.CheckTypedDict` | lilvali/binding.py:153-162 | the TypedDict loop equals `Verdict` |
| `BindingProps.TypeVarBranch` | lilvali/binding.py:79-86 | a constrained parameter rejects another exact class with ValidationError and no change; otherwise passes iff unbound or bound to `type(arg)`, committing and recording `arg`, else BindingError with no change |
| `BindingProps.UnboundTypeVarVerdict` | lilvali/binding.py:79-86 | an unbound constrained parameter passes exactly the arguments whose exact class is a constraint, and fails with a ValidationError otherwise |
| `BindingProps.BoundTypeVarVerdict` | lilvali/binding.py:42-49 | an unconstrained parameter bound to `c` passes exactly the exact instances of `c` and stays bound to `c` |
| `BindingProps.ClassLeaves` | lilvali/binding.py:88-102 | `None` and `Any` always pass; a class passes iff `isinstance`, else InvalidType; the table is unchanged |
| `BindingProps.EachItemChecked` | lilvali/binding.py:121-123 | a one-element annotation without type parameters passes iff every item passes (an empty argument passes) |
| `BindingProps.PositionsChecked` | lilvali/binding.py:124-126 | an equal-length annotation without type parameters passes iff every position passes its own annotation |
| `BindingProps.SequenceLengths` | lilvali/binding.py:118-126 | non-iterable raises TypeError; a one-element annotation accepts an empty argument; any other length mismatch performs no check |
| `BindingProps.DictItemsChecked` | lilvali/binding.py:134-137 | `dict[K, V]` without type parameters passes iff every key passes K and every value passes V |
| `BindingProps.DictAliasShapes` | lilvali/binding.py:104-132 | a `dict[K, V]` alias rejects a non-dict with ValidationError; an alias whose origin is not a dict subclass passes |
| `BindingProps.DictClassShapes` | lilvali/binding.py:101-132 | bare `dict` and `{}` accept exactly the dicts; a non-dict fails `dict` with InvalidType and `{}` with ValidationError |
| `BindingProps.UnionWithRollback` | lilvali/binding.py:144-151 | the intended union: a union that fails with ValidationError leaves the bindings as they were |
| `BindingProps.UnionWithRollbackFirstSuccess` | lilvali/binding.py:144-151 | with rollback, a union passes iff some member passes after all earlier ones failed with a ValidationError |
| `BindingProps.UnionWithRollbackWitness` | lilvali/binding.py:144-151 | a passing union with rollback has a passing member preceded only by ValidationError failures |
| `BindingProps.UnionWithRollbackReaches` | lilvali/binding.py:144-151 | such a member makes the union with rollback pass |
| `BindingProps.UnionWithRollbackAllQuiet` | lilvali/binding.py:144-151 | with rollback, a union whose members all fail with a ValidationError fails with ValidationError and leaves the bindings unchanged |
| `BindingProps.UnionSkipsQuietFailure` | lilvali/binding.py:144-150 | after a member fails with a ValidationError the union continues with the rest, from that member's leftover bindings as written, from the original ones with rollback |
| `BindingProps.SingleMemberUnion` | lilvali/binding.py:144-151 | a one-member union passes iff its member passes, when the member fails only with ValidationError |
| `BindingProps.RollbackIrrelevantWhenFailuresLeaveNoTrace` | lilvali/binding.py:144-151 | when no failing member changes the bindings, the union as written equals the union with rollback |
| `BindingProps.RollbackIrrelevantWithoutTypeVars` | lilvali/binding.py:144-151 | members without type parameters: the missing rollback makes no difference |
| `BindingProps.PairVerdict` | lilvali/binding.py:124-126 | a two-position annotation checks the second position against the bindings the first left |
| `BindingProps.PairZip` | lilvali/binding.py:124-126 | the zip loop over two positions checks the second against the bindings the first left |
| `BindingProps.DictEntryVerdict` | lilvali/binding.py:134-137 | `dict[K, V]` on a one-entry dict checks the value against the bindings the key's check left, and stops at the key's failure |
| `BindingProps.EntryItems` | lilvali/binding.py:135-137 | the key/value loop over one entry: key first, then value from the key's bindings |
| `BindingProps.ValueAnnotationRaises` | lilvali/binding.py:88-102 | an int, float, str or bool object as annotation raises TypeError, leaving the bindings; inside a two-position annotation the TypeError escapes before the second position |
| `BindingProps.BindUnbound` | lilvali/binding.py:42-45 | binding an unbound, unconstrained parameter commits `type(arg)` and records `arg` |
| `BindingProps.UnionKeepsFailedMemberBindings` | lilvali/binding.py:146-147 | the union of `dict[T, c]` and `dict[c, T]` rejects `{x: y}` and leaves `T` bound to `type(x)` by the failed first member |
| `BindingProps.FirstMemberBindsThenFails` | lilvali/binding.py:146-147 | `dict[T, c]` on `{x: y}` binds `T` to `type(x)` and then fails on `y` with InvalidType, keeping that binding |
| `BindingProps.SecondMemberSeesLeftoverBinding` | lilvali/binding.py:146-147 | `dict[c, T]` on `{x: y}` with `T` left bound to `type(x)` fails with BindingError |
| `BindingProps.UnionWithRollbackAcceptsExample` | lilvali/binding.py:146-147 | with rollback, the same union accepts `{x: y}` and binds `T` to `type(y)` |
| `BindingProps.UnionRollbackExample` | lilvali/binding.py:146-147 | `{1: 2.0}` against the union of `dict[T, int]` and `dict[int, T]`: rejected as written, accepted with rollback |
| `BindingProps.TypedDictKeys` | lilvali/binding.py:153-162 | a non-dict fails with ValidationError; an empty dict passes every TypedDict; an undeclared key raises KeyError |
| `BindingProps.TypedDictShape` | lilvali/binding.py:153-162 | a TypedDict annotation checks the entries of a dict and fails any other argument with ValidationError |
| `BindingProps.FieldsChecked` | lilvali/binding.py:158-162 | with binding-free fields and only declared keys, a dict passes iff every value passes its key's field annotation |
| `BindingProps.LiteralMembership` | lilvali/binding.py:164-168 | passes iff the argument is `==` to an allowed value; `Literal[1]` accepts `True`; two distinct objects of one user class are not equal, so `Literal[Color.RED]` rejects `Color.BLUE` |
| `BindingProps.CallableGates` | lilvali/binding.py:170-180 | passes iff callable and not a lambda (when argument types are given) unless implied lambdas are on; otherwise ValidationError |
| `BindingProps.ListSharesBinding` | tests/test_tiny_validate.py:69-83 | a list against `[T]` with `T` bound to `c` passes iff every item is exactly a `c` |
| `BindingProps.ConstrainedGenericUnion` | tests/test_tiny_validate.py:118-126 | the union of a class `c` and an unbound constrained `T` accepts exactly the instances of `c` and the values whose exact class is a constraint (for `int` and `T: (str, bool)`: ints, bools and strings) |
| `BindingProps.UnionFallsBackToConstraints` | lilvali/binding.py:139-151 | a value that is not a `c` passes the union of `c` and an unbound constrained `T` iff its exact class is a constraint |
| `Validate.ArgPairs` | lilvali/validate.py:72 | positional arguments paired with parameter names up to the shorter list, then keyword arguments in order |
| `Validate.AnnotationOf` | lilvali/validate.py:73 | an unannotated parameter reads as `None`, otherwise its annotation |
| `Validate.VerdictArgs` | lilvali/validate.py:71-74 | the argument loop only extends the bindings and keeps `all(checked)` |
| `Validate.CallSpec` | lilvali/validate.py:67-108 | a returned value is the function's own result, and only after every argument passed |
| `Validate.Validator.constructor` | lilvali/validate.py:62-65 | a new `_Validator` owns a new checker with the default configuration |
| `Validate.Validator.Call` | lilvali/validate.py:67-108 | `__call__` on the mutable checker gives exactly `CallSpec`, whatever earlier calls did |
| `Validate.Validator.CheckArguments` | lilvali/validate.py:71-74 | the argument loop on the mutable checker gives exactly `VerdictArgs`: the first failure and the bindings it left |
| `Validate.ValidateWrapper` | lilvali/validate.py:120-127 | `validate(func)(*args, **kwargs)` gives exactly `CallSpec` |
| `ValidateProps.CheckedGuardAlwaysHolds` | lilvali/validate.py:76-78 | after the argument loop `all(checked)` always holds |
| `ValidateProps.CallOutcomes` | lilvali/validate.py:67-96 | the first argument failure is raised; otherwise the result is returned, unchecked without a return annotation, else iff it passes the return check on the same bindings |
| `ValidateProps.FailedArgumentsNeverCall` | lilvali/validate.py:71-80 | when an argument fails, the outcome is that failure and does not depend on the function |
| `ValidateProps.VerdictArgsIgnoresBody` | lilvali/validate.py:71-74 | the argument loop reads only the annotations |
| `ValidateProps.GenericReturnMatchesArgument` | lilvali/validate.py:83-96 | `f[T](a: T) -> T` returns iff the result has the argument's class, else BindingError, positionally or by keyword |
| `ValidateProps.SharedParameterNeedsSameClass` | tests/test_tiny_validate.py:20-28 | `mymod[T](a: T, b: T)` goes through iff both arguments have the same class, else BindingError |
| `ValidateProps.LambdaRejectedForCallableParameter` | tests/test_validate_types.py:83-96 | a lambda passed for a `Callable[[...], R]` parameter is rejected with ValidationError |
| `ValidateProps.ExtraPositionalArgumentsUnchecked` | lilvali/validate.py:72 | positional arguments beyond the named parameters are not checked |
| `ValidateProps.ArgPairsIgnoresExtra` | lilvali/validate.py:72 | `zip` stops at the last parameter name, whatever positional arguments follow |
| `ValidateProps.ReusedValidatorForgetsEarlierCalls` | lilvali/validate.py:68-69 | a second call on the same `_Validator` has the outcome of a fresh one |
| `TinyValidate.TinyVerdict` | tiny_validate.py:30-80 | one `check_binding`: the dictionary only grows, every binding stays able to bind, and an annotation without type parameters leaves it unchanged |
| `TinyValidate.TinyVarVerdict` | tiny_validate.py:31-49 | the TypeVar branch only extends the dictionary and keeps every binding able to bind |
| `TinyValidate.TinyEach` | tiny_validate.py:55-57 | the same for the list loop |
| `TinyValidate.TinyZip` | tiny_validate.py:52-54 | the same for the tuple loop |
| `TinyValidate.GbindsDict.constructor` | tiny_validate.py:90 | the dictionary starts with every type parameter unbound |
| `TinyValidate.CheckBinding` | tiny_validate.py:30-80 | outcome and new dictionary contents equal `TinyVerdict` of the old contents |
| `TinyValidate.CheckPositions` | tiny_validate.py:52-54 | the tuple loop equals `TinyZip` |
| `TinyValidate.CheckItems` | tiny_validate.py:55-57 | the list loop equals `TinyEach` |
| `TinyValidate.TinyArgs` | tiny_validate.py:92-95 | the argument loop only extends the bindings and keeps them bindable |
| `TinyValidate.Annotated` | tiny_validate.py:93-94 | a parameter is checked only when its annotation exists and is not `None` |
| `TinyValidate.ReturnSkipped` | tiny_validate.py:109 | the return check is skipped exactly when the annotation is the result's own class |
| `TinyValidate.TinyCallSpec` | tiny_validate.py:89-113 | a returned value is the function's own result, and only after every annotated argument passed |
| `TinyValidate.Wrapper` | tiny_validate.py:84-115 | the wrapper gives exactly `TinyCallSpec` |
| `TinyProps.TinyTypeVarAgreesWithBinding` | tiny_validate.py:42-49 | on a type parameter the small validator reaches the same bindings and verdict as lilvali, with ValidationError for BindingError |
| `TinyProps.TinyShapes` | tiny_validate.py:51-80 | constrained parameter rejects other classes; tuple of equal length checked pairwise, other shapes ValidationError; empty annotation on a non-empty list IndexError; list checked against the first annotation; predicate exceptions propagate, falsy fails, truthy passes; `None` and other objects unhandled |
| `TinyProps.TinyListSharesBinding` | tiny_validate.py:190-200 | a list against `[T]` with `T` bound to `c` passes iff every item is exactly a `c` |
| `TinyProps.UnannotatedArgumentsSkipped` | tiny_validate.py:92-95 | arguments of unannotated or `None`-annotated parameters are never checked |
| `TinyProps.TinyCallOutcomes` | tiny_validate.py:97-113 | first failure raised; otherwise the result is returned when there is no return annotation, when it is the result's exact class, or when it passes |
| `TinyProps.ExactClassReturnUnchecked` | tiny_validate.py:109-110 | a return annotation equal to `type(result)` is not checked at all |
| `TinyProps.NoneReturnAlwaysRejects` | tiny_validate.py:100-110 | `-> None` rejects every call whose arguments pass |
| `TinyProps.TinySharedParameterNeedsSameClass` | tiny_validate.py:165-169 | `mymod(10, 3.0)` fails: two `T` parameters go through iff their arguments share a class, else ValidationError |
| `TinyProps.TinySharedArgs` | tiny_validate.py:92-95 | two arguments for parameters annotated `T` pass iff they share a class, else ValidationError |

## Left out

- Binding.Verdict: the Callable branch's comparison of the argument's own annotations (`lilvali/binding.py:182-191`) instantiates arbitrary classes, so only the "callable" and "lambda" gates are modelled. A callable that passes the gates is accepted here, while the source can still reject it at `lilvali/binding.py:185-191`: `def g(x) -> int` given for `Callable[[int], str]` raises InvalidType there.
- `BindChecker.register_validator`, `singledispatchmethod` dispatch, `inspect.getfullargspec`, `__type_params__`, `functools.wraps` and `partial` are host reflection. The function's parameters, annotations and type parameters are given as data (`PyFunction`, `TinyFunction`), and annotations as the datatypes `TypeExpr` and `TinyAnn`.
- `ValidatorFunction.__str__`, logging and the `print` in `vf_check` are output only, except that `__str__` reads the predicate's `__name__` and raises AttributeError for a callable without one (a `functools.partial`), which is not modelled.
- Exceptions raised by the wrapped function itself, including Python's own argument-binding errors (missing or unexpected arguments), are not modelled. The function is a total map from arguments to a result.
- Callable values are modelled only as function objects (`FuncV`), each with its own identity. Callable instances and classes passed as values are not modelled.
- TinyProps.TinyShapes: a falsy answer from a predicate annotation fails with ValidationError here. The source builds that message from `ann.__name__` (`tiny_validate.py:63`), so a callable without `__name__`, such as a `functools.partial` or a callable instance, raises AttributeError there instead. That case is not modelled.
- `isinstance(arg, dict)` and `isinstance(arg, list/tuple)` consider only the built-in classes. User subclasses of builtins are not modelled as values, and objects of user classes are modelled as non-iterable, so a user class defining `__iter__` is not iterable here.
- `==` compares numbers across bool, int and float, and objects of user classes by identity (the default `object.__eq__`). Containers compare structurally, and user-defined `__eq__` is not modelled. Python compares container items with `==` and ignores the order of dict entries, so `Literal[(1,)]` accepts `(1.0,)` and a dict literal matches a reordered dict in Python, but not here.
- The message of the `bad_binds` ValidationError is not modelled. That branch is unreachable in any case.
- lilvali/model.py, lilvali/__init__.py, the demo, the profiling script and packaging are outside the checker.
- Float values are modelled as reals. Floating-point arithmetic never enters a check.
- Binding.Verdict: its own contract states the table properties. What each branch computes is stated by the `BindingProps` lemmas.
- BindingProps.EachItemChecked, BindingProps.PositionsChecked and BindingProps.DictItemsChecked state the item-by-item characterisation only for annotations without type parameters. With type parameters, each item is checked against the bindings left by the previous ones, as `ListSharesBinding` shows for `[T]`.
