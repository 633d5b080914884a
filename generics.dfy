/** Type parameters and the state of one generic binding, shared by both validators.
    `BindingState` is the value of a lilvali `GenericBinding` object and is itself
    the immutable `GenericBinding` namedtuple of the small validator. */
module Generics {
  import opened PyValues

  /** A type parameter: its identity and its constraint tuple (empty when unconstrained). */
  datatype TypeVar = TypeVar(id: nat, constraints: seq<Class>)

  /** One type parameter's state: the committed runtime class, if any, and the
      values bound to it so far, in binding order. */
  datatype BindingState = BindingState(ty: Option<Class>, instances: seq<Value>)
  {
    /** `is_bound`: a runtime class has been committed. */
    predicate IsBound()
    {
      ty.Some?
    }

    /** `none_bound`: no value has been bound yet. */
    predicate NoneBound()
    {
      |instances| == 0
    }

    /** `can_bind_generic` (`can_bind` in the small validator). */
    predicate CanBindGeneric()
    {
      IsBound() || NoneBound()
    }

    /** `can_new_arg_bind`: unbound, or bound to exactly the argument's class. */
    predicate CanNewArgBind(arg: Value)
    {
      !IsBound() || ty.value == TypeOf(arg)
    }

    /** `try_bind_new_arg` on the value of the binding: the outcome and the new state. */
    function TryBindNewArg(arg: Value): (r: (Outcome, BindingState))
      ensures r.0.Pass? <==> CanNewArgBind(arg)
      ensures r.0.Pass? ==> r.1.ty == Some(TypeOf(arg)) && r.1.instances == instances + [arg]
      ensures r.0.Fail? ==> r.0.failure == BindingError && r.1 == this
    {
      if CanNewArgBind(arg) then (Pass, BindingState(Some(TypeOf(arg)), instances + [arg]))
      else (Fail(BindingError), this)
    }
  }

  /** A fresh `GenericBinding()`. */
  const Unbound := BindingState(None, [])

  /** The per-call binding table, from type parameter to binding state. */
  type Table = map<TypeVar, BindingState>

  /** `{G: GenericBinding() for G in generics}`. */
  function FreshTable(generics: seq<TypeVar>): (t: Table)
    ensures forall g :: g in t <==> g in generics
    ensures forall g :: g in t ==> t[g] == Unbound
  {
    map g | g in generics :: Unbound
  }

  /** `all(checked)`: every binding can still bind. */
  predicate AllCanBind(t: Table)
  {
    forall tv :: tv in t ==> t[tv].CanBindGeneric()
  }

  /** How a table may evolve during one call: same parameters, each binding's instances
      only grow at the end, and a committed class never changes. */
  predicate Extends(t: Table, u: Table)
  {
    t.Keys == u.Keys &&
    forall tv :: tv in t ==>
      t[tv].instances <= u[tv].instances &&
      (t[tv].IsBound() ==> u[tv].ty == t[tv].ty)
  }

  lemma ExtendsTransitive(t: Table, u: Table, w: Table)
    requires Extends(t, u) && Extends(u, w)
    ensures Extends(t, w)
  {
    forall tv | tv in t
      ensures t[tv].instances <= w[tv].instances
    {
      assert t[tv].instances <= u[tv].instances <= w[tv].instances;
    }
  }

  /** Binding keeps the invariant that a binding holding instances has a committed class,
      commits the argument's class, and never changes an already committed class. */
  lemma TryBindKeepsInvariant(b: BindingState, arg: Value)
    requires b.CanBindGeneric()
    ensures b.TryBindNewArg(arg).1.CanBindGeneric()
    ensures b.TryBindNewArg(arg).0.Pass? ==> b.TryBindNewArg(arg).1.IsBound()
    ensures b.IsBound() ==> b.TryBindNewArg(arg).1.ty == b.ty
  {
  }

  /** The fresh table of a call satisfies `all(checked)`. */
  lemma FreshTableAllCanBind(generics: seq<TypeVar>)
    ensures AllCanBind(FreshTable(generics))
  {
  }

  /** Updating one binding by `try_bind_new_arg` keeps the invariant of the whole table and
      is an allowed evolution of it. */
  lemma TableBindStep(t: Table, tv: TypeVar, arg: Value)
    requires tv in t
    ensures Extends(t, t[tv := t[tv].TryBindNewArg(arg).1])
    ensures AllCanBind(t) ==> AllCanBind(t[tv := t[tv].TryBindNewArg(arg).1])
  {
    var u := t[tv := t[tv].TryBindNewArg(arg).1];
    assert u.Keys == t.Keys;
    if AllCanBind(t) {
      TryBindKeepsInvariant(t[tv], arg);
    }
  }
}
