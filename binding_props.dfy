/** What the checker of lilvali/binding.py promises, branch by branch, stated over `Verdict`. */
module BindingProps {
  import opened PyValues
  import opened Generics
  import opened ValidatorFunctions
  import opened Binding

  /** A TypeVar with constraints rejects an argument whose exact class is not one of them,
      leaving the table alone; otherwise the parameter's binding tries to bind the argument:
      it commits `type(arg)` and records the argument when unbound or bound to exactly that
      class, and raises BindingError without any change otherwise. */
  lemma TypeVarBranch(rt: Runtime, cfg: BindCheckerConfig, tv: TypeVar, arg: Value, t: Table)
    ensures |tv.constraints| > 0 && TypeOf(arg) !in tv.constraints ==>
      Verdict(rt, cfg, TypeVarAnn(tv), arg, t) == (Fail(ValidationError), t)
    ensures (|tv.constraints| == 0 || TypeOf(arg) in tv.constraints) && tv in t ==>
      var r := Verdict(rt, cfg, TypeVarAnn(tv), arg, t);
      (r.0.Pass? <==> (t[tv].ty.None? || t[tv].ty == Some(TypeOf(arg)))) &&
      (r.0.Pass? ==> r.1 == t[tv := BindingState(Some(TypeOf(arg)), t[tv].instances + [arg])]) &&
      (r.0.Fail? ==> r == (Fail(BindingError), t))
  {
    if (|tv.constraints| == 0 || TypeOf(arg) in tv.constraints) && tv in t {
      var r := Verdict(rt, cfg, TypeVarAnn(tv), arg, t);
      if r.0.Fail? {
        assert t[tv := t[tv]] == t;
      }
    }
  }

  /** `None` and `Any` accept everything; a class accepts exactly its instances and
      otherwise raises InvalidType. None of them touches the bindings. */
  lemma ClassLeaves(rt: Runtime, cfg: BindCheckerConfig, c: Class, arg: Value, t: Table)
    ensures Verdict(rt, cfg, NoneAnn, arg, t) == (Pass, t)
    ensures Verdict(rt, cfg, AnyAnn, arg, t) == (Pass, t)
    ensures Verdict(rt, cfg, ClassAnn(c), arg, t) ==
      (if IsInstance(rt, arg, c) then Pass else Fail(InvalidType), t)
  {
  }

  /** An int, float, str or bool object written as an annotation (a forward reference
      `"Person"`, `x: 5`) reaches the class branch, whose `isinstance` raises TypeError;
      nothing is bound. Inside a tuple annotation such as `("Person", int)` the same
      TypeError ends the check of a pair. */
  lemma ValueAnnotationRaises(rt: Runtime, cfg: BindCheckerConfig, v: ScalarValue, b: TypeExpr, arg: Value, x: Value, y: Value, t: Table)
    ensures Verdict(rt, cfg, ValueAnn(v), arg, t) == (Fail(Raised(TypeError)), t)
    ensures Verdict(rt, cfg, SeqAnn([ValueAnn(v), b]), TupleV([x, y]), t) == (Fail(Raised(TypeError)), t)
  {
    PairVerdict(rt, cfg, ValueAnn(v), b, x, y, t);
  }

  /** A one-element list/tuple annotation over a binding-free element annotation: the
      argument passes exactly when every item passes, so an empty argument passes; a
      failure is that of the first failing item. */
  lemma {:induction false} EachItemChecked(rt: Runtime, cfg: BindCheckerConfig, a: TypeExpr, xs: seq<Value>, t: Table)
    requires Closed(a)
    ensures VerdictEach(rt, cfg, a, xs, t).0.Pass? <==>
      forall i :: 0 <= i < |xs| ==> Verdict(rt, cfg, a, xs[i], t).0.Pass?
  {
    if xs != [] {
      var r0 := Verdict(rt, cfg, a, xs[0], t);
      if r0.0.Pass? {
        assert r0.1 == t;
        EachItemChecked(rt, cfg, a, xs[1..], t);
        assert forall i :: 1 <= i < |xs| ==> xs[1..][i - 1] == xs[i];
      }
    }
  }

  /** A fixed-length annotation over binding-free annotations: the argument passes exactly
      when each position passes its own annotation. */
  lemma {:induction false} PositionsChecked(rt: Runtime, cfg: BindCheckerConfig, anns: seq<TypeExpr>, xs: seq<Value>, t: Table)
    requires |anns| == |xs| && AllClosed(anns)
    ensures VerdictZip(rt, cfg, anns, xs, t).0.Pass? <==>
      forall i :: 0 <= i < |xs| ==> Verdict(rt, cfg, anns[i], xs[i], t).0.Pass?
  {
    if anns != [] {
      assert Closed(anns[0]);
      assert AllClosed(anns[1..]) by {
        forall i | 0 <= i < |anns[1..]| ensures Closed(anns[1..][i]) { assert anns[1..][i] == anns[i + 1]; }
      }
      PositionsChecked(rt, cfg, anns[1..], xs[1..], t);
      assert forall i :: 1 <= i < |xs| ==> anns[1..][i - 1] == anns[i] && xs[1..][i - 1] == xs[i];
    }
  }

  /** The list/tuple branch by length: a non-iterable argument raises TypeError, a
      one-element annotation accepts an empty argument, and a length that is neither one
      nor the argument's performs no check at all. */
  lemma SequenceLengths(rt: Runtime, cfg: BindCheckerConfig, elems: seq<TypeExpr>, arg: Value, t: Table)
    ensures Items(arg).None? ==> Verdict(rt, cfg, SeqAnn(elems), arg, t) == (Fail(Raised(TypeError)), t)
    ensures Items(arg) == Some([]) && |elems| == 1 ==> Verdict(rt, cfg, SeqAnn(elems), arg, t) == (Pass, t)
    ensures Items(arg).Some? && |elems| != 1 && |elems| != |Items(arg).value| ==>
      Verdict(rt, cfg, SeqAnn(elems), arg, t) == (Pass, t)
  {
    assert Verdict(rt, cfg, SeqAnn(elems), arg, t) == VerdictSeq(rt, cfg, SeqAnn(elems), arg, t);
    if Items(arg) == Some([]) && |elems| == 1 {
      assert VerdictEach(rt, cfg, elems[0], [], t) == (Pass, t);
    }
  }

  /** A `dict[K, V]` annotation over binding-free K and V: the argument passes exactly
      when every key passes K and every value passes V. */
  lemma {:induction false} DictItemsChecked(rt: Runtime, cfg: BindCheckerConfig, kv: seq<TypeExpr>, entries: seq<(Value, Value)>, t: Table)
    requires |kv| >= 2 && Closed(kv[0]) && Closed(kv[1])
    ensures VerdictItems(rt, cfg, kv, entries, t).0.Pass? <==>
      forall i :: 0 <= i < |entries| ==>
        Accepts(rt, cfg, kv[0], entries[i].0, t) && Accepts(rt, cfg, kv[1], entries[i].1, t)
  {
    if entries != [] {
      var r1 := Verdict(rt, cfg, kv[0], entries[0].0, t);
      assert r1.1 == t;
      if r1.0.Pass? {
        var r2 := Verdict(rt, cfg, kv[1], entries[0].1, t);
        assert r2.1 == t;
        if r2.0.Pass? {
          DictItemsChecked(rt, cfg, kv, entries[1..], t);
          assert forall i :: 1 <= i < |entries| ==> entries[1..][i - 1] == entries[i];
        }
      }
    }
  }

  /** A generic alias of a dict class with arguments (`dict[K, V]`) rejects a non-dict with
      ValidationError; an alias whose origin is not a dict subclass (`list[int]`) performs
      no check. */
  lemma DictAliasShapes(rt: Runtime, cfg: BindCheckerConfig, origin: Class, args: seq<TypeExpr>, arg: Value, t: Table)
    ensures |args| > 0 && IsSubclass(rt, origin, Dict) && !arg.DictV? ==>
      Verdict(rt, cfg, AliasAnn(origin, args), arg, t) == (Fail(ValidationError), t)
    ensures !IsSubclass(rt, origin, Dict) ==> Verdict(rt, cfg, AliasAnn(origin, args), arg, t) == (Pass, t)
  {
    assert Verdict(rt, cfg, AliasAnn(origin, args), arg, t) == VerdictAlias(rt, cfg, AliasAnn(origin, args), arg, t);
  }

  /** The bare class `dict` and a dict-instance annotation accept exactly the dicts; the
      class rejects anything else with InvalidType, the instance with ValidationError. */
  lemma DictClassShapes(rt: Runtime, cfg: BindCheckerConfig, arg: Value, t: Table)
    ensures arg.DictV? <==> Verdict(rt, cfg, DictAnn, arg, t).0.Pass?
    ensures !arg.DictV? ==> Verdict(rt, cfg, DictAnn, arg, t).0 == Fail(ValidationError)
    ensures arg.DictV? <==> Verdict(rt, cfg, ClassAnn(Dict), arg, t).0.Pass?
    ensures !arg.DictV? ==> Verdict(rt, cfg, ClassAnn(Dict), arg, t).0 == Fail(InvalidType)
  {
    ClassLeaves(rt, cfg, Dict, arg, t);
    assert IsInstance(rt, arg, Dict) <==> arg.DictV?;
  }

  /** The union as the TODO at lilvali/binding.py:146 intends it: every member is tried against the bindings as
      they were before the union, so a union that fails with ValidationError leaves the
      bindings as they were. */
  function UnionWithRollback(rt: Runtime, cfg: BindCheckerConfig, members: seq<TypeExpr>, arg: Value, t: Table)
    : (r: (Outcome, Table))
    decreases members
    ensures r.0 == Fail(ValidationError) ==> r.1 == t
  {
    if members == [] then (Fail(ValidationError), t)
    else
      var (o, t1) := Verdict(rt, cfg, members[0], arg, t);
      if o.Pass? then (Pass, t1)
      else if o.failure.IsValidationError() then UnionWithRollback(rt, cfg, members[1..], arg, t)
      else (o, t1)
  }

  /** With rollback, a union passes exactly when some member passes and every earlier one
      failed with a ValidationError. */
  lemma UnionWithRollbackFirstSuccess(rt: Runtime, cfg: BindCheckerConfig, members: seq<TypeExpr>, arg: Value, t: Table)
    ensures UnionWithRollback(rt, cfg, members, arg, t).0.Pass? <==>
      (exists k :: 0 <= k < |members| && Accepts(rt, cfg, members[k], arg, t) &&
        forall j :: 0 <= j < k ==> QuietlyFails(rt, cfg, members[j], arg, t))
  {
    if UnionWithRollback(rt, cfg, members, arg, t).0.Pass? {
      var k := UnionWithRollbackWitness(rt, cfg, members, arg, t);
    }
    if exists k :: 0 <= k < |members| && Accepts(rt, cfg, members[k], arg, t) &&
        forall j :: 0 <= j < k ==> QuietlyFails(rt, cfg, members[j], arg, t) {
      var k :| 0 <= k < |members| && Accepts(rt, cfg, members[k], arg, t) &&
        forall j :: 0 <= j < k ==> QuietlyFails(rt, cfg, members[j], arg, t);
      UnionWithRollbackReaches(rt, cfg, members, arg, t, k);
    }
  }

  /** A passing union with rollback passed through some member after quiet failures. */
  lemma {:induction false} UnionWithRollbackWitness(rt: Runtime, cfg: BindCheckerConfig, members: seq<TypeExpr>, arg: Value, t: Table)
    returns (k: nat)
    requires UnionWithRollback(rt, cfg, members, arg, t).0.Pass?
    ensures k < |members| && Accepts(rt, cfg, members[k], arg, t)
    ensures forall j :: 0 <= j < k ==> QuietlyFails(rt, cfg, members[j], arg, t)
  {
    assert members != [];
    if Accepts(rt, cfg, members[0], arg, t) {
      k := 0;
    } else {
      var tail := members[1..];
      assert QuietlyFails(rt, cfg, members[0], arg, t);
      assert UnionWithRollback(rt, cfg, members, arg, t) == UnionWithRollback(rt, cfg, tail, arg, t);
      var k' := UnionWithRollbackWitness(rt, cfg, tail, arg, t);
      k := k' + 1;
      assert forall j :: 1 <= j < k ==> members[j] == tail[j - 1];
    }
  }

  /** A member that passes after quiet failures of all earlier ones makes the union with
      rollback pass. */
  lemma {:induction false} UnionWithRollbackReaches(rt: Runtime, cfg: BindCheckerConfig, members: seq<TypeExpr>, arg: Value, t: Table, k: nat)
    requires k < |members| && Accepts(rt, cfg, members[k], arg, t)
    requires forall j :: 0 <= j < k ==> QuietlyFails(rt, cfg, members[j], arg, t)
    ensures UnionWithRollback(rt, cfg, members, arg, t).0.Pass?
  {
    if k > 0 {
      assert QuietlyFails(rt, cfg, members[0], arg, t);
      var tail := members[1..];
      assert forall j :: 0 <= j < k - 1 ==> tail[j] == members[j + 1];
      UnionWithRollbackReaches(rt, cfg, tail, arg, t, k - 1);
    }
  }

  /** With rollback, a union whose members all fail with a ValidationError fails with
      ValidationError and leaves the bindings as they were. */
  lemma {:induction false} UnionWithRollbackAllQuiet(rt: Runtime, cfg: BindCheckerConfig, members: seq<TypeExpr>, arg: Value, t: Table)
    requires forall j :: 0 <= j < |members| ==> QuietlyFails(rt, cfg, members[j], arg, t)
    ensures UnionWithRollback(rt, cfg, members, arg, t) == (Fail(ValidationError), t)
  {
    if members != [] {
      assert QuietlyFails(rt, cfg, members[0], arg, t);
      var tail := members[1..];
      assert forall j :: 0 <= j < |tail| ==> tail[j] == members[j + 1];
      UnionWithRollbackAllQuiet(rt, cfg, tail, arg, t);
    }
  }

  /** The member passes. */
  predicate Accepts(rt: Runtime, cfg: BindCheckerConfig, ann: TypeExpr, arg: Value, t: Table)
  {
    Verdict(rt, cfg, ann, arg, t).0.Pass?
  }

  /** The member fails with an error that `except ValidationError` catches. */
  predicate QuietlyFails(rt: Runtime, cfg: BindCheckerConfig, ann: TypeExpr, arg: Value, t: Table)
  {
    var o := Verdict(rt, cfg, ann, arg, t).0;
    o.Fail? && o.failure.IsValidationError()
  }

  /** Missing rollback makes no difference as long as no failing member changes the
      bindings. */
  lemma {:induction false} RollbackIrrelevantWhenFailuresLeaveNoTrace(rt: Runtime, cfg: BindCheckerConfig, members: seq<TypeExpr>, arg: Value, t: Table)
    requires forall j :: 0 <= j < |members| && Verdict(rt, cfg, members[j], arg, t).0.Fail? ==>
      Verdict(rt, cfg, members[j], arg, t).1 == t
    ensures VerdictUnion(rt, cfg, members, arg, t) == UnionWithRollback(rt, cfg, members, arg, t)
  {
    if members != [] {
      var (o, t1) := Verdict(rt, cfg, members[0], arg, t);
      if o.Fail? && o.failure.IsValidationError() {
        assert t1 == t;
        var tail := members[1..];
        assert forall j :: 0 <= j < |tail| ==> tail[j] == members[j + 1];
        RollbackIrrelevantWhenFailuresLeaveNoTrace(rt, cfg, tail, arg, t);
        assert VerdictUnion(rt, cfg, members, arg, t) == VerdictUnion(rt, cfg, tail, arg, t);
        assert UnionWithRollback(rt, cfg, members, arg, t) == UnionWithRollback(rt, cfg, tail, arg, t);
      }
    }
  }

  /** Union members without type parameters: the union behaves exactly as with rollback. */
  lemma RollbackIrrelevantWithoutTypeVars(rt: Runtime, cfg: BindCheckerConfig, members: seq<TypeExpr>, arg: Value, t: Table)
    requires AllClosed(members)
    ensures VerdictUnion(rt, cfg, members, arg, t) == UnionWithRollback(rt, cfg, members, arg, t)
  {
    forall j | 0 <= j < |members|
      ensures Verdict(rt, cfg, members[j], arg, t).1 == t
    {
      assert Closed(members[j]);
    }
    RollbackIrrelevantWhenFailuresLeaveNoTrace(rt, cfg, members, arg, t);
  }

  /** A two-position annotation on a pair checks the first position, then the second
      against the bindings the first left. */
  lemma PairVerdict(rt: Runtime, cfg: BindCheckerConfig, a: TypeExpr, b: TypeExpr, x: Value, y: Value, t: Table)
    ensures Verdict(rt, cfg, SeqAnn([a, b]), TupleV([x, y]), t) ==
      var (o, t1) := Verdict(rt, cfg, a, x, t);
      if o.Fail? then (o, t1) else Verdict(rt, cfg, b, y, t1)
  {
    assert Items(TupleV([x, y])) == Some([x, y]);
    assert Verdict(rt, cfg, SeqAnn([a, b]), TupleV([x, y]), t) == VerdictSeq(rt, cfg, SeqAnn([a, b]), TupleV([x, y]), t);
    assert VerdictSeq(rt, cfg, SeqAnn([a, b]), TupleV([x, y]), t) == VerdictZip(rt, cfg, [a, b], [x, y], t);
    PairZip(rt, cfg, a, b, x, y, t);
  }

  lemma PairZip(rt: Runtime, cfg: BindCheckerConfig, a: TypeExpr, b: TypeExpr, x: Value, y: Value, t: Table)
    ensures VerdictZip(rt, cfg, [a, b], [x, y], t) ==
      var (o, t1) := Verdict(rt, cfg, a, x, t);
      if o.Fail? then (o, t1) else Verdict(rt, cfg, b, y, t1)
  {
    var (o, t1) := Verdict(rt, cfg, a, x, t);
    assert [a, b][1..] == [b] && [x, y][1..] == [y];
    if o.Pass? {
      var r := Verdict(rt, cfg, b, y, t1);
      assert [b][1..] == [] && [y][1..] == [];
      assert VerdictZip(rt, cfg, [b], [y], t1) == r;
    }
  }

  /** Binding an unbound parameter commits the argument's class and records it. */
  lemma BindUnbound(rt: Runtime, cfg: BindCheckerConfig, tv: TypeVar, arg: Value)
    requires tv.constraints == []
    ensures Verdict(rt, cfg, TypeVarAnn(tv), arg, map[tv := Unbound]) ==
      (Pass, map[tv := BindingState(Some(TypeOf(arg)), [arg])])
  {
    assert Unbound.instances + [arg] == [arg];
    assert map[tv := Unbound][tv := BindingState(Some(TypeOf(arg)), [arg])] ==
      map[tv := BindingState(Some(TypeOf(arg)), [arg])];
  }

  /** A union whose first member fails with a ValidationError continues with the rest: as
      written from the bindings that member left, with rollback from the original ones. */
  lemma UnionSkipsQuietFailure(rt: Runtime, cfg: BindCheckerConfig, m: TypeExpr, rest: seq<TypeExpr>, arg: Value, t: Table)
    requires QuietlyFails(rt, cfg, m, arg, t)
    ensures VerdictUnion(rt, cfg, [m] + rest, arg, t) ==
      VerdictUnion(rt, cfg, rest, arg, Verdict(rt, cfg, m, arg, t).1)
    ensures UnionWithRollback(rt, cfg, [m] + rest, arg, t) == UnionWithRollback(rt, cfg, rest, arg, t)
  {
    assert ([m] + rest)[0] == m && ([m] + rest)[1..] == rest;
  }

  /** A `dict[a, b]` annotation on a one-entry dict `{x: y}` checks the key against `a`,
      then the value against `b` on the bindings the key left. */
  lemma DictEntryVerdict(rt: Runtime, cfg: BindCheckerConfig, a: TypeExpr, b: TypeExpr, x: Value, y: Value, t: Table)
    ensures Verdict(rt, cfg, AliasAnn(Dict, [a, b]), DictV([(x, y)]), t) ==
      var (o, t1) := Verdict(rt, cfg, a, x, t);
      if o.Fail? then (o, t1) else Verdict(rt, cfg, b, y, t1)
  {
    assert Verdict(rt, cfg, AliasAnn(Dict, [a, b]), DictV([(x, y)]), t) ==
      VerdictAlias(rt, cfg, AliasAnn(Dict, [a, b]), DictV([(x, y)]), t);
    assert IsSubclass(rt, Dict, Dict);
    assert VerdictAlias(rt, cfg, AliasAnn(Dict, [a, b]), DictV([(x, y)]), t) ==
      VerdictItems(rt, cfg, [a, b], [(x, y)], t);
    EntryItems(rt, cfg, a, b, x, y, t);
  }

  /** The key/value loop over one entry. */
  lemma EntryItems(rt: Runtime, cfg: BindCheckerConfig, a: TypeExpr, b: TypeExpr, x: Value, y: Value, t: Table)
    ensures VerdictItems(rt, cfg, [a, b], [(x, y)], t) ==
      var (o, t1) := Verdict(rt, cfg, a, x, t);
      if o.Fail? then (o, t1) else Verdict(rt, cfg, b, y, t1)
  {
    var (o, t1) := Verdict(rt, cfg, a, x, t);
    if o.Pass? {
      var (o2, t2) := Verdict(rt, cfg, b, y, t1);
      assert [(x, y)][1..] == [];
      assert VerdictItems(rt, cfg, [a, b], [], t2) == (Pass, t2);
    }
  }

  /** The missing rollback changes verdicts. With `T` unbound, the union
      `dict[T, c] | dict[c, T]` rejects `{x: y}` where `x` is a `c` and `y` is neither a `c`
      nor of `x`'s class (`{1: 2.0}` with `c = int`): the first member binds `T` to
      `type(x)` before failing on `y`, and that leftover binding makes the second member
      fail too. */
  lemma UnionKeepsFailedMemberBindings(rt: Runtime, cfg: BindCheckerConfig, T: TypeVar, c: Class, x: Value, y: Value)
    requires T.constraints == [] && IsInstance(rt, x, c) && !IsInstance(rt, y, c) && TypeOf(x) != TypeOf(y)
    ensures
      var members := [AliasAnn(Dict, [TypeVarAnn(T), ClassAnn(c)]), AliasAnn(Dict, [ClassAnn(c), TypeVarAnn(T)])];
      Verdict(rt, cfg, UnionAnn(members), DictV([(x, y)]), map[T := Unbound]) ==
        (Fail(ValidationError), map[T := BindingState(Some(TypeOf(x)), [x])])
  {
    var first := AliasAnn(Dict, [TypeVarAnn(T), ClassAnn(c)]);
    var second := AliasAnn(Dict, [ClassAnn(c), TypeVarAnn(T)]);
    var t := map[T := Unbound];
    var bound := map[T := BindingState(Some(TypeOf(x)), [x])];
    var arg := DictV([(x, y)]);
    assert Verdict(rt, cfg, UnionAnn([first, second]), arg, t) == VerdictUnion(rt, cfg, [first, second], arg, t);
    FirstMemberBindsThenFails(rt, cfg, T, c, x, y);
    UnionSkipsQuietFailure(rt, cfg, first, [second], arg, t);
    assert [first] + [second] == [first, second];
    SecondMemberSeesLeftoverBinding(rt, cfg, T, c, x, y);
    UnionSkipsQuietFailure(rt, cfg, second, [], arg, bound);
    assert [second] + [] == [second];
  }

  /** `dict[T, c]` on `{x: y}` binds `T` to `type(x)`, then fails on `y` with InvalidType. */
  lemma FirstMemberBindsThenFails(rt: Runtime, cfg: BindCheckerConfig, T: TypeVar, c: Class, x: Value, y: Value)
    requires T.constraints == [] && !IsInstance(rt, y, c)
    ensures Verdict(rt, cfg, AliasAnn(Dict, [TypeVarAnn(T), ClassAnn(c)]), DictV([(x, y)]), map[T := Unbound]) ==
      (Fail(InvalidType), map[T := BindingState(Some(TypeOf(x)), [x])])
  {
    BindUnbound(rt, cfg, T, x);
    DictEntryVerdict(rt, cfg, TypeVarAnn(T), ClassAnn(c), x, y, map[T := Unbound]);
    ClassLeaves(rt, cfg, c, y, map[T := BindingState(Some(TypeOf(x)), [x])]);
  }

  /** `dict[c, T]` on `{x: y}` with `T` already bound to `type(x)` fails with BindingError
      on `y`, leaving the bindings as they were. */
  lemma SecondMemberSeesLeftoverBinding(rt: Runtime, cfg: BindCheckerConfig, T: TypeVar, c: Class, x: Value, y: Value)
    requires T.constraints == [] && IsInstance(rt, x, c) && TypeOf(x) != TypeOf(y)
    ensures var bound := map[T := BindingState(Some(TypeOf(x)), [x])];
      Verdict(rt, cfg, AliasAnn(Dict, [ClassAnn(c), TypeVarAnn(T)]), DictV([(x, y)]), bound) == (Fail(BindingError), bound)
  {
    var bound := map[T := BindingState(Some(TypeOf(x)), [x])];
    ClassLeaves(rt, cfg, c, x, bound);
    TypeVarBranch(rt, cfg, T, y, bound);
    DictEntryVerdict(rt, cfg, ClassAnn(c), TypeVarAnn(T), x, y, bound);
  }

  /** With rollback the same union accepts `{x: y}` through its second member, which binds
      `T` to `type(y)`. */
  lemma UnionWithRollbackAcceptsExample(rt: Runtime, cfg: BindCheckerConfig, T: TypeVar, c: Class, x: Value, y: Value)
    requires T.constraints == [] && IsInstance(rt, x, c) && !IsInstance(rt, y, c) && TypeOf(x) != TypeOf(y)
    ensures
      var members := [AliasAnn(Dict, [TypeVarAnn(T), ClassAnn(c)]), AliasAnn(Dict, [ClassAnn(c), TypeVarAnn(T)])];
      UnionWithRollback(rt, cfg, members, DictV([(x, y)]), map[T := Unbound]) ==
        (Pass, map[T := BindingState(Some(TypeOf(y)), [y])])
  {
    var first := AliasAnn(Dict, [TypeVarAnn(T), ClassAnn(c)]);
    var second := AliasAnn(Dict, [ClassAnn(c), TypeVarAnn(T)]);
    var t := map[T := Unbound];
    var arg := DictV([(x, y)]);
    FirstMemberBindsThenFails(rt, cfg, T, c, x, y);
    UnionSkipsQuietFailure(rt, cfg, first, [second], arg, t);
    assert [first] + [second] == [first, second];
    BindUnbound(rt, cfg, T, y);
    ClassLeaves(rt, cfg, c, x, t);
    DictEntryVerdict(rt, cfg, ClassAnn(c), TypeVarAnn(T), x, y, t);
  }

  /** The concrete instance: `{1: 2.0}` against `dict[T, int] | dict[int, T]`. */
  lemma UnionRollbackExample(rt: Runtime, cfg: BindCheckerConfig)
    ensures
      var T := TypeVar(0, []);
      var members := [AliasAnn(Dict, [TypeVarAnn(T), ClassAnn(Int)]), AliasAnn(Dict, [ClassAnn(Int), TypeVarAnn(T)])];
      Verdict(rt, cfg, UnionAnn(members), DictV([(IntV(1), FloatV(2.0))]), map[T := Unbound]).0 == Fail(ValidationError) &&
      UnionWithRollback(rt, cfg, members, DictV([(IntV(1), FloatV(2.0))]), map[T := Unbound]).0 == Pass
  {
    UnionKeepsFailedMemberBindings(rt, cfg, TypeVar(0, []), Int, IntV(1), FloatV(2.0));
    UnionWithRollbackAcceptsExample(rt, cfg, TypeVar(0, []), Int, IntV(1), FloatV(2.0));
  }

  /** The TypedDict branch rejects a non-dict with ValidationError and checks only the keys
      the argument has: an empty dict passes every TypedDict, and a key that is not a
      declared field raises KeyError. */
  lemma TypedDictKeys(rt: Runtime, cfg: BindCheckerConfig, fields: seq<Field>, k: Value, v: Value, arg: Value, t: Table)
    ensures !arg.DictV? ==> Verdict(rt, cfg, TypedDictAnn(fields), arg, t) == (Fail(ValidationError), t)
    ensures Verdict(rt, cfg, TypedDictAnn(fields), DictV([]), t) == (Pass, t)
    ensures (forall j :: 0 <= j < |fields| ==> k != StrV(fields[j].name)) ==>
      Verdict(rt, cfg, TypedDictAnn(fields), DictV([(k, v)]), t) == (Fail(Raised(KeyError)), t)
  {
    TypedDictShape(rt, cfg, fields, arg, t);
    TypedDictShape(rt, cfg, fields, DictV([]), t);
    TypedDictShape(rt, cfg, fields, DictV([(k, v)]), t);
    assert VerdictFields(rt, cfg, fields, [], t) == (Pass, t);
    if forall j :: 0 <= j < |fields| ==> k != StrV(fields[j].name) {
      assert FieldIndex(fields, k).None?;
    }
  }

  /** The TypedDict branch on a dict checks its entries; on anything else it fails. */
  lemma TypedDictShape(rt: Runtime, cfg: BindCheckerConfig, fields: seq<Field>, arg: Value, t: Table)
    ensures Verdict(rt, cfg, TypedDictAnn(fields), arg, t) ==
      if arg.DictV? then VerdictFields(rt, cfg, fields, arg.entries, t) else (Fail(ValidationError), t)
  {
    assert Verdict(rt, cfg, TypedDictAnn(fields), arg, t) == VerdictTypedDict(rt, cfg, TypedDictAnn(fields), arg, t);
  }

  /** A TypedDict whose declared fields are binding-free and whose argument uses only
      declared keys: the argument passes exactly when every value passes its key's field. */
  lemma {:induction false} FieldsChecked(rt: Runtime, cfg: BindCheckerConfig, fields: seq<Field>, entries: seq<(Value, Value)>, t: Table)
    requires forall j :: 0 <= j < |fields| ==> Closed(fields[j].ann)
    requires forall i :: 0 <= i < |entries| ==> FieldIndex(fields, entries[i].0).Some?
    ensures VerdictFields(rt, cfg, fields, entries, t).0.Pass? <==>
      forall i :: 0 <= i < |entries| ==>
        Accepts(rt, cfg, fields[FieldIndex(fields, entries[i].0).value].ann, entries[i].1, t)
  {
    if entries != [] {
      var j := FieldIndex(fields, entries[0].0).value;
      var r1 := Verdict(rt, cfg, fields[j].ann, entries[0].1, t);
      assert r1.1 == t;
      if r1.0.Pass? {
        assert forall i :: 1 <= i < |entries| ==> entries[1..][i - 1] == entries[i];
        FieldsChecked(rt, cfg, fields, entries[1..], t);
      }
    }
  }

  /** A Literal accepts exactly the values equal, by Python's `==`, to an allowed one:
      `Literal[1]` accepts `True`, while `Literal[Color.RED]` rejects another object of the
      same class, such as `Color.BLUE`, and `Literal[f]` rejects a different function `g`,
      since both compare by identity. */
  lemma LiteralMembership(rt: Runtime, cfg: BindCheckerConfig, allowed: seq<Value>, arg: Value, c: nat, o1: nat, o2: nat, t: Table)
    ensures Verdict(rt, cfg, LiteralAnn(allowed), arg, t).0.Pass? <==>
      exists i :: 0 <= i < |allowed| && PyEq(arg, allowed[i])
    ensures Verdict(rt, cfg, LiteralAnn([IntV(1)]), BoolV(true), t).0.Pass?
    ensures o1 != o2 ==>
      Verdict(rt, cfg, LiteralAnn([Instance(c, o1)]), Instance(c, o2), t) == (Fail(ValidationError), t)
    ensures o1 != o2 ==>
      Verdict(rt, cfg, LiteralAnn([FuncV(false, o1)]), FuncV(false, o2), t) == (Fail(ValidationError), t)
  {
    assert PyEq(BoolV(true), [IntV(1)][0]);
  }

  /** A Callable annotation rejects a non-callable, and rejects a lambda unless implied
      lambdas are enabled. */
  lemma CallableGates(rt: Runtime, cfg: BindCheckerConfig, args: seq<TypeExpr>, arg: Value, t: Table)
    ensures Verdict(rt, cfg, CallableAnn(args), arg, t).0.Pass? <==>
      IsCallable(arg) && (|args| == 0 || !arg.isLambda || cfg.impliedLambdas)
    ensures !Verdict(rt, cfg, CallableAnn(args), arg, t).0.Pass? ==>
      Verdict(rt, cfg, CallableAnn(args), arg, t).0 == Fail(ValidationError)
  {
  }

  /** A list against the one-position annotation `[T]`, with `T` unconstrained and already bound to class `c`,
      passes exactly when every item is exactly a `c`. */
  lemma {:induction false} ListSharesBinding(rt: Runtime, cfg: BindCheckerConfig, T: TypeVar, c: Class, xs: seq<Value>, t: Table)
    requires T.constraints == [] && T in t && t[T].ty == Some(c)
    ensures VerdictEach(rt, cfg, TypeVarAnn(T), xs, t).0.Pass? <==> forall i :: 0 <= i < |xs| ==> TypeOf(xs[i]) == c
  {
    if xs != [] {
      var (o, t1) := Verdict(rt, cfg, TypeVarAnn(T), xs[0], t);
      BoundTypeVarVerdict(rt, cfg, T, c, xs[0], t);
      var rest := VerdictEach(rt, cfg, TypeVarAnn(T), xs[1..], t1);
      assert VerdictEach(rt, cfg, TypeVarAnn(T), xs, t) == if o.Fail? then (o, t1) else rest;
      if o.Pass? {
        ListSharesBinding(rt, cfg, T, c, xs[1..], t1);
        assert (forall i :: 0 <= i < |xs| ==> TypeOf(xs[i]) == c) <==>
          (forall i :: 0 <= i < |xs[1..]| ==> TypeOf(xs[1..][i]) == c) by {
          assert forall i :: 1 <= i < |xs| ==> xs[1..][i - 1] == xs[i];
        }
      } else {
        assert TypeOf(xs[0]) != c;
      }
    }
  }

  /** An unconstrained parameter bound to `c` accepts exactly the exact instances of `c`,
      and stays bound to `c` either way. */
  lemma BoundTypeVarVerdict(rt: Runtime, cfg: BindCheckerConfig, T: TypeVar, c: Class, x: Value, t: Table)
    requires T.constraints == [] && T in t && t[T].ty == Some(c)
    ensures var r := Verdict(rt, cfg, TypeVarAnn(T), x, t);
      (r.0.Pass? <==> TypeOf(x) == c) && T in r.1 && r.1[T].ty == Some(c)
  {
    assert Verdict(rt, cfg, TypeVarAnn(T), x, t) == VerdictTypeVar(T, x, t);
  }

  /** `c | T` with `T` constrained and still unbound accepts exactly the instances of `c`
      and the values whose exact class is a constraint (`int | T` with `T` constrained to
      `(str, bool)` accepts the ints, the bools and the strings). */
  lemma ConstrainedGenericUnion(rt: Runtime, cfg: BindCheckerConfig, c: Class, T: TypeVar, arg: Value, t: Table)
    requires |T.constraints| > 0 && T in t && t[T] == Unbound
    ensures Verdict(rt, cfg, UnionAnn([ClassAnn(c), TypeVarAnn(T)]), arg, t).0.Pass? <==>
      IsInstance(rt, arg, c) || TypeOf(arg) in T.constraints
  {
    var members := [ClassAnn(c), TypeVarAnn(T)];
    assert Verdict(rt, cfg, UnionAnn(members), arg, t) == VerdictUnion(rt, cfg, members, arg, t);
    ClassLeaves(rt, cfg, c, arg, t);
    if !IsInstance(rt, arg, c) {
      UnionFallsBackToConstraints(rt, cfg, c, T, arg, t);
    }
  }

  lemma UnionFallsBackToConstraints(rt: Runtime, cfg: BindCheckerConfig, c: Class, T: TypeVar, arg: Value, t: Table)
    requires |T.constraints| > 0 && T in t && t[T] == Unbound
    requires !IsInstance(rt, arg, c)
    ensures VerdictUnion(rt, cfg, [ClassAnn(c), TypeVarAnn(T)], arg, t).0.Pass? <==> TypeOf(arg) in T.constraints
  {
    ClassLeaves(rt, cfg, c, arg, t);
    assert QuietlyFails(rt, cfg, ClassAnn(c), arg, t);
    UnionSkipsQuietFailure(rt, cfg, ClassAnn(c), [TypeVarAnn(T)], arg, t);
    assert [ClassAnn(c)] + [TypeVarAnn(T)] == [ClassAnn(c), TypeVarAnn(T)];
    UnboundTypeVarVerdict(rt, cfg, T, arg, t);
    SingleMemberUnion(rt, cfg, TypeVarAnn(T), arg, t);
  }

  /** An unbound parameter accepts exactly its constraints, failing quietly otherwise. */
  lemma UnboundTypeVarVerdict(rt: Runtime, cfg: BindCheckerConfig, T: TypeVar, arg: Value, t: Table)
    requires |T.constraints| > 0 && T in t && t[T] == Unbound
    ensures Verdict(rt, cfg, TypeVarAnn(T), arg, t).0.Pass? <==> TypeOf(arg) in T.constraints
    ensures Verdict(rt, cfg, TypeVarAnn(T), arg, t).0.Fail? ==> QuietlyFails(rt, cfg, TypeVarAnn(T), arg, t)
  {
    assert Verdict(rt, cfg, TypeVarAnn(T), arg, t) == VerdictTypeVar(T, arg, t);
  }

  /** A one-member union passes exactly when its member does, if the member fails quietly. */
  lemma SingleMemberUnion(rt: Runtime, cfg: BindCheckerConfig, m: TypeExpr, arg: Value, t: Table)
    requires Verdict(rt, cfg, m, arg, t).0.Fail? ==> QuietlyFails(rt, cfg, m, arg, t)
    ensures VerdictUnion(rt, cfg, [m], arg, t).0.Pass? <==> Verdict(rt, cfg, m, arg, t).0.Pass?
  {
    assert [m][1..] == [];
  }
}
