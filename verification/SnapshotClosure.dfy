/** A compiled snapshot is a closed graph: whatever a Form, a Binding or a pin
    names by exact identity is in the snapshot, and nothing else makes the
    compiler refuse. */
module SnapshotClosure {
  import opened Wrappers
  import opened Digests
  import opened JsonModel
  import opened Ordering
  import opened Identities
  import opened ContractAnnotations
  import opened AnnotationReach
  import opened AnnotationRules
  import opened TargetReferences
  import opened SnapshotGraph
  import opened ArtifactRules

  // ---------- what closed means ----------

  /** The one position at which an accepted Binding has the name. */
  ghost predicate OnlyNamed(accepted: seq<ContractRef>, name: string, i: int)
  {
    && 0 <= i < |accepted| && accepted[i].name == name
    && forall j | 0 <= j < |accepted| && accepted[j].name == name :: j == i
  }

  /** Exactly one accepted Binding has the name, and it is in the snapshot with
      this target. */
  ghost predicate BoundTo(accepted: seq<ContractRef>, bindings: Bindings, name: string, target: ContractRef)
  {
    exists i :: OnlyNamed(accepted, name, i) && accepted[i] in bindings && bindings[accepted[i]].document.target == target
  }

  /** The desired schema names this exact Form, somewhere. */
  ghost predicate Mentions(decode: FormReader, desired: Json, ref: FormRef)
  {
    exists tokens :: TargetAt(decode, desired, tokens, ref)
  }

  ghost predicate FormClosed(lib: Library, definition: FormDefinition, forms: Forms, interfaces: Interfaces, bindings: Bindings)
  {
    var annotations := CollectAll(DesiredDocument(lib, definition));
    && (forall r | r in definition.provided :: r in interfaces)
    && (forall r | r in definition.accepted :: r in bindings && bindings[r].document.sourceRole == definition.role)
    && (forall a | a in annotations.interfaces :: a.ref in interfaces
          && (a.bindingName != "" ==> BoundTo(definition.accepted, bindings, a.bindingName, a.ref)))
    && (forall a | a in annotations.bindings :: exists i :: OnlyNamed(definition.accepted, a.name, i))
    && (forall ref | Mentions(lib.decodeForm, definition.desired, ref) :: ref in forms)
  }

  ghost predicate BindingClosed(document: BindingDefinition, interfaces: Interfaces)
  {
    && document.target in interfaces
    && (forall o | o in document.operations :: o in interfaces[document.target].operations)
    && (forall mode, o | mode in document.accessModes && o in mode :: o in interfaces[document.target].operations)
  }

  /** The one position at which the group and kind are pinned. */
  ghost predicate OnlyPin(pins: seq<DefaultPin>, group: string, kind: string, i: int)
  {
    && 0 <= i < |pins| && pins[i].group == group && pins[i].kind == kind
    && forall j | 0 <= j < |pins| && pins[j].group == group && pins[j].kind == kind :: j == i
  }

  /** The one pin of the line is this Form. */
  ghost predicate PinnedTo(pins: seq<DefaultPin>, g: GroupKind, ref: FormRef)
  {
    exists i :: OnlyPin(pins, g.group, g.kind, i) && pins[i].ref == ref
  }

  /** The only pin of the group and kind names one of its own Forms. */
  ghost predicate LineClosed(forms: Forms, pins: seq<DefaultPin>, group: string, kind: string)
  {
    exists i :: OnlyPin(pins, group, kind, i) && pins[i].ref.group == group && pins[i].ref.kind == kind && pins[i].ref in forms
  }

  /** The Host API lanes that a Form may require of this library. */
  predicate Requirable(required: string)
  {
    required in ["", "forms.takoform.com/v1beta1", "forms.takoform.com/v1beta4", "forms.takoform.com/v1"]
  }

  ghost predicate Closed(lib: Library, pins: seq<DefaultPin>, forms: Forms, interfaces: Interfaces, bindings: Bindings)
  {
    && (forall key | key in forms :: FormClosed(lib, forms[key].definition, forms, interfaces, bindings))
    && (forall key | key in forms :: Requirable(forms[key].definition.requiresHostApi))
    && (forall key | key in bindings :: BindingClosed(bindings[key].document, interfaces))
    && (forall key | key in forms :: LineClosed(forms, pins, key.group, key.kind))
    && (forall pin | pin in pins :: LineClosed(forms, pins, pin.group, pin.kind))
  }

  ghost predicate Distinct<K(!new), C>(keyOf: C -> K, compiled: seq<C>)
  {
    forall i, j | 0 <= i < j < |compiled| :: keyOf(compiled[i]) != keyOf(compiled[j])
  }

  /** Every artifact stands on its own, and no identity is supplied twice. */
  ghost predicate WellSupplied(lib: Library, input: Input)
  {
    && (forall a | a in input.packages :: PackageStands(lib, a))
    && (forall a | a in input.interfaces :: InterfaceStands(lib, a))
    && (forall a | a in input.bindings :: BindingStands(lib, a))
    && (forall i, j | 0 <= i < j < |input.packages| :: input.packages[i].package.ref != input.packages[j].package.ref)
    && (forall i, j, ref | 0 <= i < j < |input.interfaces| && IsInterfaceRef(lib, input.interfaces[i], ref) ::
          !IsInterfaceRef(lib, input.interfaces[j], ref))
    && (forall i, j, ref | 0 <= i < j < |input.bindings| && IsBindingRef(lib, input.bindings[i], ref) ::
          !IsBindingRef(lib, input.bindings[j], ref))
  }

  /** The same as the compiler sees it: everything compiles, under distinct keys. */
  ghost predicate AllCompile(lib: Library, input: Input)
  {
    && (forall a | a in input.packages :: CompileArtifact(lib, a).Ok?)
    && (forall a | a in input.interfaces :: CompileInterface(lib, a).Ok?)
    && (forall a | a in input.bindings :: CompileBinding(lib, a).Ok?)
    && Distinct(FormKey, CompiledForms(lib, input.packages))
    && Distinct(InterfaceKey, CompiledInterfaces(lib, input.interfaces))
    && Distinct(BindingKey, CompiledBindings(lib, input.bindings))
  }

  ghost predicate Compilable(lib: Library, input: Input)
  {
    && lib.isLane(input.hostApi) && input.hostApi == "forms.takoform.com/v1"
    && WellSupplied(lib, input)
    && Closed(lib, input.pins, SelectedForms(lib, input), SelectedInterfaces(lib, input), SelectedBindings(lib, input))
  }

  // ---------- empty stages ----------

  lemma {:induction false} FlatMapEmpty<A, B>(f: A -> seq<B>, xs: seq<A>)
    ensures FlatMap(f, xs) == [] <==> forall x | x in xs :: f(x) == []
  {
    if xs != [] {
      FlatMapEmpty(f, xs[1..]);
      assert xs == [xs[0]] + xs[1..];
    }
  }

  ghost predicate OnlyPicked<T>(pick: T -> seq<T>, xs: seq<T>, i: int)
  {
    && 0 <= i < |xs| && pick(xs[i]) != []
    && forall j | 0 <= j < |xs| && pick(xs[j]) != [] :: j == i
  }

  /** A selection of one comes from the one position that is selected. */
  lemma {:induction false} OneIsOnly<T>(pick: T -> seq<T>, xs: seq<T>)
    requires forall x | x in xs :: pick(x) == [x] || pick(x) == []
    ensures |FlatMap(pick, xs)| == 1 <==> exists i :: OnlyPicked(pick, xs, i)
    ensures forall i | OnlyPicked(pick, xs, i) :: FlatMap(pick, xs) == [xs[i]]
  {
    forall i | OnlyPicked(pick, xs, i) ensures FlatMap(pick, xs) == [xs[i]] {
      OnlyIsOne(pick, xs, i);
    }
    if |FlatMap(pick, xs)| == 1 {
      var rest := xs[1..];
      FlatMapEmpty(pick, rest);
      if pick(xs[0]) != [] {
        assert forall j | 0 < j < |xs| :: xs[j] == rest[j - 1] && rest[j - 1] in rest;
        assert OnlyPicked(pick, xs, 0);
      } else {
        OneIsOnly(pick, rest);
        var i :| OnlyPicked(pick, rest, i);
        assert forall j | 0 < j < |xs| :: xs[j] == rest[j - 1];
        assert OnlyPicked(pick, xs, i + 1);
      }
    }
  }

  lemma OnlyIsOne<T>(pick: T -> seq<T>, xs: seq<T>, i: int)
    requires forall x | x in xs :: pick(x) == [x] || pick(x) == []
    requires OnlyPicked(pick, xs, i)
    ensures FlatMap(pick, xs) == [xs[i]]
  {
    var before, after := xs[..i], xs[i + 1..];
    assert xs == before + xs[i..] && xs[i..] == [xs[i]] + after;
    FlatMapConcat(pick, before, xs[i..]);
    FlatMapEmpty(pick, before);
    FlatMapEmpty(pick, after);
  }

  lemma NoFailures<A, C>(compile: A -> Result<C, Diagnostic>, xs: seq<A>)
    ensures FlatMap(Failures(compile), xs) == [] <==> forall a | a in xs :: compile(a).Ok?
  {
    FlatMapEmpty(Failures(compile), xs);
    assert forall a :: Failures(compile)(a) == [] <==> compile(a).Ok?;
  }

  lemma {:induction false} CandidatesFound<K, C>(keyOf: C -> K, xs: seq<C>, key: K)
    ensures Candidates(keyOf, xs, key) != [] <==> key in KeysOf(keyOf, xs)
    ensures forall c | c in Candidates(keyOf, xs, key) :: c in xs && keyOf(c) == key
    ensures forall c | c in xs && keyOf(c) == key :: c in Candidates(keyOf, xs, key)
  {
    if xs != [] {
      CandidatesFound(keyOf, xs[1..], key);
      KeysOfSplit(keyOf, xs);
      assert xs == [xs[0]] + xs[1..];
    }
  }

  lemma KeysOfSplit<K, C>(keyOf: C -> K, xs: seq<C>)
    requires xs != []
    ensures KeysOf(keyOf, xs) == {keyOf(xs[0])} + KeysOf(keyOf, xs[1..])
  {
    forall i | 0 <= i < |xs| ensures keyOf(xs[i]) in {keyOf(xs[0])} + KeysOf(keyOf, xs[1..]) {
      if i > 0 {
        assert xs[i] == xs[1..][i - 1];
      }
    }
  }

  /** One candidate for every identity is what having no duplicates means. */
  lemma {:induction false} DistinctIffOneEach<K(!new), C>(keyOf: C -> K, xs: seq<C>)
    ensures Distinct(keyOf, xs) <==> forall key | key in KeysOf(keyOf, xs) :: |Candidates(keyOf, xs, key)| == 1
  {
    if xs != [] {
      var first, rest := keyOf(xs[0]), xs[1..];
      DistinctIffOneEach(keyOf, rest);
      KeysOfSplit(keyOf, xs);
      CandidatesFound(keyOf, rest, first);
      assert Distinct(keyOf, xs) <==> Distinct(keyOf, rest) && first !in KeysOf(keyOf, rest) by {
        DistinctSplit(keyOf, xs);
      }
      forall key | key in KeysOf(keyOf, xs)
        ensures |Candidates(keyOf, xs, key)| == (if key == first then 1 else 0) + |Candidates(keyOf, rest, key)|
      {
      }
      if key :| key in KeysOf(keyOf, rest) && |Candidates(keyOf, rest, key)| != 1 {
        CandidatesFound(keyOf, rest, key);
        assert |Candidates(keyOf, xs, key)| > 1;
      }
    }
  }

  lemma DistinctSplit<K(!new), C>(keyOf: C -> K, xs: seq<C>)
    requires xs != []
    ensures Distinct(keyOf, xs) <==> Distinct(keyOf, xs[1..]) && keyOf(xs[0]) !in KeysOf(keyOf, xs[1..])
  {
    if Distinct(keyOf, xs[1..]) && keyOf(xs[0]) !in KeysOf(keyOf, xs[1..]) {
      forall i, j | 0 <= i < j < |xs| ensures keyOf(xs[i]) != keyOf(xs[j]) {
        assert xs[j] == xs[1..][j - 1];
        if i > 0 {
          assert xs[i] == xs[1..][i - 1];
        }
      }
    }
    if Distinct(keyOf, xs) {
      forall i, j | 0 <= i < j < |xs[1..]| ensures keyOf(xs[1..][i]) != keyOf(xs[1..][j]) {
        assert xs[1..][i] == xs[i + 1] && xs[1..][j] == xs[j + 1];
      }
    }
  }

  lemma NoDuplicates<K(!new), C>(lib: Library, n: Naming<K, C>, compiled: seq<C>, keys: seq<K>)
    requires Lists(keys, KeysOf(n.keyOf, compiled))
    ensures FlatMap(Duplicate(lib, n, compiled), keys) == [] <==> Distinct(n.keyOf, compiled)
  {
    hide Candidates;
    ListsMeaning(keys, KeysOf(n.keyOf, compiled));
    FlatMapEmpty(Duplicate(lib, n, compiled), keys);
    DistinctIffOneEach(n.keyOf, compiled);
    assert forall key :: Duplicate(lib, n, compiled)(key) == [] <==> |Candidates(n.keyOf, compiled, key)| == 1;
  }

  /** When there are no duplicates, every identity is selected, under itself. */
  lemma SelectedIsTotal<K(!new), C>(keyOf: C -> K, compiled: seq<C>)
    requires Distinct(keyOf, compiled)
    ensures Selected(keyOf, compiled).Keys == KeysOf(keyOf, compiled)
    ensures forall key | key in Selected(keyOf, compiled) ::
              Selected(keyOf, compiled)[key] in compiled && keyOf(Selected(keyOf, compiled)[key]) == key
  {
    DistinctIffOneEach(keyOf, compiled);
    forall key | key in Selected(keyOf, compiled)
      ensures Selected(keyOf, compiled)[key] in compiled && keyOf(Selected(keyOf, compiled)[key]) == key
    {
      CandidatesFound(keyOf, compiled, key);
    }
  }

  // ---------- one Form ----------

  /** A required Interface stands under no binding or under one that is itself
      collected. */
  ghost predicate Owned(output: Annotations, binding: string)
  {
    forall a | a in output.interfaces ::
      a.bindingName == binding || exists b :: b in output.bindings && b.name == a.bindingName
  }

  lemma OwnedPlus(a: Annotations, b: Annotations, binding: string)
    requires Owned(a, binding) && Owned(b, binding)
    ensures Owned(Plus(a, b), binding)
  {
  }

  lemma OwnedUnderOwn(v: Json, pointer: string, binding: string, inner: Annotations)
    requires Owned(inner, Effective(v, binding))
    ensures Owned(Plus(Annotations([], OwnBinding(v, pointer)), inner), binding)
  {
    var own := OwnBinding(v, pointer);
    if Effective(v, binding) != binding {
      assert own[0].name == Effective(v, binding);
      assert own[0] in own + inner.bindings;
    }
  }

  lemma {:induction false} CollectOwned(d: Document, v: Json, pointer: string, binding: string, stack: set<string>)
    requires Inside(d, v, binding)
    ensures Owned(Collect(d, v, pointer, binding, stack), binding)
    decreases Unused(d, stack), v, 2, 0
  {
    hide Collect, CollectMembers, CollectItems, Inside, Owned, Unused, Effective, BytesLess, Ordered, Plus, OwnBinding;
    match v
    case Obj(members) =>
      CollectObject(d, v, pointer, binding, stack);
      MembersOwned(d, v, Ordered(BytesLess, members.Keys), pointer, Effective(v, binding), stack);
      OwnedUnderOwn(v, pointer, binding,
                    CollectMembers(d, v, Ordered(BytesLess, members.Keys), pointer, Effective(v, binding), stack));
    case Arr(items) =>
      CollectArray(d, v, pointer, binding, stack);
      ItemsOwned(d, v, 0, pointer, binding, stack);
    case _ =>
      CollectScalar(d, v, pointer, binding, stack);
      NothingOwned(binding);
  }

  lemma NothingOwned(binding: string)
    ensures Owned(NOTHING, binding)
  {
  }

  lemma {:induction false} MembersOwned(d: Document, v: Json, keys: seq<string>, pointer: string, binding: string, stack: set<string>)
    requires v.Obj? && Inside(d, v, binding)
    ensures Owned(CollectMembers(d, v, keys, pointer, binding, stack), binding)
    decreases Unused(d, stack), v, 1, |keys|
  {
    hide Collect, CollectMembers, CollectMember, Inside, Owned, Unused, Plus;
    if keys == [] {
      CollectNoMembers(d, v, pointer, binding, stack);
      NothingOwned(binding);
    } else {
      CollectMembersStep(d, v, keys, pointer, binding, stack);
      MemberOwned(d, v, keys[0], pointer, binding, stack);
      MembersOwned(d, v, keys[1..], pointer, binding, stack);
      OwnedPlus(CollectMember(d, v, keys[0], pointer, binding, stack), CollectMembers(d, v, keys[1..], pointer, binding, stack), binding);
    }
  }

  lemma {:induction false} MemberOwned(d: Document, v: Json, key: string, pointer: string, binding: string, stack: set<string>)
    requires v.Obj? && Inside(d, v, binding)
    ensures Owned(CollectMember(d, v, key, pointer, binding, stack), binding)
    decreases Unused(d, stack), v, 0, 0
  {
    hide Collect, CollectMembers, Inside, Owned, Keys, Unused, MemberPointer, JumpFrom, RefKey;
    NothingOwned(binding);
    if key !in v.members || key == BINDING {
    } else if key == REQUIRED {
      RequirementOwned(d, v, pointer, binding);
    } else if key == REFERENCE {
      if JumpFrom(d, v, binding).Some? {
        JumpStaysInside(d, v, binding);
        var target := JumpFrom(d, v, binding).value;
        var refKey := RefKey(target.pointer, binding);
        if refKey !in stack {
          JumpUsesAKey(d, stack, refKey);
          CollectOwned(d, target.value, target.pointer, binding, stack + {refKey});
        }
      }
    } else {
      PartsStayInside(d, v, binding);
      CollectOwned(d, v.members[key], MemberPointer(pointer, key), binding, stack);
    }
  }

  lemma RequirementOwned(d: Document, v: Json, pointer: string, binding: string)
    ensures Owned(Annotations(OwnRequirement(d, v, pointer, binding), []), binding)
  {
  }

  lemma {:induction false} ItemsOwned(d: Document, v: Json, from_: nat, pointer: string, binding: string, stack: set<string>)
    requires v.Arr? && Inside(d, v, binding) && from_ <= |v.items|
    ensures Owned(CollectItems(d, v, from_, pointer, binding, stack), binding)
    decreases Unused(d, stack), v, 1, |v.items| - from_
  {
    hide Collect, CollectItems, Inside, Owned, Unused, ItemPointer, Plus;
    CollectItemsStep(d, v, from_, pointer, binding, stack);
    if from_ == |v.items| {
      NothingOwned(binding);
    } else {
      CollectOwned(d, v.items[from_], ItemPointer(pointer, from_), binding, stack);
      ItemsOwned(d, v, from_ + 1, pointer, binding, stack);
      OwnedPlus(Collect(d, v.items[from_], ItemPointer(pointer, from_), binding, stack),
                CollectItems(d, v, from_ + 1, pointer, binding, stack), binding);
    }
  }

  lemma CollectAllOwned(d: Document)
    ensures Owned(CollectAll(d), "")
  {
    CollectOwned(d, d.root, d.pointer, "", {});
  }

  lemma InPositions<T(!new)>(xs: seq<T>)
    ensures forall x :: x in xs <==> exists p :: p in Positions(xs) && p.1 == x
  {
    forall x | x in xs ensures exists p :: p in Positions(xs) && p.1 == x {
      var i :| 0 <= i < |xs| && xs[i] == x;
      assert Positions(xs)[i] == (i, x);
    }
  }

  lemma ProvidedClosed(lib: Library, key: FormRef, interfaces: Interfaces, provided: seq<ContractRef>)
    ensures FlatMap(ProvidedProblem(lib, key, interfaces), Positions(provided)) == [] <==> forall r | r in provided :: r in interfaces
  {
    FlatMapEmpty(ProvidedProblem(lib, key, interfaces), Positions(provided));
    InPositions(provided);
  }

  lemma AcceptedClosed(lib: Library, key: FormRef, role: string, bindings: Bindings, accepted: seq<ContractRef>)
    ensures FlatMap(AcceptedProblem(lib, key, role, bindings), Positions(accepted)) == [] <==>
            forall r | r in accepted :: r in bindings && bindings[r].document.sourceRole == role
  {
    FlatMapEmpty(AcceptedProblem(lib, key, role, bindings), Positions(accepted));
    InPositions(accepted);
  }

  lemma NamedOnce(accepted: seq<ContractRef>, name: string)
    ensures |AcceptedByName(accepted, name)| == 1 <==> exists i :: OnlyNamed(accepted, name, i)
    ensures forall i | OnlyNamed(accepted, name, i) :: AcceptedByName(accepted, name) == [accepted[i]]
  {
    OneIsOnly(Named(name), accepted);
    assert forall i :: OnlyNamed(accepted, name, i) <==> OnlyPicked(Named(name), accepted, i);
  }

  lemma AcceptedByNameMeaning(accepted: seq<ContractRef>, name: string)
    ensures forall b | b in AcceptedByName(accepted, name) :: b in accepted && b.name == name
  {
    forall b | b in AcceptedByName(accepted, name) ensures b in accepted && b.name == name {
      InFlatMap(Named(name), accepted, b);
    }
  }

  lemma AnnotationsClosed(lib: Library, key: FormRef, accepted: seq<ContractRef>, interfaces: Interfaces, bindings: Bindings,
                          annotations: Annotations)
    requires Owned(annotations, "") && forall r | r in accepted :: r in bindings
    ensures (&& FlatMap(RequirementProblem(lib, key, accepted, interfaces, bindings), annotations.interfaces) == []
             && FlatMap(AnnotationProblem(lib, key, accepted), annotations.bindings) == [])
            <==>
            (&& (forall a | a in annotations.interfaces :: a.ref in interfaces
                   && (a.bindingName != "" ==> BoundTo(accepted, bindings, a.bindingName, a.ref)))
             && (forall a | a in annotations.bindings :: exists i :: OnlyNamed(accepted, a.name, i)))
  {
    hide AcceptedByName, OnlyNamed;
    forall name ensures |AcceptedByName(accepted, name)| == 1 <==> exists i :: OnlyNamed(accepted, name, i) {
      NamedOnce(accepted, name);
    }
    FlatMapEmpty(RequirementProblem(lib, key, accepted, interfaces, bindings), annotations.interfaces);
    FlatMapEmpty(AnnotationProblem(lib, key, accepted), annotations.bindings);
    assert forall a :: AnnotationProblem(lib, key, accepted)(a) == [] <==> |AcceptedByName(accepted, a.name)| == 1;
    if forall a | a in annotations.bindings :: |AcceptedByName(accepted, a.name)| == 1 {
      forall a | a in annotations.interfaces
        ensures RequirementProblem(lib, key, accepted, interfaces, bindings)(a) == [] <==>
                a.ref in interfaces && (a.bindingName != "" ==> BoundTo(accepted, bindings, a.bindingName, a.ref))
      {
        RequirementClosed(lib, key, accepted, interfaces, bindings, a);
      }
    }
  }

  lemma RequirementClosed(lib: Library, key: FormRef, accepted: seq<ContractRef>, interfaces: Interfaces, bindings: Bindings,
                          a: InterfaceAnnotation)
    requires forall r | r in accepted :: r in bindings
    requires a.bindingName == "" || |AcceptedByName(accepted, a.bindingName)| == 1
    ensures RequirementProblem(lib, key, accepted, interfaces, bindings)(a) == [] <==>
            a.ref in interfaces && (a.bindingName != "" ==> BoundTo(accepted, bindings, a.bindingName, a.ref))
  {
    hide AcceptedByName;
    if a.bindingName != "" {
      var matches := AcceptedByName(accepted, a.bindingName);
      NamedOnce(accepted, a.bindingName);
      var i :| OnlyNamed(accepted, a.bindingName, i);
      assert matches == [accepted[i]] && accepted[i] in accepted;
      assert BoundTo(accepted, bindings, a.bindingName, a.ref) <==> bindings[matches[0]].document.target == a.ref;
    }
  }

  lemma MentionedIffCollected(decode: FormReader, desired: Json, pointer: string, ref: FormRef)
    ensures Mentions(decode, desired, ref) <==> exists t :: t in TargetRefs(decode, desired, pointer) && t.ref == ref
  {
    hide TargetRefs, TargetAt;
    if tokens :| TargetAt(decode, desired, tokens, ref) {
      var t := TargetRef(pointer + Pointers.JoinTokens(tokens), ref);
      assert Placed(decode, desired, pointer, t);
      TargetsCollected(decode, desired, pointer, t);
    }
    if t :| t in TargetRefs(decode, desired, pointer) && t.ref == ref {
      TargetsCollected(decode, desired, pointer, t);
    }
  }

  lemma TargetsClosed(lib: Library, key: FormRef, forms: Forms, desired: Json)
    ensures FlatMap(TargetProblem(lib, key, forms), TargetRefs(lib.decodeForm, desired, "/desiredSchema")) == [] <==>
            forall ref | Mentions(lib.decodeForm, desired, ref) :: ref in forms
  {
    hide FlatMap, Mentions, TargetRefs;
    var targets := TargetRefs(lib.decodeForm, desired, "/desiredSchema");
    FlatMapEmpty(TargetProblem(lib, key, forms), targets);
    assert forall t :: TargetProblem(lib, key, forms)(t) == [] <==> t.ref in forms;
    forall ref ensures Mentions(lib.decodeForm, desired, ref) <==> exists t :: t in targets && t.ref == ref {
      MentionedIffCollected(lib.decodeForm, desired, "/desiredSchema", ref);
    }
  }

  lemma FormClosedIff(lib: Library, key: FormRef, forms: Forms, interfaces: Interfaces, bindings: Bindings)
    requires key in forms
    ensures ReferenceProblems(lib, forms, interfaces, bindings)(key) == [] && TargetProblems(lib, forms)(key) == [] <==>
            FormClosed(lib, forms[key].definition, forms, interfaces, bindings)
  {
    hide FlatMap, Positions, CollectAll, TargetRefs, Mentions, BoundTo, Owned, AcceptedByName, OnlyNamed;
    var definition := forms[key].definition;
    var annotations := CollectAll(DesiredDocument(lib, definition));
    ProvidedClosed(lib, key, interfaces, definition.provided);
    AcceptedClosed(lib, key, definition.role, bindings, definition.accepted);
    TargetsClosed(lib, key, forms, definition.desired);
    CollectAllOwned(DesiredDocument(lib, definition));
    if forall r | r in definition.accepted :: r in bindings {
      AnnotationsClosed(lib, key, definition.accepted, interfaces, bindings, annotations);
    }
    FourEmpty(FlatMap(ProvidedProblem(lib, key, interfaces), Positions(definition.provided)),
              FlatMap(AcceptedProblem(lib, key, definition.role, bindings), Positions(definition.accepted)),
              FlatMap(RequirementProblem(lib, key, definition.accepted, interfaces, bindings), annotations.interfaces),
              FlatMap(AnnotationProblem(lib, key, definition.accepted), annotations.bindings));
    assert ReferenceProblems(lib, forms, interfaces, bindings)(key) == FormReferenceProblems(lib, key, definition, interfaces, bindings);
    assert TargetProblems(lib, forms)(key) == FlatMap(TargetProblem(lib, key, forms), TargetRefs(lib.decodeForm, definition.desired, "/desiredSchema"));
  }

  lemma FourEmpty<T>(a: seq<T>, b: seq<T>, c: seq<T>, d: seq<T>)
    ensures a + b + c + d == [] <==> a == [] && b == [] && c == [] && d == []
  {
    assert |a + b + c + d| == |a| + |b| + |c| + |d|;
  }

  // ---------- the other stages ----------

  lemma BindingClosedIff(lib: Library, key: ContractRef, interfaces: Interfaces, bindings: Bindings)
    requires key in bindings
    ensures BindingProblems(lib, interfaces, bindings)(key) == [] <==> BindingClosed(bindings[key].document, interfaces)
  {
    hide FlatMap, AllOperations;
    var document := bindings[key].document;
    if document.target in interfaces {
      OperationsListed(document);
      var operations := interfaces[document.target].operations;
      FlatMapEmpty(OperationProblem(lib, key, document.target, operations), AllOperations(document));
      assert BindingClosed(document, interfaces) <==> forall o | o in AllOperations(document) :: o in operations;
      assert forall o :: OperationProblem(lib, key, document.target, operations)(o) == [] <==> o in operations;
    }
  }

  lemma OperationsListed(document: BindingDefinition)
    ensures forall o :: o in AllOperations(document) <==>
                        o in document.operations || exists mode :: mode in document.accessModes && o in mode
  {
    hide FlatMap;
    var flat := (mode: seq<string>) => mode;
    forall o ensures o in FlatMap(flat, document.accessModes) <==> exists mode :: mode in document.accessModes && o in mode {
      InFlatMap(flat, document.accessModes, o);
    }
  }

  lemma BindingsClosed(lib: Library, keys: seq<ContractRef>, interfaces: Interfaces, bindings: Bindings)
    requires Lists(keys, bindings.Keys)
    ensures FlatMap(BindingProblems(lib, interfaces, bindings), keys) == [] <==>
            forall key | key in bindings :: BindingClosed(bindings[key].document, interfaces)
  {
    hide FlatMap, BindingProblems, BindingClosed;
    ListsMeaning(keys, bindings.Keys);
    FlatMapEmpty(BindingProblems(lib, interfaces, bindings), keys);
    forall key | key in bindings
      ensures BindingProblems(lib, interfaces, bindings)(key) == [] <==> BindingClosed(bindings[key].document, interfaces)
    {
      BindingClosedIff(lib, key, interfaces, bindings);
    }
  }

  lemma FormsClosed(lib: Library, keys: seq<FormRef>, forms: Forms, interfaces: Interfaces, bindings: Bindings)
    requires Lists(keys, forms.Keys)
    ensures FlatMap(ReferenceProblems(lib, forms, interfaces, bindings), keys) == [] && FlatMap(TargetProblems(lib, forms), keys) == [] <==>
            forall key | key in forms :: FormClosed(lib, forms[key].definition, forms, interfaces, bindings)
  {
    hide FlatMap, ReferenceProblems, TargetProblems, FormClosed;
    ListsMeaning(keys, forms.Keys);
    FlatMapEmpty(ReferenceProblems(lib, forms, interfaces, bindings), keys);
    FlatMapEmpty(TargetProblems(lib, forms), keys);
    forall key | key in forms
      ensures ReferenceProblems(lib, forms, interfaces, bindings)(key) == [] && TargetProblems(lib, forms)(key) == [] <==>
              FormClosed(lib, forms[key].definition, forms, interfaces, bindings)
    {
      FormClosedIff(lib, key, forms, interfaces, bindings);
    }
  }

  lemma LanesClosed(lib: Library, keys: seq<FormRef>, forms: Forms)
    requires Lists(keys, forms.Keys)
    ensures FlatMap(LaneProblems(lib, "forms.takoform.com/v1", forms), keys) == [] <==>
            forall key | key in forms :: Requirable(forms[key].definition.requiresHostApi)
  {
    hide FlatMap, Requirable, Satisfies;
    ListsMeaning(keys, forms.Keys);
    FlatMapEmpty(LaneProblems(lib, "forms.takoform.com/v1", forms), keys);
    forall key | key in forms
      ensures LaneProblems(lib, "forms.takoform.com/v1", forms)(key) == [] <==> Requirable(forms[key].definition.requiresHostApi)
    {
      LanesInOrder(forms[key].definition.requiresHostApi);
    }
  }

  /** The lane served satisfies itself and the two before it. */
  lemma LanesInOrder(required: string)
    ensures required == "" || Satisfies("forms.takoform.com/v1", required) <==> Requirable(required)
  {
  }

  lemma PinsForLine(pins: seq<DefaultPin>, g: GroupKind)
    ensures forall i | OnlyPin(pins, g.group, g.kind, i) :: PinsFor(pins, g) == [pins[i]]
    ensures |PinsFor(pins, g)| == 1 <==> exists i :: OnlyPin(pins, g.group, g.kind, i)
  {
    OneIsOnly(HasKey(PinLine, g), pins);
    forall pin: DefaultPin ensures HasKey(PinLine, g)(pin) != [] <==> pin.group == g.group && pin.kind == g.kind {
      assert PinLine(pin) == GroupKind(pin.group, pin.kind);
    }
    assert forall i :: OnlyPin(pins, g.group, g.kind, i) <==> OnlyPicked(HasKey(PinLine, g), pins, i);
  }

  lemma LineClosedIff(lib: Library, forms: Forms, pins: seq<DefaultPin>, g: GroupKind)
    ensures DefaultFor(lib, forms, pins, g).Ok? <==> LineClosed(forms, pins, g.group, g.kind)
    ensures DefaultFor(lib, forms, pins, g).Ok? ==>
              var ref := DefaultFor(lib, forms, pins, g).value;
              PinnedTo(pins, g, ref) && ref in forms && ref.group == g.group && ref.kind == g.kind
  {
    hide PinsFor;
    PinsForLine(pins, g);
    if |PinsFor(pins, g)| == 1 {
      var i :| OnlyPin(pins, g.group, g.kind, i);
    }
  }

  lemma LinesInUse(forms: Forms, pins: seq<DefaultPin>)
    ensures forall key | key in forms :: GroupKind(key.group, key.kind) in Lines(forms.Keys, pins)
    ensures forall pin | pin in pins :: GroupKind(pin.group, pin.kind) in Lines(forms.Keys, pins)
    ensures forall g | g in Lines(forms.Keys, pins) :: LineOfForm(forms, g) || LineOfPin(pins, g)
  {
    hide KeysOf, Lines;
    PinnedLines(pins);
    FormLines(forms.Keys, pins);
    PinnedInUse(forms.Keys, pins);
  }

  ghost predicate LineOfForm(forms: Forms, g: GroupKind)
  {
    exists key :: key in forms && key.group == g.group && key.kind == g.kind
  }

  ghost predicate LineOfPin(pins: seq<DefaultPin>, g: GroupKind)
  {
    exists pin :: pin in pins && pin.group == g.group && pin.kind == g.kind
  }

  lemma PinnedInUse(keys: set<FormRef>, pins: seq<DefaultPin>)
    ensures KeysOf(PinLine, pins) <= Lines(keys, pins)
  {
    hide KeysOf;
  }

  lemma PinnedLines(pins: seq<DefaultPin>)
    ensures forall pin | pin in pins :: GroupKind(pin.group, pin.kind) in KeysOf(PinLine, pins)
    ensures forall g | g in KeysOf(PinLine, pins) :: LineOfPin(pins, g)
  {
    forall pin | pin in pins ensures GroupKind(pin.group, pin.kind) in KeysOf(PinLine, pins) {
      var i :| 0 <= i < |pins| && pins[i] == pin;
      assert PinLine(pins[i]) in KeysOf(PinLine, pins);
    }
    forall g | g in KeysOf(PinLine, pins) ensures LineOfPin(pins, g) {
      var i :| 0 <= i < |pins| && PinLine(pins[i]) == g;
      assert pins[i] in pins;
    }
  }

  lemma FormLines(keys: set<FormRef>, pins: seq<DefaultPin>)
    ensures forall key | key in keys :: GroupKind(key.group, key.kind) in Lines(keys, pins)
    ensures forall g | g in Lines(keys, pins) :: g in KeysOf(PinLine, pins) || exists key :: key in keys && key.group == g.group && key.kind == g.kind
  {
    hide KeysOf;
    forall key | key in keys ensures LineOf(key) in Lines(keys, pins) {
    }
  }

  lemma DefaultsClosed(lib: Library, forms: Forms, pins: seq<DefaultPin>, lines: seq<GroupKind>)
    requires Lists(lines, Lines(forms.Keys, pins))
    ensures FlatMap(DefaultProblem(lib, forms, pins), lines) == [] <==>
            && (forall key | key in forms :: LineClosed(forms, pins, key.group, key.kind))
            && (forall pin | pin in pins :: LineClosed(forms, pins, pin.group, pin.kind))
  {
    hide FlatMap, Lines, DefaultFor, LineClosed;
    ListsMeaning(lines, Lines(forms.Keys, pins));
    FlatMapEmpty(DefaultProblem(lib, forms, pins), lines);
    LinesInUse(forms, pins);
    forall g | g in Lines(forms.Keys, pins)
      ensures DefaultProblem(lib, forms, pins)(g) == [] <==> LineClosed(forms, pins, g.group, g.kind)
    {
      LineClosedIff(lib, forms, pins, g);
    }
  }

  // ---------- the whole compilation ----------

  lemma ContractStagesEmpty(lib: Library, input: Input)
    ensures FirstNonEmpty(ContractStages(lib, input)) == [] <==>
            && (forall a | a in input.interfaces :: CompileInterface(lib, a).Ok?)
            && (forall a | a in input.bindings :: CompileBinding(lib, a).Ok?)
            && Distinct(InterfaceKey, CompiledInterfaces(lib, input.interfaces))
            && Distinct(BindingKey, CompiledBindings(lib, input.bindings))
            && (forall key | key in SelectedBindings(lib, input) ::
                  BindingClosed(SelectedBindings(lib, input)[key].document, SelectedInterfaces(lib, input)))
  {
    hide FlatMap, CompileInterface, CompileBinding, CompiledInterfaces, CompiledBindings, Distinct, BindingClosed, Selected, KeysOf,
         Ordered, Duplicate, Failures, BindingProblems, LessContract;
    var interfaces, bindings := CompiledInterfaces(lib, input.interfaces), CompiledBindings(lib, input.bindings);
    var interfaceOrder := Ordered(LessContract, KeysOf(InterfaceKey, interfaces));
    var bindingOrder := Ordered(LessContract, KeysOf(BindingKey, bindings));
    NoFailures(InterfaceCompiler(lib), input.interfaces);
    NoFailures(BindingCompiler(lib), input.bindings);
    NoDuplicates(lib, INTERFACES, interfaces, interfaceOrder);
    NoDuplicates(lib, BINDINGS, bindings, bindingOrder);
    if Distinct(BindingKey, bindings) {
      SelectedIsTotal(BindingKey, bindings);
      BindingsClosed(lib, bindingOrder, SelectedInterfaces(lib, input), SelectedBindings(lib, input));
    }
    ThreeEmpty(
      FlatMap(Failures(InterfaceCompiler(lib)), input.interfaces), FlatMap(Failures(BindingCompiler(lib)), input.bindings),
      FlatMap(Duplicate(lib, INTERFACES, interfaces), interfaceOrder), FlatMap(Duplicate(lib, BINDINGS, bindings), bindingOrder),
      FlatMap(BindingProblems(lib, SelectedInterfaces(lib, input), SelectedBindings(lib, input)), bindingOrder));
  }

  lemma ThreeEmpty<T>(a: seq<T>, a': seq<T>, b: seq<T>, b': seq<T>, c: seq<T>)
    ensures FirstNonEmpty([a + a', b + b', c]) == [] <==> a == [] && a' == [] && b == [] && b' == [] && c == []
  {
    var stages := [a + a', b + b', c];
    assert stages[0] == a + a' && stages[1] == b + b' && stages[2] == c;
    assert |a + a'| == |a| + |a'| && |b + b'| == |b| + |b'|;
    assert (forall i | 0 <= i < |stages| :: stages[i] == []) <==> stages[0] == [] && stages[1] == [] && stages[2] == [];
  }

  lemma SevenEmpty<T>(a: seq<T>, b: seq<T>, c: seq<T>, d: seq<T>, e: seq<T>, f: seq<T>, g: seq<T>)
    ensures FirstNonEmpty([a, b, c, d, e, f, g]) == [] <==> a == [] && b == [] && c == [] && d == [] && e == [] && f == [] && g == []
  {
    var stages := [a, b, c, d, e, f, g];
    assert stages[0] == a && stages[1] == b && stages[2] == c && stages[3] == d && stages[4] == e && stages[5] == f && stages[6] == g;
    assert (forall i | 0 <= i < |stages| :: stages[i] == []) <==>
           stages[0] == [] && stages[1] == [] && stages[2] == [] && stages[3] == [] && stages[4] == [] && stages[5] == [] && stages[6] == [];
  }

  lemma StagesEmpty(lib: Library, input: Input, keys: seq<FormRef>)
    requires Lists(keys, FormIdentities(lib, input))
    requires input.hostApi == "forms.takoform.com/v1"
    ensures FirstNonEmpty(Stages(lib, input, keys)) == [] <==>
            AllCompile(lib, input)
            && Closed(lib, input.pins, SelectedForms(lib, input), SelectedInterfaces(lib, input), SelectedBindings(lib, input))
  {
    hide FlatMap, CompileArtifact, CompileInterface, CompileBinding, CompiledForms, CompiledInterfaces, CompiledBindings, Distinct, BindingClosed,
         FormClosed, LineClosed, Requirable, Selected, SelectedInterfaces, SelectedBindings, KeysOf, Ordered, Duplicate, Failures, ReferenceProblems,
         LaneProblems, TargetProblems, DefaultProblem, Lines, LessGroupKind, ContractStages, FirstNonEmpty;
    var compiled := CompiledForms(lib, input.packages);
    var forms, interfaces, bindings := SelectedForms(lib, input), SelectedInterfaces(lib, input), SelectedBindings(lib, input);
    var lines := Ordered(LessGroupKind, Lines(forms.Keys, input.pins));
    NoFailures(FormCompiler(lib), input.packages);
    NoDuplicates(lib, FORMS, compiled, keys);
    ContractStagesEmpty(lib, input);
    DefaultsClosed(lib, forms, input.pins, lines);
    if Distinct(FormKey, compiled) {
      SelectedIsTotal(FormKey, compiled);
      FormsClosed(lib, keys, forms, interfaces, bindings);
      LanesClosed(lib, keys, forms);
    }
    SevenEmpty(
      FlatMap(Failures(FormCompiler(lib)), input.packages),
      FlatMap(Duplicate(lib, FORMS, compiled), keys),
      FirstNonEmpty(ContractStages(lib, input)),
      FlatMap(ReferenceProblems(lib, forms, interfaces, bindings), keys),
      FlatMap(LaneProblems(lib, input.hostApi, forms), keys),
      FlatMap(TargetProblems(lib, forms), keys),
      FlatMap(DefaultProblem(lib, forms, input.pins), lines));
  }

  /** When everything compiles, the compiled values stand at the positions of their
      artifacts. */
  lemma {:induction false} AllSucceed<A, C>(compile: A -> Result<C, Diagnostic>, xs: seq<A>)
    requires forall a | a in xs :: compile(a).Ok?
    ensures |FlatMap(Successes(compile), xs)| == |xs|
    ensures forall i | 0 <= i < |xs| :: FlatMap(Successes(compile), xs)[i] == compile(xs[i]).value
  {
    if xs != [] {
      AllSucceed(compile, xs[1..]);
      assert Successes(compile)(xs[0]) == [compile(xs[0]).value];
      assert forall i | 1 <= i < |xs| :: xs[i] == xs[1..][i - 1];
    }
  }

  /** Standing on one's own and being supplied once, over the fields of the
      artifacts, is what the compiler checks. */
  lemma SuppliedIff(lib: Library, input: Input)
    ensures WellSupplied(lib, input) <==> AllCompile(lib, input)
  {
    hide PackageStands, InterfaceStands, BindingStands, CompileArtifact, CompileInterface, CompileBinding, FlatMap,
         IsFormOf, IsInterfaceOf, IsBindingOf, IsInterfaceRef, IsBindingRef;
    forall a ensures CompileArtifact(lib, a).Ok? <==> PackageStands(lib, a) { PackageCompilesIff(lib, a); }
    forall a ensures CompileInterface(lib, a).Ok? <==> InterfaceStands(lib, a) { InterfaceCompilesIff(lib, a); }
    forall a ensures CompileBinding(lib, a).Ok? <==> BindingStands(lib, a) { BindingCompilesIff(lib, a); }
    if (forall a | a in input.packages :: PackageStands(lib, a)) {
      FormsDistinctIff(lib, input.packages);
    }
    if (forall a | a in input.interfaces :: InterfaceStands(lib, a)) {
      InterfacesDistinctIff(lib, input.interfaces);
    }
    if (forall a | a in input.bindings :: BindingStands(lib, a)) {
      BindingsDistinctIff(lib, input.bindings);
    }
  }

  lemma FormsDistinctIff(lib: Library, packages: seq<PackageArtifact>)
    requires forall a | a in packages :: CompileArtifact(lib, a).Ok?
    ensures Distinct(FormKey, CompiledForms(lib, packages)) <==>
            forall i, j | 0 <= i < j < |packages| :: packages[i].package.ref != packages[j].package.ref
  {
    hide CompileArtifact, FlatMap, PackageStands;
    AllSucceed(FormCompiler(lib), packages);
    var compiled := CompiledForms(lib, packages);
    forall i | 0 <= i < |packages| ensures FormKey(compiled[i]) == packages[i].package.ref {
      PackageCompilesIff(lib, packages[i]);
    }
    if forall i, j | 0 <= i < j < |packages| :: packages[i].package.ref != packages[j].package.ref {
      forall i, j | 0 <= i < j < |compiled| ensures FormKey(compiled[i]) != FormKey(compiled[j]) {
        assert packages[i].package.ref != packages[j].package.ref;
      }
    }
    if Distinct(FormKey, compiled) {
      forall i, j | 0 <= i < j < |packages| ensures packages[i].package.ref != packages[j].package.ref {
        assert FormKey(compiled[i]) != FormKey(compiled[j]);
      }
    }
  }

  lemma InterfacesDistinctIff(lib: Library, artifacts: seq<ContractArtifact>)
    requires forall a | a in artifacts :: CompileInterface(lib, a).Ok?
    ensures Distinct(InterfaceKey, CompiledInterfaces(lib, artifacts)) <==>
            forall i, j, ref | 0 <= i < j < |artifacts| && IsInterfaceRef(lib, artifacts[i], ref) :: !IsInterfaceRef(lib, artifacts[j], ref)
  {
    hide CompileInterface, FlatMap, InterfaceStands, IsInterfaceRef;
    AllSucceed(InterfaceCompiler(lib), artifacts);
    var compiled := CompiledInterfaces(lib, artifacts);
    forall i, ref | 0 <= i < |artifacts| ensures IsInterfaceRef(lib, artifacts[i], ref) <==> InterfaceKey(compiled[i]) == ref {
      InterfaceCompilesIff(lib, artifacts[i]);
      OneInterfaceRef(lib, artifacts[i], ref, compiled[i].ref);
    }
    if forall i, j, ref | 0 <= i < j < |artifacts| && IsInterfaceRef(lib, artifacts[i], ref) :: !IsInterfaceRef(lib, artifacts[j], ref) {
      forall i, j | 0 <= i < j < |compiled| ensures InterfaceKey(compiled[i]) != InterfaceKey(compiled[j]) {
        assert IsInterfaceRef(lib, artifacts[i], compiled[i].ref);
        assert !IsInterfaceRef(lib, artifacts[j], compiled[i].ref);
      }
    }
    if Distinct(InterfaceKey, compiled) {
      forall i, j, ref | 0 <= i < j < |artifacts| && IsInterfaceRef(lib, artifacts[i], ref) ensures !IsInterfaceRef(lib, artifacts[j], ref) {
        assert InterfaceKey(compiled[i]) != InterfaceKey(compiled[j]);
      }
    }
  }

  lemma OneInterfaceRef(lib: Library, a: ContractArtifact, ref: ContractRef, other: ContractRef)
    requires IsInterfaceRef(lib, a, other)
    ensures IsInterfaceRef(lib, a, ref) <==> ref == other
  {
  }

  lemma BindingsDistinctIff(lib: Library, artifacts: seq<ContractArtifact>)
    requires forall a | a in artifacts :: CompileBinding(lib, a).Ok?
    ensures Distinct(BindingKey, CompiledBindings(lib, artifacts)) <==>
            forall i, j, ref | 0 <= i < j < |artifacts| && IsBindingRef(lib, artifacts[i], ref) :: !IsBindingRef(lib, artifacts[j], ref)
  {
    hide CompileBinding, FlatMap, BindingStands, IsBindingRef;
    AllSucceed(BindingCompiler(lib), artifacts);
    var compiled := CompiledBindings(lib, artifacts);
    forall i, ref | 0 <= i < |artifacts| ensures IsBindingRef(lib, artifacts[i], ref) <==> BindingKey(compiled[i]) == ref {
      BindingCompilesIff(lib, artifacts[i]);
      OneBindingRef(lib, artifacts[i], ref, compiled[i].ref);
    }
    if forall i, j, ref | 0 <= i < j < |artifacts| && IsBindingRef(lib, artifacts[i], ref) :: !IsBindingRef(lib, artifacts[j], ref) {
      forall i, j | 0 <= i < j < |compiled| ensures BindingKey(compiled[i]) != BindingKey(compiled[j]) {
        assert IsBindingRef(lib, artifacts[i], compiled[i].ref);
        assert !IsBindingRef(lib, artifacts[j], compiled[i].ref);
      }
    }
    if Distinct(BindingKey, compiled) {
      forall i, j, ref | 0 <= i < j < |artifacts| && IsBindingRef(lib, artifacts[i], ref) ensures !IsBindingRef(lib, artifacts[j], ref) {
        assert BindingKey(compiled[i]) != BindingKey(compiled[j]);
      }
    }
  }

  lemma OneBindingRef(lib: Library, a: ContractArtifact, ref: ContractRef, other: ContractRef)
    requires IsBindingRef(lib, a, other)
    ensures IsBindingRef(lib, a, ref) <==> ref == other
  {
  }

  /** The compiler refuses for exactly the reasons listed: anything else compiles,
      unless its summary cannot be encoded. */
  lemma CompilesIff(lib: Library, input: Input, r: Result<Snapshot, seq<Diagnostic>>)
    requires Outcome(lib, input, r)
    ensures r.Ok? ==> Compilable(lib, input)
    ensures r.Err? ==> r.error != []
    ensures Compilable(lib, input) && r.Err? ==>
              |r.error| == 1 && (exists w, text :: lib.wireDigest(w) == Err(text) && r.error[0].message == lib.say(Unencodable(text)))
  {
    hide Stages, WellSupplied, AllCompile, Closed, FormIdentities, Ordered, Graph, WireOf, Comparable, Report, FirstNonEmpty;
    var keys :| Arranged(lib, input, keys) && r == Compiled(lib, input, keys);
    SuppliedIff(lib, input);
    if input.hostApi == "forms.takoform.com/v1" {
      StagesEmpty(lib, input, keys);
    }
    ReportKeepsAll(FirstNonEmpty(Stages(lib, input, keys)));
  }

  ghost predicate SnapshotClosed(lib: Library, input: Input, s: Snapshot)
  {
    && s.hostApi == input.hostApi == "forms.takoform.com/v1"
    && Closed(lib, input.pins, s.forms, s.interfaces, s.bindings)
    && Lists(s.ordered, s.forms.Keys)
    && s.interfaceOrder == Ordered(LessContract, s.interfaces.Keys)
    && s.bindingOrder == Ordered(LessContract, s.bindings.Keys)
  }

  /** Nothing supplied is dropped and nothing else is in the snapshot. */
  ghost predicate HoldsExactly<A(!new), K, C>(compile: A -> Result<C, Diagnostic>, keyOf: C -> K, artifacts: seq<A>, table: map<K, C>)
  {
    && (forall a | a in artifacts :: compile(a).Ok? && keyOf(compile(a).value) in table && table[keyOf(compile(a).value)] == compile(a).value)
    && (forall key | key in table :: keyOf(table[key]) == key && exists a :: a in artifacts && compile(a) == Ok(table[key]))
  }

  lemma SelectedHoldsExactly<A(!new), K(!new), C>(compile: A -> Result<C, Diagnostic>, keyOf: C -> K, artifacts: seq<A>)
    requires forall a | a in artifacts :: compile(a).Ok?
    requires Distinct(keyOf, FlatMap(Successes(compile), artifacts))
    ensures HoldsExactly(compile, keyOf, artifacts, Selected(keyOf, FlatMap(Successes(compile), artifacts)))
  {
    hide Distinct, KeysOf, FlatMap, Selected;
    var compiled := FlatMap(Successes(compile), artifacts);
    var table := Selected(keyOf, compiled);
    SelectedIsTotal(keyOf, compiled);
    forall a | a in artifacts ensures keyOf(compile(a).value) in table && table[keyOf(compile(a).value)] == compile(a).value {
      InFlatMap(Successes(compile), artifacts, compile(a).value);
      assert compile(a).value in Successes(compile)(a);
      OneUnderItsKey(keyOf, compiled, compile(a).value);
    }
    forall key | key in table ensures keyOf(table[key]) == key && exists a :: a in artifacts && compile(a) == Ok(table[key]) {
      InFlatMap(Successes(compile), artifacts, table[key]);
    }
  }

  lemma OneUnderItsKey<K(!new), C>(keyOf: C -> K, compiled: seq<C>, c: C)
    requires Distinct(keyOf, compiled) && c in compiled
    ensures keyOf(c) in Selected(keyOf, compiled) && Selected(keyOf, compiled)[keyOf(c)] == c
  {
    DistinctIffOneEach(keyOf, compiled);
    CandidatesFound(keyOf, compiled, keyOf(c));
    assert Candidates(keyOf, compiled, keyOf(c)) == [c];
  }

  /** The Forms of the snapshot are those of the supplied packages, each under the
      identity its package gives it and with the digest of that package. */
  ghost predicate HoldsPackages(lib: Library, packages: seq<PackageArtifact>, forms: Forms)
  {
    && (forall a | a in packages :: a.package.ref in forms && IsFormOf(lib, a, forms[a.package.ref]))
    && (forall key | key in forms :: forms[key].ref == key
          && exists a :: a in packages && PackageStands(lib, a) && key == a.package.ref && IsFormOf(lib, a, forms[key]))
  }

  ghost predicate HoldsInterfaces(lib: Library, artifacts: seq<ContractArtifact>, interfaces: Interfaces)
  {
    && (forall a | a in artifacts :: exists ref :: ref in interfaces && IsInterfaceOf(lib, a, interfaces[ref]))
    && (forall ref | ref in interfaces :: interfaces[ref].ref == ref
          && exists a :: a in artifacts && InterfaceStands(lib, a) && IsInterfaceOf(lib, a, interfaces[ref]))
  }

  ghost predicate HoldsBindings(lib: Library, artifacts: seq<ContractArtifact>, bindings: Bindings)
  {
    && (forall a | a in artifacts :: exists ref :: ref in bindings && IsBindingOf(lib, a, bindings[ref]))
    && (forall ref | ref in bindings :: bindings[ref].ref == ref
          && exists a :: a in artifacts && BindingStands(lib, a) && IsBindingOf(lib, a, bindings[ref]))
  }

  lemma HeldUnderItsKey<A(!new), K, C>(compile: A -> Result<C, Diagnostic>, keyOf: C -> K, artifacts: seq<A>, table: map<K, C>, a: A)
    requires HoldsExactly(compile, keyOf, artifacts, table) && a in artifacts
    ensures compile(a).Ok? && keyOf(compile(a).value) in table && table[keyOf(compile(a).value)] == compile(a).value
  {
  }

  lemma HeldFrom<A(!new), K, C>(compile: A -> Result<C, Diagnostic>, keyOf: C -> K, artifacts: seq<A>, table: map<K, C>, key: K)
    returns (a: A)
    requires HoldsExactly(compile, keyOf, artifacts, table) && key in table
    ensures keyOf(table[key]) == key && a in artifacts && compile(a) == Ok(table[key])
  {
    a :| a in artifacts && compile(a) == Ok(table[key]);
  }

  lemma PackagesHeld(lib: Library, packages: seq<PackageArtifact>, forms: Forms)
    requires HoldsExactly(FormCompiler(lib), FormKey, packages, forms)
    ensures HoldsPackages(lib, packages, forms)
  {
    hide CompileArtifact, PackageStands, IsFormOf, HoldsExactly;
    forall a | a in packages ensures a.package.ref in forms && IsFormOf(lib, a, forms[a.package.ref]) {
      HeldUnderItsKey(FormCompiler(lib), FormKey, packages, forms, a);
      PackageCompilesIff(lib, a);
      FormsOwnRef(lib, a, CompileArtifact(lib, a).value);
    }
    forall key | key in forms
      ensures forms[key].ref == key
              && exists a :: a in packages && PackageStands(lib, a) && key == a.package.ref && IsFormOf(lib, a, forms[key])
    {
      var a := HeldFrom(FormCompiler(lib), FormKey, packages, forms, key);
      PackageCompilesIff(lib, a);
      FormsOwnRef(lib, a, forms[key]);
    }
  }

  lemma FormsOwnRef(lib: Library, a: PackageArtifact, form: CompiledForm)
    requires IsFormOf(lib, a, form)
    ensures FormKey(form) == form.ref == a.package.ref
  {
  }

  lemma InterfacesHeld(lib: Library, artifacts: seq<ContractArtifact>, interfaces: Interfaces)
    requires HoldsExactly(InterfaceCompiler(lib), InterfaceKey, artifacts, interfaces)
    ensures HoldsInterfaces(lib, artifacts, interfaces)
  {
    hide CompileInterface, InterfaceStands, IsInterfaceOf, HoldsExactly;
    forall a | a in artifacts ensures exists ref :: ref in interfaces && IsInterfaceOf(lib, a, interfaces[ref]) {
      HeldUnderItsKey(InterfaceCompiler(lib), InterfaceKey, artifacts, interfaces, a);
      InterfaceCompilesIff(lib, a);
      assert InterfaceKey(CompileInterface(lib, a).value) in interfaces;
    }
    forall ref | ref in interfaces
      ensures interfaces[ref].ref == ref && exists a :: a in artifacts && InterfaceStands(lib, a) && IsInterfaceOf(lib, a, interfaces[ref])
    {
      var a := HeldFrom(InterfaceCompiler(lib), InterfaceKey, artifacts, interfaces, ref);
      InterfaceCompilesIff(lib, a);
    }
  }

  lemma BindingsHeld(lib: Library, artifacts: seq<ContractArtifact>, bindings: Bindings)
    requires HoldsExactly(BindingCompiler(lib), BindingKey, artifacts, bindings)
    ensures HoldsBindings(lib, artifacts, bindings)
  {
    hide CompileBinding, BindingStands, IsBindingOf, HoldsExactly;
    forall a | a in artifacts ensures exists ref :: ref in bindings && IsBindingOf(lib, a, bindings[ref]) {
      HeldUnderItsKey(BindingCompiler(lib), BindingKey, artifacts, bindings, a);
      BindingCompilesIff(lib, a);
      assert BindingKey(CompileBinding(lib, a).value) in bindings;
    }
    forall ref | ref in bindings
      ensures bindings[ref].ref == ref && exists a :: a in artifacts && BindingStands(lib, a) && IsBindingOf(lib, a, bindings[ref])
    {
      var a := HeldFrom(BindingCompiler(lib), BindingKey, artifacts, bindings, ref);
      BindingCompilesIff(lib, a);
    }
  }

  /** What a compiled snapshot is made of, as the compiler's own tables. */
  lemma CompiledTables(lib: Library, input: Input, s: Snapshot)
    requires Outcome(lib, input, Ok(s))
    ensures SnapshotClosed(lib, input, s)
    ensures HoldsExactly(FormCompiler(lib), FormKey, input.packages, s.forms)
    ensures HoldsExactly(InterfaceCompiler(lib), InterfaceKey, input.interfaces, s.interfaces)
    ensures HoldsExactly(BindingCompiler(lib), BindingKey, input.bindings, s.bindings)
  {
    hide Stages, Closed, KeysOf, Ordered, WireOf, Comparable, Report, Distinct, Selected, FlatMap, HoldsExactly, LessContract, Defaults,
         WellSupplied, CompileArtifact, CompileInterface, CompileBinding;
    CompilesIff(lib, input, Ok(s));
    SuppliedIff(lib, input);
    SelectedIsTotal(FormKey, CompiledForms(lib, input.packages));
    SelectedIsTotal(InterfaceKey, CompiledInterfaces(lib, input.interfaces));
    SelectedIsTotal(BindingKey, CompiledBindings(lib, input.bindings));
    SelectedHoldsExactly(FormCompiler(lib), FormKey, input.packages);
    SelectedHoldsExactly(InterfaceCompiler(lib), InterfaceKey, input.interfaces);
    SelectedHoldsExactly(BindingCompiler(lib), BindingKey, input.bindings);
  }

  /** A compiled snapshot is closed over its own tables, which hold what was supplied
      and nothing else. */
  lemma CompiledIsClosed(lib: Library, input: Input, s: Snapshot)
    requires Outcome(lib, input, Ok(s))
    ensures SnapshotClosed(lib, input, s)
    ensures HoldsPackages(lib, input.packages, s.forms)
    ensures HoldsInterfaces(lib, input.interfaces, s.interfaces)
    ensures HoldsBindings(lib, input.bindings, s.bindings)
    ensures forall key | key in s.forms ::
              exists a :: a in input.packages && a.package.ref == key && s.forms[key].packageDigest == a.package.digest == a.expectedDigest
  {
    hide Outcome, SnapshotClosed, HoldsExactly, HoldsInterfaces, HoldsBindings;
    CompiledTables(lib, input, s);
    PackagesHeld(lib, input.packages, s.forms);
    InterfacesHeld(lib, input.interfaces, s.interfaces);
    BindingsHeld(lib, input.bindings, s.bindings);
    forall key | key in s.forms
      ensures exists a :: a in input.packages && a.package.ref == key && s.forms[key].packageDigest == a.package.digest == a.expectedDigest
    {
      var a :| a in input.packages && PackageStands(lib, a) && key == a.package.ref && IsFormOf(lib, a, s.forms[key]);
    }
  }

  /** Each group and kind in use has exactly one default: the one pinned for it,
      which is one of its Forms. */
  lemma DefaultsAreExact(lib: Library, input: Input, s: Snapshot)
    requires Outcome(lib, input, Ok(s))
    ensures s.defaults.Keys == set f | f in s.forms :: GroupKind(f.group, f.kind)
    ensures forall g | g in s.defaults :: s.defaults[g] in s.forms && s.defaults[g].group == g.group && s.defaults[g].kind == g.kind
    ensures forall g | g in s.defaults :: PinnedTo(input.pins, g, s.defaults[g])
    ensures forall pin | pin in input.pins :: GroupKind(pin.group, pin.kind) in s.defaults
                                              && s.defaults[GroupKind(pin.group, pin.kind)] == pin.ref
  {
    hide Stages, KeysOf, Ordered, WireOf, Comparable, Report, Distinct, Selected, FlatMap, LessContract, WellSupplied, DefaultFor, Lines,
         FormClosed, BindingClosed, Requirable, LineClosed, PinnedTo;
    CompilesIff(lib, input, Ok(s));
    LinesInUse(s.forms, input.pins);
    forall g | g in Lines(s.forms.Keys, input.pins)
      ensures g in s.defaults && s.defaults[g] in s.forms && s.defaults[g].group == g.group && s.defaults[g].kind == g.kind
      ensures PinnedTo(input.pins, g, s.defaults[g])
    {
      LineClosedIff(lib, s.forms, input.pins, g);
    }
    DefaultLines(s.forms, input.pins, s.defaults);
  }

  lemma DefaultLines(forms: Forms, pins: seq<DefaultPin>, defaults: map<GroupKind, FormRef>)
    requires defaults.Keys == Lines(forms.Keys, pins)
    requires forall g | g in defaults :: defaults[g] in forms && defaults[g].group == g.group && defaults[g].kind == g.kind
    requires forall g | g in defaults :: PinnedTo(pins, g, defaults[g])
    ensures defaults.Keys == set f | f in forms :: GroupKind(f.group, f.kind)
    ensures forall pin | pin in pins :: GroupKind(pin.group, pin.kind) in defaults && defaults[GroupKind(pin.group, pin.kind)] == pin.ref
  {
    hide Lines;
    LinesInUse(forms, pins);
    forall pin | pin in pins
      ensures GroupKind(pin.group, pin.kind) in defaults && defaults[GroupKind(pin.group, pin.kind)] == pin.ref
    {
      var j :| 0 <= j < |pins| && pins[j] == pin;
      var i :| OnlyPin(pins, pin.group, pin.kind, i) && pins[i].ref == defaults[GroupKind(pin.group, pin.kind)];
      assert j == i;
    }
    forall g | g in defaults ensures exists f :: f in forms && GroupKind(f.group, f.kind) == g {
      assert GroupKind(defaults[g].group, defaults[g].kind) == g;
    }
  }

  // ---------- binding context ----------

  ghost predicate AcceptedNamesNulFree(definition: FormDefinition)
  {
    forall b | b in definition.accepted :: NulFree(b.name)
  }

  /** What the Definition schema guarantees of the Definitions it lets through: its
      pattern of Binding names admits no NUL. */
  ghost predicate ChecksBindingNames(lib: Library)
  {
    forall version, raw | lib.formDefinition(version, raw).Ok? :: AcceptedNamesNulFree(lib.formDefinition(version, raw).value)
  }

  lemma CompiledNamesNulFree(lib: Library, input: Input, s: Snapshot, key: FormRef)
    requires ChecksBindingNames(lib) && Outcome(lib, input, Ok(s)) && key in s.forms
    ensures AcceptedNamesNulFree(s.forms[key].definition)
  {
    hide Outcome, SnapshotClosed, AcceptedNamesNulFree, HoldsInterfaces, HoldsBindings, PackageStands;
    CompiledIsClosed(lib, input, s);
    var a :| a in input.packages && PackageStands(lib, a) && key == a.package.ref && IsFormOf(lib, a, s.forms[key]);
    assert lib.formDefinition(a.package.apiVersion, a.package.definition).Ok?;
  }

  lemma ClosedNamesNulFree(lib: Library, definition: FormDefinition, forms: Forms, interfaces: Interfaces, bindings: Bindings)
    requires FormClosed(lib, definition, forms, interfaces, bindings) && AcceptedNamesNulFree(definition)
    ensures NamesNulFree(CollectAll(DesiredDocument(lib, definition)))
  {
    hide CollectAll, NulFree, Mentions, BoundTo;
    var annotations := CollectAll(DesiredDocument(lib, definition));
    forall a | a in annotations.bindings ensures NulFree(a.name) {
      var i :| OnlyNamed(definition.accepted, a.name, i);
      assert definition.accepted[i] in definition.accepted;
    }
  }

  /** Whatever is required at any place a desired schema reaches, by its parts or
      through references, is in the snapshot, and under a binding it is that
      binding's target. */
  lemma RequirementsMeetTheirBinding(lib: Library, input: Input, s: Snapshot, key: FormRef, at: Place)
    requires ChecksBindingNames(lib) && Outcome(lib, input, Ok(s)) && key in s.forms
    requires Visited(DesiredDocument(lib, s.forms[key].definition), at)
    ensures forall a | Requires(DesiredDocument(lib, s.forms[key].definition), at, a) ::
              a.ref in s.interfaces
              && (a.bindingName != "" ==> BoundTo(s.forms[key].definition.accepted, s.bindings, a.bindingName, a.ref))
    ensures forall a | Binds(at, a) :: exists i :: OnlyNamed(s.forms[key].definition.accepted, a.name, i)
  {
    hide Outcome, Reachable, Visited, Requires, Binds, RequirementsAt, BindingsAt, CollectAll, BoundTo, OnlyNamed, Mentions, NamesNulFree,
         AcceptedNamesNulFree, ChecksBindingNames, HoldsPackages, HoldsInterfaces, HoldsBindings, LineClosed, BindingClosed, Requirable, Ordered;
    var definition := s.forms[key].definition;
    var document := DesiredDocument(lib, definition);
    CompiledIsClosed(lib, input, s);
    CompiledNamesNulFree(lib, input, s, key);
    ClosedNamesNulFree(lib, definition, s.forms, s.interfaces, s.bindings);
    VisitedIff(document, at);
    ReachableIsRecorded(document, at);
    forall a ensures Requires(document, at, a) <==> a in RequirementsAt(document, at) { RequiresIff(document, at, a); }
    forall a ensures Binds(at, a) <==> a in BindingsAt(at) { BindsIff(at, a); }
  }
}
