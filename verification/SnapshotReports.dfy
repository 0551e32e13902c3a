/** What the compiler reports, stage by stage, and what the digest of a snapshot
    covers: every diagnostic with its literal code, subject and pointer. */
module SnapshotReports {
  import opened Wrappers
  import opened JsonModel
  import opened Pointers
  import opened Ordering
  import opened Identities
  import opened ContractAnnotations
  import opened AnnotationReach
  import opened TargetReferences
  import opened SnapshotGraph
  import opened ArtifactRules
  import opened SnapshotClosure

  // ---------- the lane ----------

  /** The served lane passes; the two lanes before it are known and not served. */
  lemma LaneReport(lib: Library, api: string)
    ensures LaneProblem(lib, api) == [] <==> lib.isLane(api) && api == "forms.takoform.com/v1"
    ensures LaneProblem(lib, api) != [] ==>
              && |LaneProblem(lib, api)| == 1
              && var d := LaneProblem(lib, api)[0];
                 && d.subject == "input" && d.pointer == "/hostApi"
                 && (if lib.isLane(api) && (api == "forms.takoform.com/v1beta1" || api == "forms.takoform.com/v1beta4")
                     then d.code == UnsupportedHostApi else d.code == InvalidInput)
  {
  }

  // ---------- identities supplied twice ----------

  lemma SubjectOfForm(f: FormRef)
    ensures FormText(f) == f.group + "/" + f.kind + "@" + f.version + " schema=" + f.digest
  {
  }

  lemma SubjectOfContract(c: ContractRef)
    ensures ContractText(c) == c.apiVersion + "/" + c.name + "@" + c.version + " schema=" + c.digest
  {
  }

  /** An identity that is not compiled exactly once, with the origins of all of them. */
  ghost predicate ReportsTwice<K, C>(lib: Library, n: Naming<K, C>, compiled: seq<C>, key: K, d: Diagnostic)
  {
    var matches := Candidates(n.keyOf, compiled, key);
    && |matches| != 1
    && d.code == DuplicateIdentity && d.subject == n.textOf(key) && d.pointer == ""
    && d.message == lib.say(SuppliedTwice(n.what, |matches|, Sort(BytesLess, FlatMap(OneOrigin(n.originOf), matches))))
  }

  lemma DuplicateReports<K(!new), C>(lib: Library, n: Naming<K, C>, compiled: seq<C>, keys: seq<K>, d: Diagnostic)
    ensures d in FlatMap(Duplicate(lib, n, compiled), keys) <==> exists key :: key in keys && ReportsTwice(lib, n, compiled, key, d)
  {
    hide Candidates, FlatMap, Sort;
    InFlatMap(Duplicate(lib, n, compiled), keys, d);
    forall key ensures d in Duplicate(lib, n, compiled)(key) <==> ReportsTwice(lib, n, compiled, key, d) {
    }
  }

  // ---------- contract references ----------

  ghost predicate ReportsProvided(lib: Library, key: FormRef, provided: seq<ContractRef>, interfaces: Interfaces, d: Diagnostic)
  {
    exists i: nat :: i < |provided| && provided[i] !in interfaces
                && d == Diagnostic(UnresolvedReference, FormText(key), "/providedInterfaces/" + Itoa(i), lib.say(AbsentInterface(provided[i])))
  }

  ghost predicate ReportsAccepted(lib: Library, key: FormRef, role: string, accepted: seq<ContractRef>, bindings: Bindings, d: Diagnostic)
  {
    exists i: nat :: i < |accepted| && d.subject == FormText(key) && d.pointer == "/acceptedBindings/" + Itoa(i)
                && (if accepted[i] !in bindings then d.code == UnresolvedReference && d.message == lib.say(AbsentBinding(accepted[i]))
                    else bindings[accepted[i]].document.sourceRole != role && d.code == InvalidArtifact
                         && d.message == lib.say(RoleDiffers(bindings[accepted[i]].document.sourceRole, role)))
  }

  /** A required Interface is absent, or the one Binding accepted under the name in
      force targets another. */
  ghost predicate ReportsRequirement(lib: Library, key: FormRef, accepted: seq<ContractRef>, interfaces: Interfaces, bindings: Bindings,
                                     a: InterfaceAnnotation, d: Diagnostic)
  {
    && d.subject == FormText(key) && d.pointer == a.pointer
    && if a.ref !in interfaces then d.code == UnresolvedReference && d.message == lib.say(AbsentInterface(a.ref))
       else a.bindingName != "" && d.code == InvalidArtifact
            && exists i :: OnlyNamed(accepted, a.bindingName, i) && accepted[i] in bindings
                           && bindings[accepted[i]].document.target != a.ref
                           && d.message == lib.say(WrongInterface(a.bindingName, a.ref, bindings[accepted[i]].ref, bindings[accepted[i]].document.target))
  }

  ghost predicate ReportsBindingName(lib: Library, key: FormRef, accepted: seq<ContractRef>, a: BindingAnnotation, d: Diagnostic)
  {
    && (forall i :: !OnlyNamed(accepted, a.name, i))
    && d.code == UnresolvedReference && d.subject == FormText(key) && d.pointer == a.pointer
    && exists n :: d.message == lib.say(BindingCount(a.name, n))
  }

  lemma ProvidedReports(lib: Library, key: FormRef, provided: seq<ContractRef>, interfaces: Interfaces, d: Diagnostic)
    ensures d in FlatMap(ProvidedProblem(lib, key, interfaces), Positions(provided)) <==> ReportsProvided(lib, key, provided, interfaces, d)
  {
    hide FlatMap, Itoa, FormText;
    InFlatMap(ProvidedProblem(lib, key, interfaces), Positions(provided), d);
    assert "/providedInterfaces" + "/" == "/providedInterfaces/";
    if ReportsProvided(lib, key, provided, interfaces, d) {
      var i: nat :| i < |provided| && provided[i] !in interfaces
                    && d == Diagnostic(UnresolvedReference, FormText(key), "/providedInterfaces/" + Itoa(i), lib.say(AbsentInterface(provided[i])));
      assert Positions(provided)[i] in Positions(provided);
    }
  }

  lemma AcceptedReports(lib: Library, key: FormRef, role: string, accepted: seq<ContractRef>, bindings: Bindings, d: Diagnostic)
    ensures d in FlatMap(AcceptedProblem(lib, key, role, bindings), Positions(accepted)) <==> ReportsAccepted(lib, key, role, accepted, bindings, d)
  {
    hide FlatMap, Itoa, FormText;
    InFlatMap(AcceptedProblem(lib, key, role, bindings), Positions(accepted), d);
    assert "/acceptedBindings" + "/" == "/acceptedBindings/";
    forall i: nat | i < |accepted|
      ensures Positions(accepted)[i] in Positions(accepted) && ItemPointer("/acceptedBindings", i) == "/acceptedBindings/" + Itoa(i)
    {
    }
  }

  lemma RequirementReports(lib: Library, key: FormRef, accepted: seq<ContractRef>, interfaces: Interfaces, bindings: Bindings,
                           a: InterfaceAnnotation, d: Diagnostic)
    ensures d in RequirementProblem(lib, key, accepted, interfaces, bindings)(a) <==>
            ReportsRequirement(lib, key, accepted, interfaces, bindings, a, d)
  {
    hide AcceptedByName, FormText, OnlyNamed;
    var matches := AcceptedByName(accepted, a.bindingName);
    NamedOnce(accepted, a.bindingName);
    if a.ref in interfaces && a.bindingName != "" && |matches| == 1 {
      var i :| OnlyNamed(accepted, a.bindingName, i);
      NamedAt(accepted, a.bindingName, i);
      forall j | OnlyNamed(accepted, a.bindingName, j) ensures j == i { NamedAt(accepted, a.bindingName, j); }
      assert matches == [accepted[i]];
      var problem := RequirementProblem(lib, key, accepted, interfaces, bindings)(a);
      if accepted[i] !in bindings || bindings[accepted[i]].document.target == a.ref {
        assert problem == [];
        assert !ReportsRequirement(lib, key, accepted, interfaces, bindings, a, d);
      } else {
        var binding := bindings[accepted[i]];
        var report := Diagnostic(InvalidArtifact, FormText(key), a.pointer,
                                 lib.say(WrongInterface(a.bindingName, a.ref, binding.ref, binding.document.target)));
        assert problem == [report];
        assert ReportsRequirement(lib, key, accepted, interfaces, bindings, a, d) <==> d == report;
      }
    } else if a.ref !in interfaces {
      assert RequirementProblem(lib, key, accepted, interfaces, bindings)(a) == [AbsentInterfaceAt(lib, key, a.pointer, a.ref)];
    } else {
      assert RequirementProblem(lib, key, accepted, interfaces, bindings)(a) == [];
    }
  }

  lemma NamedAt(accepted: seq<ContractRef>, name: string, i: int)
    requires OnlyNamed(accepted, name, i)
    ensures 0 <= i < |accepted| && forall j | OnlyNamed(accepted, name, j) :: j == i
  {
  }

  lemma BindingNameReports(lib: Library, key: FormRef, accepted: seq<ContractRef>, a: BindingAnnotation, d: Diagnostic)
    ensures d in AnnotationProblem(lib, key, accepted)(a) ==> ReportsBindingName(lib, key, accepted, a, d)
    ensures (forall i :: !OnlyNamed(accepted, a.name, i)) ==> exists report :: report in AnnotationProblem(lib, key, accepted)(a)
  {
    hide AcceptedByName, FormText;
    NamedOnce(accepted, a.name);
    if forall i :: !OnlyNamed(accepted, a.name, i) {
      assert AnnotationProblem(lib, key, accepted)(a)[0] in AnnotationProblem(lib, key, accepted)(a);
    }
  }

  /** The reports about one Form are those four. */
  lemma FormReports(lib: Library, key: FormRef, definition: FormDefinition, interfaces: Interfaces, bindings: Bindings, d: Diagnostic)
    ensures d in FormReferenceProblems(lib, key, definition, interfaces, bindings) <==>
            var annotations := CollectAll(DesiredDocument(lib, definition));
            || ReportsProvided(lib, key, definition.provided, interfaces, d)
            || ReportsAccepted(lib, key, definition.role, definition.accepted, bindings, d)
            || (exists a :: a in annotations.interfaces && ReportsRequirement(lib, key, definition.accepted, interfaces, bindings, a, d))
            || (exists a :: a in annotations.bindings && d in AnnotationProblem(lib, key, definition.accepted)(a))
  {
    hide FlatMap, CollectAll, Positions, RequirementProblem, AnnotationProblem, ReportsProvided, ReportsAccepted, ReportsRequirement;
    var annotations := CollectAll(DesiredDocument(lib, definition));
    var required := RequirementProblem(lib, key, definition.accepted, interfaces, bindings);
    ProvidedReports(lib, key, definition.provided, interfaces, d);
    AcceptedReports(lib, key, definition.role, definition.accepted, bindings, d);
    InFlatMap(required, annotations.interfaces, d);
    InFlatMap(AnnotationProblem(lib, key, definition.accepted), annotations.bindings, d);
    forall a ensures d in required(a) <==> ReportsRequirement(lib, key, definition.accepted, interfaces, bindings, a, d) {
      RequirementReports(lib, key, definition.accepted, interfaces, bindings, a, d);
    }
  }

  // ---------- bindings ----------

  lemma BindingReports(lib: Library, interfaces: Interfaces, bindings: Bindings, key: ContractRef, d: Diagnostic)
    requires key in bindings
    ensures d in BindingProblems(lib, interfaces, bindings)(key) <==>
            var document := bindings[key].document;
            && d.subject == ContractText(key)
            && (if document.target !in interfaces then
                  d.code == UnresolvedReference && d.pointer == "/targetInterface" && d.message == lib.say(AbsentTarget(document.target))
                else
                  d.code == InvalidArtifact && d.pointer == "/runtimeProjection/operations"
                  && exists o :: o in AllOperations(document) && o !in interfaces[document.target].operations
                                 && d.message == lib.say(AbsentOperation(o, document.target)))
  {
    hide FlatMap, AllOperations, ContractText;
    var document := bindings[key].document;
    if document.target in interfaces {
      InFlatMap(OperationProblem(lib, key, document.target, interfaces[document.target].operations), AllOperations(document), d);
    }
  }

  // ---------- Forms ----------

  lemma LaneReports(lib: Library, served: string, forms: Forms, keys: seq<FormRef>, d: Diagnostic)
    ensures d in FlatMap(LaneProblems(lib, served, forms), keys) <==>
            exists key :: key in keys && key in forms
                          && forms[key].definition.requiresHostApi != "" && !Satisfies(served, forms[key].definition.requiresHostApi)
                          && d == Diagnostic(UnsupportedHostApi, FormText(key), "/requiresHostApi",
                                             lib.say(LaneTooLow(forms[key].definition.requiresHostApi, served)))
  {
    hide FlatMap, Satisfies, FormText;
    InFlatMap(LaneProblems(lib, served, forms), keys, d);
  }

  lemma TargetReports(lib: Library, key: FormRef, forms: Forms, targets: seq<TargetRef>, d: Diagnostic)
    ensures d in FlatMap(TargetProblem(lib, key, forms), targets) <==>
            exists t :: t in targets && t.ref !in forms
                        && d == Diagnostic(UnresolvedReference, FormText(key), t.pointer, lib.say(AbsentForm(t.ref)))
  {
    hide FlatMap, FormText;
    InFlatMap(TargetProblem(lib, key, forms), targets, d);
  }

  // ---------- defaults ----------

  ghost predicate NoPinFor(pins: seq<DefaultPin>, g: GroupKind)
  {
    forall pin | pin in pins :: pin.group != g.group || pin.kind != g.kind
  }

  /** A group and kind without a pin, with several, with one that names a Form of
      another group or kind, or with one that names an absent Form. */
  lemma DefaultReport(lib: Library, forms: Forms, pins: seq<DefaultPin>, g: GroupKind)
    requires DefaultFor(lib, forms, pins, g).Err?
    ensures var d := DefaultFor(lib, forms, pins, g).error;
            && d.subject == g.group + "/" + g.kind && d.pointer == ""
            && (if NoPinFor(pins, g) then d.code == MissingDefault && d.message == lib.say(NoPin)
                else if forall i :: !OnlyPin(pins, g.group, g.kind, i) then d.code == AmbiguousDefault && exists n :: d.message == lib.say(ManyPins(n))
                else exists i :: OnlyPin(pins, g.group, g.kind, i)
                       && if pins[i].ref.group != g.group || pins[i].ref.kind != g.kind
                          then d.code == AmbiguousDefault && d.message == lib.say(PinMismatch)
                          else d.code == UnresolvedReference && pins[i].ref !in forms && d.message == lib.say(AbsentDefault(pins[i].ref)))
  {
    hide PinsFor;
    PinsForLine(pins, g);
    NoPinsForLine(pins, g);
    if |PinsFor(pins, g)| == 1 {
      var i :| OnlyPin(pins, g.group, g.kind, i);
      assert pins[i] in pins;
    }
  }

  lemma NoPinsForLine(pins: seq<DefaultPin>, g: GroupKind)
    ensures |PinsFor(pins, g)| == 0 <==> NoPinFor(pins, g)
  {
    hide Candidates;
    CandidatesFound(PinLine, pins, g);
    forall pin ensures PinLine(pin) == g <==> pin.group == g.group && pin.kind == g.kind {
    }
    if |PinsFor(pins, g)| != 0 {
      var pin := PinsFor(pins, g)[0];
      assert pin in Candidates(PinLine, pins, g);
    }
  }

  // ---------- the stages in their order ----------

  datatype Stage = Packages | FormsTwice | Contracts | ContractsTwice | BindingTargets | References | Lanes | Targets | Pins

  /** The stages, earliest first. */
  function Rank(stage: Stage): nat
  {
    match stage
    case Packages => 0
    case FormsTwice => 1
    case Contracts => 2
    case ContractsTwice => 3
    case BindingTargets => 4
    case References => 5
    case Lanes => 6
    case Targets => 7
    case Pins => 8
  }

  ghost predicate FindsContract(lib: Library, input: Input, d: Diagnostic)
  {
    || (exists a :: a in input.interfaces && CompileInterface(lib, a) == Err(d))
    || (exists a :: a in input.bindings && CompileBinding(lib, a) == Err(d))
  }

  ghost predicate FindsTwice<K, C>(lib: Library, n: Naming<K, C>, compiled: seq<C>, d: Diagnostic)
  {
    exists key :: key in KeysOf(n.keyOf, compiled) && ReportsTwice(lib, n, compiled, key, d)
  }

  /** What a stage finds wrong with an input. */
  ghost predicate Finds(lib: Library, input: Input, stage: Stage, d: Diagnostic)
  {
    var forms, interfaces, bindings := SelectedForms(lib, input), SelectedInterfaces(lib, input), SelectedBindings(lib, input);
    match stage
    case Packages => exists a :: a in input.packages && CompileArtifact(lib, a) == Err(d)
    case FormsTwice => FindsTwice(lib, FORMS, CompiledForms(lib, input.packages), d)
    case Contracts => FindsContract(lib, input, d)
    case ContractsTwice =>
      || FindsTwice(lib, INTERFACES, CompiledInterfaces(lib, input.interfaces), d)
      || FindsTwice(lib, BINDINGS, CompiledBindings(lib, input.bindings), d)
    case BindingTargets => exists key :: key in bindings && d in BindingProblems(lib, interfaces, bindings)(key)
    case References => exists key :: key in forms && d in ReferenceProblems(lib, forms, interfaces, bindings)(key)
    case Lanes => exists key :: key in forms && d in LaneProblems(lib, input.hostApi, forms)(key)
    case Targets => exists key :: key in forms && d in TargetProblems(lib, forms)(key)
    case Pins => exists g :: g in Lines(forms.Keys, input.pins) && DefaultFor(lib, forms, input.pins, g) == Err(d)
  }

  /** The earliest stage that finds anything. */
  ghost predicate FindsFirst(lib: Library, input: Input, stage: Stage, d: Diagnostic)
  {
    Finds(lib, input, stage, d) && forall before, e | Rank(before) < Rank(stage) :: !Finds(lib, input, before, e)
  }

  ghost function StageList(lib: Library, input: Input, keys: seq<FormRef>, stage: Stage): seq<Diagnostic>
  {
    var forms, interfaces, bindings := SelectedForms(lib, input), SelectedInterfaces(lib, input), SelectedBindings(lib, input);
    var compiled, offered := CompiledInterfaces(lib, input.interfaces), CompiledBindings(lib, input.bindings);
    var interfaceOrder := Ordered(LessContract, KeysOf(InterfaceKey, compiled));
    var bindingOrder := Ordered(LessContract, KeysOf(BindingKey, offered));
    match stage
    case Packages => FlatMap(Failures(FormCompiler(lib)), input.packages)
    case FormsTwice => FlatMap(Duplicate(lib, FORMS, CompiledForms(lib, input.packages)), keys)
    case Contracts => FlatMap(Failures(InterfaceCompiler(lib)), input.interfaces) + FlatMap(Failures(BindingCompiler(lib)), input.bindings)
    case ContractsTwice =>
      FlatMap(Duplicate(lib, INTERFACES, compiled), interfaceOrder) + FlatMap(Duplicate(lib, BINDINGS, offered), bindingOrder)
    case BindingTargets => FlatMap(BindingProblems(lib, interfaces, bindings), bindingOrder)
    case References => FlatMap(ReferenceProblems(lib, forms, interfaces, bindings), keys)
    case Lanes => FlatMap(LaneProblems(lib, input.hostApi, forms), keys)
    case Targets => FlatMap(TargetProblems(lib, forms), keys)
    case Pins => FlatMap(DefaultProblem(lib, forms, input.pins), Ordered(LessGroupKind, Lines(forms.Keys, input.pins)))
  }

  lemma FirstStep<T>(x: seq<T>, rest: seq<seq<T>>)
    ensures FirstNonEmpty([x] + rest) == if x != [] then x else FirstNonEmpty(rest)
  {
    assert ([x] + rest)[1..] == rest;
  }

  lemma NestedStages<T>(a: seq<T>, b: seq<T>, c: seq<T>, d: seq<T>, e: seq<T>, rest: seq<seq<T>>)
    ensures FirstNonEmpty([a, b, FirstNonEmpty([c, d, e])] + rest) == FirstNonEmpty([a, b, c, d, e] + rest)
  {
    hide FirstNonEmpty;
    var inner := FirstNonEmpty([c, d, e]);
    assert [c, d, e] == [c] + ([d] + ([e] + []));
    FirstStep(c, [d] + ([e] + []));
    FirstStep(d, [e] + []);
    FirstStep(e, []);
    assert FirstNonEmpty<T>([]) == [] by { NothingFound<T>(); }
    assert [a, b, inner] + rest == [a] + ([b] + ([inner] + rest));
    FirstStep(a, [b] + ([inner] + rest));
    FirstStep(b, [inner] + rest);
    FirstStep(inner, rest);
    assert [a, b, c, d, e] + rest == [a] + ([b] + ([c] + ([d] + ([e] + rest))));
    FirstStep(a, [b] + ([c] + ([d] + ([e] + rest))));
    FirstStep(b, [c] + ([d] + ([e] + rest)));
    FirstStep(c, [d] + ([e] + rest));
    FirstStep(d, [e] + rest);
    FirstStep(e, rest);
  }

  lemma NothingFound<T>()
    ensures FirstNonEmpty<T>([]) == []
  {
  }

  /** The first that is not empty, by its position. */
  ghost predicate FirstAt<T>(stages: seq<seq<T>>, i: int)
  {
    0 <= i < |stages| && stages[i] != [] && forall j | 0 <= j < i :: stages[j] == []
  }

  lemma {:induction false} FirstNonEmptyIn<T>(stages: seq<seq<T>>, x: T)
    ensures x in FirstNonEmpty(stages) <==> exists i :: FirstAt(stages, i) && x in stages[i]
  {
    if stages != [] {
      var rest := stages[1..];
      if stages[0] == [] {
        FirstNonEmptyIn(rest, x);
        forall i ensures FirstAt(stages, i) <==> FirstAt(rest, i - 1) { FirstBehind(stages, i); }
        if i :| FirstAt(rest, i) && x in rest[i] {
          assert FirstAt(stages, i + 1) && stages[i + 1] == rest[i];
        }
        if i :| FirstAt(stages, i) && x in stages[i] {
          assert FirstAt(rest, i - 1) && stages[i] == rest[i - 1];
        }
      } else {
        assert FirstAt(stages, 0);
      }
    }
  }

  lemma FirstBehind<T>(stages: seq<seq<T>>, i: int)
    requires stages != [] && stages[0] == []
    ensures FirstAt(stages, i) <==> FirstAt(stages[1..], i - 1)
  {
    var rest := stages[1..];
    assert forall j | 1 <= j < |stages| :: stages[j] == rest[j - 1];
    if FirstAt(rest, i - 1) {
      forall j | 0 <= j < i ensures stages[j] == [] {
        if j > 0 {
          assert rest[j - 1] == [];
        }
      }
    }
    if FirstAt(stages, i) {
      forall j | 0 <= j < i - 1 ensures rest[j] == [] {
        assert stages[j + 1] == [];
      }
    }
  }

  function StageAt(rank: nat): (stage: Stage)
    requires rank < 9
    ensures Rank(stage) == rank
  {
    match rank
    case 0 => Packages
    case 1 => FormsTwice
    case 2 => Contracts
    case 3 => ContractsTwice
    case 4 => BindingTargets
    case 5 => References
    case 6 => Lanes
    case 7 => Targets
    case _ => Pins
  }

  ghost function StageLists(lib: Library, input: Input, keys: seq<FormRef>): (r: seq<seq<Diagnostic>>)
    ensures |r| == 9 && forall i | 0 <= i < 9 :: r[i] == StageList(lib, input, keys, StageAt(i))
  {
    seq(9, i requires 0 <= i < 9 => StageList(lib, input, keys, StageAt(i)))
  }

  lemma StagesAreListed(lib: Library, input: Input, keys: seq<FormRef>)
    ensures FirstNonEmpty(Stages(lib, input, keys)) == FirstNonEmpty(StageLists(lib, input, keys))
  {
    hide FirstNonEmpty, FlatMap, Ordered, Lines, KeysOf, Selected, CompiledForms, CompiledInterfaces, CompiledBindings, Failures, Duplicate,
         BindingProblems, ReferenceProblems, LaneProblems, TargetProblems, DefaultProblem, LessContract, LessGroupKind, StageList, Stages,
         ContractStages, StageLists;
    var all := StageLists(lib, input, keys);
    StagesAre(lib, input, keys);
    NestedStages(all[0], all[1], all[2], all[3], all[4], all[5..]);
    assert [all[0], all[1], FirstNonEmpty([all[2], all[3], all[4]])] + all[5..] ==
           [all[0], all[1], FirstNonEmpty([all[2], all[3], all[4]]), all[5], all[6], all[7], all[8]];
    assert [all[0], all[1], all[2], all[3], all[4]] + all[5..] == all;
  }

  lemma StagesAre(lib: Library, input: Input, keys: seq<FormRef>)
    ensures var all := StageLists(lib, input, keys);
            Stages(lib, input, keys) ==
            [all[0], all[1], FirstNonEmpty([all[2], all[3], all[4]]), all[5], all[6], all[7], all[8]]
  {
    hide FirstNonEmpty, FlatMap, Ordered, Lines, KeysOf, Selected, CompiledForms, CompiledInterfaces, CompiledBindings, Failures, Duplicate,
         BindingProblems, ReferenceProblems, LaneProblems, TargetProblems, DefaultProblem, LessContract, LessGroupKind;
  }

  lemma RankIsPosition(stage: Stage)
    ensures Rank(stage) < 9 && StageAt(Rank(stage)) == stage
  {
  }

  // ---------- what each stage finds ----------

  lemma FailuresFound<A(!new), C>(compile: A -> Result<C, Diagnostic>, artifacts: seq<A>, d: Diagnostic)
    ensures d in FlatMap(Failures(compile), artifacts) <==> exists a :: a in artifacts && compile(a) == Err(d)
  {
    hide FlatMap;
    InFlatMap(Failures(compile), artifacts, d);
    forall a ensures d in Failures(compile)(a) <==> compile(a) == Err(d) {
    }
  }

  lemma TwiceFound<K(!new), C>(lib: Library, n: Naming<K, C>, compiled: seq<C>, keys: seq<K>, d: Diagnostic)
    requires Lists(keys, KeysOf(n.keyOf, compiled))
    ensures d in FlatMap(Duplicate(lib, n, compiled), keys) <==> FindsTwice(lib, n, compiled, d)
  {
    hide FlatMap, Duplicate, KeysOf, ReportsTwice, Lists;
    ListsMeaning(keys, KeysOf(n.keyOf, compiled));
    DuplicateReports(lib, n, compiled, keys, d);
  }

  /** Only keys that have something of their own give reports. */
  lemma FoundAt<K(!new), C>(f: K -> seq<Diagnostic>, keys: seq<K>, table: map<K, C>, d: Diagnostic)
    requires forall key | key in table :: key in keys
    requires forall key | key !in table :: f(key) == []
    ensures d in FlatMap(f, keys) <==> exists key :: key in table && d in f(key)
  {
    hide FlatMap;
    InFlatMap(f, keys, d);
  }

  lemma SelectedAreKeys<K, C>(keyOf: C -> K, compiled: seq<C>)
    ensures forall key | key in Selected(keyOf, compiled) :: key in KeysOf(keyOf, compiled)
  {
  }

  lemma FormsAreListed(lib: Library, input: Input, keys: seq<FormRef>)
    requires Lists(keys, FormIdentities(lib, input))
    ensures forall key | key in SelectedForms(lib, input) :: key in keys
  {
    hide KeysOf, Selected, CompiledForms, Lists;
    ListsMeaning(keys, FormIdentities(lib, input));
    SelectedAreKeys(FormKey, CompiledForms(lib, input.packages));
  }

  lemma ReferencesFound(lib: Library, input: Input, keys: seq<FormRef>, d: Diagnostic)
    requires Lists(keys, FormIdentities(lib, input))
    ensures d in StageList(lib, input, keys, References) <==> Finds(lib, input, References, d)
  {
    hide FlatMap, Ordered, Lines, KeysOf, Lists, FormIdentities, SelectedForms, SelectedInterfaces, SelectedBindings, FormReferenceProblems, LessContract,
         CompiledForms, CompiledInterfaces, CompiledBindings;
    FormsAreListed(lib, input, keys);
    FoundAt(ReferenceProblems(lib, SelectedForms(lib, input), SelectedInterfaces(lib, input), SelectedBindings(lib, input)), keys, SelectedForms(lib, input), d);
  }

  lemma LanesFound(lib: Library, input: Input, keys: seq<FormRef>, d: Diagnostic)
    requires Lists(keys, FormIdentities(lib, input))
    ensures d in StageList(lib, input, keys, Lanes) <==> Finds(lib, input, Lanes, d)
  {
    hide FlatMap, Ordered, Lines, KeysOf, Lists, FormIdentities, SelectedForms, SelectedInterfaces, SelectedBindings, Satisfies, FormText, LessContract,
         CompiledForms, CompiledInterfaces, CompiledBindings;
    FormsAreListed(lib, input, keys);
    FoundAt(LaneProblems(lib, input.hostApi, SelectedForms(lib, input)), keys, SelectedForms(lib, input), d);
  }

  lemma TargetsFound(lib: Library, input: Input, keys: seq<FormRef>, d: Diagnostic)
    requires Lists(keys, FormIdentities(lib, input))
    ensures d in StageList(lib, input, keys, Targets) <==> Finds(lib, input, Targets, d)
  {
    hide FlatMap, Ordered, Lines, KeysOf, Lists, FormIdentities, SelectedForms, SelectedInterfaces, SelectedBindings, TargetRefs, TargetProblem, LessContract,
         CompiledForms, CompiledInterfaces, CompiledBindings;
    FormsAreListed(lib, input, keys);
    FoundAt(TargetProblems(lib, SelectedForms(lib, input)), keys, SelectedForms(lib, input), d);
  }

  lemma SupplyStageFound(lib: Library, input: Input, keys: seq<FormRef>, d: Diagnostic)
    requires Lists(keys, FormIdentities(lib, input))
    ensures d in StageList(lib, input, keys, Packages) <==> Finds(lib, input, Packages, d)
    ensures d in StageList(lib, input, keys, FormsTwice) <==> Finds(lib, input, FormsTwice, d)
  {
    hide FlatMap, KeysOf, CompileArtifact, Duplicate, Lists, FindsTwice;
    FailuresFound(FormCompiler(lib), input.packages, d);
    TwiceFound(lib, FORMS, CompiledForms(lib, input.packages), keys, d);
  }

  lemma ContractStageFound(lib: Library, input: Input, keys: seq<FormRef>, d: Diagnostic)
    ensures d in StageList(lib, input, keys, Contracts) <==> Finds(lib, input, Contracts, d)
    ensures d in StageList(lib, input, keys, ContractsTwice) <==> Finds(lib, input, ContractsTwice, d)
  {
    hide FlatMap, KeysOf, CompileInterface, CompileBinding, Duplicate, Lists, FindsTwice, CompiledInterfaces, CompiledBindings, Ordered,
         LessContract;
    var compiled, offered := CompiledInterfaces(lib, input.interfaces), CompiledBindings(lib, input.bindings);
    FailuresFound(InterfaceCompiler(lib), input.interfaces, d);
    FailuresFound(BindingCompiler(lib), input.bindings, d);
    TwiceFound(lib, INTERFACES, compiled, Ordered(LessContract, KeysOf(InterfaceKey, compiled)), d);
    TwiceFound(lib, BINDINGS, offered, Ordered(LessContract, KeysOf(BindingKey, offered)), d);
  }

  lemma BindingStageFound(lib: Library, input: Input, keys: seq<FormRef>, d: Diagnostic)
    ensures d in StageList(lib, input, keys, BindingTargets) <==> Finds(lib, input, BindingTargets, d)
  {
    hide FlatMap, KeysOf, Selected, Lists, CompiledInterfaces, CompiledBindings, Ordered, LessContract, SelectedInterfaces;
    var offered := CompiledBindings(lib, input.bindings);
    var order := Ordered(LessContract, KeysOf(BindingKey, offered));
    ListsMeaning(order, KeysOf(BindingKey, offered));
    SelectedAreKeys(BindingKey, offered);
    FoundAt(BindingProblems(lib, SelectedInterfaces(lib, input), SelectedBindings(lib, input)), order, SelectedBindings(lib, input), d);
  }

  lemma PinStageFound(lib: Library, input: Input, keys: seq<FormRef>, d: Diagnostic)
    ensures d in StageList(lib, input, keys, Pins) <==> Finds(lib, input, Pins, d)
  {
    hide FlatMap, KeysOf, Lines, Lists, Ordered, LessGroupKind, SelectedForms, DefaultFor;
    var forms := SelectedForms(lib, input);
    var lines := Ordered(LessGroupKind, Lines(forms.Keys, input.pins));
    ListsMeaning(lines, Lines(forms.Keys, input.pins));
    InFlatMap(DefaultProblem(lib, forms, input.pins), lines, d);
    forall g ensures d in DefaultProblem(lib, forms, input.pins)(g) <==> DefaultFor(lib, forms, input.pins, g) == Err(d) {
    }
  }

  lemma StageFound(lib: Library, input: Input, keys: seq<FormRef>, stage: Stage, d: Diagnostic)
    requires Lists(keys, FormIdentities(lib, input))
    ensures d in StageList(lib, input, keys, stage) <==> Finds(lib, input, stage, d)
  {
    hide StageList, Finds, FormIdentities, Lists;
    match stage
    case Packages => SupplyStageFound(lib, input, keys, d);
    case FormsTwice => SupplyStageFound(lib, input, keys, d);
    case Contracts => ContractStageFound(lib, input, keys, d);
    case ContractsTwice => ContractStageFound(lib, input, keys, d);
    case BindingTargets => BindingStageFound(lib, input, keys, d);
    case References => ReferencesFound(lib, input, keys, d);
    case Lanes => LanesFound(lib, input, keys, d);
    case Targets => TargetsFound(lib, input, keys, d);
    case Pins => PinStageFound(lib, input, keys, d);
  }

  lemma StageEmpty(lib: Library, input: Input, keys: seq<FormRef>, stage: Stage)
    requires Lists(keys, FormIdentities(lib, input))
    ensures StageList(lib, input, keys, stage) == [] <==> forall d :: !Finds(lib, input, stage, d)
  {
    hide StageList, Finds, FormIdentities, Lists;
    forall d ensures d in StageList(lib, input, keys, stage) <==> Finds(lib, input, stage, d) {
      StageFound(lib, input, keys, stage, d);
    }
    if StageList(lib, input, keys, stage) != [] {
      assert StageList(lib, input, keys, stage)[0] in StageList(lib, input, keys, stage);
    }
  }

  /** Under the served lane, what is reported is exactly what the earliest stage that
      finds anything finds. */
  lemma ReportedIff(lib: Library, input: Input, keys: seq<FormRef>, d: Diagnostic)
    requires lib.isLane(input.hostApi) && input.hostApi == "forms.takoform.com/v1" && Lists(keys, FormIdentities(lib, input))
    ensures d in Problems(lib, input, keys) <==> exists stage :: FindsFirst(lib, input, stage, d)
  {
    hide Stages, StageList, StageLists, Finds, FormIdentities, Lists, FirstNonEmpty, StageAt, Rank;
    StagesAreListed(lib, input, keys);
    ReportKeepsAll(FirstNonEmpty(Stages(lib, input, keys)));
    var all := StageLists(lib, input, keys);
    FirstNonEmptyIn(all, d);
    forall stage ensures Rank(stage) < 9 && StageAt(Rank(stage)) == stage { RankIsPosition(stage); }
    forall stage ensures all[Rank(stage)] == [] <==> forall e :: !Finds(lib, input, stage, e) { StageEmpty(lib, input, keys, stage); }
    forall stage ensures d in all[Rank(stage)] <==> Finds(lib, input, stage, d) { StageFound(lib, input, keys, stage, d); }
    if stage :| FindsFirst(lib, input, stage, d) {
      forall j | 0 <= j < Rank(stage) ensures all[j] == [] {
        assert Rank(StageAt(j)) == j && all[j] == all[Rank(StageAt(j))];
        assert forall e :: !Finds(lib, input, StageAt(j), e);
      }
      assert FirstAt(all, Rank(stage));
    }
    if i :| FirstAt(all, i) && d in all[i] {
      var stage := StageAt(i);
      assert Rank(stage) == i;
      forall before, e | Rank(before) < i ensures !Finds(lib, input, before, e) {
        assert all[Rank(before)] == [];
      }
      assert FindsFirst(lib, input, stage, d);
    }
  }

  // ---------- the digest ----------

  /** Two snapshots say the same of everything they serve. */
  ghost predicate SameContents(s: Snapshot, t: Snapshot)
  {
    && s.hostApi == t.hostApi
    && s.ordered == t.ordered && s.forms.Keys == t.forms.Keys
    && (forall key | key in s.forms :: s.forms[key].packageDigest == t.forms[key].packageDigest)
    && s.interfaces.Keys == t.interfaces.Keys
    && s.bindings.Keys == t.bindings.Keys
    && (forall key | key in s.bindings :: s.bindings[key].document.target == t.bindings[key].document.target)
    && s.defaults == t.defaults
  }

  lemma {:induction false} FormLines(forms: Forms, keys: seq<FormRef>)
    requires forall key | key in keys :: key in forms && forms[key].ref == key
    ensures |FlatMap(FormLine(forms), keys)| == |keys|
    ensures forall i | 0 <= i < |keys| :: FlatMap(FormLine(forms), keys)[i] == (keys[i], forms[keys[i]].packageDigest)
  {
    if keys != [] {
      FormLines(forms, keys[1..]);
      assert FormLine(forms)(keys[0]) == [(keys[0], forms[keys[0]].packageDigest)];
      assert forall i | 1 <= i < |keys| :: keys[i] == keys[1..][i - 1];
    }
  }

  lemma {:induction false} InterfaceLines(interfaces: Interfaces, keys: seq<ContractRef>)
    requires forall key | key in keys :: key in interfaces && interfaces[key].ref == key
    ensures FlatMap(InterfaceLine(interfaces), keys) == keys
  {
    if keys != [] {
      InterfaceLines(interfaces, keys[1..]);
      assert InterfaceLine(interfaces)(keys[0]) == [keys[0]];
    }
  }

  lemma {:induction false} BindingLines(bindings: Bindings, keys: seq<ContractRef>)
    requires forall key | key in keys :: key in bindings && bindings[key].ref == key
    ensures |FlatMap(BindingLine(bindings), keys)| == |keys|
    ensures forall i | 0 <= i < |keys| :: FlatMap(BindingLine(bindings), keys)[i] == (keys[i], bindings[keys[i]].document.target)
  {
    if keys != [] {
      BindingLines(bindings, keys[1..]);
      assert BindingLine(bindings)(keys[0]) == [(keys[0], bindings[keys[0]].document.target)];
      assert forall i | 1 <= i < |keys| :: keys[i] == keys[1..][i - 1];
    }
  }

  lemma {:induction false} DefaultLines(defaults: map<GroupKind, FormRef>, keys: seq<GroupKind>)
    requires forall key | key in keys :: key in defaults
    ensures |FlatMap(DefaultLine(defaults), keys)| == |keys|
    ensures forall i | 0 <= i < |keys| :: FlatMap(DefaultLine(defaults), keys)[i] == (keys[i], defaults[keys[i]])
  {
    if keys != [] {
      DefaultLines(defaults, keys[1..]);
      assert DefaultLine(defaults)(keys[0]) == [(keys[0], defaults[keys[0]])];
      assert forall i | 1 <= i < |keys| :: keys[i] == keys[1..][i - 1];
    }
  }

  /** The tables of a snapshot are listed by their orders, each under its own key. */
  ghost predicate Listed(s: Snapshot)
  {
    && Lists(s.ordered, s.forms.Keys) && (forall key | key in s.forms :: s.forms[key].ref == key)
    && Lists(s.interfaceOrder, s.interfaces.Keys) && (forall key | key in s.interfaces :: s.interfaces[key].ref == key)
    && Lists(s.bindingOrder, s.bindings.Keys) && (forall key | key in s.bindings :: s.bindings[key].ref == key)
  }

  lemma SameFirsts<K, V>(lines: seq<(K, V)>, keys: seq<K>, others: seq<K>)
    requires |lines| == |keys| == |others|
    requires forall i | 0 <= i < |lines| :: lines[i].0 == keys[i] && lines[i].0 == others[i]
    ensures keys == others
  {
  }

  lemma FormsInWire(forms: Forms, keys: seq<FormRef>, forms': Forms, keys': seq<FormRef>)
    requires forall key | key in keys :: key in forms && forms[key].ref == key
    requires forall key | key in keys' :: key in forms' && forms'[key].ref == key
    ensures FlatMap(FormLine(forms), keys) == FlatMap(FormLine(forms'), keys') <==>
            keys == keys' && forall key | key in keys :: forms[key].packageDigest == forms'[key].packageDigest
  {
    hide FlatMap, FormLine;
    FormLines(forms, keys);
    FormLines(forms', keys');
    var lines, lines' := FlatMap(FormLine(forms), keys), FlatMap(FormLine(forms'), keys');
    if lines == lines' {
      SameFirsts(lines, keys, keys');
      forall key | key in keys ensures forms[key].packageDigest == forms'[key].packageDigest {
        var i :| 0 <= i < |keys| && keys[i] == key;
        assert lines[i].1 == forms[key].packageDigest && lines'[i].1 == forms'[key].packageDigest;
      }
    }
  }

  lemma BindingsInWire(bindings: Bindings, keys: seq<ContractRef>, bindings': Bindings, keys': seq<ContractRef>)
    requires forall key | key in keys :: key in bindings && bindings[key].ref == key
    requires forall key | key in keys' :: key in bindings' && bindings'[key].ref == key
    ensures FlatMap(BindingLine(bindings), keys) == FlatMap(BindingLine(bindings'), keys') <==>
            keys == keys' && forall key | key in keys :: bindings[key].document.target == bindings'[key].document.target
  {
    hide FlatMap, BindingLine;
    BindingLines(bindings, keys);
    BindingLines(bindings', keys');
    var lines, lines' := FlatMap(BindingLine(bindings), keys), FlatMap(BindingLine(bindings'), keys');
    if lines == lines' {
      SameFirsts(lines, keys, keys');
      forall key | key in keys ensures bindings[key].document.target == bindings'[key].document.target {
        var i :| 0 <= i < |keys| && keys[i] == key;
        assert lines[i].1 == bindings[key].document.target && lines'[i].1 == bindings'[key].document.target;
      }
    }
  }

  lemma DefaultsInWire(s: map<GroupKind, FormRef>, t: map<GroupKind, FormRef>, keys: seq<GroupKind>, others: seq<GroupKind>)
    requires Lists(keys, s.Keys) && Lists(others, t.Keys)
    requires FlatMap(DefaultLine(s), keys) == FlatMap(DefaultLine(t), others)
    ensures s == t
  {
    hide FlatMap;
    ListsMeaning(keys, s.Keys);
    ListsMeaning(others, t.Keys);
    DefaultLines(s, keys);
    DefaultLines(t, others);
    var lines := FlatMap(DefaultLine(s), keys);
    forall i | 0 <= i < |lines| ensures keys[i] == others[i] {
      assert lines[i].0 == keys[i] && lines[i].0 == others[i];
    }
    assert keys == others;
    forall g | g in s ensures g in t && s[g] == t[g] {
      var i :| 0 <= i < |keys| && keys[i] == g;
      assert lines[i].1 == s[g] && lines[i].1 == t[g];
    }
  }

  lemma ListedKeys<K(!new), V>(keys: seq<K>, table: map<K, V>, keys': seq<K>, table': map<K, V>)
    requires Lists(keys, table.Keys) && Lists(keys', table'.Keys)
    ensures forall key :: key in keys <==> key in table
    ensures keys == keys' ==> table.Keys == table'.Keys
  {
    hide Lists;
    ListsMeaning(keys, table.Keys);
    ListsMeaning(keys', table'.Keys);
  }

  lemma FormsCovered(s: Snapshot, t: Snapshot)
    requires Listed(s) && Listed(t)
    ensures FlatMap(FormLine(s.forms), s.ordered) == FlatMap(FormLine(t.forms), t.ordered) <==>
            && s.ordered == t.ordered && s.forms.Keys == t.forms.Keys
            && (forall key | key in s.forms :: s.forms[key].packageDigest == t.forms[key].packageDigest)
  {
    hide FlatMap, Lists, FormLine;
    ListedKeys(s.ordered, s.forms, t.ordered, t.forms);
    ListedKeys(t.ordered, t.forms, s.ordered, s.forms);
    FormsInWire(s.forms, s.ordered, t.forms, t.ordered);
  }

  lemma InterfacesCovered(s: Snapshot, t: Snapshot)
    requires Listed(s) && Listed(t) && (s.interfaces.Keys == t.interfaces.Keys ==> s.interfaceOrder == t.interfaceOrder)
    ensures FlatMap(InterfaceLine(s.interfaces), s.interfaceOrder) == FlatMap(InterfaceLine(t.interfaces), t.interfaceOrder) <==>
            s.interfaces.Keys == t.interfaces.Keys
  {
    hide FlatMap, Lists, InterfaceLine;
    ListedKeys(s.interfaceOrder, s.interfaces, t.interfaceOrder, t.interfaces);
    ListedKeys(t.interfaceOrder, t.interfaces, s.interfaceOrder, s.interfaces);
    InterfaceLines(s.interfaces, s.interfaceOrder);
    InterfaceLines(t.interfaces, t.interfaceOrder);
  }

  lemma BindingsCovered(s: Snapshot, t: Snapshot)
    requires Listed(s) && Listed(t) && (s.bindings.Keys == t.bindings.Keys ==> s.bindingOrder == t.bindingOrder)
    ensures FlatMap(BindingLine(s.bindings), s.bindingOrder) == FlatMap(BindingLine(t.bindings), t.bindingOrder) <==>
            && s.bindings.Keys == t.bindings.Keys
            && (forall key | key in s.bindings :: s.bindings[key].document.target == t.bindings[key].document.target)
  {
    hide FlatMap, Lists, BindingLine;
    ListedKeys(s.bindingOrder, s.bindings, t.bindingOrder, t.bindings);
    ListedKeys(t.bindingOrder, t.bindings, s.bindingOrder, s.bindings);
    BindingsInWire(s.bindings, s.bindingOrder, t.bindings, t.bindingOrder);
  }

  lemma DefaultsCovered(s: Snapshot, t: Snapshot)
    ensures FlatMap(DefaultLine(s.defaults), Ordered(LessGroupKind, s.defaults.Keys)) ==
            FlatMap(DefaultLine(t.defaults), Ordered(LessGroupKind, t.defaults.Keys)) <==>
            s.defaults == t.defaults
  {
    hide FlatMap, Ordered, LessGroupKind, Lists, DefaultLine;
    DefaultsListed(s.defaults);
    DefaultsListed(t.defaults);
    if FlatMap(DefaultLine(s.defaults), Ordered(LessGroupKind, s.defaults.Keys)) ==
       FlatMap(DefaultLine(t.defaults), Ordered(LessGroupKind, t.defaults.Keys)) {
      DefaultsInWire(s.defaults, t.defaults, Ordered(LessGroupKind, s.defaults.Keys), Ordered(LessGroupKind, t.defaults.Keys));
    }
  }

  /** Equal wires and equal contents are the same, when the orders of the contracts
      follow from their keys. */
  lemma WireCovers(a: Input, s: Snapshot, b: Input, t: Snapshot)
    requires Listed(s) && Listed(t) && s.hostApi == a.hostApi && t.hostApi == b.hostApi
    requires s.interfaces.Keys == t.interfaces.Keys ==> s.interfaceOrder == t.interfaceOrder
    requires s.bindings.Keys == t.bindings.Keys ==> s.bindingOrder == t.bindingOrder
    ensures WireOf(a, s) == WireOf(b, t) <==> SameContents(s, t)
  {
    hide FlatMap, Ordered, LessGroupKind, Lists, Listed, FormLine, InterfaceLine, BindingLine, DefaultLine;
    FormsCovered(s, t);
    InterfacesCovered(s, t);
    BindingsCovered(s, t);
    DefaultsCovered(s, t);
  }

  lemma DefaultsListed(defaults: map<GroupKind, FormRef>)
    ensures Lists(Ordered(LessGroupKind, defaults.Keys), defaults.Keys)
  {
  }

  lemma CompiledIsListed(lib: Library, input: Input, s: Snapshot)
    requires Outcome(lib, input, Ok(s))
    ensures Listed(s) && s.hostApi == input.hostApi && lib.wireDigest(WireOf(input, s)) == Ok(s.digest)
  {
    hide Stages, Closed, KeysOf, Ordered, Comparable, Report, Selected, FlatMap, LessContract, Defaults, HoldsPackages, HoldsInterfaces,
         HoldsBindings, Problems;
    CompiledIsClosed(lib, input, s);
    CompiledRefs(lib, input, s);
    assert lib.wireDigest(WireOf(input, s)) == Ok(s.digest) by { CompiledDigest(lib, input, s); }
  }

  lemma CompiledRefs(lib: Library, input: Input, s: Snapshot)
    requires HoldsPackages(lib, input.packages, s.forms) && HoldsInterfaces(lib, input.interfaces, s.interfaces)
    requires HoldsBindings(lib, input.bindings, s.bindings)
    ensures forall key | key in s.forms :: s.forms[key].ref == key
    ensures forall key | key in s.interfaces :: s.interfaces[key].ref == key
    ensures forall key | key in s.bindings :: s.bindings[key].ref == key
  {
    hide IsFormOf, IsInterfaceOf, IsBindingOf, PackageStands, InterfaceStands, BindingStands;
  }

  lemma CompiledDigest(lib: Library, input: Input, s: Snapshot)
    requires Outcome(lib, input, Ok(s))
    ensures lib.wireDigest(WireOf(input, s)) == Ok(s.digest)
  {
    hide Problems, Graph, FlatMap, Ordered, Arranged;
    var keys :| Arranged(lib, input, keys) && Ok(s) == Compiled(lib, input, keys);
    var graph := Graph(lib, input, keys);
    assert s == graph.(digest := s.digest);
    assert WireOf(input, s) == WireOf(input, graph);
  }

  /** Where the digest does not collide on the two, equal digests mean equal lanes,
      Forms with their packages, Interfaces, Bindings with their targets, and defaults. */
  lemma DigestFixesContents(lib: Library, a: Input, s: Snapshot, b: Input, t: Snapshot)
    requires Outcome(lib, a, Ok(s)) && Outcome(lib, b, Ok(t))
    requires lib.wireDigest(WireOf(a, s)) == lib.wireDigest(WireOf(b, t)) ==> WireOf(a, s) == WireOf(b, t)
    ensures s.digest == t.digest <==> SameContents(s, t)
  {
    hide Outcome, Listed, WireOf, SameContents;
    CompiledIsListed(lib, a, s);
    CompiledIsListed(lib, b, t);
    CompiledOrders(lib, a, s);
    CompiledOrders(lib, b, t);
    WireCovers(a, s, b, t);
  }

  lemma CompiledOrders(lib: Library, input: Input, s: Snapshot)
    requires Outcome(lib, input, Ok(s))
    ensures s.interfaceOrder == Ordered(LessContract, s.interfaces.Keys) && s.bindingOrder == Ordered(LessContract, s.bindings.Keys)
  {
    hide Outcome, Closed, Ordered, HoldsPackages, HoldsInterfaces, HoldsBindings;
    CompiledIsClosed(lib, input, s);
  }
}
