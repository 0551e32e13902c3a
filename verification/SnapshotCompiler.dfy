/** The compiler itself: stages that fill maps and append diagnostics, each proved
    to be the stage it stands for. */
module SnapshotCompiler {
  import opened Wrappers
  import opened JsonModel
  import opened Ordering
  import opened Identities
  import opened ContractAnnotations
  import opened TargetReferences
  import opened SnapshotGraph
  import opened SnapshotClosure
  import Pointers

  // ---------- grouping ----------

  /** The candidates of each identity, as a map. */
  ghost predicate Grouped<K, C>(keyOf: C -> K, compiled: seq<C>, candidates: map<K, seq<C>>)
  {
    && candidates.Keys == KeysOf(keyOf, compiled)
    && forall key | key in candidates :: candidates[key] == Candidates(keyOf, compiled, key)
  }

  lemma GroupedSnoc<K, C>(keyOf: C -> K, compiled: seq<C>, candidates: map<K, seq<C>>, c: C)
    requires Grouped(keyOf, compiled, candidates)
    ensures Grouped(keyOf, compiled + [c], Grown(keyOf, candidates, c))
  {
    hide Candidates, KeysOf;
    var grown := Grown(keyOf, candidates, c);
    KeysOfSnoc(keyOf, compiled, c);
    assert grown.Keys == KeysOf(keyOf, compiled + [c]);
    forall key | key in grown ensures grown[key] == Candidates(keyOf, compiled + [c], key) {
      CandidatesSnoc(keyOf, compiled, c, key);
      if key == keyOf(c) && key !in candidates {
        CandidatesFound(keyOf, compiled, key);
      }
    }
  }

  function Grown<K(==), C>(keyOf: C -> K, candidates: map<K, seq<C>>, c: C): map<K, seq<C>>
  {
    candidates[keyOf(c) := (if keyOf(c) in candidates then candidates[keyOf(c)] else []) + [c]]
  }

  lemma CandidatesSnoc<K, C>(keyOf: C -> K, compiled: seq<C>, c: C, key: K)
    ensures Candidates(keyOf, compiled + [c], key) == Candidates(keyOf, compiled, key) + if key == keyOf(c) then [c] else []
  {
    FlatMapConcat(HasKey(keyOf, key), compiled, [c]);
    assert FlatMap(HasKey(keyOf, key), [c][1..]) == [];
    assert FlatMap(HasKey(keyOf, key), [c]) == HasKey(keyOf, key)(c) + [];
  }

  lemma KeysOfSnoc<K, C>(keyOf: C -> K, compiled: seq<C>, c: C)
    ensures KeysOf(keyOf, compiled + [c]) == KeysOf(keyOf, compiled) + {keyOf(c)}
  {
    var all := compiled + [c];
    assert all[|compiled|] == c;
    forall i | 0 <= i < |compiled| ensures keyOf(compiled[i]) in KeysOf(keyOf, all) {
      assert all[i] == compiled[i];
    }
  }

  lemma NothingGrouped<K, C>(keyOf: C -> K)
    ensures Grouped(keyOf, [], map[])
  {
  }

  /** Compiles every artifact, collecting what it finds and grouping what it gets. */
  method CompileEach<A, K(==), C>(compile: A -> Result<C, Diagnostic>, keyOf: C -> K, artifacts: seq<A>)
    returns (diagnostics: seq<Diagnostic>, candidates: map<K, seq<C>>)
    ensures diagnostics == FlatMap(Failures(compile), artifacts)
    ensures Grouped(keyOf, FlatMap(Successes(compile), artifacts), candidates)
  {
    hide Grouped, Grown;
    diagnostics := [];
    candidates := map[];
    NothingGrouped(keyOf);
    ghost var compiled: seq<C> := [];
    var i := 0;
    while i < |artifacts|
      invariant 0 <= i <= |artifacts|
      invariant diagnostics == FlatMap(Failures(compile), artifacts[..i])
      invariant compiled == FlatMap(Successes(compile), artifacts[..i])
      invariant Grouped(keyOf, compiled, candidates)
    {
      FlatMapSnoc(Failures(compile), artifacts, i);
      FlatMapSnoc(Successes(compile), artifacts, i);
      match compile(artifacts[i]) {
        case Err(d) =>
          diagnostics := diagnostics + [d];
        case Ok(c) =>
          GroupedSnoc(keyOf, compiled, candidates, c);
          candidates := Grown(keyOf, candidates, c);
          compiled := compiled + [c];
      }
      i := i + 1;
    }
    assert artifacts[..i] == artifacts;
  }

  /** The selection among some of the identities. */
  ghost function SelectedAmong<K, C>(keyOf: C -> K, compiled: seq<C>, keys: seq<K>): map<K, C>
  {
    map key | key in keys && |Candidates(keyOf, compiled, key)| == 1 :: Candidates(keyOf, compiled, key)[0]
  }

  lemma SelectedAmongSnoc<K, C>(keyOf: C -> K, compiled: seq<C>, keys: seq<K>, key: K)
    ensures SelectedAmong(keyOf, compiled, keys + [key]) ==
            if |Candidates(keyOf, compiled, key)| == 1 then SelectedAmong(keyOf, compiled, keys)[key := Candidates(keyOf, compiled, key)[0]]
            else SelectedAmong(keyOf, compiled, keys)
  {
    hide Candidates;
  }

  lemma AllSelected<K(!new), C>(keyOf: C -> K, compiled: seq<C>, keys: seq<K>)
    requires Lists(keys, KeysOf(keyOf, compiled))
    ensures SelectedAmong(keyOf, compiled, keys) == Selected(keyOf, compiled)
  {
    hide Candidates, KeysOf;
    ListsMeaning(keys, KeysOf(keyOf, compiled));
  }

  /** Keeps the identities supplied once and reports the others. */
  method SelectUnique<K(==,!new), C>(lib: Library, n: Naming<K, C>, ghost compiled: seq<C>, candidates: map<K, seq<C>>, keys: seq<K>)
    returns (diagnostics: seq<Diagnostic>, table: map<K, C>)
    requires Grouped(n.keyOf, compiled, candidates) && Lists(keys, candidates.Keys)
    ensures diagnostics == FlatMap(Duplicate(lib, n, compiled), keys)
    ensures table == Selected(n.keyOf, compiled)
  {
    hide Candidates, KeysOf, BytesLess, SelectedAmong, FlatMap, Selected;
    diagnostics := [];
    table := map[];
    ListsMeaning(keys, candidates.Keys);
    FlatMapNone(Duplicate(lib, n, compiled));
    NoneSelected(n.keyOf, compiled);
    assert keys[..0] == [];
    var i := 0;
    while i < |keys|
      invariant 0 <= i <= |keys|
      invariant diagnostics == FlatMap(Duplicate(lib, n, compiled), keys[..i])
      invariant table == SelectedAmong(n.keyOf, compiled, keys[..i])
    {
      var key := keys[i];
      FlatMapSnoc(Duplicate(lib, n, compiled), keys, i);
      SelectedAmongSnoc(n.keyOf, compiled, keys[..i], key);
      assert keys[..i + 1] == keys[..i] + [key];
      var matches := candidates[key];
      if |matches| != 1 {
        var origins := OriginsOf(n.originOf, matches);
        diagnostics := diagnostics + [Diagnostic(DuplicateIdentity, n.textOf(key), "",
                                                 lib.say(SuppliedTwice(n.what, |matches|, Sort(BytesLess, origins))))];
      } else {
        table := table[key := matches[0]];
      }
      i := i + 1;
    }
    assert keys[..i] == keys;
    AllSelected(n.keyOf, compiled, keys);
  }

  lemma NoneSelected<K, C>(keyOf: C -> K, compiled: seq<C>)
    ensures SelectedAmong(keyOf, compiled, []) == map[]
  {
  }

  method OriginsOf<C>(originOf: C -> string, matches: seq<C>) returns (origins: seq<string>)
    ensures origins == FlatMap(OneOrigin(originOf), matches)
  {
    origins := [];
    var i := 0;
    while i < |matches|
      invariant 0 <= i <= |matches|
      invariant origins == FlatMap(OneOrigin(originOf), matches[..i])
    {
      FlatMapSnoc(OneOrigin(originOf), matches, i);
      origins := origins + [originOf(matches[i])];
      i := i + 1;
    }
    assert matches[..i] == matches;
  }

  /** Runs one check over a list, in order, collecting what it finds. */
  method CheckEach<T>(check: T -> seq<Diagnostic>, xs: seq<T>) returns (diagnostics: seq<Diagnostic>)
    ensures diagnostics == FlatMap(check, xs)
  {
    diagnostics := [];
    var i := 0;
    while i < |xs|
      invariant 0 <= i <= |xs|
      invariant diagnostics == FlatMap(check, xs[..i])
    {
      FlatMapSnoc(check, xs, i);
      diagnostics := diagnostics + check(xs[i]);
      i := i + 1;
    }
    assert xs[..i] == xs;
  }

  // ---------- contracts ----------

  lemma FirstOfThree<T>(a: seq<T>, b: seq<T>, c: seq<T>)
    ensures FirstNonEmpty([a, b, c]) == if a != [] then a else if b != [] then b else c
  {
    assert [a, b, c][1..] == [b, c] && [b, c][1..] == [c] && [c][1..] == [];
    assert FirstNonEmpty([b, c]) == if b != [] then b else FirstNonEmpty([c]);
  }

  /** The Interfaces and Bindings of the input, or what is wrong with them. */
  method CompileContracts(lib: Library, input: Input)
    returns (interfaces: Interfaces, interfaceOrder: seq<ContractRef>, bindings: Bindings, bindingOrder: seq<ContractRef>,
             diagnostics: seq<Diagnostic>)
    ensures diagnostics == Report(FirstNonEmpty(ContractStages(lib, input)))
    ensures diagnostics == [] ==>
              && interfaces == SelectedInterfaces(lib, input) && bindings == SelectedBindings(lib, input)
              && interfaceOrder == Ordered(LessContract, KeysOf(InterfaceKey, CompiledInterfaces(lib, input.interfaces)))
              && bindingOrder == Ordered(LessContract, KeysOf(BindingKey, CompiledBindings(lib, input.bindings)))
  {
    hide KeysOf, Candidates, Duplicate, BindingProblems, Failures, Successes, Ordered, LessContract, FlatMap, Selected, Report,
         CompileInterface, CompileBinding, FirstNonEmpty;
    interfaces, interfaceOrder, bindings, bindingOrder := map[], [], map[], [];
    ghost var compiledInterfaces := CompiledInterfaces(lib, input.interfaces);
    ghost var compiledBindings := CompiledBindings(lib, input.bindings);
    var interfaceFailures, interfaceCandidates := CompileEach(InterfaceCompiler(lib), InterfaceKey, input.interfaces);
    var bindingFailures, bindingCandidates := CompileEach(BindingCompiler(lib), BindingKey, input.bindings);
    ContractOrder(interfaceCandidates.Keys);
    ContractOrder(bindingCandidates.Keys);
    interfaceOrder := SortedListing(LessContract, interfaceCandidates.Keys);
    bindingOrder := SortedListing(LessContract, bindingCandidates.Keys);
    var interfaceDuplicates, bindingDuplicates;
    interfaceDuplicates, interfaces := SelectUnique(lib, INTERFACES, compiledInterfaces, interfaceCandidates, interfaceOrder);
    bindingDuplicates, bindings := SelectUnique(lib, BINDINGS, compiledBindings, bindingCandidates, bindingOrder);
    FirstOfThree(interfaceFailures + bindingFailures, interfaceDuplicates + bindingDuplicates,
                 FlatMap(BindingProblems(lib, interfaces, bindings), bindingOrder));
    if interfaceFailures + bindingFailures != [] {
      diagnostics := Report(interfaceFailures + bindingFailures);
      ReportKeepsAll(interfaceFailures + bindingFailures);
      return;
    }
    if interfaceDuplicates + bindingDuplicates != [] {
      diagnostics := Report(interfaceDuplicates + bindingDuplicates);
      ReportKeepsAll(interfaceDuplicates + bindingDuplicates);
      return;
    }
    var problems := CheckEach(BindingProblems(lib, interfaces, bindings), bindingOrder);
    diagnostics := Report(problems);
  }

  /** What one Form names among Interfaces and Bindings and does not find. */
  method CheckForm(lib: Library, key: FormRef, definition: FormDefinition, interfaces: Interfaces, bindings: Bindings)
    returns (diagnostics: seq<Diagnostic>)
    ensures diagnostics == FormReferenceProblems(lib, key, definition, interfaces, bindings)
  {
    hide FlatMap, Positions, ProvidedProblem, AcceptedProblem, RequirementProblem, AnnotationProblem, Inside, Collect;
    var provided := CheckEach(ProvidedProblem(lib, key, interfaces), Positions(definition.provided));
    var accepted := CheckEach(AcceptedProblem(lib, key, definition.role, bindings), Positions(definition.accepted));
    var d := DesiredDocument(lib, definition);
    var walker := new AnnotationWalker(d);
    assert Inside(d, d.root, "") by { AnnotationReach.StartIsInside(d); }
    var annotations := walker.WalkNode(d.root, d.pointer, "");
    var requirements := CheckEach(RequirementProblem(lib, key, definition.accepted, interfaces, bindings), annotations.interfaces);
    var names := CheckEach(AnnotationProblem(lib, key, definition.accepted), annotations.bindings);
    diagnostics := provided + accepted + requirements + names;
  }

  method CloseContractReferences(lib: Library, forms: Forms, keys: seq<FormRef>, interfaces: Interfaces, bindings: Bindings)
    returns (diagnostics: seq<Diagnostic>)
    requires forall key | key in keys :: key in forms
    ensures diagnostics == Report(FlatMap(ReferenceProblems(lib, forms, interfaces, bindings), keys))
  {
    hide FormReferenceProblems, Report;
    diagnostics := [];
    ghost var problems := ReferenceProblems(lib, forms, interfaces, bindings);
    var i := 0;
    while i < |keys|
      invariant 0 <= i <= |keys|
      invariant diagnostics == FlatMap(problems, keys[..i])
    {
      FlatMapSnoc(problems, keys, i);
      var found := CheckForm(lib, keys[i], forms[keys[i]].definition, interfaces, bindings);
      diagnostics := diagnostics + found;
      i := i + 1;
    }
    assert keys[..i] == keys;
    diagnostics := Report(diagnostics);
  }

  method CheckTargets(lib: Library, forms: Forms, keys: seq<FormRef>) returns (diagnostics: seq<Diagnostic>)
    requires forall key | key in keys :: key in forms
    ensures diagnostics == FlatMap(TargetProblems(lib, forms), keys)
  {
    hide TargetRefs, TargetProblem;
    diagnostics := [];
    ghost var problems := TargetProblems(lib, forms);
    var i := 0;
    while i < |keys|
      invariant 0 <= i <= |keys|
      invariant diagnostics == FlatMap(problems, keys[..i])
    {
      FlatMapSnoc(problems, keys, i);
      var targets := CollectTargets(lib.decodeForm, forms[keys[i]].definition.desired, "/desiredSchema");
      var found := CheckEach(TargetProblem(lib, keys[i], forms), targets);
      diagnostics := diagnostics + found;
      i := i + 1;
    }
    assert keys[..i] == keys;
  }

  // ---------- defaults ----------

  /** The pins of each group and kind. */
  method GroupPins(pins: seq<DefaultPin>) returns (byLine: map<GroupKind, seq<DefaultPin>>)
    ensures Grouped(PinLine, pins, byLine)
  {
    hide Grouped, Grown;
    byLine := map[];
    NothingGrouped(PinLine);
    var i := 0;
    while i < |pins|
      invariant 0 <= i <= |pins|
      invariant Grouped(PinLine, pins[..i], byLine)
    {
      GroupedSnoc(PinLine, pins[..i], byLine, pins[i]);
      assert pins[..i + 1] == pins[..i] + [pins[i]];
      byLine := Grown(PinLine, byLine, pins[i]);
      i := i + 1;
    }
    assert pins[..i] == pins;
  }

  method CompileDefaults(lib: Library, pins: seq<DefaultPin>, keys: seq<FormRef>, forms: Forms)
    returns (defaults: map<GroupKind, FormRef>, diagnostics: seq<Diagnostic>)
    requires Lists(keys, forms.Keys)
    ensures diagnostics == FlatMap(DefaultProblem(lib, forms, pins), Ordered(LessGroupKind, Lines(forms.Keys, pins)))
    ensures defaults == Defaults(lib, forms, pins)
  {
    hide Ordered, LessGroupKind, FlatMap, DefaultFor, Grouped, KeysOf;
    var byLine := GroupPins(pins);
    PinsOfLine(pins, byLine);
    ListsMeaning(keys, forms.Keys);
    var allLines := (set key | key in keys :: LineOf(key)) + byLine.Keys;
    assert allLines == Lines(forms.Keys, pins);
    GroupKindOrder(allLines);
    var lines := SortedListing(LessGroupKind, allLines);
    ListsMeaning(lines, allLines);
    defaults, diagnostics := map[], [];
    var i := 0;
    FlatMapNone(DefaultProblem(lib, forms, pins));
    assert lines[..0] == [];
    while i < |lines|
      invariant 0 <= i <= |lines|
      invariant diagnostics == FlatMap(DefaultProblem(lib, forms, pins), lines[..i])
      invariant defaults == DefaultsAmong(lib, forms, pins, lines[..i])
    {
      FlatMapSnoc(DefaultProblem(lib, forms, pins), lines, i);
      assert lines[..i + 1] == lines[..i] + [lines[i]];
      var line := lines[i];
      var chosen := ChooseDefault(lib, forms, if line in byLine then byLine[line] else [], pins, line);
      DefaultsAmongSnoc(lib, forms, pins, lines[..i], line);
      match chosen {
        case Err(d) =>
          diagnostics := diagnostics + [d];
        case Ok(ref) =>
          defaults := defaults[line := ref];
      }
      i := i + 1;
    }
    assert lines[..i] == lines;
    AllDefaults(lib, forms, pins, lines);
  }

  lemma PinsOfLine(pins: seq<DefaultPin>, byLine: map<GroupKind, seq<DefaultPin>>)
    requires Grouped(PinLine, pins, byLine)
    ensures byLine.Keys == KeysOf(PinLine, pins)
    ensures forall g :: PinsFor(pins, g) == if g in byLine then byLine[g] else []
  {
    forall g ensures PinsFor(pins, g) == if g in byLine then byLine[g] else [] {
      CandidatesFound(PinLine, pins, g);
    }
  }

  ghost function DefaultsAmong(lib: Library, forms: Forms, pins: seq<DefaultPin>, lines: seq<GroupKind>): map<GroupKind, FormRef>
  {
    map g | g in lines && DefaultFor(lib, forms, pins, g).Ok? :: DefaultFor(lib, forms, pins, g).value
  }

  lemma DefaultsAmongSnoc(lib: Library, forms: Forms, pins: seq<DefaultPin>, lines: seq<GroupKind>, line: GroupKind)
    ensures DefaultsAmong(lib, forms, pins, lines + [line]) ==
            match DefaultFor(lib, forms, pins, line)
            case Ok(ref) => DefaultsAmong(lib, forms, pins, lines)[line := ref]
            case Err(_) => DefaultsAmong(lib, forms, pins, lines)
  {
    hide DefaultFor;
  }

  lemma AllDefaults(lib: Library, forms: Forms, pins: seq<DefaultPin>, lines: seq<GroupKind>)
    requires forall g :: g in lines <==> g in Lines(forms.Keys, pins)
    ensures DefaultsAmong(lib, forms, pins, lines) == Defaults(lib, forms, pins)
  {
    hide DefaultFor, Lines;
  }

  lemma FlatMapNone<A, B>(f: A -> seq<B>)
    ensures FlatMap(f, []) == []
  {
  }

  method ChooseDefault(lib: Library, forms: Forms, linePins: seq<DefaultPin>, ghost pins: seq<DefaultPin>, line: GroupKind)
    returns (r: Result<FormRef, Diagnostic>)
    requires linePins == PinsFor(pins, line)
    ensures r == DefaultFor(lib, forms, pins, line)
  {
    hide PinsFor;
    var subject := line.group + "/" + line.kind;
    if |linePins| == 0 {
      return Err(Diagnostic(MissingDefault, subject, "", lib.say(NoPin)));
    }
    if |linePins| != 1 {
      return Err(Diagnostic(AmbiguousDefault, subject, "", lib.say(ManyPins(|linePins|))));
    }
    var pin := linePins[0];
    if pin.group != pin.ref.group || pin.kind != pin.ref.kind {
      return Err(Diagnostic(AmbiguousDefault, subject, "", lib.say(PinMismatch)));
    }
    if pin.ref !in forms {
      return Err(Diagnostic(UnresolvedReference, subject, "", lib.say(AbsentDefault(pin.ref))));
    }
    return Ok(pin.ref);
  }

  // ---------- compilation ----------

  method EncodeWire(input: Input, s: Snapshot) returns (wire: Wire)
    ensures wire == WireOf(input, s)
  {
    hide LessGroupKind;
    var forms := ListEach(FormLine(s.forms), s.ordered);
    var interfaces := ListEach(InterfaceLine(s.interfaces), s.interfaceOrder);
    var bindings := ListEach(BindingLine(s.bindings), s.bindingOrder);
    GroupKindOrder(s.defaults.Keys);
    var lines := SortedListing(LessGroupKind, s.defaults.Keys);
    var defaults := ListEach(DefaultLine(s.defaults), lines);
    wire := Wire(input.hostApi, forms, interfaces, bindings, defaults);
  }

  method ListEach<A, B>(line: A -> seq<B>, xs: seq<A>) returns (lines: seq<B>)
    ensures lines == FlatMap(line, xs)
  {
    lines := [];
    var i := 0;
    while i < |xs|
      invariant 0 <= i <= |xs|
      invariant lines == FlatMap(line, xs[..i])
    {
      FlatMapSnoc(line, xs, i);
      lines := lines + line(xs[i]);
      i := i + 1;
    }
    assert xs[..i] == xs;
  }

  lemma FirstOfSeven<T>(a: seq<T>, b: seq<T>, c: seq<T>, d: seq<T>, e: seq<T>, f: seq<T>, g: seq<T>)
    ensures FirstNonEmpty([a, b, c, d, e, f, g]) ==
            if a != [] then a else if b != [] then b else if c != [] then c else if d != [] then d
            else if e != [] then e else if f != [] then f else g
  {
    FirstOfThree(e, f, g);
    FirstSkips(d, [e, f, g]);
    FirstSkips(c, [d, e, f, g]);
    FirstSkips(b, [c, d, e, f, g]);
    FirstSkips(a, [b, c, d, e, f, g]);
  }

  lemma FirstSkips<T>(a: seq<T>, rest: seq<seq<T>>)
    ensures FirstNonEmpty([a] + rest) == if a != [] then a else FirstNonEmpty(rest)
  {
    assert ([a] + rest)[1..] == rest;
  }

  /** A stage's findings, reported: what is returned, and whether it ends the run. */
  lemma ReportedStage(found: seq<Diagnostic>)
    ensures Report(found) == [] <==> found == []
    ensures Report(Report(found)) == Report(found)
  {
    ReportKeepsAll(found);
    ReportAgain(found);
  }

  lemma FormsAreSelected(lib: Library, input: Input, keys: seq<FormRef>)
    requires Lists(keys, FormIdentities(lib, input))
    requires FlatMap(Duplicate(lib, FORMS, CompiledForms(lib, input.packages)), keys) == []
    ensures Lists(keys, SelectedForms(lib, input).Keys)
    ensures forall key | key in keys :: key in SelectedForms(lib, input)
  {
    hide FlatMap, CompiledForms, Selected, Duplicate, KeysOf;
    var compiled := CompiledForms(lib, input.packages);
    NoDuplicates(lib, FORMS, compiled, keys);
    SelectedIsTotal(FormKey, compiled);
    ListsMeaning(keys, FormIdentities(lib, input));
  }

  /** What running every stage in turn gives, for some order of visiting the Forms. */
  ghost predicate StagesRun(lib: Library, input: Input, graph: Snapshot, diagnostics: seq<Diagnostic>)
  {
    exists keys ::
      && Arranged(lib, input, keys)
      && diagnostics == Report(FirstNonEmpty(Stages(lib, input, keys)))
      && (diagnostics == [] ==> graph == Graph(lib, input, keys))
  }

  /** Every stage in turn; the first that finds anything is reported. */
  method RunStages(lib: Library, input: Input)
    returns (graph: Snapshot, diagnostics: seq<Diagnostic>)
    ensures StagesRun(lib, input, graph, diagnostics)
  {
    hide FlatMap, Candidates, Duplicate, ReferenceProblems, LaneProblems, TargetProblems, DefaultProblem, ContractStages, Ordered, Lines,
         LessGroupKind, FirstNonEmpty, Selected, KeysOf, Failures, Successes, CompileArtifact, Report, Comparable, LessContract, LessForm,
         Defaults, CompiledInterfaces, CompiledBindings, SelectedInterfaces, SelectedBindings;
    ghost var compiled := CompiledForms(lib, input.packages);
    ghost var identities := FormIdentities(lib, input);
    graph := Snapshot(input.hostApi, "", [], map[], [], map[], [], map[], map[]);
    var failures, candidates := CompileEach(FormCompiler(lib), FormKey, input.packages);
    ghost var keys := Ordered(LessForm(lib.parse), identities);
    FormOrderIff(lib.parse, identities);
    StagesInOrder(lib, input, keys);
    if failures != [] {
      diagnostics := Report(failures);
      ReportedStage(failures);
      return;
    }
    var order := SortedListing(LessForm(lib.parse), candidates.Keys);
    keys := order;
    StagesInOrder(lib, input, keys);
    var duplicates, forms := SelectUnique(lib, FORMS, compiled, candidates, order);
    if duplicates != [] {
      diagnostics := Report(duplicates);
      ReportedStage(duplicates);
      return;
    }
    FormsAreSelected(lib, input, order);
    diagnostics, graph := RunLaterStages(lib, input, order, forms);
  }

  lemma StagesInOrder(lib: Library, input: Input, keys: seq<FormRef>)
    ensures FirstNonEmpty(Stages(lib, input, keys)) ==
            if FlatMap(Failures(FormCompiler(lib)), input.packages) != [] then FlatMap(Failures(FormCompiler(lib)), input.packages)
            else if FlatMap(Duplicate(lib, FORMS, CompiledForms(lib, input.packages)), keys) != [] then
              FlatMap(Duplicate(lib, FORMS, CompiledForms(lib, input.packages)), keys)
            else LaterFindings(lib, input, keys)
  {
    hide FlatMap, Duplicate, ReferenceProblems, LaneProblems, TargetProblems, DefaultProblem, ContractStages, Ordered, Lines,
         LessGroupKind, FirstNonEmpty, SelectedForms, Failures, CompiledForms, SelectedInterfaces, SelectedBindings;
    var forms, interfaces, bindings := SelectedForms(lib, input), SelectedInterfaces(lib, input), SelectedBindings(lib, input);
    FirstOfSeven(
      FlatMap(Failures(FormCompiler(lib)), input.packages),
      FlatMap(Duplicate(lib, FORMS, CompiledForms(lib, input.packages)), keys),
      FirstNonEmpty(ContractStages(lib, input)),
      FlatMap(ReferenceProblems(lib, forms, interfaces, bindings), keys),
      FlatMap(LaneProblems(lib, input.hostApi, forms), keys),
      FlatMap(TargetProblems(lib, forms), keys),
      FlatMap(DefaultProblem(lib, forms, input.pins), Ordered(LessGroupKind, Lines(forms.Keys, input.pins))));
  }

  /** What the stages after the duplicate check find first. */
  ghost function LaterFindings(lib: Library, input: Input, keys: seq<FormRef>): seq<Diagnostic>
  {
    var forms, interfaces, bindings := SelectedForms(lib, input), SelectedInterfaces(lib, input), SelectedBindings(lib, input);
    var contracts := FirstNonEmpty(ContractStages(lib, input));
    var references := FlatMap(ReferenceProblems(lib, forms, interfaces, bindings), keys);
    var lanes := FlatMap(LaneProblems(lib, input.hostApi, forms), keys);
    var targets := FlatMap(TargetProblems(lib, forms), keys);
    if contracts != [] then contracts
    else if references != [] then references
    else if lanes != [] then lanes
    else if targets != [] then targets
    else FlatMap(DefaultProblem(lib, forms, input.pins), Ordered(LessGroupKind, Lines(forms.Keys, input.pins)))
  }

  method RunLaterStages(lib: Library, input: Input, keys: seq<FormRef>, forms: Forms) returns (diagnostics: seq<Diagnostic>, graph: Snapshot)
    requires forms == SelectedForms(lib, input) && Lists(keys, forms.Keys) && forall key | key in keys :: key in forms
    ensures diagnostics == Report(LaterFindings(lib, input, keys))
    ensures diagnostics == [] ==> graph == Graph(lib, input, keys)
  {
    hide FlatMap, ReferenceProblems, LaneProblems, TargetProblems, DefaultProblem, ContractStages, Ordered, Lines, LessGroupKind,
         FirstNonEmpty, SelectedForms, KeysOf, Report, LessContract, Defaults, CompiledInterfaces, CompiledBindings, SelectedInterfaces,
         SelectedBindings;
    graph := Snapshot(input.hostApi, "", keys, forms, [], map[], [], map[], map[]);
    var interfaces, interfaceOrder, bindings, bindingOrder, contracts := CompileContracts(lib, input);
    ReportedStage(FirstNonEmpty(ContractStages(lib, input)));
    if contracts != [] {
      diagnostics := Report(contracts);
      return;
    }
    var references := CloseContractReferences(lib, forms, keys, interfaces, bindings);
    ReportedStage(FlatMap(ReferenceProblems(lib, forms, interfaces, bindings), keys));
    if references != [] {
      diagnostics := Report(references);
      return;
    }
    var lanes := CheckEach(LaneProblems(lib, input.hostApi, forms), keys);
    if lanes != [] {
      diagnostics := Report(lanes);
      ReportedStage(lanes);
      return;
    }
    var targets := CheckTargets(lib, forms, keys);
    if targets != [] {
      diagnostics := Report(targets);
      ReportedStage(targets);
      return;
    }
    var defaults, missing := CompileDefaults(lib, input.pins, keys, forms);
    diagnostics := Report(missing);
    graph := Snapshot(input.hostApi, "", keys, forms, interfaceOrder, interfaces, bindingOrder, bindings, defaults);
  }

  /** Compiles the input. The result is an outcome the specification allows, so it
      is closed, complete and independent of the order of the input. */
  method Compile(lib: Library, input: Input) returns (r: Result<Snapshot, seq<Diagnostic>>)
    ensures Outcome(lib, input, r)
  {
    hide FirstNonEmpty, Stages, Ordered, Report, WireOf, FormIdentities, Comparable, LaneProblem, Lists, Graph;
    var lane := LaneProblem(lib, input.hostApi);
    if lane != [] {
      SomeArrangement(lib, input);
      r := Err(lane);
      return;
    }
    var graph, diagnostics := RunStages(lib, input);
    ghost var keys :| Arranged(lib, input, keys)
                      && diagnostics == Report(FirstNonEmpty(Stages(lib, input, keys)))
                      && (diagnostics == [] ==> graph == Graph(lib, input, keys));
    if diagnostics != [] {
      r := Err(diagnostics);
      return;
    }
    var wire := EncodeWire(input, graph);
    match lib.wireDigest(wire)
    case Err(text) => r := Err([Diagnostic(InvalidInput, "input", "", lib.say(Unencodable(text)))]);
    case Ok(digest) => r := Ok(graph.(digest := digest));
  }

  lemma SomeArrangement(lib: Library, input: Input)
    ensures exists keys :: Arranged(lib, input, keys)
  {
    assert Arranged(lib, input, Ordered(LessForm(lib.parse), FormIdentities(lib, input)));
  }
}
