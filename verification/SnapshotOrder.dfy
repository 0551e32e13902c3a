/** Compilation does not see the order of its input. Permuting packages,
    Interfaces, Bindings and pins gives the identical list of diagnostics, or the
    same graph; and the same snapshot, digest included, when the Forms have one
    order. */
module SnapshotOrder {
  import opened Wrappers
  import opened JsonModel
  import opened Ordering
  import opened Identities
  import opened SnapshotGraph

  ghost predicate Permuted(a: Input, b: Input)
  {
    && a.hostApi == b.hostApi
    && multiset(a.packages) == multiset(b.packages)
    && multiset(a.interfaces) == multiset(b.interfaces)
    && multiset(a.bindings) == multiset(b.bindings)
    && multiset(a.pins) == multiset(b.pins)
  }

  // ---------- identities and candidates ----------

  lemma InSeq<T(!new)>(xs: seq<T>, ys: seq<T>)
    requires multiset(xs) == multiset(ys)
    ensures forall x :: x in xs <==> x in ys
  {
    forall x ensures x in xs <==> x in ys {
      assert x in multiset(xs) <==> x in multiset(ys);
    }
  }

  lemma KeysPermute<K, C(!new)>(keyOf: C -> K, xs: seq<C>, ys: seq<C>)
    requires multiset(xs) == multiset(ys)
    ensures KeysOf(keyOf, xs) == KeysOf(keyOf, ys)
  {
    InSeq(xs, ys);
    KeysContained(keyOf, xs, ys);
    KeysContained(keyOf, ys, xs);
  }

  lemma KeysContained<K, C>(keyOf: C -> K, xs: seq<C>, ys: seq<C>)
    requires forall x | x in xs :: x in ys
    ensures KeysOf(keyOf, xs) <= KeysOf(keyOf, ys)
  {
    forall k | k in KeysOf(keyOf, xs) ensures k in KeysOf(keyOf, ys) {
      var i :| 0 <= i < |xs| && keyOf(xs[i]) == k;
      assert xs[i] in ys;
    }
  }

  lemma CandidatesPermute<K, C>(keyOf: C -> K, xs: seq<C>, ys: seq<C>, key: K)
    requires multiset(xs) == multiset(ys)
    ensures multiset(Candidates(keyOf, xs, key)) == multiset(Candidates(keyOf, ys, key))
    ensures |Candidates(keyOf, xs, key)| == |Candidates(keyOf, ys, key)|
    ensures |Candidates(keyOf, xs, key)| == 1 ==> Candidates(keyOf, xs, key) == Candidates(keyOf, ys, key)
  {
    FlatMapPermutes(HasKey(keyOf, key), xs, ys);
    SameLength(Candidates(keyOf, xs, key), Candidates(keyOf, ys, key));
    SingletonPermutes(Candidates(keyOf, xs, key), Candidates(keyOf, ys, key));
  }

  lemma SingletonPermutes<C>(xs: seq<C>, ys: seq<C>)
    requires multiset(xs) == multiset(ys) && |xs| == |ys|
    ensures |xs| == 1 ==> xs == ys
  {
    if |xs| == 1 {
      assert xs[0] in multiset(ys);
      assert xs == [xs[0]] && ys == [ys[0]];
    }
  }

  lemma SelectedPermutes<K, C(!new)>(keyOf: C -> K, xs: seq<C>, ys: seq<C>)
    requires multiset(xs) == multiset(ys)
    ensures Selected(keyOf, xs) == Selected(keyOf, ys)
  {
    hide Selected;
    SelectedContained(keyOf, xs, ys);
    SelectedContained(keyOf, ys, xs);
    var left, right := Selected(keyOf, xs), Selected(keyOf, ys);
    assert left.Keys == right.Keys;
    assert left == right;
  }

  lemma SelectedContained<K, C(!new)>(keyOf: C -> K, xs: seq<C>, ys: seq<C>)
    requires multiset(xs) == multiset(ys)
    ensures forall key | key in Selected(keyOf, xs) ::
              key in Selected(keyOf, ys) && Selected(keyOf, xs)[key] == Selected(keyOf, ys)[key]
  {
    hide Candidates, KeysOf;
    KeysPermute(keyOf, xs, ys);
    forall key | key in Selected(keyOf, xs)
      ensures key in Selected(keyOf, ys) && Selected(keyOf, xs)[key] == Selected(keyOf, ys)[key]
    {
      CandidatesPermute(keyOf, xs, ys, key);
    }
  }

  lemma DuplicatePermutes<K, C>(lib: Library, n: Naming<K, C>, xs: seq<C>, ys: seq<C>, key: K)
    requires multiset(xs) == multiset(ys)
    ensures Duplicate(lib, n, xs)(key) == Duplicate(lib, n, ys)(key)
  {
    hide BytesLess;
    CandidatesPermute(n.keyOf, xs, ys, key);
    var originsX := FlatMap(OneOrigin(n.originOf), Candidates(n.keyOf, xs, key));
    var originsY := FlatMap(OneOrigin(n.originOf), Candidates(n.keyOf, ys, key));
    FlatMapPermutes(OneOrigin(n.originOf), Candidates(n.keyOf, xs, key), Candidates(n.keyOf, ys, key));
    BytesOrder();
    SortIsUnique(BytesLess, originsX, originsY, set o | o in originsX);
  }

  /** The duplicate check visits the same identities and finds the same. */
  lemma DuplicatesPermute<K, C>(lib: Library, n: Naming<K, C>, xs: seq<C>, ys: seq<C>, keysX: seq<K>, keysY: seq<K>)
    requires multiset(xs) == multiset(ys) && multiset(keysX) == multiset(keysY)
    ensures multiset(FlatMap(Duplicate(lib, n, xs), keysX)) == multiset(FlatMap(Duplicate(lib, n, ys), keysY))
  {
    hide Duplicate;
    forall key | key in keysX ensures Duplicate(lib, n, xs)(key) == Duplicate(lib, n, ys)(key) {
      DuplicatePermutes(lib, n, xs, ys, key);
    }
    FlatMapCongruent(Duplicate(lib, n, xs), Duplicate(lib, n, ys), keysX);
    FlatMapPermutes(Duplicate(lib, n, ys), keysX, keysY);
  }

  // ---------- pins ----------

  lemma PinsPermute(lib: Library, forms: Forms, a: seq<DefaultPin>, b: seq<DefaultPin>, g: GroupKind)
    requires multiset(a) == multiset(b)
    ensures DefaultFor(lib, forms, a, g) == DefaultFor(lib, forms, b, g)
  {
    CandidatesPermute(PinLine, a, b, g);
  }

  lemma LinesPermute(forms: set<FormRef>, a: seq<DefaultPin>, b: seq<DefaultPin>)
    requires multiset(a) == multiset(b)
    ensures Lines(forms, a) == Lines(forms, b)
  {
    KeysPermute(PinLine, a, b);
  }

  lemma DefaultsPermute(lib: Library, forms: Forms, a: seq<DefaultPin>, b: seq<DefaultPin>)
    requires multiset(a) == multiset(b)
    ensures Defaults(lib, forms, a) == Defaults(lib, forms, b)
    ensures FlatMap(DefaultProblem(lib, forms, a), Ordered(LessGroupKind, Lines(forms.Keys, a))) ==
            FlatMap(DefaultProblem(lib, forms, b), Ordered(LessGroupKind, Lines(forms.Keys, b)))
  {
    hide DefaultFor, Lines, Ordered, LessGroupKind;
    LinesPermute(forms.Keys, a, b);
    forall g ensures DefaultFor(lib, forms, a, g) == DefaultFor(lib, forms, b, g) {
      PinsPermute(lib, forms, a, b, g);
    }
    FlatMapCongruent(DefaultProblem(lib, forms, a), DefaultProblem(lib, forms, b), Ordered(LessGroupKind, Lines(forms.Keys, a)));
  }

  // ---------- stages ----------

  ghost predicate SameFindings(a: seq<seq<Diagnostic>>, b: seq<seq<Diagnostic>>)
  {
    |a| == |b| && forall i | 0 <= i < |a| :: multiset(a[i]) == multiset(b[i])
  }

  lemma {:induction false} FirstFindingsPermute(a: seq<seq<Diagnostic>>, b: seq<seq<Diagnostic>>)
    requires SameFindings(a, b)
    ensures multiset(FirstNonEmpty(a)) == multiset(FirstNonEmpty(b))
  {
    if a != [] {
      SameLength(a[0], b[0]);
      assert SameFindings(a[1..], b[1..]);
      FirstFindingsPermute(a[1..], b[1..]);
    }
  }

  lemma CompiledPermute(lib: Library, a: Input, b: Input)
    requires Permuted(a, b)
    ensures multiset(CompiledForms(lib, a.packages)) == multiset(CompiledForms(lib, b.packages))
    ensures multiset(CompiledInterfaces(lib, a.interfaces)) == multiset(CompiledInterfaces(lib, b.interfaces))
    ensures multiset(CompiledBindings(lib, a.bindings)) == multiset(CompiledBindings(lib, b.bindings))
    ensures multiset(FlatMap(Failures(FormCompiler(lib)), a.packages)) == multiset(FlatMap(Failures(FormCompiler(lib)), b.packages))
    ensures multiset(FlatMap(Failures(InterfaceCompiler(lib)), a.interfaces)) == multiset(FlatMap(Failures(InterfaceCompiler(lib)), b.interfaces))
    ensures multiset(FlatMap(Failures(BindingCompiler(lib)), a.bindings)) == multiset(FlatMap(Failures(BindingCompiler(lib)), b.bindings))
  {
    FlatMapPermutes(Successes(FormCompiler(lib)), a.packages, b.packages);
    FlatMapPermutes(Successes(InterfaceCompiler(lib)), a.interfaces, b.interfaces);
    FlatMapPermutes(Successes(BindingCompiler(lib)), a.bindings, b.bindings);
    FlatMapPermutes(Failures(FormCompiler(lib)), a.packages, b.packages);
    FlatMapPermutes(Failures(InterfaceCompiler(lib)), a.interfaces, b.interfaces);
    FlatMapPermutes(Failures(BindingCompiler(lib)), a.bindings, b.bindings);
  }

  lemma SelectionsPermute(lib: Library, a: Input, b: Input)
    requires Permuted(a, b)
    ensures SelectedForms(lib, a) == SelectedForms(lib, b)
    ensures SelectedInterfaces(lib, a) == SelectedInterfaces(lib, b)
    ensures SelectedBindings(lib, a) == SelectedBindings(lib, b)
    ensures FormIdentities(lib, a) == FormIdentities(lib, b)
    ensures KeysOf(InterfaceKey, CompiledInterfaces(lib, a.interfaces)) == KeysOf(InterfaceKey, CompiledInterfaces(lib, b.interfaces))
    ensures KeysOf(BindingKey, CompiledBindings(lib, a.bindings)) == KeysOf(BindingKey, CompiledBindings(lib, b.bindings))
  {
    hide Selected, CompiledForms, CompiledInterfaces, CompiledBindings, KeysOf;
    CompiledPermute(lib, a, b);
    SelectedPermutes(FormKey, CompiledForms(lib, a.packages), CompiledForms(lib, b.packages));
    SelectedPermutes(InterfaceKey, CompiledInterfaces(lib, a.interfaces), CompiledInterfaces(lib, b.interfaces));
    SelectedPermutes(BindingKey, CompiledBindings(lib, a.bindings), CompiledBindings(lib, b.bindings));
    KeysPermute(FormKey, CompiledForms(lib, a.packages), CompiledForms(lib, b.packages));
    KeysPermute(InterfaceKey, CompiledInterfaces(lib, a.interfaces), CompiledInterfaces(lib, b.interfaces));
    KeysPermute(BindingKey, CompiledBindings(lib, a.bindings), CompiledBindings(lib, b.bindings));
  }

  lemma ThreeFindings(a0: seq<Diagnostic>, a0': seq<Diagnostic>, a1: seq<Diagnostic>, a1': seq<Diagnostic>, a2: seq<Diagnostic>,
                      b0: seq<Diagnostic>, b0': seq<Diagnostic>, b1: seq<Diagnostic>, b1': seq<Diagnostic>)
    requires multiset(a0) == multiset(b0) && multiset(a0') == multiset(b0')
    requires multiset(a1) == multiset(b1) && multiset(a1') == multiset(b1')
    ensures SameFindings([a0 + a0', a1 + a1', a2], [b0 + b0', b1 + b1', a2])
  {
  }

  lemma ContractStagesPermute(lib: Library, a: Input, b: Input)
    requires Permuted(a, b)
    ensures SameFindings(ContractStages(lib, a), ContractStages(lib, b))
  {
    hide FlatMap, CompiledInterfaces, CompiledBindings, KeysOf, SelectedInterfaces, SelectedBindings, Duplicate, BindingProblems, Ordered,
         Failures, LessContract, SameFindings;
    CompiledPermute(lib, a, b);
    SelectionsPermute(lib, a, b);
    var ia, ib := CompiledInterfaces(lib, a.interfaces), CompiledInterfaces(lib, b.interfaces);
    var ba, bb := CompiledBindings(lib, a.bindings), CompiledBindings(lib, b.bindings);
    var interfaceOrder, bindingOrder := Ordered(LessContract, KeysOf(InterfaceKey, ia)), Ordered(LessContract, KeysOf(BindingKey, ba));
    DuplicatesPermute(lib, INTERFACES, ia, ib, interfaceOrder, interfaceOrder);
    DuplicatesPermute(lib, BINDINGS, ba, bb, bindingOrder, bindingOrder);
    ThreeFindings(
      FlatMap(Failures(InterfaceCompiler(lib)), a.interfaces), FlatMap(Failures(BindingCompiler(lib)), a.bindings),
      FlatMap(Duplicate(lib, INTERFACES, ia), interfaceOrder), FlatMap(Duplicate(lib, BINDINGS, ba), bindingOrder),
      FlatMap(BindingProblems(lib, SelectedInterfaces(lib, a), SelectedBindings(lib, a)), bindingOrder),
      FlatMap(Failures(InterfaceCompiler(lib)), b.interfaces), FlatMap(Failures(BindingCompiler(lib)), b.bindings),
      FlatMap(Duplicate(lib, INTERFACES, ib), interfaceOrder), FlatMap(Duplicate(lib, BINDINGS, bb), bindingOrder));
  }

  lemma FormStagesPermute(lib: Library, a: Input, b: Input, forms: Forms, interfaces: Interfaces, bindings: Bindings,
                          ka: seq<FormRef>, kb: seq<FormRef>)
    requires Permuted(a, b) && multiset(ka) == multiset(kb)
    ensures multiset(FlatMap(Duplicate(lib, FORMS, CompiledForms(lib, a.packages)), ka)) ==
            multiset(FlatMap(Duplicate(lib, FORMS, CompiledForms(lib, b.packages)), kb))
    ensures multiset(FlatMap(ReferenceProblems(lib, forms, interfaces, bindings), ka)) ==
            multiset(FlatMap(ReferenceProblems(lib, forms, interfaces, bindings), kb))
    ensures multiset(FlatMap(LaneProblems(lib, a.hostApi, forms), ka)) == multiset(FlatMap(LaneProblems(lib, a.hostApi, forms), kb))
    ensures multiset(FlatMap(TargetProblems(lib, forms), ka)) == multiset(FlatMap(TargetProblems(lib, forms), kb))
  {
    hide CompiledForms, Duplicate, ReferenceProblems, LaneProblems, TargetProblems;
    CompiledPermute(lib, a, b);
    DuplicatesPermute(lib, FORMS, CompiledForms(lib, a.packages), CompiledForms(lib, b.packages), ka, kb);
    FlatMapPermutes(ReferenceProblems(lib, forms, interfaces, bindings), ka, kb);
    FlatMapPermutes(LaneProblems(lib, a.hostApi, forms), ka, kb);
    FlatMapPermutes(TargetProblems(lib, forms), ka, kb);
  }

  lemma SevenFindings(a0: seq<Diagnostic>, a1: seq<Diagnostic>, a2: seq<Diagnostic>, a3: seq<Diagnostic>, a4: seq<Diagnostic>,
                      a5: seq<Diagnostic>, a6: seq<Diagnostic>,
                      b0: seq<Diagnostic>, b1: seq<Diagnostic>, b2: seq<Diagnostic>, b3: seq<Diagnostic>, b4: seq<Diagnostic>,
                      b5: seq<Diagnostic>)
    requires multiset(a0) == multiset(b0) && multiset(a1) == multiset(b1) && multiset(a2) == multiset(b2)
    requires multiset(a3) == multiset(b3) && multiset(a4) == multiset(b4) && multiset(a5) == multiset(b5)
    ensures SameFindings([a0, a1, a2, a3, a4, a5, a6], [b0, b1, b2, b3, b4, b5, a6])
  {
  }

  lemma StagesPermute(lib: Library, a: Input, b: Input, ka: seq<FormRef>, kb: seq<FormRef>)
    requires Permuted(a, b) && multiset(ka) == multiset(kb)
    ensures SameFindings(Stages(lib, a, ka), Stages(lib, b, kb))
  {
    hide FlatMap, CompiledForms, SelectedForms, SelectedInterfaces, SelectedBindings, Duplicate, ReferenceProblems, LaneProblems,
         TargetProblems, DefaultProblem, ContractStages, Failures, Ordered, Lines, FirstNonEmpty, SameFindings, KeysOf, LessGroupKind;
    CompiledPermute(lib, a, b);
    SelectionsPermute(lib, a, b);
    var forms, interfaces, bindings := SelectedForms(lib, a), SelectedInterfaces(lib, a), SelectedBindings(lib, a);
    FormStagesPermute(lib, a, b, forms, interfaces, bindings, ka, kb);
    DefaultsPermute(lib, forms, a.pins, b.pins);
    ContractStagesPermute(lib, a, b);
    FirstFindingsPermute(ContractStages(lib, a), ContractStages(lib, b));
    SevenFindings(
      FlatMap(Failures(FormCompiler(lib)), a.packages),
      FlatMap(Duplicate(lib, FORMS, CompiledForms(lib, a.packages)), ka),
      FirstNonEmpty(ContractStages(lib, a)),
      FlatMap(ReferenceProblems(lib, forms, interfaces, bindings), ka),
      FlatMap(LaneProblems(lib, a.hostApi, forms), ka),
      FlatMap(TargetProblems(lib, forms), ka),
      FlatMap(DefaultProblem(lib, forms, a.pins), Ordered(LessGroupKind, Lines(forms.Keys, a.pins))),
      FlatMap(Failures(FormCompiler(lib)), b.packages),
      FlatMap(Duplicate(lib, FORMS, CompiledForms(lib, b.packages)), kb),
      FirstNonEmpty(ContractStages(lib, b)),
      FlatMap(ReferenceProblems(lib, forms, interfaces, bindings), kb),
      FlatMap(LaneProblems(lib, a.hostApi, forms), kb),
      FlatMap(TargetProblems(lib, forms), kb));
  }

  // ---------- the whole compilation ----------

  /** The diagnostics are the identical list, in whichever order the packages came
      and the Forms were visited. */
  lemma ProblemsPermute(lib: Library, a: Input, b: Input, ka: seq<FormRef>, kb: seq<FormRef>)
    requires Permuted(a, b) && multiset(ka) == multiset(kb)
    ensures Problems(lib, a, ka) == Problems(lib, b, kb)
  {
    hide Stages, SameFindings, FirstNonEmpty, LaneProblem;
    StagesPermute(lib, a, b, ka, kb);
    FirstFindingsPermute(Stages(lib, a, ka), Stages(lib, b, kb));
    ReportIsUnique(FirstNonEmpty(Stages(lib, a, ka)), FirstNonEmpty(Stages(lib, b, kb)));
  }

  lemma GraphPermutes(lib: Library, a: Input, b: Input, ka: seq<FormRef>, kb: seq<FormRef>)
    requires Permuted(a, b)
    ensures Graph(lib, a, ka).(ordered := kb) == Graph(lib, b, kb)
  {
    hide SelectedForms, SelectedInterfaces, SelectedBindings, Defaults, KeysOf, CompiledInterfaces, CompiledBindings, Ordered;
    SelectionsPermute(lib, a, b);
    DefaultsPermute(lib, SelectedForms(lib, a), a.pins, b.pins);
  }

  /** Everything of a snapshot but the order of its Forms and the digest that
      covers that order. */
  function Unordered(s: Snapshot): Snapshot
  {
    s.(ordered := [], digest := "")
  }

  /** Two outcomes of permuted inputs: both fail with the same diagnostics, or both
      compile to the same graph, or only their encoding fails; and when the Forms
      have one order the outcomes are equal. */
  lemma OrderIndependence(lib: Library, a: Input, b: Input, ra: Result<Snapshot, seq<Diagnostic>>, rb: Result<Snapshot, seq<Diagnostic>>)
    requires Permuted(a, b) && Outcome(lib, a, ra) && Outcome(lib, b, rb)
    ensures Comparable(lib.parse, FormIdentities(lib, a)) ==> ra == rb
    ensures ra.Ok? && rb.Ok? ==> Unordered(ra.value) == Unordered(rb.value)
    ensures forall keys | multiset(keys) == multiset(FormIdentities(lib, a)) && Problems(lib, a, keys) != [] ::
              ra == Err(Problems(lib, a, keys)) && rb == ra
  {
    hide Problems, Graph, WireOf, FormIdentities, Comparable, Permuted, Ordered;
    IdentitiesPermute(lib, a, b);
    var ka :| Arranged(lib, a, ka) && ra == Compiled(lib, a, ka);
    var kb :| Arranged(lib, b, kb) && rb == Compiled(lib, b, kb);
    ProblemsPermute(lib, a, b, ka, kb);
    GraphPermutes(lib, a, b, ka, kb);
    forall keys | multiset(keys) == multiset(FormIdentities(lib, a)) && Problems(lib, a, keys) != []
      ensures ra == Err(Problems(lib, a, keys)) && rb == ra
    {
      ProblemsPermute(lib, a, b, keys, kb);
      ProblemsPermute(lib, a, b, ka, kb);
    }
    if Comparable(lib.parse, FormIdentities(lib, a)) {
      assert ka == kb;
      WirePermutes(lib, a, b, ka);
    }
    GraphFields(lib, a, ka);
    GraphFields(lib, b, kb);
  }

  lemma IdentitiesPermute(lib: Library, a: Input, b: Input)
    requires Permuted(a, b)
    ensures FormIdentities(lib, a) == FormIdentities(lib, b) && a.hostApi == b.hostApi
  {
    SelectionsPermute(lib, a, b);
  }

  lemma WirePermutes(lib: Library, a: Input, b: Input, keys: seq<FormRef>)
    requires Permuted(a, b)
    ensures Graph(lib, a, keys) == Graph(lib, b, keys)
    ensures WireOf(a, Graph(lib, a, keys)) == WireOf(b, Graph(lib, b, keys))
  {
    hide Graph;
    GraphPermutes(lib, a, b, keys, keys);
    GraphFields(lib, a, keys);
  }

  lemma GraphFields(lib: Library, input: Input, keys: seq<FormRef>)
    ensures Graph(lib, input, keys).ordered == keys && Graph(lib, input, keys).digest == ""
  {
  }
}
