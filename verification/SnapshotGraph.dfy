/** What compiling a set of artifacts into one snapshot means: the stages, the
    diagnostics of each, and the graph an accepted input becomes. */
module SnapshotGraph {
  import opened Wrappers
  import opened Digests
  import opened JsonModel
  import opened Ordering
  import opened Identities
  import opened ContractAnnotations
  import opened TargetReferences
  import opened Pointers

  // ---------- artifacts ----------

  datatype PackageFile = PackageFile(path: string, isDefinition: bool)

  /** What a verified package answers about itself. */
  datatype Package = Package(valid: bool, digest: string, apiVersion: string, ref: FormRef,
                             definitionPath: string, files: seq<PackageFile>, definition: string)

  datatype PackageArtifact = PackageArtifact(origin: string, expectedDigest: string, package: Package)

  datatype ContractArtifact = ContractArtifact(origin: string, expectedDigest: string, definition: string)

  datatype DefaultPin = DefaultPin(group: string, kind: string, ref: FormRef)

  datatype Input = Input(hostApi: string, packages: seq<PackageArtifact>, interfaces: seq<ContractArtifact>,
                         bindings: seq<ContractArtifact>, pins: seq<DefaultPin>)

  // ---------- decoded documents ----------

  datatype FormDefinition = FormDefinition(group: string, kind: string, version: string, role: string,
                                           requiresHostApi: string, provided: seq<ContractRef>,
                                           accepted: seq<ContractRef>, desired: Json)

  datatype InterfaceDefinition = InterfaceDefinition(apiVersion: string, name: string, version: string, operations: seq<string>)

  datatype BindingDefinition = BindingDefinition(apiVersion: string, name: string, version: string, sourceRole: string,
                                                 target: ContractRef, operations: seq<string>, accessModes: seq<seq<string>>)

  datatype CompiledForm = CompiledForm(ref: FormRef, packageDigest: string, definition: FormDefinition,
                                       canonical: string, origin: string)

  datatype CompiledInterface = CompiledInterface(ref: ContractRef, canonical: string, origin: string, operations: set<string>)

  datatype CompiledBinding = CompiledBinding(ref: ContractRef, document: BindingDefinition, canonical: string, origin: string)

  /** What the text of a diagnostic is made from. */
  datatype Failure =
    | NotALane(api: string) | UnknownLane(api: string) | UnservedLane(api: string)
    | NotVerified | MalformedDigest(what: string) | DigestDiffers(what: string, actual: string, expected: string)
    | NoDefinitionEntry | Refused(text: string) | RefDiffers(index: FormRef, computed: FormRef)
    | SuppliedTwice(what: string, times: nat, origins: seq<string>)
    | AbsentInterface(ref: ContractRef) | AbsentTarget(ref: ContractRef) | AbsentBinding(ref: ContractRef)
    | AbsentForm(form: FormRef) | AbsentDefault(form: FormRef)
    | AbsentOperation(operation: string, target: ContractRef)
    | RoleDiffers(sourceRole: string, role: string)
    | WrongInterface(name: string, wanted: ContractRef, binding: ContractRef, target: ContractRef)
    | BindingCount(name: string, found: nat)
    | LaneTooLow(required: string, served: string)
    | NoPin | ManyPins(found: nat) | PinMismatch
    | Unencodable(text: string)

  /** What is digested of a snapshot. */
  datatype Wire = Wire(hostApi: string, forms: seq<(FormRef, string)>, interfaces: seq<ContractRef>,
                       bindings: seq<(ContractRef, ContractRef)>, defaults: seq<(GroupKind, FormRef)>)

  /** The code the compiler calls and this model does not look into: wording,
      version reading, strict decoding, schema validation, canonical bytes and
      digests. */
  datatype Library = Library(
    say: Failure -> string,
    parse: Parser,
    blank: string -> bool,
    isLane: string -> bool,
    digestOf: string -> Result<string, string>,
    canonical: string -> Result<string, string>,
    bytesDigest: string -> string,
    formDefinition: (string, string) -> Result<FormDefinition, string>,
    interfaceSchema: string -> Option<string>,
    interfaceDefinition: string -> Result<InterfaceDefinition, string>,
    bindingSchema: string -> Option<string>,
    bindingDefinition: string -> Result<BindingDefinition, string>,
    decodeForm: FormReader,
    decodeContract: Json -> Option<ContractRef>,
    wireDigest: Wire -> Result<string, string>)

  datatype Snapshot = Snapshot(hostApi: string, digest: string,
                               ordered: seq<FormRef>, forms: map<FormRef, CompiledForm>,
                               interfaceOrder: seq<ContractRef>, interfaces: map<ContractRef, CompiledInterface>,
                               bindingOrder: seq<ContractRef>, bindings: map<ContractRef, CompiledBinding>,
                               defaults: map<GroupKind, FormRef>)

  // ---------- Host API lanes ----------

  const SERVED := "forms.takoform.com/v1"

  function LaneOrder(api: string): Option<nat>
  {
    if api == "forms.takoform.com/v1beta1" then Some(1)
    else if api == "forms.takoform.com/v1beta4" then Some(2)
    else if api == SERVED then Some(3)
    else None
  }

  predicate Satisfies(served: string, required: string)
  {
    LaneOrder(served).Some? && LaneOrder(required).Some? && LaneOrder(served).value >= LaneOrder(required).value
  }

  function LaneProblem(lib: Library, api: string): seq<Diagnostic>
  {
    if !lib.isLane(api) then [Diagnostic(InvalidInput, "input", "/hostApi", lib.say(NotALane(api)))]
    else if LaneOrder(api).None? then [Diagnostic(InvalidInput, "input", "/hostApi", lib.say(UnknownLane(api)))]
    else if api != SERVED then [Diagnostic(UnsupportedHostApi, "input", "/hostApi", lib.say(UnservedLane(api)))]
    else []
  }

  // ---------- one artifact ----------

  function FormText(f: FormRef): string
  {
    f.group + "/" + f.kind + "@" + f.version + " schema=" + f.digest
  }

  function ContractText(c: ContractRef): string
  {
    c.apiVersion + "/" + c.name + "@" + c.version + " schema=" + c.digest
  }

  function PackageSubject(lib: Library, a: PackageArtifact): string
  {
    if !lib.blank(a.origin) then a.origin
    else if a.package.valid then "package:" + a.package.digest
    else "package:unverified"
  }

  function ContractSubject(lib: Library, a: ContractArtifact): string
  {
    if !lib.blank(a.origin) then a.origin else "bytes:" + lib.bytesDigest(a.definition)
  }

  predicate HasDefinitionEntry(p: Package)
  {
    exists i :: 0 <= i < |p.files| && p.files[i].path == p.definitionPath && p.files[i].isDefinition
  }

  function CompileArtifact(lib: Library, a: PackageArtifact): Result<CompiledForm, Diagnostic>
  {
    var p := a.package;
    var subject := PackageSubject(lib, a);
    var definitionPointer := "/" + EscapePointerTwoPass(p.definitionPath);
    if !p.valid then
      Err(Diagnostic(InvalidArtifact, subject, "/package", lib.say(NotVerified)))
    else if !ValidDigest(a.expectedDigest) then
      Err(Diagnostic(InvalidArtifact, subject, "/expectedDigest", lib.say(MalformedDigest("package"))))
    else if p.digest != a.expectedDigest then
      Err(Diagnostic(DigestMismatch, subject, "/package-index.json", lib.say(DigestDiffers("package", p.digest, a.expectedDigest))))
    else if !HasDefinitionEntry(p) then
      Err(Diagnostic(InvalidArtifact, subject, "/package-index.json/definitionPath", lib.say(NoDefinitionEntry)))
    else
      match (lib.formDefinition(p.apiVersion, p.definition), lib.digestOf(p.definition), lib.canonical(p.definition))
      case (Err(text), _, _) => Err(Diagnostic(InvalidArtifact, subject, definitionPointer, lib.say(Refused(text))))
      case (_, Err(text), _) => Err(Diagnostic(InvalidArtifact, subject, definitionPointer, lib.say(Refused(text))))
      case (Ok(definition), Ok(digest), canonical) =>
        var ref := FormRef(definition.group, definition.kind, definition.version, digest);
        if ref != p.ref then
          Err(Diagnostic(DigestMismatch, subject, "/package-index.json/formRef", lib.say(RefDiffers(p.ref, ref))))
        else
          match canonical
          case Err(text) => Err(Diagnostic(InvalidArtifact, subject, definitionPointer, lib.say(Refused(text))))
          case Ok(bytes) => Ok(CompiledForm(p.ref, a.expectedDigest, definition, bytes, subject))
  }

  function ContractDigest(lib: Library, what: string, schemaError: Option<string>, a: ContractArtifact): Result<string, Diagnostic>
  {
    var subject := ContractSubject(lib, a);
    if !ValidDigest(a.expectedDigest) then
      Err(Diagnostic(InvalidArtifact, subject, "/expectedDigest", lib.say(MalformedDigest(what))))
    else
      match (schemaError, lib.digestOf(a.definition))
      case (Some(text), _) => Err(Diagnostic(InvalidArtifact, subject, "/definition", lib.say(Refused(text))))
      case (None, Err(text)) => Err(Diagnostic(InvalidArtifact, subject, "/definition", lib.say(Refused(text))))
      case (None, Ok(digest)) =>
        if digest != a.expectedDigest then
          Err(Diagnostic(DigestMismatch, subject, "/definition", lib.say(DigestDiffers(what, digest, a.expectedDigest))))
        else Ok(digest)
  }

  function CompileInterface(lib: Library, a: ContractArtifact): Result<CompiledInterface, Diagnostic>
  {
    var subject := ContractSubject(lib, a);
    match ContractDigest(lib, "Interface", lib.interfaceSchema(a.definition), a)
    case Err(d) => Err(d)
    case Ok(digest) =>
      match (lib.interfaceDefinition(a.definition), lib.canonical(a.definition))
      case (Err(text), _) => Err(Diagnostic(InvalidArtifact, subject, "/definition", lib.say(Refused(text))))
      case (Ok(_), Err(text)) => Err(Diagnostic(InvalidArtifact, subject, "/definition", lib.say(Refused(text))))
      case (Ok(document), Ok(bytes)) =>
        Ok(CompiledInterface(ContractRef(document.apiVersion, document.name, document.version, digest), bytes, subject,
                             set o | o in document.operations))
  }

  function CompileBinding(lib: Library, a: ContractArtifact): Result<CompiledBinding, Diagnostic>
  {
    var subject := ContractSubject(lib, a);
    match ContractDigest(lib, "Binding", lib.bindingSchema(a.definition), a)
    case Err(d) => Err(d)
    case Ok(digest) =>
      match (lib.bindingDefinition(a.definition), lib.canonical(a.definition))
      case (Err(text), _) => Err(Diagnostic(InvalidArtifact, subject, "/definition", lib.say(Refused(text))))
      case (Ok(_), Err(text)) => Err(Diagnostic(InvalidArtifact, subject, "/definition", lib.say(Refused(text))))
      case (Ok(document), Ok(bytes)) =>
        Ok(CompiledBinding(ContractRef(document.apiVersion, document.name, document.version, digest), document, bytes, subject))
  }

  // ---------- many artifacts ----------

  function Successes<A, C>(compile: A -> Result<C, Diagnostic>): A -> seq<C>
  {
    (a: A) => match compile(a) case Ok(c) => [c] case Err(_) => []
  }

  function Failures<A, C>(compile: A -> Result<C, Diagnostic>): A -> seq<Diagnostic>
  {
    (a: A) => match compile(a) case Ok(_) => [] case Err(d) => [d]
  }

  function HasKey<K(==), C>(keyOf: C -> K, key: K): C -> seq<C>
  {
    (c: C) => if keyOf(c) == key then [c] else []
  }

  /** Everything compiled under one identity, in the order it was supplied. */
  function Candidates<K(==), C>(keyOf: C -> K, compiled: seq<C>, key: K): seq<C>
  {
    FlatMap(HasKey(keyOf, key), compiled)
  }

  function KeysOf<K, C>(keyOf: C -> K, compiled: seq<C>): set<K>
  {
    set i | 0 <= i < |compiled| :: keyOf(compiled[i])
  }

  /** What the duplicate check needs to know of a kind of artifact. */
  datatype Naming<!K, !C> = Naming(keyOf: C -> K, textOf: K -> string, originOf: C -> string, what: string)

  function OneOrigin<C>(originOf: C -> string): C -> seq<string>
  {
    (c: C) => [originOf(c)]
  }

  function Duplicate<K(==), C>(lib: Library, n: Naming<K, C>, compiled: seq<C>): K -> seq<Diagnostic>
  {
    (key: K) =>
      var matches := Candidates(n.keyOf, compiled, key);
      if |matches| == 1 then []
      else [Diagnostic(DuplicateIdentity, n.textOf(key), "",
                       lib.say(SuppliedTwice(n.what, |matches|, Sort(BytesLess, FlatMap(OneOrigin(n.originOf), matches)))))]
  }

  /** The one compiled value of each identity, when there is one. */
  function Selected<K(==), C>(keyOf: C -> K, compiled: seq<C>): map<K, C>
  {
    map key | key in KeysOf(keyOf, compiled) && |Candidates(keyOf, compiled, key)| == 1 :: Candidates(keyOf, compiled, key)[0]
  }

  function FormKey(c: CompiledForm): FormRef { c.ref }
  function FormOrigin(c: CompiledForm): string { c.origin }
  function InterfaceKey(c: CompiledInterface): ContractRef { c.ref }
  function InterfaceOrigin(c: CompiledInterface): string { c.origin }
  function BindingKey(c: CompiledBinding): ContractRef { c.ref }
  function BindingOrigin(c: CompiledBinding): string { c.origin }

  const FORMS: Naming<FormRef, CompiledForm> := Naming(FormKey, FormText, FormOrigin, "Form")
  const INTERFACES: Naming<ContractRef, CompiledInterface> := Naming(InterfaceKey, ContractText, InterfaceOrigin, "contract")
  const BINDINGS: Naming<ContractRef, CompiledBinding> := Naming(BindingKey, ContractText, BindingOrigin, "contract")

  function FormCompiler(lib: Library): PackageArtifact -> Result<CompiledForm, Diagnostic>
  {
    (a: PackageArtifact) => CompileArtifact(lib, a)
  }

  function InterfaceCompiler(lib: Library): ContractArtifact -> Result<CompiledInterface, Diagnostic>
  {
    (a: ContractArtifact) => CompileInterface(lib, a)
  }

  function BindingCompiler(lib: Library): ContractArtifact -> Result<CompiledBinding, Diagnostic>
  {
    (a: ContractArtifact) => CompileBinding(lib, a)
  }

  function CompiledForms(lib: Library, packages: seq<PackageArtifact>): seq<CompiledForm>
  {
    FlatMap(Successes(FormCompiler(lib)), packages)
  }

  function CompiledInterfaces(lib: Library, artifacts: seq<ContractArtifact>): seq<CompiledInterface>
  {
    FlatMap(Successes(InterfaceCompiler(lib)), artifacts)
  }

  function CompiledBindings(lib: Library, artifacts: seq<ContractArtifact>): seq<CompiledBinding>
  {
    FlatMap(Successes(BindingCompiler(lib)), artifacts)
  }

  function FormIdentities(lib: Library, input: Input): set<FormRef>
  {
    KeysOf(FormKey, CompiledForms(lib, input.packages))
  }

  // ---------- closing the contracts ----------

  type Forms = map<FormRef, CompiledForm>
  type Interfaces = map<ContractRef, CompiledInterface>
  type Bindings = map<ContractRef, CompiledBinding>

  function AllOperations(b: BindingDefinition): seq<string>
  {
    b.operations + FlatMap((mode: seq<string>) => mode, b.accessModes)
  }

  function OperationProblem(lib: Library, key: ContractRef, target: ContractRef, operations: set<string>): string -> seq<Diagnostic>
  {
    (operation: string) =>
      if operation in operations then []
      else [Diagnostic(InvalidArtifact, ContractText(key), "/runtimeProjection/operations",
                       lib.say(AbsentOperation(operation, target)))]
  }

  function BindingProblems(lib: Library, interfaces: Interfaces, bindings: Bindings): ContractRef -> seq<Diagnostic>
  {
    (key: ContractRef) =>
      if key !in bindings then []
      else
        var document := bindings[key].document;
        if document.target !in interfaces then
          [Diagnostic(UnresolvedReference, ContractText(key), "/targetInterface", lib.say(AbsentTarget(document.target)))]
        else
          FlatMap(OperationProblem(lib, key, document.target, interfaces[document.target].operations), AllOperations(document))
  }

  function Positions<T>(xs: seq<T>): (r: seq<(nat, T)>)
    ensures |r| == |xs| && forall i | 0 <= i < |xs| :: r[i] == (i, xs[i])
  {
    seq(|xs|, i requires 0 <= i < |xs| => (i, xs[i]))
  }

  function ProvidedProblem(lib: Library, key: FormRef, interfaces: Interfaces): ((nat, ContractRef)) -> seq<Diagnostic>
  {
    (at: (nat, ContractRef)) =>
      if at.1 in interfaces then []
      else [AbsentInterfaceAt(lib, key, ItemPointer("/providedInterfaces", at.0), at.1)]
  }

  function AbsentInterfaceAt(lib: Library, key: FormRef, pointer: string, ref: ContractRef): Diagnostic
  {
    Diagnostic(UnresolvedReference, FormText(key), pointer, lib.say(AbsentInterface(ref)))
  }

  function AcceptedProblem(lib: Library, key: FormRef, role: string, bindings: Bindings): ((nat, ContractRef)) -> seq<Diagnostic>
  {
    (at: (nat, ContractRef)) =>
      var pointer := ItemPointer("/acceptedBindings", at.0);
      if at.1 !in bindings then
        [Diagnostic(UnresolvedReference, FormText(key), pointer, lib.say(AbsentBinding(at.1)))]
      else if bindings[at.1].document.sourceRole != role then
        [Diagnostic(InvalidArtifact, FormText(key), pointer, lib.say(RoleDiffers(bindings[at.1].document.sourceRole, role)))]
      else []
  }

  function Named(name: string): ContractRef -> seq<ContractRef>
  {
    (b: ContractRef) => if b.name == name then [b] else []
  }

  /** The accepted Bindings of one name. */
  function AcceptedByName(accepted: seq<ContractRef>, name: string): seq<ContractRef>
  {
    FlatMap(Named(name), accepted)
  }

  function RequirementProblem(lib: Library, key: FormRef, accepted: seq<ContractRef>, interfaces: Interfaces, bindings: Bindings):
    InterfaceAnnotation -> seq<Diagnostic>
  {
    (a: InterfaceAnnotation) =>
      if a.ref !in interfaces then [AbsentInterfaceAt(lib, key, a.pointer, a.ref)]
      else if a.bindingName == "" then []
      else
        var matches := AcceptedByName(accepted, a.bindingName);
        if |matches| != 1 || matches[0] !in bindings then []
        else
          var binding := bindings[matches[0]];
          if a.ref == binding.document.target then []
          else [Diagnostic(InvalidArtifact, FormText(key), a.pointer,
                           lib.say(WrongInterface(a.bindingName, a.ref, binding.ref, binding.document.target)))]
  }

  function AnnotationProblem(lib: Library, key: FormRef, accepted: seq<ContractRef>): BindingAnnotation -> seq<Diagnostic>
  {
    (a: BindingAnnotation) =>
      if |AcceptedByName(accepted, a.name)| == 1 then []
      else [Diagnostic(UnresolvedReference, FormText(key), a.pointer, lib.say(BindingCount(a.name, |AcceptedByName(accepted, a.name)|)))]
  }

  function DesiredDocument(lib: Library, definition: FormDefinition): Document
  {
    Document(definition.desired, "/desiredSchema", lib.decodeContract)
  }

  ghost function ReferenceProblems(lib: Library, forms: Forms, interfaces: Interfaces, bindings: Bindings): FormRef -> seq<Diagnostic>
  {
    (key: FormRef) => if key in forms then FormReferenceProblems(lib, key, forms[key].definition, interfaces, bindings) else []
  }

  ghost function FormReferenceProblems(lib: Library, key: FormRef, definition: FormDefinition, interfaces: Interfaces, bindings: Bindings):
    seq<Diagnostic>
  {
    var annotations := CollectAll(DesiredDocument(lib, definition));
    FlatMap(ProvidedProblem(lib, key, interfaces), Positions(definition.provided))
    + FlatMap(AcceptedProblem(lib, key, definition.role, bindings), Positions(definition.accepted))
    + FlatMap(RequirementProblem(lib, key, definition.accepted, interfaces, bindings), annotations.interfaces)
    + FlatMap(AnnotationProblem(lib, key, definition.accepted), annotations.bindings)
  }

  // ---------- closing the Forms ----------

  function LaneProblems(lib: Library, served: string, forms: Forms): FormRef -> seq<Diagnostic>
  {
    (key: FormRef) =>
      if key !in forms then []
      else
        var required := forms[key].definition.requiresHostApi;
        if required == "" || Satisfies(served, required) then []
        else [Diagnostic(UnsupportedHostApi, FormText(key), "/requiresHostApi", lib.say(LaneTooLow(required, served)))]
  }

  function TargetProblem(lib: Library, key: FormRef, forms: Forms): TargetRef -> seq<Diagnostic>
  {
    (t: TargetRef) =>
      if t.ref in forms then []
      else [Diagnostic(UnresolvedReference, FormText(key), t.pointer, lib.say(AbsentForm(t.ref)))]
  }

  ghost function TargetProblems(lib: Library, forms: Forms): FormRef -> seq<Diagnostic>
  {
    (key: FormRef) =>
      if key !in forms then []
      else FlatMap(TargetProblem(lib, key, forms), TargetRefs(lib.decodeForm, forms[key].definition.desired, "/desiredSchema"))
  }

  // ---------- defaults ----------

  function PinLine(pin: DefaultPin): GroupKind
  {
    GroupKind(pin.group, pin.kind)
  }

  function PinsFor(pins: seq<DefaultPin>, g: GroupKind): seq<DefaultPin>
  {
    Candidates(PinLine, pins, g)
  }

  function LineOf(f: FormRef): GroupKind
  {
    GroupKind(f.group, f.kind)
  }

  /** Every group and kind that a Form or a pin mentions. */
  function Lines(forms: set<FormRef>, pins: seq<DefaultPin>): set<GroupKind>
  {
    (set f | f in forms :: LineOf(f)) + KeysOf(PinLine, pins)
  }

  function DefaultFor(lib: Library, forms: Forms, pins: seq<DefaultPin>, g: GroupKind): Result<FormRef, Diagnostic>
  {
    var groupPins := PinsFor(pins, g);
    var subject := g.group + "/" + g.kind;
    if |groupPins| == 0 then Err(Diagnostic(MissingDefault, subject, "", lib.say(NoPin)))
    else if |groupPins| != 1 then Err(Diagnostic(AmbiguousDefault, subject, "", lib.say(ManyPins(|groupPins|))))
    else
      var pin := groupPins[0];
      if pin.group != pin.ref.group || pin.kind != pin.ref.kind then
        Err(Diagnostic(AmbiguousDefault, subject, "", lib.say(PinMismatch)))
      else if pin.ref !in forms then Err(Diagnostic(UnresolvedReference, subject, "", lib.say(AbsentDefault(pin.ref))))
      else Ok(pin.ref)
  }

  function DefaultProblem(lib: Library, forms: Forms, pins: seq<DefaultPin>): GroupKind -> seq<Diagnostic>
  {
    (g: GroupKind) => match DefaultFor(lib, forms, pins, g) case Ok(_) => [] case Err(d) => [d]
  }

  function Defaults(lib: Library, forms: Forms, pins: seq<DefaultPin>): map<GroupKind, FormRef>
  {
    map g | g in Lines(forms.Keys, pins) && DefaultFor(lib, forms, pins, g).Ok? :: DefaultFor(lib, forms, pins, g).value
  }

  // ---------- the whole compilation ----------

  /** The stages of the contract compilation. */
  ghost function ContractStages(lib: Library, input: Input): seq<seq<Diagnostic>>
  {
    var interfaces := CompiledInterfaces(lib, input.interfaces);
    var bindings := CompiledBindings(lib, input.bindings);
    var interfaceOrder := Ordered(LessContract, KeysOf(InterfaceKey, interfaces));
    var bindingOrder := Ordered(LessContract, KeysOf(BindingKey, bindings));
    [FlatMap(Failures(InterfaceCompiler(lib)), input.interfaces) + FlatMap(Failures(BindingCompiler(lib)), input.bindings),
     FlatMap(Duplicate(lib, INTERFACES, interfaces), interfaceOrder) + FlatMap(Duplicate(lib, BINDINGS, bindings), bindingOrder),
     FlatMap(BindingProblems(lib, SelectedInterfaces(lib, input), SelectedBindings(lib, input)), bindingOrder)]
  }

  /** A stage that finds anything ends the compilation. */
  function FirstNonEmpty<T>(stages: seq<seq<T>>): (r: seq<T>)
    ensures r == [] <==> forall i | 0 <= i < |stages| :: stages[i] == []
  {
    if stages == [] then []
    else if stages[0] != [] then stages[0]
    else FirstNonEmpty(stages[1..])
  }

  ghost function SelectedForms(lib: Library, input: Input): Forms
  {
    Selected(FormKey, CompiledForms(lib, input.packages))
  }

  ghost function SelectedInterfaces(lib: Library, input: Input): Interfaces
  {
    Selected(InterfaceKey, CompiledInterfaces(lib, input.interfaces))
  }

  ghost function SelectedBindings(lib: Library, input: Input): Bindings
  {
    Selected(BindingKey, CompiledBindings(lib, input.bindings))
  }

  /** The stages after the lane check, with `keys` the Forms in the order they are
      visited. */
  ghost function Stages(lib: Library, input: Input, keys: seq<FormRef>): seq<seq<Diagnostic>>
  {
    var forms := SelectedForms(lib, input);
    var interfaces := SelectedInterfaces(lib, input);
    var bindings := SelectedBindings(lib, input);
    [FlatMap(Failures(FormCompiler(lib)), input.packages),
     FlatMap(Duplicate(lib, FORMS, CompiledForms(lib, input.packages)), keys),
     FirstNonEmpty(ContractStages(lib, input)),
     FlatMap(ReferenceProblems(lib, forms, interfaces, bindings), keys),
     FlatMap(LaneProblems(lib, input.hostApi, forms), keys),
     FlatMap(TargetProblems(lib, forms), keys),
     FlatMap(DefaultProblem(lib, forms, input.pins), Ordered(LessGroupKind, Lines(forms.Keys, input.pins)))]
  }

  ghost function Problems(lib: Library, input: Input, keys: seq<FormRef>): seq<Diagnostic>
  {
    if LaneProblem(lib, input.hostApi) != [] then LaneProblem(lib, input.hostApi)
    else Report(FirstNonEmpty(Stages(lib, input, keys)))
  }

  function FormLine(forms: Forms): FormRef -> seq<(FormRef, string)>
  {
    (key: FormRef) => if key in forms then [(forms[key].ref, forms[key].packageDigest)] else []
  }

  function InterfaceLine(interfaces: Interfaces): ContractRef -> seq<ContractRef>
  {
    (key: ContractRef) => if key in interfaces then [interfaces[key].ref] else []
  }

  function BindingLine(bindings: Bindings): ContractRef -> seq<(ContractRef, ContractRef)>
  {
    (key: ContractRef) => if key in bindings then [(bindings[key].ref, bindings[key].document.target)] else []
  }

  function DefaultLine(defaults: map<GroupKind, FormRef>): GroupKind -> seq<(GroupKind, FormRef)>
  {
    (g: GroupKind) => if g in defaults then [(g, defaults[g])] else []
  }

  ghost function WireOf(input: Input, s: Snapshot): Wire
  {
    Wire(input.hostApi, FlatMap(FormLine(s.forms), s.ordered), FlatMap(InterfaceLine(s.interfaces), s.interfaceOrder),
         FlatMap(BindingLine(s.bindings), s.bindingOrder),
         FlatMap(DefaultLine(s.defaults), Ordered(LessGroupKind, s.defaults.Keys)))
  }

  ghost function Graph(lib: Library, input: Input, keys: seq<FormRef>): Snapshot
  {
    var forms := SelectedForms(lib, input);
    Snapshot(input.hostApi, "", keys, forms,
             Ordered(LessContract, KeysOf(InterfaceKey, CompiledInterfaces(lib, input.interfaces))), SelectedInterfaces(lib, input),
             Ordered(LessContract, KeysOf(BindingKey, CompiledBindings(lib, input.bindings))), SelectedBindings(lib, input),
             Defaults(lib, forms, input.pins))
  }

  /** What compiling gives when the Forms are visited in the order of `keys`. */
  ghost function Compiled(lib: Library, input: Input, keys: seq<FormRef>): Result<Snapshot, seq<Diagnostic>>
  {
    if Problems(lib, input, keys) != [] then Err(Problems(lib, input, keys))
    else
      var graph := Graph(lib, input, keys);
      match lib.wireDigest(WireOf(input, graph))
      case Err(text) => Err([Diagnostic(InvalidInput, "input", "", lib.say(Unencodable(text)))])
      case Ok(digest) => Ok(graph.(digest := digest))
  }

  /** The outcomes the compiler may have: the Forms are visited in their order,
      when they have one, and otherwise in some order. */
  ghost predicate Outcome(lib: Library, input: Input, r: Result<Snapshot, seq<Diagnostic>>)
  {
    exists keys :: Arranged(lib, input, keys) && r == Compiled(lib, input, keys)
  }

  ghost predicate Arranged(lib: Library, input: Input, keys: seq<FormRef>)
  {
    var identities := FormIdentities(lib, input);
    && Lists(keys, identities)
    && (Comparable(lib.parse, identities) ==> keys == Ordered(LessForm(lib.parse), identities))
  }
}
