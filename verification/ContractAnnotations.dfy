/** The contract annotations of a desired schema. A binding annotation gives its
    name to the whole subtree under its node and, through local references, to
    the subtrees that node jumps to; a required Interface is collected together
    with the binding it stands under. */
module ContractAnnotations {
  import opened Wrappers
  import opened JsonModel
  import opened Pointers
  import opened Ordering
  import opened Identities

  const BINDING := "x-takoform-binding"
  const REQUIRED := "x-takoform-required-interface"
  const REFERENCE := "$ref"

  datatype InterfaceAnnotation = InterfaceAnnotation(pointer: string, ref: ContractRef, bindingName: string)

  datatype BindingAnnotation = BindingAnnotation(pointer: string, name: string)

  datatype Annotations = Annotations(interfaces: seq<InterfaceAnnotation>, bindings: seq<BindingAnnotation>)

  const NOTHING := Annotations([], [])

  function Plus(a: Annotations, b: Annotations): Annotations
  {
    Annotations(a.interfaces + b.interfaces, a.bindings + b.bindings)
  }

  /** A desired schema, where it stands in its Definition, and the strict reading
      of an Interface reference. */
  datatype Document = Document(root: Json, pointer: string, decode: Json -> Option<ContractRef>)

  // ---------- one node ----------

  /** The binding in force at a node: its own, or the one it is under. */
  function Effective(v: Json, binding: string): string
  {
    if v.Obj? && BINDING in v.members && v.members[BINDING].Str? then v.members[BINDING].s else binding
  }

  function OwnBinding(v: Json, pointer: string): seq<BindingAnnotation>
  {
    if v.Obj? && BINDING in v.members && v.members[BINDING].Str? then
      [BindingAnnotation(pointer + "/" + BINDING, v.members[BINDING].s)]
    else []
  }

  function MemberPointer(pointer: string, key: string): string
  {
    pointer + "/" + EscapePointerTwoPass(key)
  }

  function ItemPointer(pointer: string, index: nat): string
  {
    pointer + "/" + Itoa(index)
  }

  function OwnRequirement(d: Document, v: Json, pointer: string, binding: string): seq<InterfaceAnnotation>
  {
    if v.Obj? && REQUIRED in v.members && d.decode(v.members[REQUIRED]).Some? then
      [InterfaceAnnotation(MemberPointer(pointer, REQUIRED), d.decode(v.members[REQUIRED]).value, binding)]
    else []
  }

  /** The resolver of the compiler: the resolver of the schema proof, with the
      pointers written under where the document stands. */
  function LocalTarget(d: Document, reference: string): Option<Resolved>
  {
    match Resolve(d.root, reference)
    case None => None
    case Some(r) => Some(Resolved(r.value, d.pointer + r.pointer[1..]))
  }

  /** Where a node's reference leads; nowhere unless a binding is in force. */
  function JumpFrom(d: Document, v: Json, binding: string): Option<Resolved>
  {
    if binding != "" && v.Obj? && REFERENCE in v.members && v.members[REFERENCE].Str? then
      LocalTarget(d, v.members[REFERENCE].s)
    else None
  }

  predicate IsSubschemaKey(key: string)
  {
    key != BINDING && key != REQUIRED && key != REFERENCE
  }

  /** How a jump is remembered while it is being followed. */
  function RefKey(pointer: string, binding: string): string
  {
    pointer + "\0" + binding
  }

  // ---------- termination ----------

  ghost function Strings(v: Json): set<string>
  {
    match v
    case Str(s) => {s}
    case Arr(items) => set i, s | 0 <= i < |items| && s in Strings(items[i]) :: s
    case Obj(members) => set n, s | n in members && s in Strings(members[n]) :: s
    case _ => {}
  }

  /** Every key a walk of the document can remember. */
  ghost function Keys(d: Document): set<string>
  {
    set r, b | r in Strings(d.root) && b in Strings(d.root) && LocalTarget(d, r).Some? ::
      RefKey(LocalTarget(d, r).value.pointer, b)
  }

  ghost predicate Inside(d: Document, v: Json, binding: string)
  {
    Strings(v) <= Strings(d.root) && (binding == "" || binding in Strings(d.root))
  }

  lemma {:induction false} WalkStaysInside(v: Json, tokens: seq<string>)
    requires Walk(v, tokens).Some?
    ensures Strings(Walk(v, tokens).value) <= Strings(v)
    decreases |tokens|
  {
    if tokens != [] {
      WalkStaysInside(Step(v, tokens[0]).value, tokens[1..]);
    }
  }

  lemma JumpStaysInside(d: Document, v: Json, binding: string)
    requires Inside(d, v, binding) && JumpFrom(d, v, binding).Some?
    ensures Inside(d, JumpFrom(d, v, binding).value.value, binding)
    ensures RefKey(JumpFrom(d, v, binding).value.pointer, binding) in Keys(d)
  {
    var reference := v.members[REFERENCE].s;
    assert reference in Strings(v.members[REFERENCE]);
    if reference != "#" {
      var tokens := DecodeAll(RawTokens(PathUnescape(reference[1..]).value)).value;
      WalkStaysInside(d.root, tokens);
    }
  }

  lemma EffectiveStaysInside(d: Document, v: Json, binding: string)
    requires Inside(d, v, binding)
    ensures Inside(d, v, Effective(v, binding))
  {
    if Effective(v, binding) != binding {
      assert v.members[BINDING].s in Strings(v.members[BINDING]);
    }
  }

  lemma PartsStayInside(d: Document, v: Json, binding: string)
    requires Inside(d, v, binding)
    ensures v.Obj? ==> forall n | n in v.members :: Inside(d, v.members[n], binding)
    ensures v.Arr? ==> forall i | 0 <= i < |v.items| :: Inside(d, v.items[i], binding)
  {
  }

  ghost function Unused(d: Document, stack: set<string>): nat
  {
    |Keys(d) - stack|
  }

  lemma JumpUsesAKey(d: Document, stack: set<string>, key: string)
    requires key in Keys(d) && key !in stack
    ensures Unused(d, stack + {key}) < Unused(d, stack)
  {
    assert Keys(d) - (stack + {key}) == (Keys(d) - stack) - {key};
  }

  // ---------- the walk ----------

  /** What the walk collects from a node standing under `binding`, with the jumps
      of `stack` being followed. */
  ghost function Collect(d: Document, v: Json, pointer: string, binding: string, stack: set<string>): Annotations
    requires Inside(d, v, binding)
    decreases Unused(d, stack), v, 2, 0
  {
    EffectiveStaysInside(d, v, binding);
    match v
    case Obj(members) =>
      Plus(Annotations([], OwnBinding(v, pointer)),
           CollectMembers(d, v, Ordered(BytesLess, members.Keys), pointer, Effective(v, binding), stack))
    case Arr(items) => CollectItems(d, v, 0, pointer, binding, stack)
    case _ => NOTHING
  }

  ghost function CollectMembers(d: Document, v: Json, keys: seq<string>, pointer: string, binding: string, stack: set<string>): Annotations
    requires v.Obj? && Inside(d, v, binding)
    decreases Unused(d, stack), v, 1, |keys|
  {
    if keys == [] then NOTHING
    else Plus(CollectMember(d, v, keys[0], pointer, binding, stack),
              CollectMembers(d, v, keys[1..], pointer, binding, stack))
  }

  ghost function CollectMember(d: Document, v: Json, key: string, pointer: string, binding: string, stack: set<string>): Annotations
    requires v.Obj? && Inside(d, v, binding)
    decreases Unused(d, stack), v, 0, 0
  {
    if key !in v.members || key == BINDING then NOTHING
    else if key == REQUIRED then Annotations(OwnRequirement(d, v, pointer, binding), [])
    else if key == REFERENCE then
      (match JumpFrom(d, v, binding)
       case None => NOTHING
       case Some(target) =>
         JumpStaysInside(d, v, binding);
         var refKey := RefKey(target.pointer, binding);
         if refKey in stack then NOTHING
         else
           JumpUsesAKey(d, stack, refKey);
           Collect(d, target.value, target.pointer, binding, stack + {refKey}))
    else
      PartsStayInside(d, v, binding);
      Collect(d, v.members[key], MemberPointer(pointer, key), binding, stack)
  }

  ghost function CollectItems(d: Document, v: Json, from_: nat, pointer: string, binding: string, stack: set<string>): Annotations
    requires v.Arr? && Inside(d, v, binding) && from_ <= |v.items|
    decreases Unused(d, stack), v, 1, |v.items| - from_
  {
    PartsStayInside(d, v, binding);
    if from_ == |v.items| then NOTHING
    else Plus(Collect(d, v.items[from_], ItemPointer(pointer, from_), binding, stack),
              CollectItems(d, v, from_ + 1, pointer, binding, stack))
  }

  ghost function CollectAll(d: Document): Annotations
  {
    Collect(d, d.root, d.pointer, "", {})
  }

  // ---------- one step of the walk ----------

  lemma CollectObject(d: Document, v: Json, pointer: string, binding: string, stack: set<string>)
    requires v.Obj? && Inside(d, v, binding)
    ensures Inside(d, v, Effective(v, binding))
    ensures Collect(d, v, pointer, binding, stack) ==
            Plus(Annotations([], OwnBinding(v, pointer)),
                 CollectMembers(d, v, Ordered(BytesLess, v.members.Keys), pointer, Effective(v, binding), stack))
  {
    EffectiveStaysInside(d, v, binding);
  }

  lemma CollectArray(d: Document, v: Json, pointer: string, binding: string, stack: set<string>)
    requires v.Arr? && Inside(d, v, binding)
    ensures Collect(d, v, pointer, binding, stack) == CollectItems(d, v, 0, pointer, binding, stack)
  {
  }

  lemma CollectScalar(d: Document, v: Json, pointer: string, binding: string, stack: set<string>)
    requires !v.Obj? && !v.Arr? && Inside(d, v, binding)
    ensures Collect(d, v, pointer, binding, stack) == NOTHING
  {
  }

  lemma CollectNoMembers(d: Document, v: Json, pointer: string, binding: string, stack: set<string>)
    requires v.Obj? && Inside(d, v, binding)
    ensures CollectMembers(d, v, [], pointer, binding, stack) == NOTHING
  {
  }

  lemma CollectMembersStep(d: Document, v: Json, keys: seq<string>, pointer: string, binding: string, stack: set<string>)
    requires v.Obj? && Inside(d, v, binding) && keys != []
    ensures CollectMembers(d, v, keys, pointer, binding, stack) ==
            Plus(CollectMember(d, v, keys[0], pointer, binding, stack),
                 CollectMembers(d, v, keys[1..], pointer, binding, stack))
  {
  }

  lemma CollectItemsStep(d: Document, v: Json, from_: nat, pointer: string, binding: string, stack: set<string>)
    requires v.Arr? && Inside(d, v, binding) && from_ <= |v.items|
    ensures from_ == |v.items| ==> CollectItems(d, v, from_, pointer, binding, stack) == NOTHING
    ensures from_ < |v.items| ==>
              && Inside(d, v.items[from_], binding)
              && CollectItems(d, v, from_, pointer, binding, stack) ==
                 Plus(Collect(d, v.items[from_], ItemPointer(pointer, from_), binding, stack),
                      CollectItems(d, v, from_ + 1, pointer, binding, stack))
  {
    PartsStayInside(d, v, binding);
  }

  class AnnotationWalker {
    const d: Document
    var refStack: set<string>

    constructor (d: Document)
      ensures this.d == d && refStack == {}
    {
      this.d := d;
      refStack := {};
    }

    method WalkNode(value: Json, pointer: string, bindingName: string) returns (output: Annotations)
      requires Inside(d, value, bindingName)
      modifies this
      ensures refStack == old(refStack)
      ensures output == Collect(d, value, pointer, bindingName, refStack)
      decreases Unused(d, refStack), value, 2
    {
      hide Collect, CollectMembers, CollectMember, CollectItems, Keys, Strings, Inside, BytesLess, Ordered, Plus,
           OwnBinding, Effective, ItemPointer, Unused;
      output := NOTHING;
      match value
      case Obj(members) =>
        CollectObject(d, value, pointer, bindingName, refStack);
        EffectiveStaysInside(d, value, bindingName);
        output := Annotations([], OwnBinding(value, pointer));
        var binding := Effective(value, bindingName);
        var keys := SortedListing(BytesLess, members.Keys);
        assert keys == Ordered(BytesLess, members.Keys) by { BytesOrder(); assert Orders(BytesLess, members.Keys); }
        ListsMeaning(keys, members.Keys);
        var i := 0;
        assert keys[0..] == keys;
        while i < |keys|
          invariant 0 <= i <= |keys|
          invariant refStack == old(refStack)
          invariant Collect(d, value, pointer, bindingName, refStack) ==
                    Plus(output, CollectMembers(d, value, keys[i..], pointer, binding, refStack))
        {
          CollectMembersStep(d, value, keys[i..], pointer, binding, refStack);
          var child := WalkMember(value, keys[i], pointer, binding);
          assert keys[i..][1..] == keys[i + 1..];
          PlusAssociates(output, child, CollectMembers(d, value, keys[i + 1..], pointer, binding, refStack));
          output := Plus(output, child);
          i := i + 1;
        }
        assert keys[i..] == [];
        CollectNoMembers(d, value, pointer, binding, refStack);
        PlusNothing(output);
      case Arr(items) =>
        PartsStayInside(d, value, bindingName);
        var index := 0;
        CollectArray(d, value, pointer, bindingName, refStack);
        PlusNothing(CollectItems(d, value, 0, pointer, bindingName, refStack));
        while index < |items|
          invariant 0 <= index <= |items|
          invariant refStack == old(refStack)
          invariant Collect(d, value, pointer, bindingName, refStack) ==
                    Plus(output, CollectItems(d, value, index, pointer, bindingName, refStack))
        {
          CollectItemsStep(d, value, index, pointer, bindingName, refStack);
          var child := WalkNode(items[index], ItemPointer(pointer, index), bindingName);
          PlusAssociates(output, child, CollectItems(d, value, index + 1, pointer, bindingName, refStack));
          output := Plus(output, child);
          index := index + 1;
        }
        CollectItemsStep(d, value, index, pointer, bindingName, refStack);
        PlusNothing(output);
      case _ =>
        CollectScalar(d, value, pointer, bindingName, refStack);
    }

    method WalkMember(value: Json, key: string, pointer: string, binding: string) returns (output: Annotations)
      requires value.Obj? && Inside(d, value, binding) && key in value.members
      modifies this
      ensures refStack == old(refStack)
      ensures output == CollectMember(d, value, key, pointer, binding, refStack)
      decreases Unused(d, refStack), value, 1
    {
      hide Collect, CollectMembers, CollectItems, Keys, Strings, Inside, Unused, LocalTarget, OwnRequirement, RefKey, MemberPointer;
      output := NOTHING;
      if key == REQUIRED {
        output := Annotations(OwnRequirement(d, value, pointer, binding), []);
      } else if key == BINDING {
      } else if key == REFERENCE {
        if binding == "" || !value.members[key].Str? {
          return;
        }
        var target := ResolveLocal(d, value.members[key].s);
        if target.None? {
          return;
        }
        var refKey := RefKey(target.value.pointer, binding);
        if refKey in refStack {
          return;
        }
        JumpStaysInside(d, value, binding);
        JumpUsesAKey(d, refStack, refKey);
        refStack := refStack + {refKey};
        output := WalkNode(target.value.value, target.value.pointer, binding);
        refStack := refStack - {refKey};
        assert refStack == old(refStack);
      } else {
        PartsStayInside(d, value, binding);
        output := WalkNode(value.members[key], MemberPointer(pointer, key), binding);
      }
    }
  }

  method ResolveLocal(d: Document, reference: string) returns (r: Option<Resolved>)
    ensures r == LocalTarget(d, reference)
  {
    var resolved := ResolveReference(d.root, reference);
    match resolved
    case None => r := None;
    case Some(found) => r := Some(Resolved(found.value, d.pointer + found.pointer[1..]));
  }

  lemma PlusAssociates(a: Annotations, b: Annotations, c: Annotations)
    ensures Plus(a, Plus(b, c)) == Plus(Plus(a, b), c)
  {
  }

  lemma PlusNothing(a: Annotations)
    ensures Plus(a, NOTHING) == a && Plus(NOTHING, a) == a
  {
  }
}
