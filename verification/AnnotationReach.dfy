/** What the annotation walk means: it collects exactly the annotations that can
    be reached from the document by members, items and local references under a
    binding, although it cuts every jump that is already being followed. */
module AnnotationReach {
  import opened Wrappers
  import opened JsonModel
  import opened Pointers
  import opened Ordering
  import opened Identities
  import opened ContractAnnotations

  datatype Hop = Member(key: string) | Item(index: nat) | Jump

  /** A node, the pointer it was reached under, and the binding it stands under. */
  datatype Place = Place(v: Json, pointer: string, binding: string)

  function Next(d: Document, at: Place, hop: Hop): Option<Place>
  {
    var binding := Effective(at.v, at.binding);
    match hop
    case Member(key) =>
      if at.v.Obj? && key in at.v.members && IsSubschemaKey(key) then
        Some(Place(at.v.members[key], MemberPointer(at.pointer, key), binding))
      else None
    case Item(index) =>
      if at.v.Arr? && index < |at.v.items| then Some(Place(at.v.items[index], ItemPointer(at.pointer, index), at.binding))
      else None
    case Jump =>
      match JumpFrom(d, at.v, binding)
      case None => None
      case Some(target) => Some(Place(target.value, target.pointer, binding))
  }

  function Go(d: Document, at: Place, path: seq<Hop>): Option<Place>
    decreases |path|
  {
    if path == [] then Some(at)
    else match Next(d, at, path[0])
      case None => None
      case Some(next) => Go(d, next, path[1..])
  }

  function Start(d: Document): Place
  {
    Place(d.root, d.pointer, "")
  }

  ghost predicate Reachable(d: Document, at: Place)
  {
    exists path :: Go(d, Start(d), path) == Some(at)
  }

  function RequirementsAt(d: Document, at: Place): seq<InterfaceAnnotation>
  {
    OwnRequirement(d, at.v, at.pointer, Effective(at.v, at.binding))
  }

  function BindingsAt(at: Place): seq<BindingAnnotation>
  {
    OwnBinding(at.v, at.pointer)
  }

  /** The walk started at a place. */
  ghost function CollectAt(d: Document, at: Place, stack: set<string>): Annotations
    requires Inside(d, at.v, at.binding)
  {
    Collect(d, at.v, at.pointer, at.binding, stack)
  }

  ghost predicate Recorded(d: Document, at: Place, output: Annotations)
  {
    && (forall a | a in RequirementsAt(d, at) :: a in output.interfaces)
    && (forall a | a in BindingsAt(at) :: a in output.bindings)
  }

  predicate NulFree(text: string)
  {
    '\0' !in text
  }

  /** No binding annotation the walk collects has a NUL in its name. */
  ghost predicate NamesNulFree(output: Annotations)
  {
    forall a | a in output.bindings :: NulFree(a.name)
  }

  ghost predicate Within(part: Annotations, whole: Annotations)
  {
    && (forall a | a in part.interfaces :: a in whole.interfaces)
    && (forall a | a in part.bindings :: a in whole.bindings)
  }

  // ---------- jumps are remembered without confusion ----------

  lemma {:induction false} NulSplits(a: string, b: string, a': string, b': string)
    requires a + "\0" + b == a' + "\0" + b' && NulFree(b) && NulFree(b')
    ensures a == a' && b == b'
  {
    var whole, whole' := a + "\0" + b, a' + "\0" + b';
    assert whole[|a|] == '\0' && whole'[|a'|] == '\0';
    assert forall i | |a| < i < |whole| :: whole[i] == b[i - |a| - 1];
    assert forall i | |a'| < i < |whole| :: whole'[i] == b'[i - |a'| - 1];
    assert |a| == |a'|;
    assert a == whole[..|a|] && a' == whole'[..|a'|];
    assert b == whole[|a| + 1..] && b' == whole'[|a'| + 1..];
  }

  /** Without that condition two jumps can be taken for one another. */
  lemma KeysCanCollide(pointer: string, a: string, b: string)
    ensures RefKey(pointer, a + "\0" + b) == RefKey(pointer + "\0" + a, b)
  {
  }

  /** The place is named from where the document stands. */
  ghost predicate Names(d: Document, at: Place)
  {
    exists tokens :: at.pointer == d.pointer + JoinTokens(tokens) && Walk(d.root, tokens) == Some(at.v)
  }

  lemma NamesOneNode(d: Document, a: Place, b: Place)
    requires Names(d, a) && Names(d, b) && a.pointer == b.pointer
    ensures a.v == b.v
  {
    var s :| a.pointer == d.pointer + JoinTokens(s) && Walk(d.root, s) == Some(a.v);
    var t :| b.pointer == d.pointer + JoinTokens(t) && Walk(d.root, t) == Some(b.v);
    assert a.pointer[|d.pointer|..] == JoinTokens(s) && b.pointer[|d.pointer|..] == JoinTokens(t);
    PointersInjective(s, t);
  }

  lemma NextNames(d: Document, at: Place, hop: Hop)
    requires Names(d, at) && Next(d, at, hop).Some?
    ensures Names(d, Next(d, at, hop).value)
  {
    var next := Next(d, at, hop).value;
    var base :| at.pointer == d.pointer + JoinTokens(base) && Walk(d.root, base) == Some(at.v);
    match hop
    case Member(key) =>
      EscapesAgree(key);
      OneToken(d, at, base, key, next);
    case Item(index) =>
      IndexRoundTrip(index, |at.v.items|);
      ItoaDigits(index);
      DigitsUnescaped(Itoa(index));
      OneToken(d, at, base, Itoa(index), next);
    case Jump =>
      JumpNames(d, at.v.members[REFERENCE].s, next);
  }

  lemma OneToken(d: Document, at: Place, base: seq<string>, token: string, next: Place)
    requires at.pointer == d.pointer + JoinTokens(base) && Walk(d.root, base) == Some(at.v)
    requires next.pointer == at.pointer + "/" + EscapeToken(token) && Step(at.v, token) == Some(next.v)
    ensures Names(d, next)
  {
    hide EscapeToken, Step;
    JoinConcat(base, [token]);
    WalkConcat(d.root, base, [token]);
    JoinOne(token);
    WalkOne(at.v, token);
    assert next.pointer == d.pointer + JoinTokens(base + [token]);
  }

  lemma JoinOne(token: string)
    ensures JoinTokens([token]) == "/" + EscapeToken(token)
  {
    assert JoinTokens([token][1..]) == "";
  }

  lemma WalkOne(v: Json, token: string)
    requires Step(v, token).Some?
    ensures Walk(v, [token]) == Step(v, token)
  {
    hide Step;
    assert [token][1..] == [];
    assert Walk(Step(v, token).value, []) == Step(v, token);
  }

  lemma JumpNames(d: Document, reference: string, next: Place)
    requires LocalTarget(d, reference) == Some(Resolved(next.v, next.pointer))
    ensures Names(d, next)
  {
    if reference == "#" {
      assert "#"[1..] == "" == JoinTokens([]);
    } else {
      var tokens := DecodeAll(RawTokens(PathUnescape(reference[1..]).value)).value;
      assert [] + tokens == tokens;
      assert PointerTo(tokens)[1..] == JoinTokens(tokens);
    }
  }

  lemma NextStaysInside(d: Document, at: Place, hop: Hop)
    requires Inside(d, at.v, at.binding) && Next(d, at, hop).Some?
    ensures var next := Next(d, at, hop).value; Inside(d, next.v, next.binding)
  {
    EffectiveStaysInside(d, at.v, at.binding);
    PartsStayInside(d, at.v, at.binding);
    PartsStayInside(d, at.v, Effective(at.v, at.binding));
    if hop.Jump? {
      JumpStaysInside(d, at.v, Effective(at.v, at.binding));
    }
  }

  // ---------- every path can avoid repeating a jump ----------

  /** The path jumps to no place twice, nor to a place of `jumped`. */
  ghost predicate Fresh(d: Document, at: Place, jumped: set<Place>, path: seq<Hop>)
    decreases |path|
  {
    path != [] ==>
      match Next(d, at, path[0])
      case None => false
      case Some(next) =>
        if path[0].Jump? then next !in jumped && Fresh(d, next, jumped + {next}, path[1..])
        else Fresh(d, next, jumped, path[1..])
  }

  lemma {:induction false} FreshMonotone(d: Document, at: Place, fewer: set<Place>, more: set<Place>, path: seq<Hop>)
    requires fewer <= more && Fresh(d, at, more, path)
    ensures Fresh(d, at, fewer, path)
    decreases |path|
  {
    if path != [] {
      var next := Next(d, at, path[0]).value;
      FreshMonotone(d, next, if path[0].Jump? then fewer + {next} else fewer,
                    if path[0].Jump? then more + {next} else more, path[1..]);
    }
  }

  /** Whatever a path reaches is reached without repeating a jump, from its start
      or from a place already jumped to. */
  lemma {:induction false} Straighten(d: Document, at: Place, path: seq<Hop>, jumped: set<Place>)
    returns (from_: Place, straight: seq<Hop>)
    requires Go(d, at, path).Some?
    ensures from_ == at || from_ in jumped
    ensures Go(d, from_, straight) == Go(d, at, path) && Fresh(d, from_, jumped, straight)
    decreases |path|
  {
    hide Next;
    if path == [] {
      return at, [];
    }
    var next := Next(d, at, path[0]).value;
    var grown := if path[0].Jump? then jumped + {next} else jumped;
    from_, straight := Straighten(d, next, path[1..], grown);
    if path[0].Jump? && next in jumped {
      assert grown == jumped;
      return;
    }
    if from_ != next {
      FreshMonotone(d, from_, jumped, grown, straight);
      return;
    }
    if next in jumped {
      return;
    }
    var longer := [path[0]] + straight;
    assert longer[1..] == straight;
    return at, longer;
  }

  // ---------- nothing is missed ----------

  lemma {:induction false} MemberWithin(d: Document, v: Json, keys: seq<string>, key: string, pointer: string, binding: string, stack: set<string>)
    requires v.Obj? && Inside(d, v, binding) && key in keys
    ensures Within(CollectMember(d, v, key, pointer, binding, stack), CollectMembers(d, v, keys, pointer, binding, stack))
    decreases |keys|
  {
    hide CollectMember, CollectMembers, Inside;
    CollectMembersStep(d, v, keys, pointer, binding, stack);
    if key != keys[0] {
      assert keys == [keys[0]] + keys[1..];
      MemberWithin(d, v, keys[1..], key, pointer, binding, stack);
    }
  }

  lemma {:induction false} ItemWithin(d: Document, v: Json, from_: nat, index: nat, pointer: string, binding: string, stack: set<string>)
    requires v.Arr? && Inside(d, v, binding) && from_ <= index < |v.items| && Inside(d, v.items[index], binding)
    ensures Within(Collect(d, v.items[index], ItemPointer(pointer, index), binding, stack),
                   CollectItems(d, v, from_, pointer, binding, stack))
    decreases index - from_
  {
    hide Collect, CollectItems, Inside, ItemPointer;
    CollectItemsStep(d, v, from_, pointer, binding, stack);
    if from_ < index {
      ItemWithin(d, v, from_ + 1, index, pointer, binding, stack);
    }
  }

  lemma MemberCollected(d: Document, at: Place, key: string, stack: set<string>)
    requires Inside(d, at.v, at.binding) && at.v.Obj? && key in at.v.members
    ensures Inside(d, at.v, Effective(at.v, at.binding))
    ensures Within(CollectMember(d, at.v, key, at.pointer, Effective(at.v, at.binding), stack), CollectAt(d, at, stack))
    ensures forall a | a in BindingsAt(at) :: a in CollectAt(d, at, stack).bindings
  {
    hide Collect, CollectMember, CollectMembers, Inside, Effective, OwnBinding;
    CollectObject(d, at.v, at.pointer, at.binding, stack);
    var keys := Ordered(BytesLess, at.v.members.Keys);
    ListsMeaning(keys, at.v.members.Keys);
    MemberWithin(d, at.v, keys, key, at.pointer, Effective(at.v, at.binding), stack);
  }

  /** What stands at a place is collected there. */
  lemma PlaceRecorded(d: Document, at: Place, stack: set<string>)
    requires Inside(d, at.v, at.binding)
    ensures Recorded(d, at, CollectAt(d, at, stack))
  {
    hide Collect, CollectMembers, Inside;
    if at.v.Obj? {
      if BINDING in at.v.members {
        MemberCollected(d, at, BINDING, stack);
      }
      if REQUIRED in at.v.members {
        MemberCollected(d, at, REQUIRED, stack);
        RequirementCollected(d, at, stack);
      }
    }
  }

  lemma RequirementCollected(d: Document, at: Place, stack: set<string>)
    requires at.v.Obj? && Inside(d, at.v, Effective(at.v, at.binding)) && REQUIRED in at.v.members
    ensures CollectMember(d, at.v, REQUIRED, at.pointer, Effective(at.v, at.binding), stack).interfaces == RequirementsAt(d, at)
  {
    assert REQUIRED != BINDING by { assert |REQUIRED| != |BINDING|; }
  }

  /** The jumps being followed, as the walk remembers them. */
  ghost predicate Follows(d: Document, jumped: set<Place>, stack: set<string>)
  {
    && (forall key | key in stack :: exists j :: j in jumped && key == RefKey(j.pointer, j.binding))
    && (forall j | j in jumped :: Names(d, j) && NulFree(j.binding))
  }

  /** One hop of the walk: what is collected after the hop is collected before it. */
  lemma HopCollected(d: Document, at: Place, hop: Hop, stack: set<string>)
    requires Inside(d, at.v, at.binding) && Next(d, at, hop).Some?
    requires hop.Jump? ==> RefKey(Next(d, at, hop).value.pointer, Next(d, at, hop).value.binding) !in stack
    ensures var next := Next(d, at, hop).value;
            && Inside(d, next.v, next.binding)
            && Within(CollectAt(d, next, if hop.Jump? then stack + {RefKey(next.pointer, next.binding)} else stack),
                      CollectAt(d, at, stack))
  {
    hide Collect, CollectMembers, CollectItems, Inside, Effective, MemberPointer, ItemPointer, RefKey;
    NextStaysInside(d, at, hop);
    match hop
    case Member(key) =>
      MemberCollected(d, at, key, stack);
    case Item(index) =>
      CollectArray(d, at.v, at.pointer, at.binding, stack);
      ItemWithin(d, at.v, 0, index, at.pointer, at.binding, stack);
    case Jump =>
      MemberCollected(d, at, REFERENCE, stack);
      ReferenceKeys();
  }

  lemma ReferenceKeys()
    ensures REFERENCE != BINDING && REFERENCE != REQUIRED
  {
    assert |REFERENCE| == 4 && |BINDING| == 18 && |REQUIRED| > 18;
  }

  lemma {:induction false} PathRecorded(d: Document, at: Place, jumped: set<Place>, stack: set<string>, path: seq<Hop>)
    requires Inside(d, at.v, at.binding) && Names(d, at) && NulFree(at.binding)
    requires Follows(d, jumped, stack) && Fresh(d, at, jumped, path)
    requires Go(d, at, path).Some? && NamesNulFree(CollectAt(d, at, stack))
    ensures Recorded(d, Go(d, at, path).value, CollectAt(d, at, stack))
    decreases |path|
  {
    hide Inside, Names, Follows, Recorded, Collect, Next, RefKey, NulFree, CollectAt, RequirementsAt, BindingsAt;
    PlaceRecorded(d, at, stack);
    if path != [] {
      var hop := path[0];
      var next := Next(d, at, hop).value;
      NextNames(d, at, hop);
      NextNulFree(d, at, hop, stack);
      if hop.Jump? {
        JumpIsNew(d, next, jumped, stack);
      }
      HopCollected(d, at, hop, stack);
      var stack' := if hop.Jump? then stack + {RefKey(next.pointer, next.binding)} else stack;
      var jumped' := if hop.Jump? then jumped + {next} else jumped;
      FollowsGrows(d, jumped, stack, next);
      WithinNulFree(CollectAt(d, next, stack'), CollectAt(d, at, stack));
      PathRecorded(d, next, jumped', stack', path[1..]);
      RecordedWithin(d, Go(d, at, path).value, CollectAt(d, next, stack'), CollectAt(d, at, stack));
    }
  }

  lemma WithinNulFree(part: Annotations, whole: Annotations)
    requires Within(part, whole) && NamesNulFree(whole)
    ensures NamesNulFree(part)
  {
  }

  lemma RecordedWithin(d: Document, at: Place, part: Annotations, whole: Annotations)
    requires Recorded(d, at, part) && Within(part, whole)
    ensures Recorded(d, at, whole)
  {
  }

  lemma NextNulFree(d: Document, at: Place, hop: Hop, stack: set<string>)
    requires Inside(d, at.v, at.binding) && NulFree(at.binding) && Next(d, at, hop).Some?
    requires NamesNulFree(CollectAt(d, at, stack))
    ensures NulFree(Next(d, at, hop).value.binding)
  {
    hide CollectAt, NulFree, Inside;
    PlaceRecorded(d, at, stack);
    if Effective(at.v, at.binding) != at.binding {
      var own := OwnBinding(at.v, at.pointer)[0];
      assert own in BindingsAt(at);
      assert own.name == Effective(at.v, at.binding);
    }
  }

  lemma JumpIsNew(d: Document, next: Place, jumped: set<Place>, stack: set<string>)
    requires Follows(d, jumped, stack) && next !in jumped && Names(d, next) && NulFree(next.binding)
    ensures RefKey(next.pointer, next.binding) !in stack
  {
    hide Names, NulFree;
    var key := RefKey(next.pointer, next.binding);
    if key in stack {
      var j :| j in jumped && key == RefKey(j.pointer, j.binding);
      NulSplits(next.pointer, next.binding, j.pointer, j.binding);
      NamesOneNode(d, next, j);
    }
  }

  lemma FollowsGrows(d: Document, jumped: set<Place>, stack: set<string>, next: Place)
    requires Follows(d, jumped, stack) && Names(d, next) && NulFree(next.binding)
    ensures Follows(d, jumped + {next}, stack + {RefKey(next.pointer, next.binding)})
  {
    hide Names, NulFree, RefKey;
  }

  // ---------- nothing is invented ----------

  lemma GoConcat(d: Document, at: Place, a: seq<Hop>, b: seq<Hop>)
    ensures Go(d, at, a + b) ==
            match Go(d, at, a)
            case None => None
            case Some(middle) => Go(d, middle, b)
    decreases |a|
  {
    hide Next;
    if a == [] {
      assert a + b == b;
    } else if Next(d, at, a[0]).Some? {
      GoConcat(d, Next(d, at, a[0]).value, a[1..], b);
      assert (a + b)[1..] == a[1..] + b;
    }
  }

  lemma ReachNext(d: Document, at: Place, hop: Hop)
    requires Reachable(d, at) && Next(d, at, hop).Some?
    ensures Reachable(d, Next(d, at, hop).value)
  {
    hide Next;
    var path :| Go(d, Start(d), path) == Some(at);
    GoConcat(d, Start(d), path, [hop]);
    assert [hop][1..] == [];
    assert Go(d, at, [hop]) == Go(d, Next(d, at, hop).value, [hop][1..]);
    assert Go(d, Start(d), path + [hop]) == Some(Next(d, at, hop).value);
  }

  ghost predicate Justified(d: Document, output: Annotations)
  {
    && (forall a | a in output.interfaces :: exists at :: Reachable(d, at) && a in RequirementsAt(d, at))
    && (forall a | a in output.bindings :: exists at :: Reachable(d, at) && a in BindingsAt(at))
  }

  lemma JustifiedPlus(d: Document, a: Annotations, b: Annotations)
    requires Justified(d, a) && Justified(d, b)
    ensures Justified(d, Plus(a, b))
  {
    hide Reachable, RequirementsAt, BindingsAt;
  }

  lemma {:induction false} CollectJustified(d: Document, at: Place, stack: set<string>)
    requires Inside(d, at.v, at.binding) && Reachable(d, at)
    ensures Justified(d, CollectAt(d, at, stack))
    decreases Unused(d, stack), at.v, 2, 0
  {
    hide Collect, CollectMembers, CollectItems, Inside, Reachable, Justified, Unused, Effective, BytesLess, Ordered, Plus;
    match at.v
    case Obj(members) =>
      CollectObject(d, at.v, at.pointer, at.binding, stack);
      var keys := Ordered(BytesLess, members.Keys);
      ListsMeaning(keys, members.Keys);
      MembersJustified(d, at, keys, stack);
      OwnJustified(d, at);
      JustifiedPlus(d, Annotations([], OwnBinding(at.v, at.pointer)),
                    CollectMembers(d, at.v, keys, at.pointer, Effective(at.v, at.binding), stack));
    case Arr(items) =>
      CollectArray(d, at.v, at.pointer, at.binding, stack);
      ItemsJustified(d, at, 0, stack);
    case _ =>
      CollectScalar(d, at.v, at.pointer, at.binding, stack);
      NothingJustified(d);
  }

  lemma NothingJustified(d: Document)
    ensures Justified(d, NOTHING)
  {
  }

  lemma OwnJustified(d: Document, at: Place)
    requires Reachable(d, at)
    ensures Justified(d, Annotations([], OwnBinding(at.v, at.pointer)))
    ensures Justified(d, Annotations(RequirementsAt(d, at), []))
  {
    hide Reachable;
    forall a | a in OwnBinding(at.v, at.pointer) ensures exists place :: Reachable(d, place) && a in BindingsAt(place) {
      assert a in BindingsAt(at);
    }
  }

  lemma {:induction false} MembersJustified(d: Document, at: Place, keys: seq<string>, stack: set<string>)
    requires at.v.Obj? && Inside(d, at.v, at.binding) && Inside(d, at.v, Effective(at.v, at.binding)) && Reachable(d, at)
    requires forall key | key in keys :: key in at.v.members
    ensures Justified(d, CollectMembers(d, at.v, keys, at.pointer, Effective(at.v, at.binding), stack))
    decreases Unused(d, stack), at.v, 1, |keys|
  {
    hide Collect, CollectMembers, CollectMember, Inside, Reachable, Justified, Unused, Effective, Plus;
    var binding := Effective(at.v, at.binding);
    if keys == [] {
      CollectNoMembers(d, at.v, at.pointer, binding, stack);
      NothingJustified(d);
    } else {
      CollectMembersStep(d, at.v, keys, at.pointer, binding, stack);
      MemberJustified(d, at, keys[0], stack);
      MembersJustified(d, at, keys[1..], stack);
      JustifiedPlus(d, CollectMember(d, at.v, keys[0], at.pointer, binding, stack),
                    CollectMembers(d, at.v, keys[1..], at.pointer, binding, stack));
    }
  }

  lemma {:induction false} MemberJustified(d: Document, at: Place, key: string, stack: set<string>)
    requires at.v.Obj? && Inside(d, at.v, at.binding) && Inside(d, at.v, Effective(at.v, at.binding)) && Reachable(d, at)
    requires key in at.v.members
    ensures Justified(d, CollectMember(d, at.v, key, at.pointer, Effective(at.v, at.binding), stack))
    decreases Unused(d, stack), at.v, 0, 0
  {
    hide Collect, CollectMembers, Inside, Reachable, Justified, Effective, MemberPointer, OwnRequirement, Keys, RefKey, JumpFrom;
    var binding := Effective(at.v, at.binding);
    NothingJustified(d);
    if key == BINDING {
    } else if key == REQUIRED {
      OwnJustified(d, at);
    } else if key == REFERENCE {
      if JumpFrom(d, at.v, binding).Some? {
        JumpJustified(d, at, stack);
      }
    } else {
      PartsStayInside(d, at.v, binding);
      ReachNext(d, at, Member(key));
      CollectJustified(d, Next(d, at, Member(key)).value, stack);
    }
  }

  lemma {:induction false} JumpJustified(d: Document, at: Place, stack: set<string>)
    requires at.v.Obj? && Inside(d, at.v, at.binding) && Inside(d, at.v, Effective(at.v, at.binding)) && Reachable(d, at)
    requires REFERENCE in at.v.members && JumpFrom(d, at.v, Effective(at.v, at.binding)).Some?
    ensures Justified(d, CollectMember(d, at.v, REFERENCE, at.pointer, Effective(at.v, at.binding), stack))
    decreases Unused(d, stack), at.v, -1, 0
  {
    hide Collect, CollectMembers, Inside, Reachable, Justified, Effective, Keys, RefKey, JumpFrom, Unused;
    var binding := Effective(at.v, at.binding);
    ReferenceKeys();
    NothingJustified(d);
    JumpStaysInside(d, at.v, binding);
    var target := JumpFrom(d, at.v, binding).value;
    var key := RefKey(target.pointer, binding);
    if key !in stack {
      JumpUsesAKey(d, stack, key);
      ReachNext(d, at, Jump);
      CollectJustified(d, Next(d, at, Jump).value, stack + {key});
    }
  }

  lemma {:induction false} ItemsJustified(d: Document, at: Place, from_: nat, stack: set<string>)
    requires at.v.Arr? && Inside(d, at.v, at.binding) && Reachable(d, at) && from_ <= |at.v.items|
    ensures Justified(d, CollectItems(d, at.v, from_, at.pointer, at.binding, stack))
    decreases Unused(d, stack), at.v, 1, |at.v.items| - from_
  {
    hide Collect, CollectItems, Inside, Reachable, Justified, Unused, ItemPointer, Plus;
    CollectItemsStep(d, at.v, from_, at.pointer, at.binding, stack);
    if from_ == |at.v.items| {
      NothingJustified(d);
    } else {
      ReachNext(d, at, Item(from_));
      CollectJustified(d, Next(d, at, Item(from_)).value, stack);
      ItemsJustified(d, at, from_ + 1, stack);
      JustifiedPlus(d, Collect(d, at.v.items[from_], ItemPointer(at.pointer, from_), at.binding, stack),
                    CollectItems(d, at.v, from_ + 1, at.pointer, at.binding, stack));
    }
  }

  // ---------- the walk of a whole document ----------

  lemma StartIsInside(d: Document)
    ensures Inside(d, d.root, "") && Names(d, Start(d)) && Reachable(d, Start(d))
  {
    assert d.pointer == d.pointer + JoinTokens([]) && Walk(d.root, []) == Some(d.root);
    assert Go(d, Start(d), []) == Some(Start(d));
  }

  /** A reachable place is recorded, however its references cycle. */
  lemma ReachableIsRecorded(d: Document, at: Place)
    requires NamesNulFree(CollectAll(d)) && Reachable(d, at)
    ensures Recorded(d, at, CollectAll(d))
  {
    hide Inside, Names, Recorded, Collect, Go, Fresh, NamesNulFree;
    StartIsInside(d);
    var path :| Go(d, Start(d), path) == Some(at);
    var from_, straight := Straighten(d, Start(d), path, {});
    PathRecorded(d, Start(d), {}, {}, straight);
  }

  /** The interface annotations collected are exactly the reachable ones. */
  lemma CollectedIffReachable(d: Document, a: InterfaceAnnotation)
    requires NamesNulFree(CollectAll(d))
    ensures a in CollectAll(d).interfaces <==> exists at :: Reachable(d, at) && a in RequirementsAt(d, at)
  {
    hide Inside, Names, Collect, CollectAll, Reachable, RequirementsAt, NamesNulFree;
    StartIsInside(d);
    CollectAllJustified(d);
    if at :| Reachable(d, at) && a in RequirementsAt(d, at) {
      ReachableIsRecorded(d, at);
    }
  }

  lemma CollectAllJustified(d: Document)
    ensures Justified(d, CollectAll(d))
  {
    hide Inside, Names, Collect, Reachable, Justified;
    StartIsInside(d);
    CollectJustified(d, Start(d), {});
  }

  lemma BindingCollectedIffReachable(d: Document, a: BindingAnnotation)
    requires NamesNulFree(CollectAll(d))
    ensures a in CollectAll(d).bindings <==> exists at :: Reachable(d, at) && a in BindingsAt(at)
  {
    hide Inside, Names, Collect, CollectAll, Reachable, BindingsAt, NamesNulFree;
    CollectAllJustified(d);
    if at :| Reachable(d, at) && a in BindingsAt(at) {
      ReachableIsRecorded(d, at);
    }
  }

  /** Every pointer written into an annotation names the node that carries it. */
  lemma {:induction false} ReachedPlacesAreNamed(d: Document, at: Place, path: seq<Hop>)
    requires Names(d, at) && Go(d, at, path).Some?
    ensures Names(d, Go(d, at, path).value)
    decreases |path|
  {
    hide Names, Next;
    if path != [] {
      NextNames(d, at, path[0]);
      ReachedPlacesAreNamed(d, Next(d, at, path[0]).value, path[1..]);
    }
  }
}
