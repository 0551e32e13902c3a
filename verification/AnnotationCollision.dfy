/** Why binding names must be free of NUL: the walk remembers a jump by joining its
    target and its binding with a NUL, so a binding name that contains one can make
    it take a new jump for one already being followed. */
module AnnotationCollision {
  import opened Wrappers
  import opened JsonModel
  import opened Pointers
  import opened Ordering
  import opened Identities
  import opened ContractAnnotations
  import opened AnnotationReach

  const OUTER := "y\0z"
  const INNER := "z"
  const FIRST := "a"
  const SECOND := "a\0y"

  /** A reference to `$ref`-able content that no walk by parts enters. */
  function Into(token: string): string
  {
    "#/" + REQUIRED + "/" + token
  }

  function Hidden(): Json
  {
    Obj(map[REQUIRED := Str("t")])
  }

  function Between(): Json
  {
    Obj(map[BINDING := Str(INNER), REFERENCE := Str(Into(SECOND))])
  }

  function Region(): Json
  {
    Obj(map[FIRST := Between(), SECOND := Hidden()])
  }

  function Colliding(): Json
  {
    Obj(map[BINDING := Str(OUTER), REFERENCE := Str(Into(FIRST)), REQUIRED := Region()])
  }

  // ---------- plain references ----------

  predicate Plain(token: string)
  {
    '%' !in token && '~' !in token && '/' !in token
  }

  lemma {:induction false} NothingToUnescape(text: string)
    requires '%' !in text
    ensures PathUnescape(text) == Some(text)
  {
    if text != "" {
      NothingToUnescape(text[1..]);
      assert [text[0]] + text[1..] == text;
    }
  }

  lemma {:induction false} NothingToDecode(token: string)
    requires Plain(token)
    ensures DecodeToken(token) == Some(token) && EscapeToken(token) == token
  {
    if token != "" {
      NothingToDecode(token[1..]);
      assert [token[0]] + token[1..] == token;
    }
  }

  /** A plain fragment is read as the tokens it is written with. */
  lemma PlainFragment(a: string, b: string)
    requires Plain(a) && Plain(b)
    ensures var fragment := "/" + a + "/" + b;
            PathUnescape(fragment) == Some(fragment) && DecodeAll(RawTokens(fragment)) == Some([a, b])
  {
    hide PathUnescape, DecodeToken, DecodeAll, SplitOn;
    var fragment := "/" + a + "/" + b;
    NothingToUnescape(fragment);
    assert fragment[1..] == a + ['/'] + b;
    SplitAtFirst('/', a, b);
    SplitAtFirst('/', b, "");
    NothingToDecode(a);
    NothingToDecode(b);
    assert RawTokens(fragment) == [a, b] by { assert "/" <= fragment; }
    NoneDecoded();
    DecodeCons(b, [], b, []);
    assert [b] + [] == [b];
    DecodeCons(a, [b], a, [b]);
    assert [a] + [b] == [a, b];
  }

  lemma NoneDecoded()
    ensures DecodeAll([]) == Some([])
  {
  }

  lemma PlainPointer(a: string, b: string)
    requires Plain(a) && Plain(b)
    ensures PointerTo([a, b])[1..] == "/" + a + "/" + b
  {
    hide EscapeToken;
    NothingToDecode(a);
    NothingToDecode(b);
    JoinOne(b);
    assert [a, b][1..] == [b];
    assert JoinTokens([a, b]) == "/" + a + ("/" + b);
  }

  lemma PlainTarget(d: Document, a: string, b: string)
    requires Plain(a) && Plain(b) && Walk(d.root, [a, b]).Some?
    ensures LocalTarget(d, "#/" + a + "/" + b) == Some(Resolved(Walk(d.root, [a, b]).value, d.pointer + "/" + a + "/" + b))
  {
    hide Walk, PathUnescape, DecodeAll, RawTokens, PointerTo, Plain;
    var reference := "#/" + a + "/" + b;
    var fragment := "/" + a + "/" + b;
    assert reference[1..] == fragment && reference[..2] == "#/";
    PlainFragment(a, b);
    PlainPointer(a, b);
    assert [] + [a, b] == [a, b];
    assert d.pointer + fragment == d.pointer + "/" + a + "/" + b;
  }

  lemma KeysOfTheExample()
    ensures BINDING != REFERENCE && BINDING != REQUIRED && REFERENCE != REQUIRED && FIRST != SECOND
    ensures Plain(REQUIRED) && Plain(FIRST) && Plain(SECOND)
    ensures |OUTER| == 3 && |INNER| == 1
  {
    assert |BINDING| == 18 && |REFERENCE| == 4 && |REQUIRED| == 29 && |FIRST| == 1 && |SECOND| == 3;
  }

  lemma Targets(d: Document)
    requires d.root == Colliding()
    ensures LocalTarget(d, Into(FIRST)) == Some(Resolved(Between(), d.pointer + "/" + REQUIRED + "/" + FIRST))
    ensures LocalTarget(d, Into(SECOND)) == Some(Resolved(Hidden(), d.pointer + "/" + REQUIRED + "/" + SECOND))
  {
    hide LocalTarget;
    KeysOfTheExample();
    WalkTwoKeys(d.root, REQUIRED, FIRST);
    WalkTwoKeys(d.root, REQUIRED, SECOND);
    PlainTarget(d, REQUIRED, FIRST);
    PlainTarget(d, REQUIRED, SECOND);
  }

  lemma WalkTwoKeys(v: Json, a: string, b: string)
    requires v.Obj? && a in v.members && v.members[a].Obj? && b in v.members[a].members
    ensures Walk(v, [a, b]) == Some(v.members[a].members[b])
  {
    assert [a, b][1..] == [b] && [b][1..] == [];
    assert Walk(v.members[a], [b]) == Some(v.members[a].members[b]);
  }

  // ---------- the missed requirement ----------

  lemma {:induction false} NoInterfaces(d: Document, v: Json, keys: seq<string>, pointer: string, binding: string, stack: set<string>)
    requires v.Obj? && Inside(d, v, binding)
    requires forall key | key in keys :: CollectMember(d, v, key, pointer, binding, stack).interfaces == []
    ensures CollectMembers(d, v, keys, pointer, binding, stack).interfaces == []
  {
    hide CollectMember, Inside;
    if keys != [] {
      NoInterfaces(d, v, keys[1..], pointer, binding, stack);
    }
  }

  lemma ObjectHasNoInterfaces(d: Document, v: Json, pointer: string, binding: string, stack: set<string>)
    requires v.Obj? && Inside(d, v, binding) && Inside(d, v, Effective(v, binding))
    requires forall key | key in v.members :: CollectMember(d, v, key, pointer, Effective(v, binding), stack).interfaces == []
    ensures Collect(d, v, pointer, binding, stack).interfaces == []
  {
    hide Collect, CollectMembers, CollectMember, Inside, Ordered, Effective;
    var keys := Ordered(BytesLess, v.members.Keys);
    ListsMeaning(keys, v.members.Keys);
    NoInterfaces(d, v, keys, pointer, Effective(v, binding), stack);
    CollectObject(d, v, pointer, binding, stack);
  }

  /** The inner jump looks like the outer one and is not followed. */
  lemma InnerJumpIsCut(d: Document, stack: set<string>)
    requires d.root == Colliding() && Inside(d, Between(), OUTER)
    requires RefKey(d.pointer + "/" + REQUIRED + "/" + FIRST, OUTER) in stack
    ensures Collect(d, Between(), d.pointer + "/" + REQUIRED + "/" + FIRST, OUTER, stack).interfaces == []
  {
    hide Collect, LocalTarget, Into, Inside, RefKey;
    var pointer := d.pointer + "/" + REQUIRED + "/" + FIRST;
    KeysOfTheExample();
    Targets(d);
    EffectiveStaysInside(d, Between(), OUTER);
    assert Effective(Between(), OUTER) == INNER;
    SameKey(d.pointer + "/" + REQUIRED + "/");
    forall key | key in Between().members
      ensures CollectMember(d, Between(), key, pointer, INNER, stack).interfaces == []
    {
    }
    ObjectHasNoInterfaces(d, Between(), pointer, OUTER, stack);
  }

  lemma SameKey(prefix: string)
    ensures RefKey(prefix + FIRST, OUTER) == RefKey(prefix + SECOND, INNER)
  {
    assert "y" + "\0" + "z" == OUTER && FIRST + "\0" + "y" == SECOND;
    KeysCanCollide(prefix + FIRST, "y", "z");
    assert prefix + FIRST + "\0" + "y" == prefix + SECOND;
  }

  /** A required Interface that is reachable, under its binding, is not collected. */
  lemma NulHidesARequirement(d: Document, ref: ContractRef)
    requires d.root == Colliding() && d.decode(Str("t")) == Some(ref) && d.decode(Region()).None?
    ensures CollectAll(d).interfaces == []
    ensures exists at :: Reachable(d, at) && |RequirementsAt(d, at)| == 1 && RequirementsAt(d, at)[0].ref == ref
                         && RequirementsAt(d, at)[0].bindingName == INNER
    ensures !NamesNulFree(CollectAll(d))
  {
    hide CollectAll, Reachable, RequirementsAt, NamesNulFree;
    NothingIsCollected(d);
    HiddenIsReachable(d, ref);
    OuterNameHasNul(d);
  }

  lemma OuterNameHasNul(d: Document)
    requires d.root == Colliding()
    ensures !NamesNulFree(CollectAll(d))
  {
    hide Collect, Inside;
    KeysOfTheExample();
    StartIsInside(d);
    PlaceRecorded(d, Start(d), {});
    var own := OwnBinding(d.root, d.pointer)[0];
    assert own in BindingsAt(Start(d)) && own.name == OUTER;
    assert OUTER[1] == '\0';
  }

  lemma NothingIsCollected(d: Document)
    requires d.root == Colliding() && d.decode(Region()).None?
    ensures CollectAll(d).interfaces == []
  {
    hide Collect, LocalTarget, Into, Inside, RefKey, Between, Region, Keys;
    KeysOfTheExample();
    StartIsInside(d);
    Targets(d);
    EffectiveStaysInside(d, d.root, "");
    assert Effective(d.root, "") == OUTER;
    JumpStaysInside(d, d.root, OUTER);
    InnerJumpIsCut(d, {} + {RefKey(d.pointer + "/" + REQUIRED + "/" + FIRST, OUTER)});
    forall key | key in d.root.members
      ensures CollectMember(d, d.root, key, d.pointer, OUTER, {}).interfaces == []
    {
    }
    ObjectHasNoInterfaces(d, d.root, d.pointer, "", {});
  }

  lemma Jumps(d: Document)
    requires d.root == Colliding()
    ensures Next(d, Start(d), Jump) == Some(Place(Between(), d.pointer + "/" + REQUIRED + "/" + FIRST, OUTER))
    ensures Next(d, Place(Between(), d.pointer + "/" + REQUIRED + "/" + FIRST, OUTER), Jump)
            == Some(Place(Hidden(), d.pointer + "/" + REQUIRED + "/" + SECOND, INNER))
  {
    hide LocalTarget, Into, Region, Hidden;
    KeysOfTheExample();
    Targets(d);
  }

  lemma HiddenRequires(d: Document, ref: ContractRef, pointer: string)
    requires d.decode(Str("t")) == Some(ref)
    ensures RequirementsAt(d, Place(Hidden(), pointer, INNER)) == [InterfaceAnnotation(MemberPointer(pointer, REQUIRED), ref, INNER)]
  {
    hide MemberPointer, Plain;
    KeysOfTheExample();
    var v := Hidden();
    assert BINDING !in v.members && REQUIRED in v.members && v.members[REQUIRED] == Str("t");
    assert Effective(v, INNER) == INNER;
  }

  lemma HiddenIsReachable(d: Document, ref: ContractRef)
    requires d.root == Colliding() && d.decode(Str("t")) == Some(ref)
    ensures exists at :: Reachable(d, at) && |RequirementsAt(d, at)| == 1 && RequirementsAt(d, at)[0].ref == ref
                         && RequirementsAt(d, at)[0].bindingName == INNER
  {
    hide Next, Reachable, Inside, Names, Between, Hidden, Colliding, RequirementsAt, MemberPointer;
    StartIsInside(d);
    Jumps(d);
    var pointer := d.pointer + "/" + REQUIRED + "/" + SECOND;
    ReachNext(d, Start(d), Jump);
    ReachNext(d, Place(Between(), d.pointer + "/" + REQUIRED + "/" + FIRST, OUTER), Jump);
    HiddenRequires(d, ref, pointer);
    assert Reachable(d, Place(Hidden(), pointer, INNER));
  }
}
