/** Materialising the declared defaults of a desired document: the effective
    document is a normal form of the documents that differ only in which of the
    declared defaults they write out. */
module Materialization {
  import opened Wrappers
  import opened JsonModel

  const DISCRIMINATOR := "x-takoform-discriminator"
  const DEFAULT := "default"

  /** Reading a member as a string, a list or an object, or else as empty. */
  function Members(v: Json): map<string, Json>
  {
    if v.Obj? then v.members else map[]
  }

  function At(v: Json, key: string): Json
  {
    if key in Members(v) then Members(v)[key] else Null
  }

  function TextAt(v: Json, key: string): string
  {
    if At(v, key).Str? then At(v, key).s else ""
  }

  function ListAt(v: Json, key: string): seq<Json>
  {
    if At(v, key).Arr? then At(v, key).items else []
  }

  // ---------- choosing the schema of a part ----------

  function Discriminator(schema: Json): string
  {
    TextAt(schema, DISCRIMINATOR)
  }

  function DeclaredTag(branch: Json, discriminator: string): string
  {
    TextAt(At(At(branch, "properties"), discriminator), "const")
  }

  function FirstBranch(branches: seq<Json>, discriminator: string, tag: string): Option<nat>
  {
    if branches == [] then None
    else if DeclaredTag(branches[0], discriminator) == tag then Some(0)
    else match FirstBranch(branches[1..], discriminator, tag)
      case None => None
      case Some(i) => Some(i + 1)
  }

  /** The branch a tagged union selects for an object, if any. */
  function BranchFor(schema: Json, v: Json): (r: Option<nat>)
    ensures r.Some? ==> r.value < |ListAt(schema, "oneOf")|
  {
    var r := FirstBranch(ListAt(schema, "oneOf"), Discriminator(schema), TextAt(v, Discriminator(schema)));
    FirstBranchInRange(ListAt(schema, "oneOf"), Discriminator(schema), TextAt(v, Discriminator(schema)));
    r
  }

  lemma {:induction false} FirstBranchInRange(branches: seq<Json>, discriminator: string, tag: string)
    ensures FirstBranch(branches, discriminator, tag).Some? ==>
              && FirstBranch(branches, discriminator, tag).value < |branches|
              && DeclaredTag(branches[FirstBranch(branches, discriminator, tag).value], discriminator) == tag
  {
    if branches != [] {
      FirstBranchInRange(branches[1..], discriminator, tag);
    }
  }

  /** A declared property, or else the schema of additional ones. */
  function ChildSchema(schema: Json, name: string): Json
  {
    var property := At(At(schema, "properties"), name);
    if property.Obj? then property else At(schema, "additionalProperties")
  }

  predicate HasDefault(schema: Json, name: string)
  {
    DEFAULT in Members(At(At(schema, "properties"), name))
  }

  function DefaultOf(schema: Json, name: string): Json
  {
    At(At(At(schema, "properties"), name), DEFAULT)
  }

  // ---------- materialisation ----------

  /** Members an object ends up with: its own, and the declared defaults it omits. */
  function EffectiveNames(schema: Json, v: Json): set<string>
  {
    Members(v).Keys + set n | n in Members(At(schema, "properties")) && HasDefault(schema, n)
  }

  function Materialize(schema: Json, v: Json): Json
    decreases schema
  {
    if !schema.Obj? then v
    else if Discriminator(schema) != "" then
      if !v.Obj? then v
      else match BranchFor(schema, v)
        case None => v
        case Some(i) => Materialize(ListAt(schema, "oneOf")[i], v)
    else if TextAt(schema, "type") == "object" && v.Obj? then
      Obj(map n | n in EffectiveNames(schema, v) ::
        if n in v.members then
          (if ChildSchema(schema, n).Obj? then Materialize(ChildSchema(schema, n), v.members[n]) else v.members[n])
        else Materialize(At(At(schema, "properties"), n), DefaultOf(schema, n)))
    else if TextAt(schema, "type") == "array" && v.Arr? && At(schema, "items").Obj? then
      Arr(seq(|v.items|, i requires 0 <= i < |v.items| => Materialize(At(schema, "items"), v.items[i])))
    else v
  }

  lemma ObjectMaterialized(schema: Json, v: Json)
    requires schema.Obj? && Discriminator(schema) == "" && TextAt(schema, "type") == "object" && v.Obj?
    ensures Materialize(schema, v).Obj?
    ensures Materialize(schema, v).members.Keys == EffectiveNames(schema, v)
    ensures forall n | n in EffectiveNames(schema, v) ::
              Materialize(schema, v).members[n] == Materialize(ChildSchema(schema, n), Written(schema, v, n))
  {
    forall n | n in EffectiveNames(schema, v)
      ensures Materialize(schema, v).members[n] == Materialize(ChildSchema(schema, n), Written(schema, v, n))
    {
    }
  }

  /** What stands at a member: the supplied value, or else the declared default. */
  function Written(schema: Json, v: Json, n: string): Json
  {
    if n in Members(v) then Members(v)[n] else DefaultOf(schema, n)
  }

  lemma ArrayMaterialized(schema: Json, v: Json)
    requires schema.Obj? && Discriminator(schema) == "" && TextAt(schema, "type") == "array" && v.Arr?
    ensures Materialize(schema, v).Arr? && |Materialize(schema, v).items| == |v.items|
    ensures forall i | 0 <= i < |v.items| :: Materialize(schema, v).items[i] == Materialize(At(schema, "items"), v.items[i])
  {
  }

  /** Which of the four things materialisation does to a value. */
  datatype Effect = Unchanged | Through(branch: Json) | MemberWise | ItemWise

  function EffectOn(schema: Json, v: Json): Effect
  {
    if !schema.Obj? then Unchanged
    else if Discriminator(schema) != "" then
      if v.Obj? && BranchFor(schema, v).Some? then Through(ListAt(schema, "oneOf")[BranchFor(schema, v).value]) else Unchanged
    else if TextAt(schema, "type") == "object" && v.Obj? then MemberWise
    else if TextAt(schema, "type") == "array" && v.Arr? then ItemWise
    else Unchanged
  }

  lemma EffectMeaning(schema: Json, v: Json)
    ensures match EffectOn(schema, v)
            case Unchanged => Materialize(schema, v) == v
            case Through(branch) => branch < schema && Materialize(schema, v) == Materialize(branch, v)
            case MemberWise => true
            case ItemWise => true
    ensures ChildrenSmaller(schema)
  {
    hide BranchFor, EffectiveNames, ChildSchema, HasDefault, DefaultOf;
    ChildrenAreSmaller(schema);
  }

  ghost predicate ChildrenSmaller(schema: Json)
  {
    schema.Obj? ==>
      && (forall n :: ChildSchema(schema, n) < schema || ChildSchema(schema, n) == Null)
      && (At(schema, "items") < schema || At(schema, "items") == Null)
  }

  lemma ChildrenAreSmaller(schema: Json)
    ensures ChildrenSmaller(schema)
  {
  }

  // ---------- supplied members are kept ----------

  /** `m` says everything `v` says: same scalars and items, and every member. */
  ghost predicate Keeps(v: Json, m: Json)
    decreases v
  {
    match v
    case Obj(members) => m.Obj? && forall n | n in members :: n in m.members && Keeps(members[n], m.members[n])
    case Arr(items) => m.Arr? && |m.items| == |items| && forall i | 0 <= i < |items| :: Keeps(items[i], m.items[i])
    case _ => m == v
  }

  lemma {:induction false} KeepsItself(v: Json)
    ensures Keeps(v, v)
    decreases v
  {
    match v
    case Obj(members) => forall n | n in members ensures Keeps(members[n], members[n]) { KeepsItself(members[n]); }
    case Arr(items) => forall i | 0 <= i < |items| ensures Keeps(items[i], items[i]) { KeepsItself(items[i]); }
    case _ =>
  }

  /** Materialisation adds members and changes nothing that was supplied. */
  lemma {:induction false} MaterializeKeeps(schema: Json, v: Json)
    ensures Keeps(v, Materialize(schema, v))
    decreases schema
  {
    hide EffectOn, Keeps, BranchFor, EffectiveNames, ChildSchema, Discriminator;
    EffectMeaning(schema, v);
    KeepsItself(v);
    match EffectOn(schema, v)
    case Unchanged =>
    case Through(branch) => MaterializeKeeps(branch, v);
    case MemberWise => MembersKept(schema, v);
    case ItemWise => ItemsKept(schema, v);
  }

  lemma {:induction false} MembersKept(schema: Json, v: Json)
    requires EffectOn(schema, v).MemberWise?
    ensures Keeps(v, Materialize(schema, v))
    decreases schema, 0
  {
    hide Materialize, BranchFor, ChildSchema;
    ObjectMaterialized(schema, v);
    ChildrenAreSmaller(schema);
    forall n | n in v.members ensures Keeps(v.members[n], Materialize(schema, v).members[n]) {
      KeptBy(schema, ChildSchema(schema, n), v.members[n]);
    }
  }

  lemma {:induction false} ItemsKept(schema: Json, v: Json)
    requires EffectOn(schema, v).ItemWise?
    ensures Keeps(v, Materialize(schema, v))
    decreases schema, 0
  {
    hide Materialize, BranchFor;
    ArrayMaterialized(schema, v);
    ChildrenAreSmaller(schema);
    forall i | 0 <= i < |v.items| ensures Keeps(v.items[i], Materialize(schema, v).items[i]) {
      KeptBy(schema, At(schema, "items"), v.items[i]);
    }
  }

  lemma {:induction false} KeptBy(schema: Json, child: Json, v: Json)
    requires child < schema || child == Null
    ensures Keeps(v, Materialize(child, v))
    decreases schema, -1
  {
    if child.Obj? {
      MaterializeKeeps(child, v);
    } else {
      KeepsItself(v);
    }
  }

  // ---------- tags survive ----------

  /** No branch reached for an untagged object supplies a tag as a default. */
  ghost predicate NoTagDefault(branch: Json, discriminator: string)
    decreases branch
  {
    branch.Obj? ==>
      if Discriminator(branch) != "" then
        forall i | 0 <= i < |ListAt(branch, "oneOf")| :: NoTagDefault(ListAt(branch, "oneOf")[i], discriminator)
      else
        !(HasDefault(branch, discriminator) && DefaultOf(branch, discriminator).Str? && DefaultOf(branch, discriminator).s != "")
  }

  /** At every tagged union the schema uses, a branch that declares no tag does not
      default the discriminator. A union whose branches all carry a non-empty
      `const` tag satisfies this trivially. */
  ghost predicate TagStable(schema: Json)
    decreases schema
  {
    schema.Obj? ==>
      if Discriminator(schema) != "" then
        forall i | 0 <= i < |ListAt(schema, "oneOf")| ::
          var branch := ListAt(schema, "oneOf")[i];
          TagStable(branch)
          && (DeclaredTag(branch, Discriminator(schema)) == "" ==> NoTagDefault(branch, Discriminator(schema)))
      else
        && (forall n | n in schema.members ::
              (n == "additionalProperties" || n == "items") ==> TagStable(schema.members[n]))
        && (forall n | n in Members(At(schema, "properties")) :: TagStable(Members(At(schema, "properties"))[n]))
  }

  lemma TagsAllDeclared(schema: Json)
    requires schema.Obj? && Discriminator(schema) != ""
    requires forall i | 0 <= i < |ListAt(schema, "oneOf")| ::
               TagStable(ListAt(schema, "oneOf")[i]) && DeclaredTag(ListAt(schema, "oneOf")[i], Discriminator(schema)) != ""
    ensures TagStable(schema)
  {
  }

  lemma {:induction false} TagKept(branch: Json, v: Json, discriminator: string)
    requires v.Obj? && (TextAt(v, discriminator) != "" || NoTagDefault(branch, discriminator))
    ensures TextAt(Materialize(branch, v), discriminator) == TextAt(v, discriminator)
    decreases branch
  {
    hide BranchFor, EffectiveNames, ChildSchema;
    EffectMeaning(branch, v);
    match EffectOn(branch, v)
    case Unchanged =>
    case Through(inner) => TagKept(inner, v, discriminator);
    case MemberWise =>
      ObjectMaterialized(branch, v);
      TagWritten(branch, v, discriminator);
    case ItemWise =>
  }

  lemma TextIsFixed(schema: Json, v: Json)
    ensures v.Str? ==> Materialize(schema, v) == v
    ensures !v.Str? ==> !Materialize(schema, v).Str?
  {
    hide Materialize;
    MaterializeKeeps(schema, v);
    NonTextStays(v, Materialize(schema, v));
  }

  lemma NonTextStays(v: Json, m: Json)
    requires Keeps(v, m)
    ensures v.Str? ==> m == v
    ensures !v.Str? ==> !m.Str?
  {
  }

  lemma TagWritten(branch: Json, v: Json, discriminator: string)
    requires EffectOn(branch, v).MemberWise?
    requires TextAt(v, discriminator) != "" || NoTagDefault(branch, discriminator)
    ensures TextAt(Materialize(branch, v), discriminator) == TextAt(v, discriminator)
  {
    hide Materialize, BranchFor, ChildSchema;
    ObjectMaterialized(branch, v);
    if discriminator in EffectiveNames(branch, v) {
      TextIsFixed(ChildSchema(branch, discriminator), Written(branch, v, discriminator));
    }
  }

  // ---------- the normal form ----------

  /** `a` and `b` differ at most in which declared defaults they write out, at any
      depth: an omitted member stands for its default. */
  ghost predicate SameUpToDefaults(schema: Json, a: Json, b: Json)
    decreases schema
  {
    if !schema.Obj? then a == b
    else if Discriminator(schema) != "" then
      if a.Obj? && b.Obj? && BranchFor(schema, a) == BranchFor(schema, b) && BranchFor(schema, a).Some?
      then SameUpToDefaults(ListAt(schema, "oneOf")[BranchFor(schema, a).value], a, b)
      else a == b
    else if TextAt(schema, "type") == "object" && a.Obj? && b.Obj? then
      EffectiveNames(schema, a) == EffectiveNames(schema, b)
      && forall n | n in EffectiveNames(schema, a) ::
           if ChildSchema(schema, n).Obj?
           then SameUpToDefaults(ChildSchema(schema, n), Written(schema, a, n), Written(schema, b, n))
           else Written(schema, a, n) == Written(schema, b, n)
    else if TextAt(schema, "type") == "array" && a.Arr? && b.Arr? then
      |a.items| == |b.items|
      && forall i | 0 <= i < |a.items| ::
           if At(schema, "items").Obj? then SameUpToDefaults(At(schema, "items"), a.items[i], b.items[i])
           else a.items[i] == b.items[i]
    else a == b
  }

  /** Two documents have the same effective document if and only if they differ
      only in which declared defaults they write out. */
  lemma {:induction false} NormalForm(schema: Json, a: Json, b: Json)
    requires TagStable(schema)
    ensures Materialize(schema, a) == Materialize(schema, b) <==> SameUpToDefaults(schema, a, b)
    decreases schema, 1
  {
    hide Materialize, BranchFor, EffectiveNames, ChildSchema, Written, DeclaredTag, NoTagDefault;
    EffectMeaning(schema, a);
    EffectMeaning(schema, b);
    ShapeKept(schema, a);
    ShapeKept(schema, b);
    if schema.Obj? {
      if Discriminator(schema) != "" {
        if a.Obj? && b.Obj? {
          UnionNormalForm(schema, a, b);
        }
      } else if TextAt(schema, "type") == "object" && a.Obj? && b.Obj? {
        ObjectNormalForm(schema, a, b);
      } else if TextAt(schema, "type") == "array" && a.Arr? && b.Arr? {
        ArrayNormalForm(schema, a, b);
      }
    }
  }

  lemma ShapeKept(schema: Json, v: Json)
    ensures Materialize(schema, v).Obj? == v.Obj? && Materialize(schema, v).Arr? == v.Arr?
    ensures !v.Obj? && !v.Arr? ==> Materialize(schema, v) == v
  {
    hide Materialize;
    MaterializeKeeps(schema, v);
  }

  lemma SameTagSameBranch(schema: Json, a: Json, b: Json)
    requires TextAt(a, Discriminator(schema)) == TextAt(b, Discriminator(schema))
    ensures BranchFor(schema, a) == BranchFor(schema, b)
  {
  }

  /** A selected branch leaves the tag alone. */
  lemma UnionTagKept(schema: Json, v: Json)
    requires TagStable(schema) && schema.Obj? && Discriminator(schema) != "" && v.Obj?
    ensures TextAt(Materialize(schema, v), Discriminator(schema)) == TextAt(v, Discriminator(schema))
    ensures BranchFor(schema, Materialize(schema, v)) == BranchFor(schema, v)
  {
    hide Materialize, BranchFor, NoTagDefault, TextAt;
    EffectMeaning(schema, v);
    if BranchFor(schema, v).Some? {
      var branch := ListAt(schema, "oneOf")[BranchFor(schema, v).value];
      BranchDeclares(schema, v);
      TagKept(branch, v, Discriminator(schema));
    }
    SameTagSameBranch(schema, Materialize(schema, v), v);
  }

  lemma BranchDeclares(schema: Json, v: Json)
    requires BranchFor(schema, v).Some?
    ensures DeclaredTag(ListAt(schema, "oneOf")[BranchFor(schema, v).value], Discriminator(schema)) == TextAt(v, Discriminator(schema))
  {
    FirstBranchInRange(ListAt(schema, "oneOf"), Discriminator(schema), TextAt(v, Discriminator(schema)));
  }

  lemma {:induction false} UnionNormalForm(schema: Json, a: Json, b: Json)
    requires TagStable(schema) && schema.Obj? && Discriminator(schema) != "" && a.Obj? && b.Obj?
    ensures Materialize(schema, a) == Materialize(schema, b) <==> SameUpToDefaults(schema, a, b)
    decreases schema, 0
  {
    hide Materialize, BranchFor, NoTagDefault, DeclaredTag;
    UnionTagKept(schema, a);
    UnionTagKept(schema, b);
    EffectMeaning(schema, a);
    EffectMeaning(schema, b);
    if BranchFor(schema, a) == BranchFor(schema, b) && BranchFor(schema, a).Some? {
      NormalForm(ListAt(schema, "oneOf")[BranchFor(schema, a).value], a, b);
    }
  }

  lemma TagStableChild(schema: Json, n: string)
    requires TagStable(schema) && schema.Obj? && Discriminator(schema) == ""
    ensures TagStable(ChildSchema(schema, n)) && TagStable(At(schema, "items"))
  {
  }

  lemma {:induction false} ObjectNormalForm(schema: Json, a: Json, b: Json)
    requires TagStable(schema) && EffectOn(schema, a).MemberWise? && b.Obj?
    ensures Materialize(schema, a) == Materialize(schema, b) <==> SameUpToDefaults(schema, a, b)
    decreases schema, 0
  {
    hide Materialize, BranchFor, EffectiveNames, ChildSchema, Written, TagStable;
    ObjectMaterialized(schema, a);
    ObjectMaterialized(schema, b);
    ChildrenAreSmaller(schema);
    var ma, mb := Materialize(schema, a).members, Materialize(schema, b).members;
    forall n | n in EffectiveNames(schema, a) && n in EffectiveNames(schema, b)
      ensures ma[n] == mb[n] <==>
              if ChildSchema(schema, n).Obj?
              then SameUpToDefaults(ChildSchema(schema, n), Written(schema, a, n), Written(schema, b, n))
              else Written(schema, a, n) == Written(schema, b, n)
    {
      TagStableChild(schema, n);
      ChildNormalForm(schema, ChildSchema(schema, n), Written(schema, a, n), Written(schema, b, n));
    }
    assert ma == mb <==> ma.Keys == mb.Keys && forall n | n in ma :: ma[n] == mb[n];
  }

  lemma {:induction false} ArrayNormalForm(schema: Json, a: Json, b: Json)
    requires TagStable(schema) && EffectOn(schema, a).ItemWise? && b.Arr?
    ensures Materialize(schema, a) == Materialize(schema, b) <==> SameUpToDefaults(schema, a, b)
    decreases schema, 0
  {
    hide Materialize, BranchFor, TagStable;
    ArrayMaterialized(schema, a);
    ArrayMaterialized(schema, b);
    ChildrenAreSmaller(schema);
    TagStableChild(schema, "");
    var ma, mb := Materialize(schema, a).items, Materialize(schema, b).items;
    if |a.items| == |b.items| {
      forall i | 0 <= i < |a.items|
        ensures ma[i] == mb[i] <==>
                if At(schema, "items").Obj? then SameUpToDefaults(At(schema, "items"), a.items[i], b.items[i])
                else a.items[i] == b.items[i]
      {
        ChildNormalForm(schema, At(schema, "items"), a.items[i], b.items[i]);
      }
    }
    assert ma == mb <==> |ma| == |mb| && forall i | 0 <= i < |ma| :: ma[i] == mb[i];
  }

  lemma {:induction false} ChildNormalForm(schema: Json, child: Json, a: Json, b: Json)
    requires (child < schema || child == Null) && TagStable(child)
    ensures Materialize(child, a) == Materialize(child, b) <==>
            if child.Obj? then SameUpToDefaults(child, a, b) else a == b
    decreases schema, -1
  {
    if child.Obj? {
      NormalForm(child, a, b);
    }
  }

  // ---------- idempotence ----------

  /** The effective document is its own effective document. */
  lemma {:induction false} MaterializeIdempotent(schema: Json, v: Json)
    requires TagStable(schema)
    ensures Materialize(schema, Materialize(schema, v)) == Materialize(schema, v)
    decreases schema, 1
  {
    hide Materialize, BranchFor, EffectiveNames, ChildSchema, NoTagDefault, DeclaredTag, TextAt;
    var m := Materialize(schema, v);
    EffectMeaning(schema, v);
    EffectMeaning(schema, m);
    ShapeKept(schema, v);
    match EffectOn(schema, v)
    case Unchanged =>
    case Through(branch) =>
      UnionTagKept(schema, v);
      MaterializeIdempotent(branch, v);
    case MemberWise => ObjectIdempotent(schema, v);
    case ItemWise => ArrayIdempotent(schema, v);
  }

  lemma {:induction false} ObjectIdempotent(schema: Json, v: Json)
    requires TagStable(schema) && EffectOn(schema, v).MemberWise?
    ensures Materialize(schema, Materialize(schema, v)) == Materialize(schema, v)
    decreases schema, 0
  {
    hide Materialize, BranchFor, ChildSchema, TagStable;
    var m := Materialize(schema, v);
    ObjectMaterialized(schema, v);
    ObjectMaterialized(schema, m);
    ChildrenAreSmaller(schema);
    assert EffectiveNames(schema, m) == EffectiveNames(schema, v);
    forall n | n in m.members ensures Materialize(schema, m).members[n] == m.members[n] {
      TagStableChild(schema, n);
      ChildIdempotent(schema, ChildSchema(schema, n), Written(schema, v, n));
    }
    assert Materialize(schema, m).members == m.members;
  }

  lemma {:induction false} ArrayIdempotent(schema: Json, v: Json)
    requires TagStable(schema) && EffectOn(schema, v).ItemWise?
    ensures Materialize(schema, Materialize(schema, v)) == Materialize(schema, v)
    decreases schema, 0
  {
    hide Materialize, BranchFor, TagStable;
    var m := Materialize(schema, v);
    ArrayMaterialized(schema, v);
    ArrayMaterialized(schema, m);
    ChildrenAreSmaller(schema);
    TagStableChild(schema, "");
    forall i | 0 <= i < |m.items| ensures Materialize(schema, m).items[i] == m.items[i] {
      ChildIdempotent(schema, At(schema, "items"), v.items[i]);
    }
    assert Materialize(schema, m).items == m.items;
  }

  lemma {:induction false} ChildIdempotent(schema: Json, child: Json, v: Json)
    requires (child < schema || child == Null) && TagStable(child)
    ensures Materialize(child, Materialize(child, v)) == Materialize(child, v)
    decreases schema, -1
  {
    if child.Obj? {
      MaterializeIdempotent(child, v);
    }
  }

  /** Writing out one omitted default changes nothing. */
  lemma WrittenDefault(schema: Json, v: Json, n: string)
    requires schema.Obj? && Discriminator(schema) == "" && TextAt(schema, "type") == "object"
    requires v.Obj? && n !in v.members && n in Members(At(schema, "properties")) && HasDefault(schema, n)
    ensures Materialize(schema, Obj(v.members[n := DefaultOf(schema, n)])) == Materialize(schema, v)
  {
    hide Materialize, BranchFor, ChildSchema;
    var w := Obj(v.members[n := DefaultOf(schema, n)]);
    ObjectMaterialized(schema, v);
    ObjectMaterialized(schema, w);
    assert EffectiveNames(schema, w) == EffectiveNames(schema, v);
    assert Materialize(schema, w).members == Materialize(schema, v).members;
  }

  // ---------- where the condition is needed ----------

  function Property(value: Json): Json
  {
    Obj(map["type" := Str("string"), DEFAULT := value])
  }

  /** A union whose first branch declares no tag but defaults the discriminator to
      the tag of the second, which in turn adds a member of its own. */
  function UntaggedUnion(): Json
  {
    Obj(map[DISCRIMINATOR := Str("kind"),
            "oneOf" := Arr([
              Obj(map["type" := Str("object"), "properties" := Obj(map["kind" := Property(Str("b"))])]),
              Obj(map["type" := Str("object"),
                      "properties" := Obj(map["kind" := Obj(map["const" := Str("b")]),
                                              "size" := Property(Str("s"))])])])])
  }

  /** The keys of the example are distinct. */
  lemma DistinctKeys()
    ensures "kind" != "size" && "const" != "type" && "const" != DEFAULT && "oneOf" != DISCRIMINATOR
    ensures DISCRIMINATOR != "type" && DISCRIMINATOR != "properties" && DISCRIMINATOR != DEFAULT
    ensures "properties" != "type" && DEFAULT != "type" && "b" != ""
  {
    assert |"const"| == 5 && |"type"| == 4 && |DEFAULT| == 7 && |DISCRIMINATOR| == 24 && |"oneOf"| == 5 && |"properties"| == 10;
    assert "kind"[0] == 'k' && "size"[0] == 's';
  }

  /** Without the condition the first pass writes a tag that makes the second pass
      select another branch. */
  lemma UntaggedUnionIsNotIdempotent()
    ensures var once := Materialize(UntaggedUnion(), Obj(map[]));
            Materialize(UntaggedUnion(), once) != once
    ensures !TagStable(UntaggedUnion())
  {
    hide Materialize, BranchFor, TagStable, NoTagDefault, DeclaredTag, UntaggedUnion, TextAt;
    var union, empty := UntaggedUnion(), Obj(map[]);
    UnionShape();
    var first, second := ListAt(union, "oneOf")[0], ListAt(union, "oneOf")[1];
    EffectMeaning(union, empty);
    FirstBranchWritesTag(first, empty);
    var once := Materialize(union, empty);
    EffectMeaning(union, once);
    SecondBranchAddsSize(second, once);
    UnionIsNotStable();
  }

  lemma UnionShape()
    ensures var union := UntaggedUnion();
            && union.Obj? && |ListAt(union, "oneOf")| == 2 && Discriminator(union) == "kind"
            && BranchFor(union, Obj(map[])) == Some(0)
            && BranchFor(union, Obj(map["kind" := Str("b")])) == Some(1)
  {
    DistinctKeys();
    var union := UntaggedUnion();
    var first, second := ListAt(union, "oneOf")[0], ListAt(union, "oneOf")[1];
    assert Discriminator(union) == "kind";
    assert DeclaredTag(first, "kind") == "" && DeclaredTag(second, "kind") == "b";
    assert ListAt(union, "oneOf")[1..] == [second];
  }

  lemma UnionIsNotStable()
    ensures !TagStable(UntaggedUnion())
  {
    DistinctKeys();
    var union := UntaggedUnion();
    var first := ListAt(union, "oneOf")[0];
    assert Discriminator(union) == "kind" && DeclaredTag(first, "kind") == "";
    assert HasDefault(first, "kind") && DefaultOf(first, "kind") == Str("b");
    assert Discriminator(first) == "";
    assert !NoTagDefault(first, "kind");
  }

  lemma FirstBranchWritesTag(first: Json, empty: Json)
    requires first == ListAt(UntaggedUnion(), "oneOf")[0] && empty == Obj(map[])
    ensures Materialize(first, empty) == Obj(map["kind" := Str("b")])
  {
    DistinctKeys();
    assert Discriminator(first) == "";
    ObjectMaterialized(first, empty);
    assert EffectiveNames(first, empty) == {"kind"};
    TextIsFixed(ChildSchema(first, "kind"), Str("b"));
    assert Materialize(first, empty).members == map["kind" := Str("b")];
  }

  lemma SecondBranchAddsSize(second: Json, once: Json)
    requires second == ListAt(UntaggedUnion(), "oneOf")[1] && once == Obj(map["kind" := Str("b")])
    ensures Materialize(second, once).Obj? && "size" in Materialize(second, once).members
  {
    DistinctKeys();
    assert Discriminator(second) == "";
    ObjectMaterialized(second, once);
    assert HasDefault(second, "size");
  }
}
