/** Exactly when effective documents agree, for every schema and document: without
    any condition on tags, two documents have one effective document if and only if
    they say the same under the branches each of them selects, and a second pass
    changes nothing if and only if the tags the first pass writes are settled. */
module EffectiveDocuments {
  import opened Wrappers
  import opened JsonModel
  import opened Materialization

  // ---------- the schema in force ----------

  /** The object or array schema that speaks about a value once its tags are
      followed; Null when none does and the value stands as it is. */
  function InForce(schema: Json, v: Json): (r: Json)
    ensures r == Null || r == schema || r < schema
    decreases schema
  {
    match EffectOn(schema, v)
    case Unchanged => Null
    case Through(branch) => BranchIsSmaller(schema, v); InForce(branch, v)
    case MemberWise => schema
    case ItemWise => schema
  }

  lemma BranchIsSmaller(schema: Json, v: Json)
    requires EffectOn(schema, v).Through?
    ensures EffectOn(schema, v).branch < schema
  {
  }

  /** What a part of a value is under: a schema object, or nothing. */
  function Under(part: Json): Json
  {
    if part.Obj? then part else Null
  }

  function MemberSchema(r: Json, n: string): Json
  {
    Under(ChildSchema(r, n))
  }

  function ItemSchema(r: Json): Json
  {
    Under(At(r, "items"))
  }

  function Weight(schema: Json): nat
  {
    if schema.Obj? then 1 else 0
  }

  // ---------- saying the same ----------

  /** `a` under `s` and `b` under `t` say the same: an omitted member stands for the
      default its schema declares, at any depth. */
  ghost predicate SaysTheSame(s: Json, a: Json, t: Json, b: Json)
    decreases Weight(s), Under(s), Weight(t), Under(t), a, 2
  {
    if a.Obj? && b.Obj? then
      && EffectiveNames(InForce(s, a), a) == EffectiveNames(InForce(t, b), b)
      && forall n | n in EffectiveNames(InForce(s, a), a) && n in EffectiveNames(InForce(t, b), b) :: MemberSame(s, a, t, b, n)
    else if a.Arr? && b.Arr? then
      |a.items| == |b.items| && ItemsSame(s, a, t, b)
    else a == b
  }

  ghost predicate MemberSame(s: Json, a: Json, t: Json, b: Json, n: string)
    requires a.Obj? && b.Obj? && n in EffectiveNames(InForce(s, a), a) && n in EffectiveNames(InForce(t, b), b)
    decreases Weight(s), Under(s), Weight(t), Under(t), a, 0
  {
    MembersDescend(s, a, n);
    MembersDescend(t, b, n);
    SaysTheSame(MemberSchema(InForce(s, a), n), Written(InForce(s, a), a, n), MemberSchema(InForce(t, b), n), Written(InForce(t, b), b, n))
  }

  ghost predicate ItemsSame(s: Json, a: Json, t: Json, b: Json)
    requires a.Arr? && b.Arr? && |a.items| == |b.items|
    decreases Weight(s), Under(s), Weight(t), Under(t), a, 1
  {
    forall i: nat | i < |a.items| :: ItemSame(s, a, t, b, i)
  }

  ghost predicate ItemSame(s: Json, a: Json, t: Json, b: Json, i: nat)
    requires a.Arr? && b.Arr? && i < |a.items| && i < |b.items|
    decreases Weight(s), Under(s), Weight(t), Under(t), a, 0
  {
    ItemsDescend(s, a);
    ItemsDescend(t, b);
    SaysTheSame(ItemSchema(InForce(s, a)), a.items[i], ItemSchema(InForce(t, b)), b.items[i])
  }

  /** Going to a member leaves the schema smaller, or there is none and the member is
      a part of the value. */
  lemma MembersDescend(s: Json, a: Json, n: string)
    requires a.Obj? && n in EffectiveNames(InForce(s, a), a)
    ensures var r, child := InForce(s, a), MemberSchema(InForce(s, a), n);
            || (child.Obj? && s.Obj? && child < s)
            || (child == Null && s.Obj?)
            || (child == Null && !s.Obj? && n in a.members && Written(r, a, n) == a.members[n])
  {
    hide EffectOn;
    ChildrenAreSmaller(InForce(s, a));
    NothingInForce(s, a);
  }

  lemma NothingInForce(s: Json, a: Json)
    ensures !s.Obj? ==> InForce(s, a) == Null
    ensures EffectiveNames(Null, a) == Members(a).Keys
    ensures forall n :: ChildSchema(Null, n) == Null
    ensures At(Null, "items") == Null
  {
  }

  lemma ItemsDescend(s: Json, a: Json)
    ensures var child := ItemSchema(InForce(s, a));
            (child.Obj? && s.Obj? && child < s) || child == Null
  {
    hide EffectOn;
    ChildrenAreSmaller(InForce(s, a));
    NothingInForce(s, a);
  }

  // ---------- what materialisation does, in terms of the schema in force ----------

  lemma {:induction false} MaterializedInForce(s: Json, v: Json)
    ensures Materialize(s, v) == Materialize(InForce(s, v), v)
    ensures InForce(s, v) != Null ==> EffectOn(InForce(s, v), v).MemberWise? || EffectOn(InForce(s, v), v).ItemWise?
    decreases s
  {
    hide Materialize, BranchFor;
    EffectMeaning(s, v);
    match EffectOn(s, v)
    case Unchanged => NothingMaterialized(v);
    case Through(branch) => MaterializedInForce(branch, v);
    case MemberWise =>
    case ItemWise =>
  }

  lemma NothingMaterialized(v: Json)
    ensures Materialize(Null, v) == v
  {
  }

  lemma NotASchema(part: Json, v: Json)
    ensures Materialize(Under(part), v) == Materialize(part, v)
  {
  }

  /** An object becomes its effective names, each with what is written there. */
  lemma ObjectBecomes(s: Json, v: Json)
    requires v.Obj?
    ensures Materialize(s, v).Obj?
    ensures Materialize(s, v).members.Keys == EffectiveNames(InForce(s, v), v)
    ensures forall n | n in EffectiveNames(InForce(s, v), v) ::
              Materialize(s, v).members[n] == Materialize(MemberSchema(InForce(s, v), n), Written(InForce(s, v), v, n))
  {
    hide Materialize, BranchFor, EffectiveNames, ChildSchema;
    var r := InForce(s, v);
    MaterializedInForce(s, v);
    if r == Null {
      NothingInForce(Null, v);
      NothingMaterialized(v);
      forall n | n in v.members ensures Materialize(s, v).members[n] == Materialize(MemberSchema(r, n), Written(r, v, n)) {
        NothingMaterialized(v.members[n]);
      }
    } else {
      ObjectMaterialized(r, v);
      forall n | n in EffectiveNames(r, v)
        ensures Materialize(s, v).members[n] == Materialize(MemberSchema(r, n), Written(r, v, n))
      {
        NotASchema(ChildSchema(r, n), Written(r, v, n));
      }
    }
  }

  lemma ArrayBecomes(s: Json, v: Json)
    requires v.Arr?
    ensures Materialize(s, v).Arr? && |Materialize(s, v).items| == |v.items|
    ensures forall i | 0 <= i < |v.items| :: Materialize(s, v).items[i] == Materialize(ItemSchema(InForce(s, v)), v.items[i])
  {
    hide Materialize, BranchFor;
    var r := InForce(s, v);
    MaterializedInForce(s, v);
    if r == Null {
      NothingInForce(Null, v);
      NothingMaterialized(v);
      forall i | 0 <= i < |v.items| ensures Materialize(s, v).items[i] == Materialize(ItemSchema(r), v.items[i]) {
        NothingMaterialized(v.items[i]);
      }
    } else {
      ArrayMaterialized(r, v);
      forall i | 0 <= i < |v.items| ensures Materialize(s, v).items[i] == Materialize(ItemSchema(r), v.items[i]) {
        NotASchema(At(r, "items"), v.items[i]);
      }
    }
  }

  // ---------- one effective document ----------

  /** Two values have one effective value exactly when they say the same, whatever
      their schemas are. */
  lemma {:induction false} SameEffectIff(s: Json, a: Json, t: Json, b: Json)
    ensures Materialize(s, a) == Materialize(t, b) <==> SaysTheSame(s, a, t, b)
    decreases Weight(s), Under(s), Weight(t), Under(t), a, 2
  {
    hide Materialize, EffectiveNames, Written, ChildSchema, EffectOn, InForce, MemberSchema, ItemSchema, MemberSame, ItemsSame;
    ShapeKept(s, a);
    ShapeKept(t, b);
    if a.Obj? && b.Obj? {
      ObjectsSame(s, a, t, b);
    } else if a.Arr? && b.Arr? {
      ArraysSame(s, a, t, b);
    } else {
      DifferentShapes(s, a, t, b);
    }
  }

  lemma DifferentShapes(s: Json, a: Json, t: Json, b: Json)
    requires !(a.Obj? && b.Obj?) && !(a.Arr? && b.Arr?)
    ensures Materialize(s, a) == Materialize(t, b) <==> a == b
    ensures SaysTheSame(s, a, t, b) <==> a == b
  {
    hide Materialize;
    ShapeKept(s, a);
    ShapeKept(t, b);
  }

  lemma {:induction false} ObjectsSame(s: Json, a: Json, t: Json, b: Json)
    requires a.Obj? && b.Obj?
    ensures Materialize(s, a) == Materialize(t, b) <==>
            && EffectiveNames(InForce(s, a), a) == EffectiveNames(InForce(t, b), b)
            && forall n | n in EffectiveNames(InForce(s, a), a) && n in EffectiveNames(InForce(t, b), b) :: MemberSame(s, a, t, b, n)
    decreases Weight(s), Under(s), Weight(t), Under(t), a, 0
  {
    hide Materialize, EffectiveNames, Written, ChildSchema, EffectOn, InForce, MemberSchema, SaysTheSame;
    ObjectBecomes(s, a);
    ObjectBecomes(t, b);
    var ma, mb := Materialize(s, a).members, Materialize(t, b).members;
    forall n | n in EffectiveNames(InForce(s, a), a) && n in EffectiveNames(InForce(t, b), b)
      ensures ma[n] == mb[n] <==> MemberSame(s, a, t, b, n)
    {
      MembersDescend(s, a, n);
      MembersDescend(t, b, n);
      SameEffectIff(MemberSchema(InForce(s, a), n), Written(InForce(s, a), a, n), MemberSchema(InForce(t, b), n), Written(InForce(t, b), b, n));
    }
    assert ma == mb <==> ma.Keys == mb.Keys && forall n | n in ma && n in mb :: ma[n] == mb[n];
  }

  lemma {:induction false} ArraysSame(s: Json, a: Json, t: Json, b: Json)
    requires a.Arr? && b.Arr?
    ensures Materialize(s, a) == Materialize(t, b) <==> |a.items| == |b.items| && ItemsSame(s, a, t, b)
    decreases Weight(s), Under(s), Weight(t), Under(t), a, 1
  {
    hide Materialize, EffectOn, InForce, ItemSchema, SaysTheSame;
    ArrayBecomes(s, a);
    ArrayBecomes(t, b);
    var ma, mb := Materialize(s, a).items, Materialize(t, b).items;
    assert Materialize(s, a) == Materialize(t, b) <==> ma == mb;
    if |a.items| == |b.items| {
      forall i: nat | i < |a.items| ensures ma[i] == mb[i] <==> ItemSame(s, a, t, b, i) {
        ItemsDescend(s, a);
        ItemsDescend(t, b);
        SameEffectIff(ItemSchema(InForce(s, a)), a.items[i], ItemSchema(InForce(t, b)), b.items[i]);
      }
      if ItemsSame(s, a, t, b) {
        forall i: nat | i < |ma| ensures ma[i] == mb[i] {
          assert ItemSame(s, a, t, b, i);
        }
        assert ma == mb;
      }
    }
  }

  /** The normal form, for every schema: two documents have the same effective
      document if and only if they say the same under it. */
  lemma NormalFormIff(schema: Json, a: Json, b: Json)
    ensures Materialize(schema, a) == Materialize(schema, b) <==> SaysTheSame(schema, a, schema, b)
  {
    SameEffectIff(schema, a, schema, b);
  }

  /** A document that writes out every default its schema declares for it. */
  ghost predicate Complete(schema: Json, v: Json)
  {
    SaysTheSame(schema, v, Null, v)
  }

  /** Materialisation leaves a document alone exactly when it is complete. */
  lemma UnchangedIff(schema: Json, v: Json)
    ensures Materialize(schema, v) == v <==> Complete(schema, v)
  {
    hide Materialize, SaysTheSame;
    NothingMaterialized(v);
    SameEffectIff(schema, v, Null, v);
  }

  // ---------- a second pass ----------

  /** The tag a union's branch leaves in an object: its own, or the default some
      branch on the way declares for it. */
  function TagLeft(branch: Json, v: Json, discriminator: string): string
    decreases branch
  {
    match EffectOn(branch, v)
    case Through(inner) => BranchIsSmaller(branch, v); TagLeft(inner, v, discriminator)
    case MemberWise =>
      if discriminator in EffectiveNames(branch, v) && Written(branch, v, discriminator).Str? then Written(branch, v, discriminator).s else ""
    case _ => TextAt(v, discriminator)
  }

  lemma {:induction false} TagLeftIsTheTag(branch: Json, v: Json, discriminator: string)
    requires v.Obj?
    ensures TextAt(Materialize(branch, v), discriminator) == TagLeft(branch, v, discriminator)
    decreases branch
  {
    hide Materialize, BranchFor, EffectiveNames, ChildSchema, Written;
    EffectMeaning(branch, v);
    match EffectOn(branch, v)
    case Unchanged =>
    case Through(inner) => TagLeftIsTheTag(inner, v, discriminator);
    case MemberWise =>
      ObjectMaterialized(branch, v);
      if discriminator in EffectiveNames(branch, v) {
        TextIsFixed(ChildSchema(branch, discriminator), Written(branch, v, discriminator));
      }
    case ItemWise =>
  }

  /** The branch a tag selects. */
  function BranchTagged(schema: Json, tag: string): Option<nat>
  {
    FirstBranch(ListAt(schema, "oneOf"), Discriminator(schema), tag)
  }

  /** At every union a document passes through, the tag the first pass leaves
      selects the same branch again, or none, or a branch that has nothing to add. */
  ghost predicate Settled(schema: Json, v: Json)
    decreases schema
  {
    ChildrenAreSmaller(schema);
    match EffectOn(schema, v)
    case Unchanged => true
    case Through(branch) =>
      BranchIsSmaller(schema, v);
      var left := BranchTagged(schema, TagLeft(branch, v, Discriminator(schema)));
      if left == BranchFor(schema, v) then Settled(branch, v)
      else left.None? || (left.value < |ListAt(schema, "oneOf")| && Complete(ListAt(schema, "oneOf")[left.value], Materialize(branch, v)))
    case MemberWise =>
      forall n | n in EffectiveNames(schema, v) && ChildSchema(schema, n).Obj? :: Settled(ChildSchema(schema, n), Written(schema, v, n))
    case ItemWise =>
      At(schema, "items").Obj? ==> forall i | 0 <= i < |v.items| :: Settled(At(schema, "items"), v.items[i])
  }

  /** The effective document is its own effective document if and only if its tags
      are settled, for every schema and document. */
  lemma {:induction false} IdempotentIff(schema: Json, v: Json)
    ensures Materialize(schema, Materialize(schema, v)) == Materialize(schema, v) <==> Settled(schema, v)
    decreases schema, 1
  {
    hide Materialize, BranchFor, EffectiveNames, ChildSchema, Written, TagLeft, BranchTagged, Complete;
    EffectMeaning(schema, v);
    match EffectOn(schema, v)
    case Unchanged =>
    case Through(branch) => UnionIdempotentIff(schema, v, branch);
    case MemberWise => ObjectIdempotentIff(schema, v);
    case ItemWise => ArrayIdempotentIff(schema, v);
  }

  lemma {:induction false} UnionIdempotentIff(schema: Json, v: Json, branch: Json)
    requires EffectOn(schema, v) == Through(branch)
    ensures Materialize(schema, Materialize(schema, v)) == Materialize(schema, v) <==> Settled(schema, v)
    decreases schema, 0
  {
    hide Materialize, BranchFor, EffectiveNames, ChildSchema, Written, TagLeft, Complete, FirstBranch;
    EffectMeaning(schema, v);
    var m := Materialize(branch, v);
    ShapeKept(branch, v);
    TagLeftIsTheTag(branch, v, Discriminator(schema));
    EffectMeaning(schema, m);
    assert BranchFor(schema, m) == BranchTagged(schema, TagLeft(branch, v, Discriminator(schema))) by { BranchByTag(schema, m); }
    if BranchFor(schema, m) == BranchFor(schema, v) {
      IdempotentIff(branch, v);
    } else if BranchFor(schema, m).Some? {
      UnchangedIff(ListAt(schema, "oneOf")[BranchFor(schema, m).value], m);
    }
  }

  lemma BranchByTag(schema: Json, v: Json)
    ensures BranchFor(schema, v) == BranchTagged(schema, TextAt(v, Discriminator(schema)))
  {
  }

  lemma {:induction false} ChildIdempotentIff(schema: Json, child: Json, v: Json)
    requires child < schema || child == Null
    ensures Materialize(child, Materialize(child, v)) == Materialize(child, v) <==> (child.Obj? ==> Settled(child, v))
    decreases schema, -1
  {
    if child.Obj? {
      IdempotentIff(child, v);
    }
  }

  lemma {:induction false} ObjectIdempotentIff(schema: Json, v: Json)
    requires EffectOn(schema, v).MemberWise?
    ensures Materialize(schema, Materialize(schema, v)) == Materialize(schema, v) <==> Settled(schema, v)
    decreases schema, 0
  {
    hide Materialize, BranchFor, ChildSchema, Settled;
    var m := Materialize(schema, v);
    ObjectMaterialized(schema, v);
    ObjectMaterialized(schema, m);
    ChildrenAreSmaller(schema);
    assert EffectiveNames(schema, m) == EffectiveNames(schema, v);
    var mm := Materialize(schema, m).members;
    forall n | n in EffectiveNames(schema, v)
      ensures mm[n] == m.members[n] <==> (ChildSchema(schema, n).Obj? ==> Settled(ChildSchema(schema, n), Written(schema, v, n)))
    {
      ChildIdempotentIff(schema, ChildSchema(schema, n), Written(schema, v, n));
    }
    assert mm == m.members <==> forall n | n in EffectiveNames(schema, v) :: mm[n] == m.members[n];
    SettledMembers(schema, v);
  }

  lemma SettledMembers(schema: Json, v: Json)
    requires EffectOn(schema, v).MemberWise?
    ensures Settled(schema, v) <==>
            forall n | n in EffectiveNames(schema, v) :: ChildSchema(schema, n).Obj? ==> Settled(ChildSchema(schema, n), Written(schema, v, n))
  {
    hide BranchFor, EffectiveNames, ChildSchema, Written;
  }

  lemma {:induction false} ArrayIdempotentIff(schema: Json, v: Json)
    requires EffectOn(schema, v).ItemWise?
    ensures Materialize(schema, Materialize(schema, v)) == Materialize(schema, v) <==> Settled(schema, v)
    decreases schema, 0
  {
    hide Materialize, BranchFor, Settled;
    var m := Materialize(schema, v);
    ArrayMaterialized(schema, v);
    ArrayMaterialized(schema, m);
    ChildrenAreSmaller(schema);
    var mm := Materialize(schema, m).items;
    forall i | 0 <= i < |v.items|
      ensures mm[i] == m.items[i] <==> (At(schema, "items").Obj? ==> Settled(At(schema, "items"), v.items[i]))
    {
      ChildIdempotentIff(schema, At(schema, "items"), v.items[i]);
    }
    assert mm == m.items <==> forall i | 0 <= i < |v.items| :: mm[i] == m.items[i];
    SettledItems(schema, v);
  }

  lemma SettledItems(schema: Json, v: Json)
    requires EffectOn(schema, v).ItemWise?
    ensures Settled(schema, v) <==>
            forall i | 0 <= i < |v.items| :: At(schema, "items").Obj? ==> Settled(At(schema, "items"), v.items[i])
  {
  }

  /** The condition on the schema alone settles every document. */
  lemma TagStableSettles(schema: Json, v: Json)
    requires TagStable(schema)
    ensures Settled(schema, v)
  {
    hide Materialize, Settled, TagStable;
    MaterializeIdempotent(schema, v);
    IdempotentIff(schema, v);
  }
}
