/** What materialisation gives, written over the literal document and schema: a
    relation between a value and its effective value that knows nothing of how it
    is computed, and the computation agrees with it everywhere. */
module MaterializationRules {
  import opened Wrappers
  import opened JsonModel
  import opened Materialization

  // ---------- reading the schema ----------

  /** The member of this name, when there is an object that has it. */
  predicate Has(v: Json, key: string, member: Json)
  {
    v.Obj? && key in v.members && v.members[key] == member
  }

  /** The text of a member; a missing member and one of another type read as empty. */
  ghost predicate Reads(v: Json, key: string, text: string)
  {
    if exists s :: Has(v, key, Str(s)) then Has(v, key, Str(text)) else text == ""
  }

  ghost predicate Tagged(schema: Json, discriminator: string)
  {
    discriminator != "" && Has(schema, "x-takoform-discriminator", Str(discriminator))
  }

  ghost predicate Untagged(schema: Json)
  {
    !exists d :: Tagged(schema, d)
  }

  ghost predicate IsProperty(schema: Json, n: string, property: Json)
  {
    exists properties :: Has(schema, "properties", properties) && Has(properties, n, property)
  }

  /** A union's branch declares the tag at `properties`, the discriminator, `const`. */
  ghost predicate Declares(branch: Json, discriminator: string, tag: string)
  {
    if exists property, s :: IsProperty(branch, discriminator, property) && Has(property, "const", Str(s))
    then exists property :: IsProperty(branch, discriminator, property) && Has(property, "const", Str(tag))
    else tag == ""
  }

  /** The first branch of the union that declares the tag stands at `i`. */
  ghost predicate FirstToDeclare(branches: seq<Json>, discriminator: string, tag: string, i: nat)
  {
    && i < |branches| && Declares(branches[i], discriminator, tag)
    && forall j | 0 <= j < i :: !Declares(branches[j], discriminator, tag)
  }

  ghost predicate Selects(schema: Json, discriminator: string, tag: string, branch: Json)
  {
    exists branches, i :: Has(schema, "oneOf", Arr(branches)) && FirstToDeclare(branches, discriminator, tag, i) && branches[i] == branch
  }

  // ---------- the relation ----------

  /** How the parts of a value become the parts of its effective value. */
  type Becoming = (Json, Json, Json) -> bool

  ghost predicate UnionRule(schema: Json, v: Json, m: Json, becomes: Becoming)
  {
    forall d, tag | Tagged(schema, d) && v.Obj? && Reads(v, d, tag) ::
      && (forall branch | Selects(schema, d, tag, branch) :: becomes(branch, v, m))
      && ((forall branch :: !Selects(schema, d, tag, branch)) ==> m == v)
  }

  /** A supplied member goes through its declared property when that is an object,
      else through the schema of additional members when that is one, and is kept as
      it is otherwise. */
  ghost predicate SuppliedRule(schema: Json, n: string, v: Json, m: Json, becomes: Becoming)
  {
    if exists property :: IsProperty(schema, n, property) && property.Obj? then
      forall property | IsProperty(schema, n, property) :: becomes(property, v, m)
    else if exists rest :: Has(schema, "additionalProperties", rest) && rest.Obj? then
      becomes(schema.members["additionalProperties"], v, m)
    else m == v
  }

  /** The properties with a `default`: when omitted, each is added with that. */
  ghost predicate Defaulted(schema: Json, n: string, value: Json)
  {
    exists property :: IsProperty(schema, n, property) && Has(property, "default", value)
  }

  ghost predicate ObjectRule(schema: Json, v: Json, m: Json, becomes: Becoming)
    requires v.Obj?
  {
    && m.Obj?
    && (forall n | n in v.members :: n in m.members && SuppliedRule(schema, n, v.members[n], m.members[n], becomes))
    && (forall n, property, value | n !in v.members && IsProperty(schema, n, property) && Has(property, "default", value) ::
          n in m.members && becomes(property, value, m.members[n]))
    && (forall n | n in m.members && n !in v.members :: exists value :: Defaulted(schema, n, value))
  }

  ghost predicate ArrayRule(schema: Json, v: Json, m: Json, becomes: Becoming)
    requires v.Arr?
  {
    && m.Arr? && |m.items| == |v.items|
    && forall i | 0 <= i < |v.items| ::
         if exists items :: Has(schema, "items", items) && items.Obj? then becomes(schema.members["items"], v.items[i], m.items[i])
         else m.items[i] == v.items[i]
  }

  /** `m` is the effective value of `v` under the schema, if `becomes` says so of the
      parts. */
  ghost predicate Follows(schema: Json, v: Json, m: Json, becomes: Becoming)
  {
    && UnionRule(schema, v, m, becomes)
    && (Untagged(schema) && Has(schema, "type", Str("object")) && v.Obj? ==> ObjectRule(schema, v, m, becomes))
    && (Untagged(schema) && Has(schema, "type", Str("array")) && v.Arr? ==> ArrayRule(schema, v, m, becomes))
    && (v.Obj? && Untagged(schema) && !Has(schema, "type", Str("object")) ==> m == v)
    && (v.Arr? && !(Untagged(schema) && Has(schema, "type", Str("array"))) ==> m == v)
    && (!v.Obj? && !v.Arr? ==> m == v)
  }

  /** The effective value, as computed. */
  function Computed(): Becoming
  {
    (schema: Json, v: Json, m: Json) => m == Materialize(schema, v)
  }

  // ---------- reading agrees ----------

  lemma ReadsText(v: Json, key: string, text: string)
    ensures Reads(v, key, text) <==> TextAt(v, key) == text
  {
    if v.Obj? && key in v.members && v.members[key].Str? {
      assert Has(v, key, Str(v.members[key].s));
    }
  }

  lemma TaggedText(schema: Json, d: string)
    ensures Tagged(schema, d) <==> Discriminator(schema) == d && d != ""
  {
  }

  lemma UntaggedText(schema: Json)
    ensures Untagged(schema) <==> Discriminator(schema) == ""
  {
    TaggedText(schema, Discriminator(schema));
  }

  lemma PropertyAt(schema: Json, n: string, property: Json)
    ensures IsProperty(schema, n, property) <==> n in Members(At(schema, "properties")) && At(At(schema, "properties"), n) == property
  {
    if n in Members(At(schema, "properties")) {
      assert Has(schema, "properties", At(schema, "properties"));
    }
  }

  lemma DeclaresTag(branch: Json, discriminator: string, tag: string)
    ensures Declares(branch, discriminator, tag) <==> DeclaredTag(branch, discriminator) == tag
  {
    hide IsProperty;
    var property := At(At(branch, "properties"), discriminator);
    forall p ensures IsProperty(branch, discriminator, p) <==> discriminator in Members(At(branch, "properties")) && property == p {
      PropertyAt(branch, discriminator, p);
    }
    if discriminator in Members(At(branch, "properties")) {
      assert IsProperty(branch, discriminator, property);
      if At(property, "const").Str? {
        assert Has(property, "const", Str(At(property, "const").s));
      }
    }
  }

  lemma {:induction false} FirstBranchIsFirst(branches: seq<Json>, discriminator: string, tag: string)
    ensures match FirstBranch(branches, discriminator, tag)
            case Some(i) => && i < |branches| && DeclaredTag(branches[i], discriminator) == tag
                            && forall j | 0 <= j < i :: DeclaredTag(branches[j], discriminator) != tag
            case None => forall j | 0 <= j < |branches| :: DeclaredTag(branches[j], discriminator) != tag
  {
    hide DeclaredTag;
    if branches != [] {
      FirstBranchIsFirst(branches[1..], discriminator, tag);
      assert forall j | 1 <= j < |branches| :: branches[j] == branches[1..][j - 1];
    }
  }

  /** The selected branch is the first that declares the tag of the object. */
  lemma SelectsBranch(schema: Json, v: Json, branch: Json)
    requires Discriminator(schema) != ""
    ensures Selects(schema, Discriminator(schema), TextAt(v, Discriminator(schema)), branch) <==>
            BranchFor(schema, v).Some? && ListAt(schema, "oneOf")[BranchFor(schema, v).value] == branch
  {
    hide Declares, DeclaredTag, TextAt, Discriminator;
    var branches, d := ListAt(schema, "oneOf"), Discriminator(schema);
    var tag := TextAt(v, d);
    FirstBranchIsFirst(branches, d, tag);
    forall j | 0 <= j < |branches| ensures Declares(branches[j], d, tag) <==> DeclaredTag(branches[j], d) == tag {
      DeclaresTag(branches[j], d, tag);
    }
    if branches != [] {
      assert Has(schema, "oneOf", Arr(branches));
    }
    if BranchFor(schema, v).Some? {
      assert FirstToDeclare(branches, d, tag, BranchFor(schema, v).value);
    }
  }

  // ---------- the computation follows the rules ----------

  lemma UnionFollows(schema: Json, v: Json, m: Json)
    requires Discriminator(schema) != "" && v.Obj?
    ensures UnionRule(schema, v, m, Computed()) <==> m == Materialize(schema, v)
  {
    hide Materialize, BranchFor, Selects, Reads, Tagged, TextAt;
    var d := Discriminator(schema);
    var tag := TextAt(v, d);
    forall e ensures Tagged(schema, e) <==> e == d { TaggedText(schema, e); }
    forall t ensures Reads(v, d, t) <==> t == tag { ReadsText(v, d, t); }
    forall branch ensures Selects(schema, d, tag, branch) <==>
        BranchFor(schema, v).Some? && ListAt(schema, "oneOf")[BranchFor(schema, v).value] == branch {
      SelectsBranch(schema, v, branch);
    }
    TypeText(schema);
    EffectMeaning(schema, v);
    assert Tagged(schema, d) && Reads(v, d, tag);
    if BranchFor(schema, v).Some? {
      var branch := ListAt(schema, "oneOf")[BranchFor(schema, v).value];
      assert Selects(schema, d, tag, branch);
      assert Materialize(schema, v) == Materialize(branch, v);
      assert UnionRule(schema, v, m, Computed()) <==> Computed()(branch, v, m);
    } else {
      assert Materialize(schema, v) == v;
      assert forall branch :: !Selects(schema, d, tag, branch);
    }
  }

  lemma SuppliedFollows(schema: Json, n: string, v: Json, m: Json)
    ensures SuppliedRule(schema, n, v, m, Computed()) <==> m == Materialize(ChildSchema(schema, n), v)
  {
    hide IsProperty, Materialize;
    var property := At(At(schema, "properties"), n);
    forall p ensures IsProperty(schema, n, p) <==> n in Members(At(schema, "properties")) && property == p {
      PropertyAt(schema, n, p);
    }
    if !property.Obj? {
      if At(schema, "additionalProperties").Obj? {
        assert Has(schema, "additionalProperties", At(schema, "additionalProperties"));
      } else {
        NoSchemaKeeps(ChildSchema(schema, n), v);
      }
    } else {
      assert IsProperty(schema, n, property);
    }
  }

  lemma NoSchemaKeeps(schema: Json, v: Json)
    requires !schema.Obj?
    ensures Materialize(schema, v) == v
  {
  }

  lemma DefaultedAt(schema: Json, n: string, value: Json)
    ensures Defaulted(schema, n, value) <==> n in Members(At(schema, "properties")) && HasDefault(schema, n) && DefaultOf(schema, n) == value
  {
    hide IsProperty;
    var property := At(At(schema, "properties"), n);
    forall p ensures IsProperty(schema, n, p) <==> n in Members(At(schema, "properties")) && property == p {
      PropertyAt(schema, n, p);
    }
    if n in Members(At(schema, "properties")) && HasDefault(schema, n) {
      assert IsProperty(schema, n, property) && Has(property, "default", DefaultOf(schema, n));
    }
  }

  lemma EffectiveByRule(schema: Json, v: Json, n: string)
    requires v.Obj?
    ensures n in EffectiveNames(schema, v) <==> n in v.members || exists value :: Defaulted(schema, n, value)
  {
    hide Defaulted;
    forall value ensures Defaulted(schema, n, value) <==>
        n in Members(At(schema, "properties")) && HasDefault(schema, n) && DefaultOf(schema, n) == value {
      DefaultedAt(schema, n, value);
    }
    if n in Members(At(schema, "properties")) && HasDefault(schema, n) {
      assert Defaulted(schema, n, DefaultOf(schema, n));
    }
  }

  lemma OmittedFollows(schema: Json, v: Json, n: string, property: Json, value: Json)
    requires v.Obj? && n !in v.members && IsProperty(schema, n, property) && Has(property, "default", value)
    ensures n in EffectiveNames(schema, v) && Written(schema, v, n) == value && ChildSchema(schema, n) == property
  {
    PropertyAt(schema, n, property);
    assert Defaulted(schema, n, value);
    DefaultedAt(schema, n, value);
  }

  lemma ObjectFollows(schema: Json, v: Json, m: Json)
    requires EffectOn(schema, v).MemberWise?
    ensures ObjectRule(schema, v, m, Computed()) <==> m == Materialize(schema, v)
  {
    hide Materialize, SuppliedRule, IsProperty, Has, Defaulted, EffectiveNames, ChildSchema, Written, BranchFor;
    ObjectMaterialized(schema, v);
    var whole := Materialize(schema, v).members;
    forall n ensures n in whole <==> n in v.members || exists value :: Defaulted(schema, n, value) {
      EffectiveByRule(schema, v, n);
    }
    forall n | n in v.members ensures Written(schema, v, n) == v.members[n] {
      WrittenSupplied(schema, v, n);
    }
    forall n, x | n in v.members ensures SuppliedRule(schema, n, v.members[n], x, Computed()) <==> x == whole[n] {
      SuppliedFollows(schema, n, v.members[n], x);
    }
    forall n, property, value | n !in v.members && IsProperty(schema, n, property) && Has(property, "default", value)
      ensures n in whole && whole[n] == Materialize(property, value)
    {
      OmittedFollows(schema, v, n, property, value);
    }
    if ObjectRule(schema, v, m, Computed()) {
      forall n | n in whole ensures n in m.members && m.members[n] == whole[n] {
        if n !in v.members {
          var value :| Defaulted(schema, n, value);
          DefaultedBy(schema, n, value);
          var property :| IsProperty(schema, n, property) && Has(property, "default", value);
        }
      }
      assert m.members == whole;
    }
  }

  lemma WrittenSupplied(schema: Json, v: Json, n: string)
    requires v.Obj? && n in v.members
    ensures Written(schema, v, n) == v.members[n]
  {
  }

  lemma DefaultedBy(schema: Json, n: string, value: Json)
    requires Defaulted(schema, n, value)
    ensures exists property :: IsProperty(schema, n, property) && Has(property, "default", value)
  {
  }

  lemma ArrayFollows(schema: Json, v: Json, m: Json)
    requires EffectOn(schema, v).ItemWise?
    ensures ArrayRule(schema, v, m, Computed()) <==> m == Materialize(schema, v)
  {
    hide Materialize, BranchFor;
    ArrayMaterialized(schema, v);
    var whole := Materialize(schema, v).items;
    var items := At(schema, "items");
    if items.Obj? {
      assert Has(schema, "items", items);
    } else {
      forall i | 0 <= i < |v.items| ensures whole[i] == v.items[i] { NoSchemaKeeps(items, v.items[i]); }
    }
    if ArrayRule(schema, v, m, Computed()) {
      assert m.items == whole;
    }
  }

  /** The effective value is the one value that follows the rules. */
  lemma MaterializeByRules(schema: Json, v: Json, m: Json)
    ensures Follows(schema, v, m, Computed()) <==> m == Materialize(schema, v)
  {
    hide Materialize, BranchFor, UnionRule, ObjectRule, ArrayRule, Untagged, Computed;
    EffectMeaning(schema, v);
    UntaggedText(schema);
    if !v.Obj? || Discriminator(schema) == "" {
      NoUnion(schema, v, m);
    }
    ReadsText(schema, "type", TextAt(schema, "type"));
    TypeText(schema);
    if Discriminator(schema) != "" && v.Obj? {
      UnionFollows(schema, v, m);
    } else if EffectOn(schema, v).MemberWise? {
      ObjectFollows(schema, v, m);
    } else if EffectOn(schema, v).ItemWise? {
      ArrayFollows(schema, v, m);
    }
  }

  lemma TypeText(schema: Json)
    ensures Has(schema, "type", Str("object")) <==> TextAt(schema, "type") == "object"
    ensures Has(schema, "type", Str("array")) <==> TextAt(schema, "type") == "array"
    ensures TextAt(schema, "type") != "" || Discriminator(schema) != "" ==> schema.Obj?
  {
  }

  lemma NoUnion(schema: Json, v: Json, m: Json)
    requires !v.Obj? || Discriminator(schema) == ""
    ensures UnionRule(schema, v, m, Computed())
  {
    forall d | Tagged(schema, d) ensures !v.Obj? {
      TaggedText(schema, d);
    }
  }

  // ---------- the rules fix the effective value ----------

  /** The parts of a schema that the rules refer to. */
  ghost predicate IsPart(schema: Json, part: Json)
  {
    part < schema
  }

  /** Any account of becoming that follows the rules at every schema is the one the
      library computes: the rules leave nothing open, at any depth. */
  lemma {:induction false} RulesFixTheValue(becomes: Becoming, schema: Json, v: Json, m: Json)
    requires forall s, x, y :: becomes(s, x, y) <==> Follows(s, x, y, becomes)
    ensures becomes(schema, v, m) <==> m == Materialize(schema, v)
    decreases schema
  {
    hide Follows, Materialize;
    forall s, x, y | IsPart(schema, s) ensures becomes(s, x, y) <==> Computed()(s, x, y) {
      RulesFixTheValue(becomes, s, x, y);
    }
    FollowsAgree(schema, v, m, becomes, Computed());
    MaterializeByRules(schema, v, m);
  }

  ghost predicate AgreeOnParts(schema: Json, f: Becoming, g: Becoming)
  {
    forall s, x, y | IsPart(schema, s) :: f(s, x, y) == g(s, x, y)
  }

  lemma UnionAgrees(schema: Json, v: Json, m: Json, f: Becoming, g: Becoming)
    requires AgreeOnParts(schema, f, g)
    ensures UnionRule(schema, v, m, f) == UnionRule(schema, v, m, g)
  {
    hide Selects, Tagged, Reads, IsPart;
    forall d, tag, branch | Selects(schema, d, tag, branch) ensures IsPart(schema, branch) {
      BranchIsPart(schema, d, tag, branch);
    }
  }

  lemma SuppliedAgrees(schema: Json, n: string, v: Json, m: Json, f: Becoming, g: Becoming)
    requires AgreeOnParts(schema, f, g)
    ensures SuppliedRule(schema, n, v, m, f) == SuppliedRule(schema, n, v, m, g)
  {
    hide IsPart, IsProperty;
    forall property | IsProperty(schema, n, property) ensures IsPart(schema, property) {
      PropertyIsPart(schema, n, property);
    }
    if schema.Obj? && "additionalProperties" in schema.members {
      MemberIsPart(schema, "additionalProperties", schema.members["additionalProperties"]);
    }
  }

  lemma ObjectAgrees(schema: Json, v: Json, m: Json, f: Becoming, g: Becoming)
    requires AgreeOnParts(schema, f, g) && v.Obj?
    ensures ObjectRule(schema, v, m, f) == ObjectRule(schema, v, m, g)
  {
    hide IsPart, IsProperty, SuppliedRule, Has, Defaulted;
    forall n, x, y ensures SuppliedRule(schema, n, x, y, f) == SuppliedRule(schema, n, x, y, g) {
      SuppliedAgrees(schema, n, x, y, f, g);
    }
    forall n, property | IsProperty(schema, n, property) ensures IsPart(schema, property) {
      PropertyIsPart(schema, n, property);
    }
  }

  lemma ArrayAgrees(schema: Json, v: Json, m: Json, f: Becoming, g: Becoming)
    requires AgreeOnParts(schema, f, g) && v.Arr?
    ensures ArrayRule(schema, v, m, f) == ArrayRule(schema, v, m, g)
  {
    hide IsPart;
    if schema.Obj? && "items" in schema.members {
      MemberIsPart(schema, "items", schema.members["items"]);
    }
  }

  lemma FollowsAgree(schema: Json, v: Json, m: Json, f: Becoming, g: Becoming)
    requires AgreeOnParts(schema, f, g)
    ensures Follows(schema, v, m, f) == Follows(schema, v, m, g)
  {
    hide UnionRule, ObjectRule, ArrayRule, Untagged, Has, AgreeOnParts;
    UnionAgrees(schema, v, m, f, g);
    if v.Obj? {
      ObjectAgrees(schema, v, m, f, g);
    }
    if v.Arr? {
      ArrayAgrees(schema, v, m, f, g);
    }
  }

  lemma BranchIsPart(schema: Json, d: string, tag: string, branch: Json)
    requires Selects(schema, d, tag, branch)
    ensures IsPart(schema, branch)
  {
    hide Declares;
  }

  lemma PropertyIsPart(schema: Json, n: string, property: Json)
    requires IsProperty(schema, n, property)
    ensures IsPart(schema, property)
  {
  }

  lemma MemberIsPart(schema: Json, key: string, part: Json)
    requires Has(schema, key, part)
    ensures schema.Obj? && key in schema.members && part == schema.members[key] && IsPart(schema, part)
  {
  }
}
