/** What the closure proof asks of a schema, written out over the literal keywords of
    a JSON Schema document: the proof accepts a node if and only if these rules hold
    of it and of everything its keywords lead to. */
module ClosureRules {
  import opened Wrappers
  import opened JsonModel
  import opened FiniteSums
  import opened Pointers
  import opened SchemaGraph
  import opened Closure
  import opened ProofGraph
  import opened ExactLiterals
  import opened ClosureMemo
  import opened AdmissionSoundness

  // ---------- reading a document by key ----------

  function ValueAt(s: Schema, key: string): Json
  {
    if key in s then s[key] else Null
  }

  function MembersAt(s: Schema, key: string): map<string, Json>
  {
    if key in s && s[key].Obj? then s[key].members else map[]
  }

  function ItemsAt(s: Schema, key: string): seq<Json>
  {
    if key in s && s[key].Arr? then s[key].items else []
  }

  /** The keywords the traversal knows, by the text they have in a document. */
  lemma KeywordTexts()
    ensures Text(Defs) == "$defs" && Text(Definitions) == "definitions" && Text(Properties) == "properties"
    ensures Text(DependentSchemas) == "dependentSchemas" && Text(AdditionalProperties) == "additionalProperties"
    ensures Text(Items) == "items" && Text(Contains) == "contains" && Text(UnevaluatedItems) == "unevaluatedItems"
    ensures Text(UnevaluatedProperties) == "unevaluatedProperties" && Text(PropertyNames) == "propertyNames"
    ensures Text(Not) == "not" && Text(If) == "if" && Text(Then) == "then" && Text(Else) == "else"
    ensures Text(AllOf) == "allOf" && Text(AnyOf) == "anyOf" && Text(OneOf) == "oneOf" && Text(PrefixItems) == "prefixItems"
    ensures Text(Ref) == "$ref"
  {
  }

  // ---------- the rules of one node ----------

  predicate NothingForbidden(s: Schema)
  {
    && "patternProperties" !in s && "dependencies" !in s
    && "contentEncoding" !in s && "contentMediaType" !in s && "contentSchema" !in s
    && "$id" !in s && "$anchor" !in s && "$dynamicAnchor" !in s && "$recursiveAnchor" !in s
    && "$recursiveRef" !in s && "$vocabulary" !in s
    && ("$schema" in s ==> s["$schema"] == Str("https://json-schema.org/draft/2020-12/schema"))
  }

  predicate FieldAllowed(policy: Policy, name: string, declared: Json)
  {
    (policy.desired && policy.reviewed(name, declared)) || !policy.forbidden(name)
  }

  predicate FieldList(policy: Policy, value: Json, properties: map<string, Json>)
  {
    value == Null
    || (value.Arr? && forall i | 0 <= i < |value.items| ::
          value.items[i].Str?
          && FieldAllowed(policy, value.items[i].s, if value.items[i].s in properties then properties[value.items[i].s] else Null))
  }

  predicate FieldsAllowed(policy: Policy, s: Schema)
  {
    && (forall n | n in MembersAt(s, "properties") :: FieldAllowed(policy, n, MembersAt(s, "properties")[n]))
    && FieldList(policy, ValueAt(s, "required"), MembersAt(s, "properties"))
    && (ValueAt(s, "dependentRequired") == Null
        || (ValueAt(s, "dependentRequired").Obj?
            && forall n | n in ValueAt(s, "dependentRequired").members ::
                 !policy.forbidden(n) && FieldList(policy, ValueAt(s, "dependentRequired").members[n], map[])))
  }

  predicate DeclaresType(s: Schema, name: string)
  {
    "type" in s && (s["type"] == Str(name) || (s["type"].Arr? && Str(name) in s["type"].items))
  }

  /** `additionalProperties` is false, or the node is a pure map under the reviewed
      key policy. */
  predicate ClosesItsNames(s: Schema)
  {
    ValueAt(s, "additionalProperties") == Bool(false)
    || (&& ValueAt(s, "additionalProperties").Obj? && "properties" !in s
        && ValueAt(s, "required") == Null && ValueAt(s, "dependentRequired") == Null
        && ValueAt(s, "dependentSchemas") == Null && ValueAt(s, "unevaluatedProperties") == Null
        && ValueAt(s, "propertyNames").Obj? && |ValueAt(s, "propertyNames").members| == 3
        && ValueAt(ValueAt(s, "propertyNames").members, "type") == Str("string")
        && ValueAt(ValueAt(s, "propertyNames").members, "pattern") == Str("^[A-Za-z][A-Za-z0-9._-]{0,63}$")
        && ValueAt(ValueAt(s, "propertyNames").members, "x-takoform-fieldPolicy") == Str("portable-data-only-v1"))
  }

  predicate TypesAllowed(s: Schema)
  {
    && (DeclaresType(s, "array") ==> "items" in s)
    && (DeclaresType(s, "object") ==> ClosesItsNames(s))
    && ("type" !in s ==>
          && "properties" !in s && "required" !in s && "additionalProperties" !in s && "unevaluatedProperties" !in s
          && "propertyNames" !in s && "dependentRequired" !in s && "dependentSchemas" !in s
          && "minProperties" !in s && "maxProperties" !in s)
  }

  predicate WellShaped(s: Schema)
  {
    && ("$defs" in s ==> s["$defs"].Obj?) && ("definitions" in s ==> s["definitions"].Obj?)
    && ("properties" in s ==> s["properties"].Obj?) && ("dependentSchemas" in s ==> s["dependentSchemas"].Obj?)
    && ("allOf" in s ==> s["allOf"].Arr? && s["allOf"].items != []) && ("anyOf" in s ==> s["anyOf"].Arr? && s["anyOf"].items != [])
    && ("oneOf" in s ==> s["oneOf"].Arr? && s["oneOf"].items != [])
    && ("prefixItems" in s ==> s["prefixItems"].Arr? && s["prefixItems"].items != [])
    && ("$ref" in s ==> s["$ref"].Str?)
    && ("enum" in s ==> s["enum"].Arr? && s["enum"].items != [])
  }

  /** The node is nothing but one object literal. */
  predicate IsObjectLiteral(s: Schema)
  {
    |s| == 1 && "const" in s && s["const"].Obj?
  }

  predicate FollowsRules(policy: Policy, s: Schema)
  {
    NothingForbidden(s)
    && (IsObjectLiteral(s)
        || (!("const" in s && s["const"].Obj?) && FieldsAllowed(policy, s) && TypesAllowed(s) && WellShaped(s)))
  }

  // ---------- the rules are what the proof checks ----------

  lemma ForbiddenIff(s: Schema)
    ensures KeywordsOk(s) <==> NothingForbidden(s)
  {
    var ks := FORBIDDEN_KEYWORDS;
    assert ks[0] == "patternProperties" && ks[1] == "dependencies" && ks[2] == "contentEncoding" && ks[3] == "contentMediaType"
           && ks[4] == "contentSchema" && ks[5] == "$id" && ks[6] == "$anchor" && ks[7] == "$dynamicAnchor"
           && ks[8] == "$recursiveAnchor" && ks[9] == "$recursiveRef" && ks[10] == "$vocabulary" && |ks| == 11;
    assert (forall k | k in ks :: k !in s) <==> forall i | 0 <= i < |ks| :: ks[i] !in s;
  }

  lemma FieldListIff(policy: Policy, value: Json, properties: map<string, Json>)
    ensures FieldNamesOk(policy, value, properties) <==> FieldList(policy, value, properties)
  {
  }

  lemma FieldsIff(policy: Policy, s: Schema)
    ensures NamesOk(policy, s) <==> FieldsAllowed(policy, s)
  {
    hide Text, FieldNamesOk, FieldList;
    KeywordTexts();
    FieldListIff(policy, ValueAt(s, "required"), MembersAt(s, "properties"));
    var dependent := ValueAt(s, "dependentRequired");
    if dependent.Obj? {
      forall n | n in dependent.members
        ensures FieldNamesOk(policy, dependent.members[n], map[]) <==> FieldList(policy, dependent.members[n], map[])
      {
        FieldListIff(policy, dependent.members[n], map[]);
      }
    }
  }

  lemma TypesIff(s: Schema)
    ensures TypesOk(s) <==> TypesAllowed(s)
  {
    hide Text;
    KeywordTexts();
    TypeIff(s, "array");
    TypeIff(s, "object");
    ClosureIff(s);
  }

  lemma TypeIff(s: Schema, name: string)
    ensures TypeIncludes(Get(s, "type"), name) <==> DeclaresType(s, name)
  {
  }

  lemma ClosureIff(s: Schema)
    ensures ExplicitObjectClosure(s) <==> ClosesItsNames(s)
  {
    hide Text;
    KeywordTexts();
  }

  lemma ShapesIff(s: Schema)
    ensures EnumOk(s) && (forall k :: ShapeOk(s, k)) <==> WellShaped(s)
  {
    hide Text;
    KeywordTexts();
    if forall k :: ShapeOk(s, k) {
      assert ShapeOk(s, Defs) && ShapeOk(s, Definitions) && ShapeOk(s, Properties) && ShapeOk(s, DependentSchemas);
      assert ShapeOk(s, AllOf) && ShapeOk(s, AnyOf) && ShapeOk(s, OneOf) && ShapeOk(s, PrefixItems) && ShapeOk(s, Ref);
    }
    if WellShaped(s) {
      forall k ensures ShapeOk(s, k) {
      }
    }
  }

  /** What the proof demands of one node besides its subschemas is exactly these rules. */
  lemma RulesIff(policy: Policy, s: Schema)
    ensures LocalOk(policy, s) <==> FollowsRules(policy, s)
  {
    hide KeywordsOk, NamesOk, TypesOk, EnumOk, ShapeOk, NothingForbidden, FieldsAllowed, TypesAllowed, WellShaped;
    ForbiddenIff(s);
    FieldsIff(policy, s);
    TypesIff(s);
    ShapesIff(s);
  }

  /** Every schema object below an accepted one follows the rules, so none of the
      forbidden keywords is anywhere in it. */
  lemma AcceptedNodesFollowTheRules(root: Json, policy: Policy, top: Json, fuel: nat, s: Schema)
    requires Proved(root, policy, top, fuel) && Reaches(root, top, Obj(s))
    ensures FollowsRules(policy, s)
    ensures "patternProperties" !in s && "dependencies" !in s && "contentEncoding" !in s && "contentMediaType" !in s
    ensures "contentSchema" !in s && "$id" !in s && "$anchor" !in s && "$dynamicAnchor" !in s
    ensures "$recursiveAnchor" !in s && "$recursiveRef" !in s && "$vocabulary" !in s
    ensures "$schema" in s ==> s["$schema"] == Str("https://json-schema.org/draft/2020-12/schema")
  {
    hide LocalOk, ChildrenProved, NodeAdmission, Follow, ExcludingEdges;
    var path :| Follow(root, top, path) == Some(Obj(s));
    PathsAreBounded(root, policy, top, fuel, path);
    RulesIff(policy, s);
  }

  // ---------- the subschemas of a node ----------

  ghost predicate EveryMember(s: Schema, key: string, ok: Json -> bool)
  {
    forall n | n in MembersAt(s, key) :: ok(MembersAt(s, key)[n])
  }

  ghost predicate EveryItem(s: Schema, key: string, ok: Json -> bool)
  {
    forall i | 0 <= i < |ItemsAt(s, key)| :: ok(ItemsAt(s, key)[i])
  }

  ghost predicate IfPresent(s: Schema, key: string, ok: Json -> bool)
  {
    key in s ==> ok(s[key])
  }

  ghost predicate IfReferring(root: Json, s: Schema, ok: Json -> bool)
  {
    "$ref" in s ==> s["$ref"].Str? && Resolve(root, s["$ref"].s).Some? && ok(Resolve(root, s["$ref"].s).value.value)
  }

  /** Every subschema of the node, keyword by keyword, satisfies `ok`. */
  ghost predicate EverySubschema(root: Json, s: Schema, ok: Json -> bool)
  {
    && EveryMember(s, "$defs", ok) && EveryMember(s, "definitions", ok)
    && EveryMember(s, "properties", ok) && EveryMember(s, "dependentSchemas", ok)
    && (ValueAt(s, "additionalProperties") != Bool(false) ==> IfPresent(s, "additionalProperties", ok))
    && IfPresent(s, "items", ok) && IfPresent(s, "contains", ok)
    && IfPresent(s, "unevaluatedItems", ok) && IfPresent(s, "unevaluatedProperties", ok) && IfPresent(s, "propertyNames", ok)
    && IfPresent(s, "not", ok) && IfPresent(s, "if", ok) && IfPresent(s, "then", ok) && IfPresent(s, "else", ok)
    && EveryItem(s, "allOf", ok) && EveryItem(s, "anyOf", ok) && EveryItem(s, "oneOf", ok) && EveryItem(s, "prefixItems", ok)
    && IfReferring(root, s, ok)
  }

  /** What the edges under one keyword say of the subschemas there. */
  ghost predicate EdgesSatisfy(root: Json, s: Schema, k: Keyword, ok: Json -> bool)
  {
    forall e | ProofEdge(s, e) && e.keyword == k :: Target(root, s, e).Some? && ok(Target(root, s, e).value)
  }

  lemma NamedProofEdges(root: Json, s: Schema, k: Keyword)
    requires ShapeOf(k).ByName?
    ensures forall e | ProofEdge(s, e) && e.keyword == k :: e.Named? && e.name in MembersAt(s, Text(k)) && Target(root, s, e) == Some(MembersAt(s, Text(k))[e.name])
    ensures forall n | n in MembersAt(s, Text(k)) :: ProofEdge(s, Named(k, n)) && Target(root, s, Named(k, n)) == Some(MembersAt(s, Text(k))[n])
  {
    hide Text;
  }

  lemma NamedSatisfy(root: Json, s: Schema, k: Keyword, ok: Json -> bool)
    requires ShapeOf(k).ByName?
    ensures EdgesSatisfy(root, s, k, ok) <==> EveryMember(s, Text(k), ok)
  {
    hide Text, ProofEdge, Target;
    NamedProofEdges(root, s, k);
  }

  lemma ListedProofEdges(root: Json, s: Schema, k: Keyword)
    requires ShapeOf(k).InOrder?
    ensures forall e | ProofEdge(s, e) && e.keyword == k :: e.Indexed? && e.index < |ItemsAt(s, Text(k))| && Target(root, s, e) == Some(ItemsAt(s, Text(k))[e.index])
    ensures forall i: nat | i < |ItemsAt(s, Text(k))| :: ProofEdge(s, Indexed(k, i)) && Target(root, s, Indexed(k, i)) == Some(ItemsAt(s, Text(k))[i])
  {
    hide Text;
    forall i: nat | i < |ItemsAt(s, Text(k))| ensures ProofEdge(s, Indexed(k, i)) {
      ListEdge(s, k, i);
    }
  }

  lemma ListedSatisfy(root: Json, s: Schema, k: Keyword, ok: Json -> bool)
    requires ShapeOf(k).InOrder?
    ensures EdgesSatisfy(root, s, k, ok) <==> EveryItem(s, Text(k), ok)
  {
    hide Text, ProofEdge, Target;
    ListedProofEdges(root, s, k);
    if EdgesSatisfy(root, s, k, ok) {
      forall i: nat | i < |ItemsAt(s, Text(k))| ensures ok(ItemsAt(s, Text(k))[i]) {
        assert ProofEdge(s, Indexed(k, i));
      }
    }
  }

  lemma SingleSatisfy(root: Json, s: Schema, k: Keyword, ok: Json -> bool)
    requires ShapeOf(k).One? && k != Ref
    ensures k != AdditionalProperties ==> (EdgesSatisfy(root, s, k, ok) <==> IfPresent(s, Text(k), ok))
    ensures k == AdditionalProperties ==>
              (EdgesSatisfy(root, s, k, ok) <==> (ValueAt(s, Text(k)) != Bool(false) ==> IfPresent(s, Text(k), ok)))
  {
    hide Text;
    if EdgesSatisfy(root, s, k, ok) && Text(k) in s && !(k == AdditionalProperties && s[Text(k)] == Bool(false)) {
      assert ProofEdge(s, Single(k));
    }
  }

  lemma RefSatisfies(root: Json, s: Schema, ok: Json -> bool)
    ensures EdgesSatisfy(root, s, Ref, ok) <==> IfReferring(root, s, ok)
  {
    hide Text;
    KeywordTexts();
    if EdgesSatisfy(root, s, Ref, ok) && "$ref" in s {
      assert ProofEdge(s, Single(Ref));
    }
  }

  /** The proof follows exactly the subschemas the document has. */
  lemma SubschemasAreTheEdges(root: Json, s: Schema, ok: Json -> bool)
    ensures (forall e | ProofEdge(s, e) :: Target(root, s, e).Some? && ok(Target(root, s, e).value)) <==> EverySubschema(root, s, ok)
  {
    hide Text, ProofEdge, Target, EdgesSatisfy, EveryMember, EveryItem, IfPresent, IfReferring, ValueAt;
    KeywordTexts();
    NamedSatisfy(root, s, Defs, ok);
    NamedSatisfy(root, s, Definitions, ok);
    NamedSatisfy(root, s, Properties, ok);
    NamedSatisfy(root, s, DependentSchemas, ok);
    SingleSatisfy(root, s, AdditionalProperties, ok);
    SingleSatisfy(root, s, Items, ok);
    SingleSatisfy(root, s, Contains, ok);
    SingleSatisfy(root, s, UnevaluatedItems, ok);
    SingleSatisfy(root, s, UnevaluatedProperties, ok);
    SingleSatisfy(root, s, PropertyNames, ok);
    SingleSatisfy(root, s, Not, ok);
    SingleSatisfy(root, s, If, ok);
    SingleSatisfy(root, s, Then, ok);
    SingleSatisfy(root, s, Else, ok);
    ListedSatisfy(root, s, AllOf, ok);
    ListedSatisfy(root, s, AnyOf, ok);
    ListedSatisfy(root, s, OneOf, ok);
    ListedSatisfy(root, s, PrefixItems, ok);
    RefSatisfies(root, s, ok);
    ByKeyword(root, s, ok);
  }

  lemma ByKeyword(root: Json, s: Schema, ok: Json -> bool)
    ensures (forall e | ProofEdge(s, e) :: Target(root, s, e).Some? && ok(Target(root, s, e).value)) <==>
            && EdgesSatisfy(root, s, Defs, ok) && EdgesSatisfy(root, s, Definitions, ok)
            && EdgesSatisfy(root, s, Properties, ok) && EdgesSatisfy(root, s, DependentSchemas, ok)
            && EdgesSatisfy(root, s, AdditionalProperties, ok) && EdgesSatisfy(root, s, Items, ok)
            && EdgesSatisfy(root, s, Contains, ok) && EdgesSatisfy(root, s, UnevaluatedItems, ok)
            && EdgesSatisfy(root, s, UnevaluatedProperties, ok) && EdgesSatisfy(root, s, PropertyNames, ok)
            && EdgesSatisfy(root, s, Not, ok) && EdgesSatisfy(root, s, If, ok) && EdgesSatisfy(root, s, Then, ok)
            && EdgesSatisfy(root, s, Else, ok) && EdgesSatisfy(root, s, AllOf, ok) && EdgesSatisfy(root, s, AnyOf, ok)
            && EdgesSatisfy(root, s, OneOf, ok) && EdgesSatisfy(root, s, PrefixItems, ok) && EdgesSatisfy(root, s, Ref, ok)
  {
    hide ProofEdge, Target;
  }

  // ---------- the proof of one node ----------

  /** A subschema is proved with one edge less. */
  ghost function ProvedBelow(root: Json, policy: Policy, fuel: nat): Json -> bool
  {
    v => fuel > 0 && Proved(root, policy, v, fuel - 1)
  }

  ghost function ExcludedBelow(root: Json, policy: Policy, fuel: nat): Json -> bool
  {
    v => fuel > 0 && Prove(root, policy, v, fuel - 1) == Some(Excluded)
  }

  /** Something in the node keeps every object out. */
  ghost predicate KeepsObjectsOut(root: Json, s: Schema, excluded: Json -> bool)
  {
    || ("type" in s && !DeclaresType(s, "object"))
    || ("const" in s && !s["const"].Obj?)
    || ("enum" in s && s["enum"].Arr? && forall i | 0 <= i < |s["enum"].items| :: !s["enum"].items[i].Obj?)
    || ("$ref" in s && s["$ref"].Str? && Resolve(root, s["$ref"].s).Some? && excluded(Resolve(root, s["$ref"].s).value.value))
    || (exists i | 0 <= i < |ItemsAt(s, "allOf")| :: excluded(ItemsAt(s, "allOf")[i]))
    || ("anyOf" in s && forall i | 0 <= i < |ItemsAt(s, "anyOf")| :: excluded(ItemsAt(s, "anyOf")[i]))
    || ("oneOf" in s && forall i | 0 <= i < |ItemsAt(s, "oneOf")| :: excluded(ItemsAt(s, "oneOf")[i]))
  }

  /** The verdict on a schema object, keyword by keyword. */
  lemma ProveByRules(root: Json, policy: Policy, s: Schema, fuel: nat)
    ensures Prove(root, policy, Obj(s), fuel) ==
            if !FollowsRules(policy, s) then None
            else if IsObjectLiteral(s) then (if LiteralWithin(s["const"], fuel) then Some(Closed) else None)
            else if !EverySubschema(root, s, ProvedBelow(root, policy, fuel)) then None
            else if KeepsObjectsOut(root, s, ExcludedBelow(root, policy, fuel)) then Some(Excluded)
            else if "type" in s || "$ref" in s || "allOf" in s || "anyOf" in s || "oneOf" in s then Some(Closed)
            else None
  {
    hide LocalOk, NodeAdmission, FollowsRules, EverySubschema, KeepsObjectsOut, LiteralWithin, Target, Text;
    RulesIff(policy, s);
    if LocalOk(policy, s) && !ExactObjectConst(s) {
      SubschemasProvedIff(root, policy, s, fuel);
      AdmissionByRules(root, policy, s, fuel);
    }
  }

  lemma SubschemasProvedIff(root: Json, policy: Policy, s: Schema, fuel: nat)
    ensures ChildrenProved(root, policy, s, fuel) <==> EverySubschema(root, s, ProvedBelow(root, policy, fuel))
  {
    hide EverySubschema, ProofEdge, Target, Prove;
    SubschemasAreTheEdges(root, s, ProvedBelow(root, policy, fuel));
    assert forall v :: ProvedBelow(root, policy, fuel)(v) <==> fuel > 0 && Proved(root, policy, v, fuel - 1);
  }

  lemma AdmissionByRules(root: Json, policy: Policy, s: Schema, fuel: nat)
    requires LocalOk(policy, s) && !ExactObjectConst(s)
    ensures NodeAdmission(s, ExcludingEdges(root, policy, s, fuel)) ==
            if KeepsObjectsOut(root, s, ExcludedBelow(root, policy, fuel)) then Some(Excluded)
            else if "type" in s || "$ref" in s || "allOf" in s || "anyOf" in s || "oneOf" in s then Some(Closed)
            else None
  {
    hide Text, Prove, KeywordsOk, NamesOk, TypesOk, EnumOk, TypeIncludes, DeclaresType, Resolve;
    KeywordTexts();
    TypeIff(s, "object");
    var excludes, below := ExcludingEdges(root, policy, s, fuel), ExcludedBelow(root, policy, fuel);
    LiteralsIff(s);
    RefExcluded(root, policy, s, fuel);
    forall k: Keyword, i: nat | k in {AllOf, AnyOf, OneOf} && i < |ItemsAt(s, Text(k))|
      ensures excludes(Indexed(k, i)) <==> below(ItemsAt(s, Text(k))[i])
    {
      assert Target(root, s, Indexed(k, i)) == Some(ItemsAt(s, Text(k))[i]);
    }
  }

  lemma LiteralsIff(s: Schema)
    ensures LiteralsExclude(s) <==>
            ("const" in s && !s["const"].Obj?)
            || ("enum" in s && s["enum"].Arr? && forall i | 0 <= i < |s["enum"].items| :: !s["enum"].items[i].Obj?)
  {
    if "enum" in s && s["enum"].Arr? {
      assert (forall v | v in s["enum"].items :: !v.Obj?) <==> forall i | 0 <= i < |s["enum"].items| :: !s["enum"].items[i].Obj?;
    }
  }

  lemma RefExcluded(root: Json, policy: Policy, s: Schema, fuel: nat)
    ensures Has(s, Ref) && ExcludingEdges(root, policy, s, fuel)(Single(Ref)) <==>
            "$ref" in s && s["$ref"].Str? && Resolve(root, s["$ref"].s).Some?
            && ExcludedBelow(root, policy, fuel)(Resolve(root, s["$ref"].s).value.value)
  {
    hide Prove, Text, Resolve;
    KeywordTexts();
  }

  // ---------- what is charged ----------

  /** The places inside a literal, each by the members and positions leading to it. */
  ghost function Places(v: Json): set<seq<string>>
  {
    match v
    case Obj(members) => {[]} + set n, p | n in members && p in Places(members[n]) :: [n] + p
    case Arr(items) => {[]} + set i, p | i in Indices(|items|) && i < |items| && p in Places(items[i]) :: [Itoa(i)] + p
    case _ => {[]}
  }

  ghost function UnderNames(members: map<string, Json>, names: set<string>): set<seq<string>>
  {
    set n, p | n in names && n in members && p in Places(members[n]) :: [n] + p
  }

  ghost function UnderPositions(items: seq<Json>, count: nat): set<seq<string>>
  {
    set i, p | i in Indices(count) && i < |items| && p in Places(items[i]) :: [Itoa(i)] + p
  }

  ghost function Prefixed(first: string, places: set<seq<string>>): set<seq<string>>
  {
    set p | p in places :: [first] + p
  }

  lemma {:induction false} PrefixedSize(first: string, places: set<seq<string>>)
    ensures |Prefixed(first, places)| == |places|
    decreases places
  {
    if places != {} {
      var p :| p in places;
      PrefixedSize(first, places - {p});
      assert Prefixed(first, places) == Prefixed(first, places - {p}) + {[first] + p};
      forall q | q in places - {p} ensures [first] + q != [first] + p {
        assert ([first] + q)[1..] == q && ([first] + p)[1..] == p;
      }
    }
  }

  lemma {:induction false} UnderNamesSize(members: map<string, Json>, names: set<string>, f: string -> nat)
    requires names <= members.Keys
    requires forall n | n in members :: |Places(members[n])| == f(n)
    ensures |UnderNames(members, names)| == Sum(names, f)
    decreases names
  {
    hide Places;
    if names != {} {
      var n :| n in names;
      var rest := names - {n};
      UnderNamesSize(members, rest, f);
      PrefixedSize(n, Places(members[n]));
      assert UnderNames(members, names) == UnderNames(members, rest) + Prefixed(n, Places(members[n]));
      forall p | p in UnderNames(members, rest) ensures p !in Prefixed(n, Places(members[n])) {
        assert p[0] != n;
      }
      SumRemove(names, f, n);
    }
  }

  lemma PositionsDiffer(items: seq<Json>, i: nat)
    requires i < |items|
    ensures UnderPositions(items, i + 1) == UnderPositions(items, i) + Prefixed(Itoa(i), Places(items[i]))
    ensures UnderPositions(items, i) !! Prefixed(Itoa(i), Places(items[i]))
  {
    hide Places, Itoa;
    forall j: nat | j < i ensures Itoa(j) != Itoa(i) {
      ItoaDigits(i);
      ItoaDigits(j);
    }
    forall p | p in UnderPositions(items, i) ensures p !in Prefixed(Itoa(i), Places(items[i])) {
      var j :| j in Indices(i) && j < |items| && p[0] == Itoa(j);
    }
  }

  lemma {:induction false} UnderPositionsSize(items: seq<Json>, count: nat)
    requires count <= |items|
    requires forall i: nat | i < |items| :: |Places(items[i])| == LiteralNodes(items[i])
    ensures |UnderPositions(items, count)| == Sum(Indices(count), ItemNodes(items))
    decreases count
  {
    hide Places, UnderPositions, LiteralNodes, Prefixed, Itoa, Sum;
    if count == 0 {
      NothingUnder(items);
    } else {
      var i: nat := count - 1;
      UnderPositionsSize(items, i);
      PrefixedSize(Itoa(i), Places(items[i]));
      PositionsDiffer(items, i);
      assert |UnderPositions(items, i + 1)| == |UnderPositions(items, i)| + |Prefixed(Itoa(i), Places(items[i]))|;
      NextIndex(items, i);
    }
  }

  lemma NextIndex(items: seq<Json>, i: nat)
    requires i < |items|
    ensures Sum(Indices(i + 1), ItemNodes(items)) == Sum(Indices(i), ItemNodes(items)) + LiteralNodes(items[i])
  {
    hide LiteralNodes;
    SumInsert(Indices(i), ItemNodes(items), i);
    assert Indices(i + 1) == Indices(i) + {i};
  }

  lemma NothingUnder(items: seq<Json>)
    ensures UnderPositions(items, 0) == {} && Sum(Indices(0), ItemNodes(items)) == 0
  {
  }

  /** The nodes charged for a literal are its places, each once. */
  lemma {:induction false} LiteralNodesArePlaces(v: Json)
    ensures |Places(v)| == LiteralNodes(v)
    decreases v
  {
    hide LiteralNodes, Sum, UnderNames, UnderPositions;
    LiteralNodesUnfold(v);
    match v
    case Obj(members) =>
      forall n | n in members ensures |Places(members[n])| == MemberNodes(members)(n) {
        LiteralNodesArePlaces(members[n]);
      }
      UnderNamesSize(members, members.Keys, MemberNodes(members));
      PlacesOfObject(members);
    case Arr(items) =>
      forall i: nat | i < |items| ensures |Places(items[i])| == LiteralNodes(items[i]) {
        LiteralNodesArePlaces(items[i]);
      }
      UnderPositionsSize(items, |items|);
      PlacesOfArray(items);
    case _ =>
  }

  lemma PlacesOfObject(members: map<string, Json>)
    ensures Places(Obj(members)) == {[]} + UnderNames(members, members.Keys) && [] !in UnderNames(members, members.Keys)
  {
  }

  lemma PlacesOfArray(items: seq<Json>)
    ensures Places(Arr(items)) == {[]} + UnderPositions(items, |items|) && [] !in UnderPositions(items, |items|)
  {
  }

  /** The visited pointers whose node is a schema object with a `$ref`. */
  ghost function Referring(root: Json): set<string>
  {
    set q | q in Reach(root, root, "#", 64) && RefersAt(root, q)
  }

  ghost predicate RefersAt(root: Json, q: string)
  {
    Locate(root, q).Some? && Locate(root, q).value.Obj?
    && !IsObjectLiteral(Locate(root, q).value.members) && "$ref" in Locate(root, q).value.members
  }

  /** The places of the object literal a pointer names, when it names one. */
  ghost function LiteralCharge(root: Json): string -> nat
  {
    q => if Locate(root, q).Some? && Locate(root, q).value.Obj? && IsObjectLiteral(Locate(root, q).value.members)
         then |Places(Locate(root, q).value.members["const"])| else 0
  }

  ghost function Indicator(some: set<string>): string -> nat
  {
    q => if q in some then 1 else 0
  }

  lemma {:induction false} CountIndicator(all: set<string>, some: set<string>)
    requires some <= all
    ensures Sum(all, Indicator(some)) == |some|
    decreases all
  {
    if all != {} {
      var q :| q in all;
      CountIndicator(all - {q}, some - {q});
      SumRemove(all, Indicator(some), q);
      SumCongruent(all - {q}, Indicator(some), Indicator(some - {q}));
      assert q in some ==> some == (some - {q}) + {q};
      assert q !in some ==> some - {q} == some;
    } else {
      assert some == {};
    }
  }

  ghost function Both(f: string -> nat, g: string -> nat): string -> nat
  {
    q => f(q) + g(q)
  }

  lemma {:induction false} SumAdds(all: set<string>, f: string -> nat, g: string -> nat, h: string -> nat)
    requires forall q | q in all :: f(q) == g(q) + h(q)
    ensures Sum(all, f) == Sum(all, g) + Sum(all, h)
    decreases all
  {
    if all != {} {
      var q :| q in all;
      SumAdds(all - {q}, f, g, h);
      SumRemove(all, f, q);
      SumRemove(all, g, q);
      SumRemove(all, h, q);
    }
  }

  /** The operations of an accepted schema are the pointers visited, the `$ref`s among
      them, and the places of the object literals among them. */
  lemma OperationsAreCounted(root: Json, policy: Policy)
    requires Accepting(root, policy)
    ensures Operations(root) ==
            |Reach(root, root, "#", 64)| + |Referring(root)| + Sum(Reach(root, root, "#", 64), LiteralCharge(root))
  {
    hide Reach, Prove;
    var all, refs := Reach(root, root, "#", 64), Referring(root);
    var others := Both(Indicator(refs), LiteralCharge(root));
    forall q | q in all ensures CostAt(root)(q) == Indicator(all)(q) + others(q) {
      RootAddressed(root);
      var w, left := ReachAddressed(root, policy, root, "#", 64, q);
      ChargeAt(root, q, w);
    }
    SumAdds(all, CostAt(root), Indicator(all), others);
    SumAdds(all, others, Indicator(refs), LiteralCharge(root));
    CountIndicator(all, all);
    CountIndicator(all, refs);
  }

  lemma ChargeAt(root: Json, q: string, w: Json)
    requires q in Reach(root, root, "#", 64) && Addresses(root, q, w)
    ensures CostAt(root)(q) == 1 + Indicator(Referring(root))(q) + LiteralCharge(root)(q)
  {
    hide Reach, Places, LiteralNodes, Text;
    KeywordTexts();
    if w.Obj? && IsObjectLiteral(w.members) {
      LiteralNodesArePlaces(w.members["const"]);
    }
  }
}
