/** A JSON Schema document as the graph the library traverses: which subschemas
    a node has, what each edge is called in a pointer, and where it leads. */
module SchemaGraph {
  import opened Wrappers
  import opened JsonModel
  import opened Pointers
  import opened FiniteSums

  type Schema = map<string, Json>

  datatype Keyword =
    | Defs | Definitions | Properties | DependentSchemas
    | AdditionalProperties | Items | Contains | UnevaluatedItems | UnevaluatedProperties
    | PropertyNames | Not | If | Then | Else
    | AllOf | AnyOf | OneOf | PrefixItems
    | Ref

  function Text(k: Keyword): string
  {
    match k
    case Defs => "$defs"
    case Definitions => "definitions"
    case Properties => "properties"
    case DependentSchemas => "dependentSchemas"
    case AdditionalProperties => "additionalProperties"
    case Items => "items"
    case Contains => "contains"
    case UnevaluatedItems => "unevaluatedItems"
    case UnevaluatedProperties => "unevaluatedProperties"
    case PropertyNames => "propertyNames"
    case Not => "not"
    case If => "if"
    case Then => "then"
    case Else => "else"
    case AllOf => "allOf"
    case AnyOf => "anyOf"
    case OneOf => "oneOf"
    case PrefixItems => "prefixItems"
    case Ref => "$ref"
  }

  /** How a keyword holds its subschemas. */
  datatype Shape = ByName | One | InOrder

  function ShapeOf(k: Keyword): Shape
  {
    match k
    case Defs | Definitions | Properties | DependentSchemas => ByName
    case AllOf | AnyOf | OneOf | PrefixItems => InOrder
    case _ => One
  }

  const SINGLE_KEYWORDS: seq<Keyword> :=
    [AdditionalProperties, Items, Contains, UnevaluatedItems, UnevaluatedProperties,
     PropertyNames, Not, If, Then, Else]

  const LIST_KEYWORDS: seq<Keyword> := [AllOf, AnyOf, OneOf, PrefixItems]

  datatype Edge =
    | Named(keyword: Keyword, name: string)
    | Single(keyword: Keyword)
    | Indexed(keyword: Keyword, index: nat)

  predicate Has(s: Schema, k: Keyword)
  {
    Text(k) in s
  }

  /** The members of an object-valued keyword, or none. */
  function NamesUnder(s: Schema, k: Keyword): map<string, Json>
  {
    if Has(s, k) && s[Text(k)].Obj? then s[Text(k)].members else map[]
  }

  function ListUnder(s: Schema, k: Keyword): seq<Json>
  {
    if Has(s, k) && s[Text(k)].Arr? then s[Text(k)].items else []
  }

  ghost function EdgesUnder(s: Schema, k: Keyword): set<Edge>
  {
    match ShapeOf(k)
    case ByName => NamedEdges(k, NamesUnder(s, k).Keys)
    case One => if Has(s, k) then {Single(k)} else {}
    case InOrder => IndexedEdges(k, |ListUnder(s, k)|)
  }

  ghost function NamedEdges(k: Keyword, names: set<string>): set<Edge>
  {
    set n | n in names :: Named(k, n)
  }

  ghost function IndexedEdges(k: Keyword, count: nat): set<Edge>
  {
    set i | i in Indices(count) :: Indexed(k, i)
  }

  lemma UnderByName(root: Json, s: Schema, k: Keyword)
    requires ShapeOf(k).ByName?
    ensures EdgesUnder(s, k) == NamedEdges(k, NamesUnder(s, k).Keys)
    ensures forall n | n in NamesUnder(s, k) :: Target(root, s, Named(k, n)) == Some(NamesUnder(s, k)[n])
  {
  }

  lemma UnderInOrder(root: Json, s: Schema, k: Keyword)
    requires ShapeOf(k).InOrder?
    ensures EdgesUnder(s, k) == IndexedEdges(k, |ListUnder(s, k)|)
    ensures forall i | 0 <= i < |ListUnder(s, k)| :: Target(root, s, Indexed(k, i)) == Some(ListUnder(s, k)[i])
  {
  }

  lemma NoEdges(k: Keyword)
    ensures NamedEdges(k, {}) == {} && IndexedEdges(k, 0) == {}
  {
  }

  lemma NamedEdgesInsert(k: Keyword, all: set<string>, remaining: set<string>, name: string)
    requires name in remaining && remaining <= all
    ensures NamedEdges(k, all - (remaining - {name})) == NamedEdges(k, all - remaining) + {Named(k, name)}
    ensures Named(k, name) !in NamedEdges(k, all - remaining) && Named(k, name) in NamedEdges(k, all)
  {
    assert all - (remaining - {name}) == all - remaining + {name};
  }

  lemma NamedEdgesMonotone(k: Keyword, some: set<string>, all: set<string>)
    requires some <= all
    ensures NamedEdges(k, some) <= NamedEdges(k, all)
  {
  }

  lemma IndexedEdgesInsert(k: Keyword, count: nat, i: nat)
    requires i < count
    ensures IndexedEdges(k, i + 1) == IndexedEdges(k, i) + {Indexed(k, i)}
    ensures Indexed(k, i) !in IndexedEdges(k, i) && Indexed(k, i) in IndexedEdges(k, count)
    ensures IndexedEdges(k, i + 1) <= IndexedEdges(k, count)
  {
  }

  ghost function EdgesOver(s: Schema, ks: seq<Keyword>): (r: set<Edge>)
    ensures forall e :: e in r <==> e.keyword in ks && e in EdgesUnder(s, e.keyword)
  {
    if ks == [] then {}
    else
      var last := ks[|ks| - 1];
      assert forall k :: k in ks <==> k in ks[..|ks| - 1] || k == last;
      EdgesOver(s, ks[..|ks| - 1]) + EdgesUnder(s, last)
  }

  function EdgeTokens(e: Edge): seq<string>
  {
    match e
    case Named(k, n) => [Text(k), n]
    case Single(k) => [Text(k)]
    case Indexed(k, i) => [Text(k), Itoa(i)]
  }

  /** The subschema an edge leads to, if there is one. */
  function Target(root: Json, s: Schema, e: Edge): Option<Json>
  {
    match e
    case Named(k, n) => if n in NamesUnder(s, k) then Some(NamesUnder(s, k)[n]) else None
    case Indexed(k, i) => if i < |ListUnder(s, k)| then Some(ListUnder(s, k)[i]) else None
    case Single(k) =>
      if !Has(s, k) then None
      else if k != Ref then Some(s[Text(k)])
      else if !s[Text(Ref)].Str? then None
      else match Resolve(root, s[Text(Ref)].s)
        case None => None
        case Some(r) => Some(r.value)
  }

  function EdgePointer(root: Json, s: Schema, pointer: string, e: Edge): string
  {
    if e == Single(Ref) && Has(s, Ref) && s[Text(Ref)].Str? && Resolve(root, s[Text(Ref)].s).Some?
    then Resolve(root, s[Text(Ref)].s).value.pointer
    else AppendPointer(pointer, EdgeTokens(e))
  }

  /** Following an edge and extending the pointer go to the same node, so a memo
      entry found under the extended pointer is about the right subschema. */
  lemma EdgeAddresses(root: Json, s: Schema, pointer: string, e: Edge)
    requires Addresses(root, pointer, Obj(s))
    requires Target(root, s, e).Some?
    ensures Addresses(root, EdgePointer(root, s, pointer, e), Target(root, s, e).value)
  {
    var child := Target(root, s, e).value;
    match e
    case Named(k, n) =>
      WalkTwo(Obj(s), Text(k), n, s[Text(k)], child);
      AddressesAppend(root, pointer, Obj(s), [Text(k), n], child);
    case Indexed(k, i) =>
      IndexRoundTrip(i, |ListUnder(s, k)|);
      WalkTwo(Obj(s), Text(k), Itoa(i), s[Text(k)], child);
      AddressesAppend(root, pointer, Obj(s), [Text(k), Itoa(i)], child);
    case Single(k) =>
      if k == Ref {
        ResolveAddresses(root, s[Text(Ref)].s);
      } else {
        assert Walk(child, []) == Some(child);
        assert [Text(k)][1..] == [];
        AddressesAppend(root, pointer, Obj(s), [Text(k)], child);
      }
  }

  lemma WalkTwo(v: Json, first: string, second: string, middle: Json, child: Json)
    requires Step(v, first) == Some(middle) && Step(middle, second) == Some(child)
    ensures Walk(v, [first, second]) == Some(child)
  {
    assert [first, second][1..] == [second];
    assert [second][1..] == [];
    assert Walk(child, []) == Some(child);
    assert Walk(middle, [second]) == Some(child);
  }
}
