/** The annotation walk over the literal document: which places it visits, which
    binding is in force there, and what it collects, each with its literal keyword. */
module AnnotationRules {
  import opened Wrappers
  import opened JsonModel
  import opened Pointers
  import opened Ordering
  import opened Identities
  import opened ContractAnnotations
  import opened AnnotationReach

  // ---------- one node ----------

  ghost predicate HasMember(v: Json, key: string, member: Json)
  {
    v.Obj? && key in v.members && v.members[key] == member
  }

  /** The binding in force at a node: the one it names, else the one it is under. */
  ghost predicate InForce(v: Json, outer: string, binding: string)
  {
    if exists name :: HasMember(v, "x-takoform-binding", Str(name)) then HasMember(v, "x-takoform-binding", Str(binding))
    else binding == outer
  }

  /** A step to a member: any but the two annotations and the reference. */
  ghost predicate ToMember(at: Place, next: Place)
  {
    exists key :: HasMember(at.v, key, next.v)
                  && key != "x-takoform-binding" && key != "x-takoform-required-interface" && key != "$ref"
                  && next.pointer == at.pointer + "/" + EscapeToken(key)
                  && InForce(at.v, at.binding, next.binding)
  }

  ghost predicate ToItem(at: Place, next: Place)
  {
    exists i :: at.v.Arr? && 0 <= i < |at.v.items| && at.v.items[i] == next.v
                && next.pointer == at.pointer + "/" + Itoa(i) && next.binding == at.binding
  }

  /** A step along a local reference, which is followed only under a binding. */
  ghost predicate ToTarget(d: Document, at: Place, next: Place)
  {
    && next.binding != "" && InForce(at.v, at.binding, next.binding)
    && exists reference, r :: HasMember(at.v, "$ref", Str(reference)) && Resolve(d.root, reference) == Some(r)
                              && next.v == r.value && "#" <= r.pointer && next.pointer == d.pointer + r.pointer[1..]
  }

  ghost predicate StepsTo(d: Document, at: Place, next: Place)
  {
    ToMember(at, next) || ToItem(at, next) || ToTarget(d, at, next)
  }

  /** An Interface is required at a place. */
  ghost predicate Requires(d: Document, at: Place, a: InterfaceAnnotation)
  {
    exists value :: HasMember(at.v, "x-takoform-required-interface", value) && d.decode(value) == Some(a.ref)
                    && a.pointer == at.pointer + "/x-takoform-required-interface"
                    && InForce(at.v, at.binding, a.bindingName)
  }

  /** A Binding is named at a place. */
  ghost predicate Binds(at: Place, a: BindingAnnotation)
  {
    HasMember(at.v, "x-takoform-binding", Str(a.name)) && a.pointer == at.pointer + "/x-takoform-binding"
  }

  // ---------- the walk agrees ----------

  lemma InForceIff(v: Json, outer: string, binding: string)
    ensures InForce(v, outer, binding) <==> Effective(v, outer) == binding
  {
    if v.Obj? && "x-takoform-binding" in v.members && v.members["x-takoform-binding"].Str? {
      assert HasMember(v, "x-takoform-binding", Str(v.members["x-takoform-binding"].s));
    }
  }

  lemma MemberIff(d: Document, at: Place, next: Place)
    ensures ToMember(at, next) <==> exists key :: Next(d, at, Member(key)) == Some(next)
  {
    hide Effective, InForce, EscapeToken, EscapePointerTwoPass;
    InForceIff(at.v, at.binding, next.binding);
    if ToMember(at, next) {
      var key :| HasMember(at.v, key, next.v)
                 && key != "x-takoform-binding" && key != "x-takoform-required-interface" && key != "$ref"
                 && next.pointer == at.pointer + "/" + EscapeToken(key) && InForce(at.v, at.binding, next.binding);
      EscapesAgree(key);
      assert Next(d, at, Member(key)) == Some(next);
    }
    if key :| Next(d, at, Member(key)) == Some(next) {
      EscapesAgree(key);
      assert HasMember(at.v, key, next.v);
    }
  }

  lemma ItemIff(d: Document, at: Place, next: Place)
    ensures ToItem(at, next) <==> exists index :: Next(d, at, Item(index)) == Some(next)
  {
    hide Itoa;
    if i :| at.v.Arr? && 0 <= i < |at.v.items| && at.v.items[i] == next.v
            && next.pointer == at.pointer + "/" + Itoa(i) && next.binding == at.binding {
      assert Next(d, at, Item(i)) == Some(next);
    }
  }

  lemma TargetIff(d: Document, at: Place, next: Place)
    ensures ToTarget(d, at, next) <==> Next(d, at, Jump) == Some(next)
  {
    hide Effective, InForce, Resolve;
    InForceIff(at.v, at.binding, next.binding);
    if at.v.Obj? && "$ref" in at.v.members && at.v.members["$ref"].Str? {
      var reference := at.v.members["$ref"].s;
      assert HasMember(at.v, "$ref", Str(reference));
      if Resolve(d.root, reference).Some? {
        ResolvedIsRooted(d.root, reference);
      }
    }
  }

  lemma ResolvedIsRooted(root: Json, reference: string)
    requires Resolve(root, reference).Some?
    ensures "#" <= Resolve(root, reference).value.pointer
  {
  }

  /** A hop of the walk is a step of the document. */
  lemma StepIff(d: Document, at: Place, next: Place)
    ensures StepsTo(d, at, next) <==> exists hop :: Next(d, at, hop) == Some(next)
  {
    hide Next, ToMember, ToItem, ToTarget;
    MemberIff(d, at, next);
    ItemIff(d, at, next);
    TargetIff(d, at, next);
    if hop :| Next(d, at, hop) == Some(next) {
      match hop
      case Member(key) => assert Next(d, at, Member(key)) == Some(next);
      case Item(index) => assert Next(d, at, Item(index)) == Some(next);
      case Jump =>
    }
  }

  lemma RequiresIff(d: Document, at: Place, a: InterfaceAnnotation)
    ensures Requires(d, at, a) <==> a in RequirementsAt(d, at)
  {
    hide Effective, InForce, EscapePointerTwoPass, MemberPointer;
    InForceIff(at.v, at.binding, a.bindingName);
    RequirementPointer(at.pointer);
    if at.v.Obj? && "x-takoform-required-interface" in at.v.members {
      assert HasMember(at.v, "x-takoform-required-interface", at.v.members["x-takoform-required-interface"]);
    }
  }

  lemma RequirementPointer(pointer: string)
    ensures MemberPointer(pointer, REQUIRED) == pointer + "/x-takoform-required-interface"
  {
    hide ReplaceChar;
    var key := "x-takoform-required-interface";
    assert '~' !in key && '/' !in key;
    Unescaped(key, '~', "~0");
    Unescaped(key, '/', "~1");
    assert "/" + key == "/x-takoform-required-interface";
  }

  lemma {:induction false} Unescaped(text: string, c: char, escape: string)
    requires c !in text
    ensures ReplaceChar(text, c, escape) == text
  {
    if text != "" {
      Unescaped(text[1..], c, escape);
    }
  }

  lemma BindsIff(at: Place, a: BindingAnnotation)
    ensures Binds(at, a) <==> a in BindingsAt(at)
  {
    assert "/" + BINDING == "/x-takoform-binding";
    assert at.pointer + "/" + BINDING == at.pointer + ("/" + BINDING);
  }

  // ---------- chains of places ----------

  /** Places from the root of the document, each a step from the one before. */
  ghost predicate Chain(d: Document, places: seq<Place>)
  {
    && places != [] && places[0] == Place(d.root, d.pointer, "")
    && forall i | 0 < i < |places| :: StepsTo(d, places[i - 1], places[i])
  }

  /** Some chain of places ends here. */
  ghost predicate Visited(d: Document, at: Place)
  {
    exists places :: Chain(d, places) && places[|places| - 1] == at
  }

  lemma {:induction false} GoSnoc(d: Document, at: Place, path: seq<Hop>, hop: Hop)
    ensures Go(d, at, path + [hop]) == match Go(d, at, path) case None => None case Some(middle) => Next(d, middle, hop)
    decreases |path|
  {
    hide Next;
    if path == [] {
      assert [hop][1..] == [] && path + [hop] == [hop];
    } else {
      assert (path + [hop])[1..] == path[1..] + [hop];
      if Next(d, at, path[0]).Some? {
        GoSnoc(d, Next(d, at, path[0]).value, path[1..], hop);
      }
    }
  }

  lemma {:induction false} ChainIsPath(d: Document, places: seq<Place>) returns (path: seq<Hop>)
    requires Chain(d, places)
    ensures Go(d, Start(d), path) == Some(places[|places| - 1])
    decreases |places|
  {
    hide Next, StepsTo;
    if |places| == 1 {
      path := [];
    } else {
      var before := places[..|places| - 1];
      path := ChainIsPath(d, before);
      var last := places[|places| - 1];
      assert StepsTo(d, places[|places| - 2], last);
      StepIff(d, places[|places| - 2], last);
      var hop :| Next(d, places[|places| - 2], hop) == Some(last);
      GoSnoc(d, Start(d), path, hop);
      path := path + [hop];
    }
  }

  lemma {:induction false} PathIsChain(d: Document, path: seq<Hop>) returns (places: seq<Place>)
    requires Go(d, Start(d), path).Some?
    ensures Chain(d, places) && places[|places| - 1] == Go(d, Start(d), path).value
    decreases |path|
  {
    hide Next, StepsTo;
    if path == [] {
      places := [Start(d)];
    } else {
      var before, hop := path[..|path| - 1], path[|path| - 1];
      assert path == before + [hop];
      GoSnoc(d, Start(d), before, hop);
      var shorter := PathIsChain(d, before);
      var last := Go(d, Start(d), path).value;
      StepIff(d, shorter[|shorter| - 1], last);
      places := shorter + [last];
    }
  }

  lemma VisitedIff(d: Document, at: Place)
    ensures Visited(d, at) <==> Reachable(d, at)
  {
    hide Next, Go, StepsTo;
    if Visited(d, at) {
      var places :| Chain(d, places) && places[|places| - 1] == at;
      var path := ChainIsPath(d, places);
    }
    if path :| Go(d, Start(d), path) == Some(at) {
      var places := PathIsChain(d, path);
    }
  }

  /** The walk collects exactly the requirements and bindings of the places a chain of
      steps reaches, although it cuts references it is already following. */
  lemma CollectedByRules(d: Document, a: InterfaceAnnotation, b: BindingAnnotation)
    requires NamesNulFree(CollectAll(d))
    ensures a in CollectAll(d).interfaces <==> exists at :: Visited(d, at) && Requires(d, at, a)
    ensures b in CollectAll(d).bindings <==> exists at :: Visited(d, at) && Binds(at, b)
  {
    hide CollectAll, NamesNulFree, Reachable, Visited, Requires, Binds, RequirementsAt, BindingsAt;
    CollectedIffReachable(d, a);
    BindingCollectedIffReachable(d, b);
    forall at ensures Visited(d, at) <==> Reachable(d, at) { VisitedIff(d, at); }
    forall at ensures Requires(d, at, a) <==> a in RequirementsAt(d, at) { RequiresIff(d, at, a); }
    forall at ensures Binds(at, b) <==> b in BindingsAt(at) { BindsIff(at, b); }
  }
}
