/** For a schema the closure proof accepts, the reference evaluator never runs out
    of edges: from a fixed depth on, its outcome does not depend on the fuel. */
module EvaluationStability {
  import opened Wrappers
  import opened JsonModel
  import opened FiniteSums
  import opened SchemaGraph
  import opened Closure
  import opened ProofGraph
  import opened Evaluator
  import opened SchemaWork
  import opened InstanceWork

  ghost predicate Agree(s: Schema, inst: Json, f: InstanceEdge -> Outcome, g: InstanceEdge -> Outcome)
  {
    forall e | e in InstanceEdges(s, inst) :: f(e) == g(e)
  }

  lemma ListedEdge(s: Schema, inst: Json, k: Keyword, e: InstanceEdge)
    requires WorkKeyword(k) && e in InstanceEdgesUnder(s, k, inst)
    ensures e in InstanceEdges(s, inst) && e.edge.keyword == k
  {
    var ks := EVALUATED_KEYWORDS;
    assert ks[0] == Properties && ks[1] == DependentSchemas && ks[2] == AdditionalProperties && ks[3] == PropertyNames
           && ks[4] == UnevaluatedProperties && ks[5] == PrefixItems && ks[6] == Items && ks[7] == Contains
           && ks[8] == UnevaluatedItems && ks[9] == Not && ks[10] == If && ks[11] == Then && ks[12] == Else
           && ks[13] == AllOf && ks[14] == AnyOf && ks[15] == OneOf && ks[16] == Ref;
    InstanceEdgesKnowTheirKeyword(s, k, inst);
  }

  lemma SelfEdges(s: Schema, inst: Json)
    ensures Has(s, If) ==> At(Single(If), Self) in InstanceEdges(s, inst)
    ensures Has(s, Not) ==> At(Single(Not), Self) in InstanceEdges(s, inst)
  {
    hide InstanceEdges;
    if Has(s, If) {
      ListedEdge(s, inst, If, At(Single(If), Self));
    }
    if Has(s, Not) {
      ListedEdge(s, inst, Not, At(Single(Not), Self));
    }
  }

  lemma BranchEdges(s: Schema, inst: Json, k: Keyword)
    requires k in {AnyOf, OneOf}
    ensures forall i | 0 <= i < |ListUnder(s, k)| :: At(Indexed(k, i), Self) in InstanceEdges(s, inst)
  {
    hide InstanceEdges;
    forall i | 0 <= i < |ListUnder(s, k)| ensures At(Indexed(k, i), Self) in InstanceEdges(s, inst) {
      assert i in Indices(|ListUnder(s, k)|);
      ListedEdge(s, inst, k, At(Indexed(k, i), Self));
    }
  }

  lemma SameEvaluated(assertions: Assertions, s: Schema, inst: Json, f: InstanceEdge -> Outcome, g: InstanceEdge -> Outcome)
    requires Agree(s, inst, f, g)
    ensures forall k :: Branch(s, k, f) == Branch(s, k, g)
    ensures EvaluatedMembers(assertions, s, inst, f) == EvaluatedMembers(assertions, s, inst, g)
    ensures EvaluatedItems(s, inst, f) == EvaluatedItems(s, inst, g)
  {
    hide InstanceEdges;
    SelfEdges(s, inst);
  }

  lemma SameApplied(assertions: Assertions, s: Schema, inst: Json, f: InstanceEdge -> Outcome, g: InstanceEdge -> Outcome)
    requires Agree(s, inst, f, g)
    ensures Applied(assertions, s, inst, f) == Applied(assertions, s, inst, g)
    ensures Sum(Applied(assertions, s, inst, f), CostOf(f)) == Sum(Applied(assertions, s, inst, g), CostOf(g))
  {
    hide InstanceEdges, EvaluatedMembers, EvaluatedItems, Branch;
    SameEvaluated(assertions, s, inst, f, g);
    assert Applied(assertions, s, inst, f) == Applied(assertions, s, inst, g);
    SumCongruent(Applied(assertions, s, inst, f), CostOf(f), CostOf(g));
  }

  lemma SameBranches(s: Schema, inst: Json, f: InstanceEdge -> Outcome, g: InstanceEdge -> Outcome)
    requires Agree(s, inst, f, g)
    ensures SomeBranchHolds(s, f) == SomeBranchHolds(s, g)
    ensures OneBranchHolds(s, f) == OneBranchHolds(s, g)
  {
    hide InstanceEdges;
    BranchEdges(s, inst, AnyOf);
    BranchEdges(s, inst, OneOf);
  }

  lemma SameConjunction(assertions: Assertions, s: Schema, inst: Json, f: InstanceEdge -> Outcome, g: InstanceEdge -> Outcome)
    requires Agree(s, inst, f, g)
    ensures ConjunctionHolds(assertions, s, inst, f) == ConjunctionHolds(assertions, s, inst, g)
    ensures NegationHolds(s, f) == NegationHolds(s, g)
  {
    hide InstanceEdges, Applied, Conjunctive;
    SelfEdges(s, inst);
    SameApplied(assertions, s, inst, f, g);
    AppliedAmongEdges(assertions, s, inst, f);
  }

  lemma SameApplicators(assertions: Assertions, s: Schema, inst: Json, f: InstanceEdge -> Outcome, g: InstanceEdge -> Outcome)
    requires Agree(s, inst, f, g)
    ensures ApplicatorsHold(assertions, s, inst, f) == ApplicatorsHold(assertions, s, inst, g)
  {
    hide Agree, Matches, ConjunctionHolds, NegationHolds, SomeBranchHolds, OneBranchHolds;
    SameConjunction(assertions, s, inst, f, g);
    SameBranches(s, inst, f, g);
    SameMatches(s, inst, f, g);
  }

  lemma SameMatches(s: Schema, inst: Json, f: InstanceEdge -> Outcome, g: InstanceEdge -> Outcome)
    requires Agree(s, inst, f, g)
    ensures Matches(s, inst, f) == Matches(s, inst, g)
  {
    hide InstanceEdges, InstanceEdgesUnder;
    forall e | e in InstanceEdgesUnder(s, Contains, inst) ensures f(e) == g(e) {
      ListedEdge(s, inst, Contains, e);
    }
  }

  lemma SameOutcome(assertions: Assertions, s: Schema, inst: Json, f: InstanceEdge -> Outcome, g: InstanceEdge -> Outcome)
    requires Agree(s, inst, f, g)
    ensures Combine(assertions, s, inst, f) == Combine(assertions, s, inst, g)
  {
    hide AssertionsHold, ApplicatorsHold, EvaluatedMembers, EvaluatedItems, Applied, Agree;
    SameEvaluated(assertions, s, inst, f, g);
    SameApplied(assertions, s, inst, f, g);
    SameApplicators(assertions, s, inst, f, g);
  }

  lemma {:induction false} EvaluationStable(
      root: Json, policy: Policy, assertions: Assertions, v: Json, inst: Json, rank: nat, fuel: nat, more: nat)
    requires Proved(root, policy, v, rank) && rank + 2 <= fuel <= more
    ensures Eval(root, assertions, v, inst, fuel) == Eval(root, assertions, v, inst, more)
    decreases rank, 1
  {
    hide Prove, InstanceEdges, Combine;
    match v
    case Obj(s) =>
      var f, g := EvalEdges(root, assertions, s, inst, fuel - 1), EvalEdges(root, assertions, s, inst, more - 1);
      forall e | e in InstanceEdges(s, inst) ensures f(e) == g(e) {
        EdgeStable(root, policy, assertions, s, inst, rank, fuel, more, e);
      }
      SameOutcome(assertions, s, inst, f, g);
    case _ =>
  }

  lemma {:induction false} EdgeStable(
      root: Json, policy: Policy, assertions: Assertions, s: Schema, inst: Json, rank: nat, fuel: nat, more: nat, e: InstanceEdge)
    requires Proved(root, policy, Obj(s), rank) && rank + 2 <= fuel <= more
    requires e in InstanceEdges(s, inst)
    ensures EvalEdges(root, assertions, s, inst, fuel - 1)(e) == EvalEdges(root, assertions, s, inst, more - 1)(e)
    decreases rank, 0
  {
    hide Prove, ProofEdge, Target, EdgesOver, EdgesUnder, InstanceEdges, Eval, EvalEdges, ExactObjectConst, Select;
    AlongListedEdge(s, inst, e);
    WorkEdgeCases(root, s, e.edge);
    var part := Select(inst, e.part);
    if ExactObjectConst(s) {
      ExactConstHasNoEdges(s);
    } else {
      if ProofEdge(s, e.edge) {
        ProvedChild(root, policy, s, e.edge, rank);
        EvaluationStable(root, policy, assertions, Target(root, s, e.edge).value, part, rank - 1, fuel - 1, more - 1);
      } else {
        FalseStable(root, assertions, part, fuel - 1, more - 1);
      }
      EvalAlongEdge(root, assertions, s, inst, fuel - 1, e);
      EvalAlongEdge(root, assertions, s, inst, more - 1, e);
    }
  }

  lemma EvalAlongEdge(root: Json, assertions: Assertions, s: Schema, inst: Json, fuel: nat, e: InstanceEdge)
    requires Target(root, s, e.edge).Some?
    ensures EvalEdges(root, assertions, s, inst, fuel)(e) ==
            Eval(root, assertions, Target(root, s, e.edge).value, Select(inst, e.part), fuel)
  {
    hide Target, Eval, Select;
  }

  lemma FalseStable(root: Json, assertions: Assertions, inst: Json, fuel: nat, more: nat)
    requires fuel > 0 && more > 0
    ensures Eval(root, assertions, Bool(false), inst, fuel) == Eval(root, assertions, Bool(false), inst, more)
  {
  }
}
