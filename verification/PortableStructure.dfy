/** The two guards a schema and its fixtures pass before any schema library runs:
    the structural validation of a schema, and the work guard of one fixture. */
module PortableStructure {
  import opened Wrappers
  import opened JsonModel
  import opened SchemaGraph
  import opened Pointers
  import opened Closure
  import opened ProofGraph
  import opened ClosureMemo
  import opened ClosureValidator
  import opened Evaluator
  import opened EvaluationStability
  import opened SchemaWork
  import opened InstanceWork

  /** Accepts exactly the schemas that are proved closed within the depth limit
      and the operation budget, and whose fully expanded work is within bounds. */
  method ValidatePortableSchemaStructure(root: Json, policy: Policy) returns (accepted: bool)
    ensures accepted <==>
              && Accepting(root, policy)
              && Operations(root) <= 4096
              && FullWork(root, root) <= 16384
  {
    hide Prove, FullWork, Reach;
    var proof, _ := ProveClosure(root, policy);
    if proof.None? {
      return false;
    }
    var estimator := new SchemaValidationWorkEstimator(root, policy);
    RootAddressed(root);
    var work := estimator.Estimate(root, "#", MAX_DEPTH);
    if work.Err? {
      return false;
    }
    return work.value <= MAX_WORK;
  }

  /** The guard of one conformance fixture against its own compiled schema. A
      fixture that passes costs a reference evaluation at most the limit, however
      the uninterpreted assertions answer and however long evaluation may run. */
  method GuardFixture(source: Json, ghost policy: Policy, fixture: Json) returns (accepted: bool)
    requires Accepting(source, policy)
    ensures accepted <==> FullApplications(source, source, fixture) <= 16384
    ensures accepted ==> forall assertions, fuel: nat | fuel >= FULL ::
                           Eval(source, assertions, source, fixture, fuel).cost <= 16384
  {
    hide Prove, FullApplications;
    var estimator := new SchemaInstanceValidationWorkEstimator(source, fixture, policy);
    RootAddressed(source);
    RootAddressed(fixture);
    var work := estimator.Estimate(source, fixture, InstanceKey("#", "#", Value), MAX_DEPTH);
    if work.Err? {
      return false;
    }
    accepted := work.value <= MAX_WORK;
    if accepted {
      forall assertions, fuel: nat | fuel >= FULL
        ensures Eval(source, assertions, source, fixture, fuel).cost <= MAX_WORK
      {
        FixtureCost(source, policy, assertions, fixture, fuel);
      }
    }
  }

  lemma FixtureCost(source: Json, policy: Policy, assertions: Assertions, fixture: Json, fuel: nat)
    requires Accepting(source, policy) && fuel >= FULL
    ensures Eval(source, assertions, source, fixture, fuel).cost <= FullApplications(source, source, fixture)
  {
    hide Prove, Eval, Applications;
    EvaluationStable(source, policy, assertions, source, fixture, MAX_DEPTH, FULL, fuel);
    EvaluationCostBound(source, assertions, source, fixture, FULL);
  }
}
