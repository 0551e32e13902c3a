/** Idempotency keys that name the incarnation: clients that derive them, a host
    that replays a recorded answer before it resolves the resource, and what any
    interleaving of their steps guarantees about deletes. */
module Incarnation {
  import opened Wrappers

  // ---------- keys ----------

  /** The values an Idempotency-Key is derived from. Incarnation `n` is the one the
      host issued with `metadata.uid` `uid-n`. */
  datatype KeyParts = KeyParts(
    operation: string, group: string, kind: string, name: string, space: string,
    uid: nat, generation: string, body: string)

  datatype Place = Place(space: string, name: string)

  /** A delete or an observation as the client sends it: the uid is in the key only. */
  datatype Request = Request(place: Place, group: string, kind: string, uid: nat, generation: string)

  function PartsOf(r: Request): KeyParts
  {
    KeyParts("delete", r.group, r.kind, r.place.name, r.place.space, r.uid, r.generation, "")
  }

  function ObserveParts(r: Request): KeyParts
  {
    KeyParts("observe", r.group, r.kind, r.place.name, r.place.space, r.uid, r.generation, "")
  }

  /** No two of the given requests collide under the digest. */
  ghost predicate CollisionFree(digest: KeyParts -> string, requests: set<Request>)
  {
    forall a, b | a in requests && b in requests && digest(PartsOf(a)) == digest(PartsOf(b)) :: PartsOf(a) == PartsOf(b)
  }

  // ---------- the host ----------

  datatype Resource = Resource(uid: nat, generation: string, spec: string)

  datatype Host = Host(
    resources: map<Place, Resource>,
    deletes: set<string>,
    observes: map<string, Resource>,
    nextUid: nat)

  datatype Response = NoContent | Representation(resource: Resource) | NotFound

  function Put(h: Host, place: Place, spec: string): Host
  {
    var uid := h.nextUid + 1;
    h.(nextUid := uid, resources := h.resources[place := Resource(uid, "1", spec)])
  }

  /** A recorded key is answered before the resource is resolved. */
  function Delete(h: Host, place: Place, key: string): (Host, Response)
  {
    if key in h.deletes then (h, NoContent)
    else if place in h.resources then
      (h.(resources := h.resources - {place}, deletes := h.deletes + {key}), NoContent)
    else (h, NotFound)
  }

  function Observe(h: Host, place: Place, key: string): (Host, Response)
  {
    if key in h.observes then (h, Representation(h.observes[key]))
    else if place in h.resources then
      (h.(observes := h.observes[key := h.resources[place]]), Representation(h.resources[place]))
    else (h, NotFound)
  }

  class IncarnationHost {
    var resources: map<Place, Resource>
    var deletes: set<string>
    var observes: map<string, Resource>
    var nextUid: nat

    function State(): Host
      reads this
    {
      Host(resources, deletes, observes, nextUid)
    }

    constructor ()
      ensures State() == Host(map[], {}, map[], 0)
    {
      resources, deletes, observes, nextUid := map[], {}, map[], 0;
    }

    method HandlePut(place: Place, spec: string) returns (r: Response)
      modifies this
      ensures State() == Put(old(State()), place, spec)
      ensures r == Representation(resources[place]) && r.resource.uid > old(nextUid)
    {
      nextUid := nextUid + 1;
      var resource := Resource(nextUid, "1", spec);
      resources := resources[place := resource];
      return Representation(resource);
    }

    method HandleDelete(place: Place, key: string) returns (r: Response)
      modifies this
      ensures (State(), r) == Delete(old(State()), place, key)
    {
      var replay := key in deletes;
      var present := place in resources;
      if !replay && present {
        resources := resources - {place};
        deletes := deletes + {key};
      }
      if !replay && !present {
        return NotFound;
      }
      return NoContent;
    }

    method HandleObserve(place: Place, key: string) returns (r: Response)
      modifies this
      ensures (State(), r) == Observe(old(State()), place, key)
    {
      if key in observes {
        return Representation(observes[key]);
      }
      if place in resources {
        observes := observes[key := resources[place]];
        return Representation(resources[place]);
      }
      return NotFound;
    }
  }

  // ---------- clients and host, interleaved ----------

  /** The host, the requests clients have sent so far, and every incarnation a
      client can have read off a representation. */
  datatype System = System(host: Host, sent: set<Request>, issued: set<(Place, nat)>)

  datatype Step =
    | Apply(place: Place, spec: string)
    | Send(request: Request)
    | Deliver(request: Request)
    | Look(request: Request)

  const START := System(Host(map[], {}, map[], 0), {}, {})

  /** A request may be delivered any number of times, in any order, late or never;
      a client only names an incarnation it has read from that place. An observation is
      one step, taken when it is delivered: sending it leaves no trace. */
  predicate Enabled(sys: System, step: Step)
  {
    match step
    case Apply(_, _) => true
    case Send(r) => (r.place, r.uid) in sys.issued
    case Deliver(r) => r in sys.sent
    case Look(r) => (r.place, r.uid) in sys.issued
  }

  function Take(digest: KeyParts -> string, sys: System, step: Step): System
  {
    match step
    case Apply(place, spec) =>
      var host := Put(sys.host, place, spec);
      sys.(host := host, issued := sys.issued + {(place, host.nextUid)})
    case Send(r) => sys.(sent := sys.sent + {r})
    case Deliver(r) => sys.(host := Delete(sys.host, r.place, digest(PartsOf(r))).0)
    case Look(r) => sys.(host := Observe(sys.host, r.place, digest(ObserveParts(r))).0)
  }

  function Seen(digest: KeyParts -> string, sys: System, r: Request): Response
  {
    Observe(sys.host, r.place, digest(ObserveParts(r))).1
  }

  function Answer(digest: KeyParts -> string, sys: System, r: Request): Response
  {
    Delete(sys.host, r.place, digest(PartsOf(r))).1
  }

  /** The system after the first `n` steps. */
  function After(digest: KeyParts -> string, run: seq<Step>, n: nat): System
    requires n <= |run|
  {
    if n == 0 then START else Take(digest, After(digest, run, n - 1), run[n - 1])
  }

  ghost predicate IsRun(digest: KeyParts -> string, run: seq<Step>)
  {
    forall n | 0 <= n < |run| :: Enabled(After(digest, run, n), run[n])
  }

  predicate Alive(sys: System, place: Place, uid: nat)
  {
    place in sys.host.resources && sys.host.resources[place].uid == uid
  }

  // ---------- what every step keeps ----------

  ghost predicate KeyExplained(digest: KeyParts -> string, sys: System, key: string)
  {
    exists r | r in sys.sent :: digest(PartsOf(r)) == key && !Alive(sys, r.place, r.uid)
  }

  /** Live incarnations were issued at their place, issued ones are numbered, sent
      requests name issued ones, and a recorded key belongs to a sent request
      whose incarnation is gone. */
  ghost predicate Sound(digest: KeyParts -> string, sys: System)
  {
    && (forall p | p in sys.host.resources :: (p, sys.host.resources[p].uid) in sys.issued)
    && (forall x | x in sys.issued :: 1 <= x.1 <= sys.host.nextUid)
    && (forall r | r in sys.sent :: (r.place, r.uid) in sys.issued)
    && (forall key | key in sys.host.deletes :: KeyExplained(digest, sys, key))
  }

  /** A dead incarnation stays dead: its number is never issued again. */
  lemma DeadStaysDead(digest: KeyParts -> string, sys: System, step: Step, place: Place, uid: nat)
    requires Sound(digest, sys) && Enabled(sys, step)
    requires (place, uid) in sys.issued && !Alive(sys, place, uid)
    ensures !Alive(Take(digest, sys, step), place, uid)
    ensures (place, uid) in Take(digest, sys, step).issued
  {
  }

  lemma StepKeepsSound(digest: KeyParts -> string, sys: System, step: Step)
    requires Sound(digest, sys) && Enabled(sys, step)
    ensures Sound(digest, Take(digest, sys, step))
  {
    var next := Take(digest, sys, step);
    forall key | key in next.host.deletes ensures KeyExplained(digest, next, key) {
      if key in sys.host.deletes {
        var r :| r in sys.sent && digest(PartsOf(r)) == key && !Alive(sys, r.place, r.uid);
        DeadStaysDead(digest, sys, step, r.place, r.uid);
        assert r in next.sent;
      } else {
        assert step.Deliver? && step.request in next.sent;
      }
    }
  }

  lemma {:induction false} RunIsSound(digest: KeyParts -> string, run: seq<Step>, n: nat)
    requires IsRun(digest, run) && n <= |run|
    ensures Sound(digest, After(digest, run, n))
    decreases n
  {
    if n > 0 {
      RunIsSound(digest, run, n - 1);
      StepKeepsSound(digest, After(digest, run, n - 1), run[n - 1]);
    }
  }

  lemma {:induction false} DeadForever(digest: KeyParts -> string, run: seq<Step>, n: nat, m: nat, place: Place, uid: nat)
    requires IsRun(digest, run) && n <= m <= |run|
    requires (place, uid) in After(digest, run, n).issued && !Alive(After(digest, run, n), place, uid)
    ensures !Alive(After(digest, run, m), place, uid) && (place, uid) in After(digest, run, m).issued
    decreases m
  {
    hide Sound, Take, Enabled;
    if n < m {
      DeadForever(digest, run, n, m - 1, place, uid);
      RunIsSound(digest, run, m - 1);
      DeadStaysDead(digest, After(digest, run, m - 1), run[m - 1], place, uid);
    }
  }

  // ---------- the guarantees ----------

  /** Whatever a delivered delete answers, executed, replayed or not found, the
      incarnation it names is gone from then on, for the rest of the run. */
  lemma AnsweredDeleteIsFinal(digest: KeyParts -> string, run: seq<Step>, n: nat, m: nat)
    requires IsRun(digest, run) && n < m <= |run| && run[n].Deliver?
    requires CollisionFree(digest, After(digest, run, n).sent)
    ensures var r := run[n].request; !Alive(After(digest, run, m), r.place, r.uid)
  {
    hide Sound, Take, Alive, CollisionFree;
    RunIsSound(digest, run, n);
    DeliveryEnds(digest, After(digest, run, n), run[n].request);
    DeadForever(digest, run, n + 1, m, run[n].request.place, run[n].request.uid);
  }

  lemma DeliveryEnds(digest: KeyParts -> string, sys: System, r: Request)
    requires Sound(digest, sys) && r in sys.sent && CollisionFree(digest, sys.sent)
    ensures var next := Take(digest, sys, Deliver(r));
            !Alive(next, r.place, r.uid) && (r.place, r.uid) in next.issued
  {
    var key := digest(PartsOf(r));
    if key in sys.host.deletes {
      var recorded :| recorded in sys.sent && digest(PartsOf(recorded)) == key && !Alive(sys, recorded.place, recorded.uid);
      assert PartsOf(recorded) == PartsOf(r);
      assert recorded.place == r.place && recorded.uid == r.uid;
    }
  }

  predicate Executes(digest: KeyParts -> string, sys: System, step: Step)
  {
    step.Deliver? && digest(PartsOf(step.request)) !in sys.host.deletes && step.request.place in sys.host.resources
  }

  lemma {:induction false} RecordsAreKept(digest: KeyParts -> string, run: seq<Step>, n: nat, m: nat)
    requires n <= m <= |run|
    ensures After(digest, run, n).host.deletes <= After(digest, run, m).host.deletes
    decreases m
  {
    if n < m {
      RecordsAreKept(digest, run, n, m - 1);
    }
  }

  /** Each key executes at most once, however often it is delivered. */
  lemma KeyExecutesOnce(digest: KeyParts -> string, run: seq<Step>, n: nat, m: nat)
    requires n < |run| && m < |run|
    requires Executes(digest, After(digest, run, n), run[n]) && Executes(digest, After(digest, run, m), run[m])
    requires digest(PartsOf(run[n].request)) == digest(PartsOf(run[m].request))
    ensures n == m
  {
    if n < m {
      ExecutedIsRecorded(digest, run, n, m);
    } else if m < n {
      ExecutedIsRecorded(digest, run, m, n);
    }
  }

  lemma ExecutedIsRecorded(digest: KeyParts -> string, run: seq<Step>, n: nat, m: nat)
    requires n < m <= |run| && Executes(digest, After(digest, run, n), run[n])
    ensures run[n].Deliver? && digest(PartsOf(run[n].request)) in After(digest, run, m).host.deletes
  {
    hide Take, Executes, PartsOf;
    ExecutionRecords(digest, After(digest, run, n), run[n]);
    RecordsAreKept(digest, run, n + 1, m);
  }

  lemma ExecutionRecords(digest: KeyParts -> string, sys: System, step: Step)
    requires Executes(digest, sys, step)
    ensures step.Deliver? && digest(PartsOf(step.request)) in Take(digest, sys, step).host.deletes
  {
  }

  /** The same delete retried after a lost response is answered with the same
      success and changes nothing. */
  lemma RetryReplays(digest: KeyParts -> string, run: seq<Step>, n: nat, m: nat)
    requires n < m < |run| && run[n].Deliver? && run[m] == run[n]
    requires Answer(digest, After(digest, run, n), run[n].request).NoContent?
    ensures Answer(digest, After(digest, run, m), run[m].request).NoContent?
    ensures After(digest, run, m + 1) == After(digest, run, m)
  {
    RecordsAreKept(digest, run, n + 1, m);
  }

  /** A put issues a number no incarnation has had before. */
  lemma PutIssuesANewNumber(digest: KeyParts -> string, run: seq<Step>, n: nat, place: Place, spec: string)
    requires IsRun(digest, run) && n <= |run|
    ensures var sys := After(digest, run, n);
            var next := Take(digest, sys, Apply(place, spec));
            && place in next.host.resources && (place, next.host.resources[place].uid) in next.issued
            && forall x | x in sys.issued :: x.1 != next.host.resources[place].uid
  {
    RunIsSound(digest, run, n);
  }

  // ---------- observation ----------

  /** The observations delivered before step `n`. */
  ghost function Looks(run: seq<Step>, n: nat): set<Request>
    requires n <= |run|
  {
    set i | 0 <= i < n && run[i].Look? :: run[i].request
  }

  ghost predicate ObserveKeysDiffer(digest: KeyParts -> string, requests: set<Request>)
  {
    forall a, b | a in requests && b in requests && digest(ObserveParts(a)) == digest(ObserveParts(b)) :: a == b
  }

  /** An observation is recorded by the first delivery that finds a resource, and
      says what stood there then. */
  ghost predicate RecordedAt(digest: KeyParts -> string, run: seq<Step>, m: nat, key: string, resource: Resource)
  {
    && m < |run| && run[m].Look? && digest(ObserveParts(run[m].request)) == key
    && key !in After(digest, run, m).host.observes
    && run[m].request.place in After(digest, run, m).host.resources
    && After(digest, run, m).host.resources[run[m].request.place] == resource
  }

  lemma {:induction false} RecordHasAnOrigin(digest: KeyParts -> string, run: seq<Step>, n: nat, key: string) returns (m: nat)
    requires n <= |run| && key in After(digest, run, n).host.observes
    ensures m < n && RecordedAt(digest, run, m, key, After(digest, run, n).host.observes[key])
    decreases n
  {
    hide RecordedAt;
    if key in After(digest, run, n - 1).host.observes {
      m := RecordHasAnOrigin(digest, run, n - 1, key);
      RecordStays(digest, After(digest, run, n - 1), run[n - 1], key);
    } else {
      m := n - 1;
      RecordAppears(digest, run, m, key);
    }
  }

  lemma RecordStays(digest: KeyParts -> string, sys: System, step: Step, key: string)
    requires key in sys.host.observes
    ensures key in Take(digest, sys, step).host.observes
    ensures Take(digest, sys, step).host.observes[key] == sys.host.observes[key]
  {
  }

  lemma RecordAppears(digest: KeyParts -> string, run: seq<Step>, m: nat, key: string)
    requires m < |run| && key !in After(digest, run, m).host.observes && key in After(digest, run, m + 1).host.observes
    ensures RecordedAt(digest, run, m, key, After(digest, run, m + 1).host.observes[key])
  {
  }

  /** An answered observation returns the incarnation it names if and only if that
      incarnation was alive when the first answered delivery of its key found it;
      every later delivery repeats that answer. */
  lemma ObservedIncarnationIff(digest: KeyParts -> string, run: seq<Step>, n: nat) returns (m: nat)
    requires IsRun(digest, run) && n < |run| && run[n].Look?
    requires ObserveKeysDiffer(digest, Looks(run, n + 1))
    requires Seen(digest, After(digest, run, n), run[n].request).Representation?
    ensures m <= n && run[m] == run[n]
    ensures digest(ObserveParts(run[n].request)) !in After(digest, run, m).host.observes
    ensures var r := run[n].request;
            var seen := Seen(digest, After(digest, run, n), r).resource;
            && Seen(digest, After(digest, run, m), r) == Representation(seen)
            && (seen.uid == r.uid <==> Alive(After(digest, run, m), r.place, r.uid))
  {
    var r := run[n].request;
    var key := digest(ObserveParts(r));
    if key in After(digest, run, n).host.observes {
      m := RecordHasAnOrigin(digest, run, n, key);
      assert run[m].request in Looks(run, n + 1) && r in Looks(run, n + 1);
    } else {
      m := n;
    }
  }

  /** So while an incarnation is alive, whatever answers its observation, now or from
      the record, is that incarnation. */
  lemma LiveIncarnationIsObserved(digest: KeyParts -> string, run: seq<Step>, n: nat)
    requires IsRun(digest, run) && n < |run| && run[n].Look?
    requires ObserveKeysDiffer(digest, Looks(run, n + 1))
    requires Alive(After(digest, run, n), run[n].request.place, run[n].request.uid)
    ensures var seen := Seen(digest, After(digest, run, n), run[n].request);
            seen.Representation? && seen.resource.uid == run[n].request.uid
  {
    hide After, ObserveKeysDiffer, Looks;
    var r := run[n].request;
    assert Seen(digest, After(digest, run, n), r).Representation?;
    var m := ObservedIncarnationIff(digest, run, n);
    assert Enabled(After(digest, run, m), run[m]);
    if !Alive(After(digest, run, m), r.place, r.uid) {
      DeadForever(digest, run, m, n, r.place, r.uid);
    }
  }

  // ---------- why each part of the rule is needed ----------

  /** With a key that leaves the uid out, the second of two incarnations of one
      name outlives a delete its client was told succeeded. */
  lemma CounterAloneLosesADelete(digest: KeyParts -> string, place: Place) returns (run: seq<Step>, n: nat)
    requires forall a: KeyParts, b: KeyParts :: a.(uid := 0) == b.(uid := 0) ==> digest(a) == digest(b)
    ensures IsRun(digest, run) && n < |run| && run[n].Deliver?
    ensures Answer(digest, After(digest, run, n), run[n].request).NoContent?
    ensures Alive(After(digest, run, n + 1), place, run[n].request.uid)
  {
    var first, second := Request(place, "g", "K", 1, "1"), Request(place, "g", "K", 2, "1");
    run := [Apply(place, "a"), Send(first), Deliver(first), Apply(place, "b"), Send(second), Deliver(second)];
    n := 5;
    assert PartsOf(first).(uid := 0) == PartsOf(second).(uid := 0);
    Unroll(digest, run);
  }

  /** And a client that guesses an incarnation before the host issues it burns the
      key: the delete it sends once the incarnation exists is only replayed. */
  lemma GuessedUidLosesADelete(digest: KeyParts -> string, place: Place) returns (run: seq<Step>, n: nat)
    ensures 1 < n < |run| && run[n].Deliver?
    ensures !Enabled(After(digest, run, 1), run[1])
    ensures forall i | 0 <= i < |run| && i != 1 :: Enabled(After(digest, run, i), run[i])
    ensures Answer(digest, After(digest, run, n), run[n].request).NoContent?
    ensures Alive(After(digest, run, n + 1), place, run[n].request.uid)
  {
    var guess := Request(place, "g", "K", 2, "1");
    run := [Apply(place, "a"), Send(guess), Deliver(guess), Apply(place, "b"), Send(guess), Deliver(guess)];
    n := 5;
    Unroll(digest, run);
  }

  /** A first observation delivered after its incarnation is gone reads, and from
      then on repeats, the incarnation that has taken its place. */
  lemma LateObserveReadsAnother(digest: KeyParts -> string, place: Place) returns (run: seq<Step>, n: nat)
    ensures IsRun(digest, run) && n < |run| && run[n].Look?
    ensures var seen := Seen(digest, After(digest, run, n), run[n].request);
            seen.Representation? && seen.resource.uid != run[n].request.uid
  {
    var late := Request(place, "g", "K", 1, "1");
    run := [Apply(place, "a"), Apply(place, "b"), Look(late), Look(late), Look(late), Look(late)];
    n := 5;
    Unroll(digest, run);
  }

  lemma Unroll(digest: KeyParts -> string, run: seq<Step>)
    requires |run| == 6
    ensures After(digest, run, 1) == Take(digest, START, run[0])
    ensures After(digest, run, 2) == Take(digest, After(digest, run, 1), run[1])
    ensures After(digest, run, 3) == Take(digest, After(digest, run, 2), run[2])
    ensures After(digest, run, 4) == Take(digest, After(digest, run, 3), run[3])
    ensures After(digest, run, 5) == Take(digest, After(digest, run, 4), run[4])
    ensures After(digest, run, 6) == Take(digest, After(digest, run, 5), run[5])
  {
    assert After(digest, run, 0) == START;
  }
}
