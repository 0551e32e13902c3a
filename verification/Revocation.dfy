/** The cumulative revocation checkpoint chain: validation of one checkpoint, the
    advance of a host's pin, and what every run of advances keeps. Documents are
    modelled by their decoded value, which the closed schema and the canonical
    encoding determine; the digests of a document and of an entry list are
    functions of it. */
module Revocation {
  import opened Wrappers
  import opened Digests
  import Identities

  const LEGACY := "trust.forms.takoform.com/v1alpha1"
  const CURRENT := "trust.forms.takoform.com/v1"
  const CHECKPOINT_KIND := "FormPackageRevocationCheckpoint"
  const MAX_ENTRIES: nat := 100000
  const WORD: nat := 0x1_0000_0000_0000_0000

  type uint64 = n: int | 0 <= n < WORD

  type FormRef = Identities.FormRef

  datatype Entry = Entry(
    statementApiVersion: string,
    sequence: uint64,
    statementVersion: string,
    statementDigest: string,
    packageDigest: string,
    formRef: FormRef)

  datatype Checkpoint = Checkpoint(
    apiVersion: string,
    kind: string,
    checkpointVersion: string,
    sequence: uint64,
    previousDigest: Option<string>,
    entries: seq<Entry>)

  /** A host's durable state; the profile is empty on legacy pins. */
  datatype Pin = Pin(profile: string, sequence: uint64, digest: string, entriesDigest: string)

  /** Digests and the FormRef profile schemas. */
  datatype Trust = Trust(
    digest: Checkpoint -> string,
    entriesDigest: seq<Entry> -> string,
    formRefOk: (string, FormRef) -> bool)

  /** Digests have the canonical form. */
  ghost predicate WellFormed(trust: Trust)
  {
    (forall c :: ValidDigest(trust.digest(c))) && (forall es :: ValidDigest(trust.entriesDigest(es)))
  }

  /** No two of the given documents, and no entry list of one and prefix of
      another's, collide. A fixed-length digest cannot promise this of all
      documents, so it is asked only of those a run is shown. */
  ghost predicate CollisionFree(trust: Trust, documents: set<Checkpoint>)
  {
    && (forall a, b | a in documents && b in documents :: trust.digest(a) == trust.digest(b) ==> a == b)
    && (forall a, b, n: nat | a in documents && b in documents && n <= |b.entries| ::
          trust.entriesDigest(b.entries[..n]) == trust.entriesDigest(a.entries) ==> b.entries[..n] == a.entries)
  }

  ghost function Documents(history: seq<Checkpoint>): set<Checkpoint>
  {
    set i | 0 <= i < |history| :: history[i]
  }

  // ---------- one checkpoint ----------

  /** What the published JSON schema of each profile closes. */
  predicate SchemaOk(c: Checkpoint)
  {
    && c.kind == CHECKPOINT_KIND && |c.entries| <= MAX_ENTRIES
    && (c.previousDigest.Some? ==> ValidDigest(c.previousDigest.value))
    && (forall i | 0 <= i < |c.entries| :: c.entries[i].sequence >= 1)
    && (c.apiVersion == LEGACY ==>
          && c.sequence >= 1 && |c.entries| >= 1
          && forall i | 0 <= i < |c.entries| :: c.entries[i].statementApiVersion == "")
    && (c.apiVersion == CURRENT ==>
          && (forall i | 0 <= i < |c.entries| :: c.entries[i].statementApiVersion == CURRENT)
          && if c.sequence == 0
             then c.checkpointVersion == "0.0.0" && c.previousDigest.None? && |c.entries| == 0
             else c.checkpointVersion != "0.0.0" && c.previousDigest.Some? && |c.entries| >= 1)
  }

  predicate LinkOk(c: Checkpoint)
  {
    && (c.apiVersion == LEGACY && c.sequence == 1 ==> c.previousDigest.None?)
    && (c.apiVersion == LEGACY && c.sequence > 1 ==> c.previousDigest.Some? && ValidDigest(c.previousDigest.value))
    && (c.apiVersion == CURRENT && c.sequence > 0 ==> c.previousDigest.Some? && ValidDigest(c.previousDigest.value))
  }

  predicate EntryOk(trust: Trust, apiVersion: string, entry: Entry, index: nat)
  {
    && entry.sequence == index + 1
    && ValidDigest(entry.statementDigest) && ValidDigest(entry.packageDigest)
    && trust.formRefOk(apiVersion, entry.formRef)
  }

  predicate Distinct(entries: seq<Entry>)
  {
    forall i, j | 0 <= i < j < |entries| ::
      entries[i].statementVersion != entries[j].statementVersion && entries[i].statementDigest != entries[j].statementDigest
  }

  predicate ValidCheckpoint(trust: Trust, c: Checkpoint)
  {
    && (c.apiVersion == LEGACY || c.apiVersion == CURRENT)
    && SchemaOk(c) && |c.entries| == c.sequence && LinkOk(c)
    && (forall i | 0 <= i < |c.entries| :: EntryOk(trust, c.apiVersion, c.entries[i], i))
    && Distinct(c.entries)
    && (c.sequence > 0 ==> c.entries[|c.entries| - 1].statementVersion == c.checkpointVersion)
  }

  /** One pass over the entries with two seen-sets. */
  method ValidateRevocationCheckpoint(trust: Trust, c: Checkpoint) returns (ok: bool)
    ensures ok <==> ValidCheckpoint(trust, c)
  {
    if c.apiVersion != LEGACY && c.apiVersion != CURRENT {
      return false;
    }
    if !SchemaOk(c) || |c.entries| != c.sequence || !LinkOk(c) {
      return false;
    }
    var seenVersions: set<string> := {};
    var seenStatements: set<string> := {};
    var index := 0;
    while index < |c.entries|
      invariant 0 <= index <= |c.entries|
      invariant forall i | 0 <= i < index :: EntryOk(trust, c.apiVersion, c.entries[i], i)
      invariant seenVersions == set i | 0 <= i < index :: c.entries[i].statementVersion
      invariant seenStatements == set i | 0 <= i < index :: c.entries[i].statementDigest
      invariant Distinct(c.entries[..index])
    {
      var entry := c.entries[index];
      if !EntryOk(trust, c.apiVersion, entry, index) {
        return false;
      }
      if entry.statementVersion in seenVersions || entry.statementDigest in seenStatements {
        assert !Distinct(c.entries);
        return false;
      }
      seenVersions := seenVersions + {entry.statementVersion};
      seenStatements := seenStatements + {entry.statementDigest};
      index := index + 1;
    }
    assert c.entries[..index] == c.entries;
    if c.sequence == 0 {
      return true;
    }
    return c.entries[|c.entries| - 1].statementVersion == c.checkpointVersion;
  }

  // ---------- the pin ----------

  const GENESIS := Checkpoint(CURRENT, CHECKPOINT_KIND, "0.0.0", 0, None, [])

  function FirstPin(trust: Trust, c: Checkpoint): Option<Pin>
  {
    if c.apiVersion == LEGACY then
      if c.sequence != 1 || c.previousDigest.Some? then None
      else Some(Pin("", 1, trust.digest(c), trust.entriesDigest(c.entries)))
    else
      if c.sequence != 0 || c.previousDigest.Some? then None
      else Some(Pin(CURRENT, 0, trust.digest(c), trust.entriesDigest(c.entries)))
  }

  predicate ProfileMatches(trust: Trust, previous: Pin, c: Checkpoint)
  {
    if previous.profile == "" then previous.sequence != 0 && c.apiVersion == LEGACY
    else
      && previous.profile == CURRENT && c.apiVersion == CURRENT
      && (previous.sequence == 0 ==>
            previous.digest == trust.digest(GENESIS) && previous.entriesDigest == trust.entriesDigest(GENESIS.entries))
  }

  /** Verifies that `c` extends the pinned checkpoint by exactly one and returns
      the new pin. The sequence is compared in 64-bit arithmetic; taking the
      pinned prefix of the entries is in range because the schema leaves no
      document at the wrapped-around sequence with a predecessor. */
  function Advance(trust: Trust, previous: Option<Pin>, c: Checkpoint): Option<Pin>
  {
    if !ValidCheckpoint(trust, c) then None
    else match previous
      case None => FirstPin(trust, c)
      case Some(pin) =>
        if !ValidDigest(pin.digest) || !ValidDigest(pin.entriesDigest) then None
        else if !ProfileMatches(trust, pin, c) then None
        else if c.sequence != (pin.sequence + 1) % WORD then None
        else if c.previousDigest != Some(pin.digest) then None
        else if trust.entriesDigest(c.entries[..pin.sequence]) != pin.entriesDigest then None
        else Some(Pin(pin.profile, c.sequence, trust.digest(c), trust.entriesDigest(c.entries)))
  }

  // ---------- runs ----------

  datatype State = Rejected | At(pin: Option<Pin>)

  /** A host that starts without a pin and is shown `history` in order. */
  function Replay(trust: Trust, history: seq<Checkpoint>): State
  {
    if history == [] then At(None)
    else match Replay(trust, history[..|history| - 1])
      case Rejected => Rejected
      case At(pin) =>
        match Advance(trust, pin, history[|history| - 1])
        case None => Rejected
        case Some(next) => At(Some(next))
  }

  ghost predicate Accepted(trust: Trust, history: seq<Checkpoint>)
  {
    history != [] && Replay(trust, history).At?
  }

  function FirstSequence(apiVersion: string): nat
  {
    if apiVersion == LEGACY then 1 else 0
  }

  function PinOf(trust: Trust, c: Checkpoint): Pin
  {
    Pin(if c.apiVersion == LEGACY then "" else CURRENT, c.sequence, trust.digest(c), trust.entriesDigest(c.entries))
  }

  lemma ProfilesDiffer()
    ensures LEGACY != CURRENT && LEGACY != "" && CURRENT != ""
  {
    assert |LEGACY| != |CURRENT|;
  }

  lemma FirstShape(trust: Trust, c: Checkpoint)
    requires Advance(trust, None, c).Some?
    ensures Advance(trust, None, c) == Some(PinOf(trust, c)) && ValidCheckpoint(trust, c)
    ensures c.sequence == FirstSequence(c.apiVersion)
  {
    hide SchemaOk, LinkOk, EntryOk, Distinct;
  }

  lemma NextShape(trust: Trust, last: Checkpoint, c: Checkpoint)
    requires ValidCheckpoint(trust, last) && Advance(trust, Some(PinOf(trust, last)), c).Some?
    ensures Advance(trust, Some(PinOf(trust, last)), c) == Some(PinOf(trust, c)) && ValidCheckpoint(trust, c)
    ensures c.apiVersion == last.apiVersion && c.sequence == last.sequence + 1
    ensures c.previousDigest == Some(trust.digest(last))
    ensures last.sequence <= |c.entries| && trust.entriesDigest(c.entries[..last.sequence]) == trust.entriesDigest(last.entries)
  {
    hide LinkOk, EntryOk, Distinct;
    SequenceFits(trust, last);
    ProfilesDiffer();
  }

  ghost predicate Chained(trust: Trust, history: seq<Checkpoint>)
  {
    forall i | 0 <= i < |history| ::
      && ValidCheckpoint(trust, history[i])
      && history[i].apiVersion == history[0].apiVersion
      && history[i].sequence == FirstSequence(history[0].apiVersion) + i
  }

  /** Checkpoint `i` of an accepted run: one profile throughout, the sequence grows
      by one, and the pin is the pin of the last checkpoint. */
  lemma {:induction false} RunShape(trust: Trust, history: seq<Checkpoint>)
    requires Accepted(trust, history)
    ensures Replay(trust, history) == At(Some(PinOf(trust, history[|history| - 1])))
    ensures Chained(trust, history)
    decreases |history|
  {
    hide Advance, PinOf, ValidCheckpoint;
    var last := history[|history| - 1];
    var earlier := history[..|history| - 1];
    if earlier == [] {
      assert Replay(trust, earlier) == At(None);
      FirstShape(trust, last);
    } else {
      RunShape(trust, earlier);
      NextShape(trust, earlier[|earlier| - 1], last);
      forall i | 0 <= i < |history| - 1 ensures history[i] == earlier[i] {}
    }
  }

  lemma SequenceFits(trust: Trust, c: Checkpoint)
    requires ValidCheckpoint(trust, c)
    ensures c.sequence + 1 < WORD
  {
  }

  /** No accepted checkpoint rewrites what an earlier one listed. */
  lemma {:induction false} RunIsAppendOnly(trust: Trust, history: seq<Checkpoint>, i: nat, j: nat)
    requires Accepted(trust, history) && CollisionFree(trust, Documents(history))
    requires i <= j < |history|
    ensures history[i].entries <= history[j].entries
    decreases |history|
  {
    hide Advance, PinOf, ValidCheckpoint, CollisionFree;
    var last := history[|history| - 1];
    var earlier := history[..|history| - 1];
    FewerDocuments(trust, Documents(earlier), Documents(history));
    if j < |history| - 1 {
      RunIsAppendOnly(trust, earlier, i, j);
    } else if i < j {
      RunShape(trust, earlier);
      var pinned := earlier[|earlier| - 1];
      NextShape(trust, pinned, last);
      RunIsAppendOnly(trust, earlier, i, |earlier| - 1);
      SamePrefix(trust, Documents(history), pinned, last);
    }
  }

  lemma FewerDocuments(trust: Trust, some: set<Checkpoint>, all: set<Checkpoint>)
    requires some <= all && CollisionFree(trust, all)
    ensures CollisionFree(trust, some)
  {
  }

  lemma SamePrefix(trust: Trust, documents: set<Checkpoint>, pinned: Checkpoint, c: Checkpoint)
    requires CollisionFree(trust, documents) && pinned in documents && c in documents && ValidCheckpoint(trust, pinned) && pinned.sequence <= |c.entries|
    requires trust.entriesDigest(c.entries[..pinned.sequence]) == trust.entriesDigest(pinned.entries)
    ensures pinned.entries <= c.entries
  {
    hide SchemaOk, LinkOk, EntryOk, Distinct;
    assert c.entries[..pinned.sequence] == pinned.entries;
  }

  /** Every prefix of an accepted run is accepted, and the successor names the
      digest of the checkpoint before it. */
  lemma RunLinks(trust: Trust, history: seq<Checkpoint>)
    requires Accepted(trust, history) && |history| > 1
    ensures Accepted(trust, history[..|history| - 1])
    ensures history[|history| - 1].previousDigest == Some(trust.digest(history[|history| - 2]))
  {
    hide Advance, PinOf, ValidCheckpoint;
    var earlier := history[..|history| - 1];
    RunShape(trust, earlier);
    NextShape(trust, earlier[|earlier| - 1], history[|history| - 1]);
  }

  lemma PinDigest(trust: Trust, c: Checkpoint)
    ensures PinOf(trust, c).digest == trust.digest(c)
  {
  }

  lemma DigestInjective(trust: Trust, documents: set<Checkpoint>, a: Checkpoint, b: Checkpoint)
    requires CollisionFree(trust, documents) && a in documents && b in documents && trust.digest(a) == trust.digest(b)
    ensures a == b
  {
  }

  /** Two runs that end in the same pinned digest accepted the same history. */
  lemma {:induction false} SamePinSameHistory(trust: Trust, a: seq<Checkpoint>, b: seq<Checkpoint>)
    requires Accepted(trust, a) && Accepted(trust, b) && CollisionFree(trust, Documents(a) + Documents(b))
    requires Replay(trust, a).pin.value.digest == Replay(trust, b).pin.value.digest
    ensures a == b
    decreases |a|
  {
    hide Advance, PinOf, ValidCheckpoint, CollisionFree, Replay;
    RunShape(trust, a);
    RunShape(trust, b);
    var x, y := a[|a| - 1], b[|b| - 1];
    PinDigest(trust, x);
    PinDigest(trust, y);
    DigestInjective(trust, Documents(a) + Documents(b), x, y);
    assert |a| == |b|;
    if |a| > 1 {
      RunLinks(trust, a);
      RunLinks(trust, b);
      RunShape(trust, a[..|a| - 1]);
      RunShape(trust, b[..|b| - 1]);
      PinDigest(trust, a[|a| - 2]);
      PinDigest(trust, b[|b| - 2]);
      FewerDocuments(trust, Documents(a[..|a| - 1]) + Documents(b[..|b| - 1]), Documents(a) + Documents(b));
      SamePinSameHistory(trust, a[..|a| - 1], b[..|b| - 1]);
    }
    assert a == a[..|a| - 1] + [x] && b == b[..|b| - 1] + [y];
  }

  /** A current run starts at the one signed genesis, so its first pin is always
      recognised when the second checkpoint arrives. */
  lemma CurrentRunStartsAtGenesis(trust: Trust, history: seq<Checkpoint>)
    requires Accepted(trust, history) && history[0].apiVersion == CURRENT
    ensures history[0] == GENESIS
  {
    RunShape(trust, history);
    ProfilesDiffer();
  }

  /** `next` links to `last` and keeps its entries. */
  predicate Succeeds(trust: Trust, last: Checkpoint, next: Checkpoint)
  {
    && next.apiVersion == last.apiVersion && next.sequence == last.sequence + 1
    && next.previousDigest == Some(trust.digest(last)) && last.entries <= next.entries
  }

  /** A host is never stuck on one of its own pins: a valid successor that links
      to the last checkpoint and keeps its entries is accepted. */
  lemma SuccessorAccepted(trust: Trust, history: seq<Checkpoint>, next: Checkpoint)
    requires WellFormed(trust) && Accepted(trust, history) && ValidCheckpoint(trust, next)
    requires Succeeds(trust, history[|history| - 1], next)
    ensures Accepted(trust, history + [next])
  {
    hide Advance, ValidCheckpoint, WellFormed, PinOf;
    RunShape(trust, history);
    assert (history + [next])[..|history|] == history;
    SuccessorAdvances(trust, history[|history| - 1], next);
  }

  lemma SuccessorAdvances(trust: Trust, last: Checkpoint, next: Checkpoint)
    requires WellFormed(trust) && ValidCheckpoint(trust, last) && ValidCheckpoint(trust, next) && Succeeds(trust, last, next)
    ensures Advance(trust, Some(PinOf(trust, last)), next).Some?
  {
    hide EntryOk, Distinct, ValidDigest;
    ProfilesDiffer();
    assert next.entries[..last.sequence] == last.entries;
  }

  // ---------- revocation answers ----------

  datatype Answer = Unacceptable | Conflict | Revoked(statementVersion: string, sequence: uint64) | NotRevoked

  function FirstEntryFor(entries: seq<Entry>, packageDigest: string): Option<Entry>
  {
    if entries == [] then None
    else if entries[0].packageDigest == packageDigest then Some(entries[0])
    else FirstEntryFor(entries[1..], packageDigest)
  }

  function Answered(trust: Trust, c: Checkpoint, packageDigest: string, ref: FormRef): Answer
  {
    if !ValidDigest(packageDigest) || !trust.formRefOk(c.apiVersion, ref) then Unacceptable
    else match FirstEntryFor(c.entries, packageDigest)
      case None => NotRevoked
      case Some(entry) =>
        if entry.formRef != ref then Conflict else Revoked(entry.statementVersion, entry.sequence)
  }

  method CheckNotRevoked(trust: Trust, c: Checkpoint, packageDigest: string, ref: FormRef) returns (r: Answer)
    ensures r == Answered(trust, c, packageDigest, ref)
  {
    if !ValidDigest(packageDigest) || !trust.formRefOk(c.apiVersion, ref) {
      return Unacceptable;
    }
    var index := 0;
    assert c.entries[0..] == c.entries;
    while index < |c.entries|
      invariant 0 <= index <= |c.entries|
      invariant FirstEntryFor(c.entries, packageDigest) == FirstEntryFor(c.entries[index..], packageDigest)
    {
      var entry := c.entries[index];
      if entry.packageDigest == packageDigest {
        if entry.formRef != ref {
          return Conflict;
        }
        return Revoked(entry.statementVersion, entry.sequence);
      }
      assert c.entries[index..][1..] == c.entries[index + 1..];
      index := index + 1;
    }
    return NotRevoked;
  }

  lemma {:induction false} FirstEntryStays(entries: seq<Entry>, more: seq<Entry>, packageDigest: string)
    requires entries <= more && FirstEntryFor(entries, packageDigest).Some?
    ensures FirstEntryFor(more, packageDigest) == FirstEntryFor(entries, packageDigest)
    decreases |entries|
  {
    if entries[0].packageDigest != packageDigest {
      FirstEntryStays(entries[1..], more[1..], packageDigest);
    }
  }

  /** Revocation is permanent: once an accepted checkpoint reports a package
      revoked, every later one does, naming the same statement and sequence. */
  lemma RevocationIsPermanent(trust: Trust, history: seq<Checkpoint>, i: nat, j: nat, packageDigest: string, ref: FormRef)
    requires Accepted(trust, history) && CollisionFree(trust, Documents(history)) && i <= j < |history|
    requires Answered(trust, history[i], packageDigest, ref).Revoked?
    ensures Answered(trust, history[j], packageDigest, ref) == Answered(trust, history[i], packageDigest, ref)
  {
    RunShape(trust, history);
    RunIsAppendOnly(trust, history, i, j);
    FirstEntryStays(history[i].entries, history[j].entries, packageDigest);
  }

  /** And the statement it names was in force: it is the entry at that sequence. */
  lemma {:induction false} RevokedByItsEntry(trust: Trust, c: Checkpoint, packageDigest: string, ref: FormRef)
    requires ValidCheckpoint(trust, c) && Answered(trust, c, packageDigest, ref).Revoked?
    ensures var a := Answered(trust, c, packageDigest, ref);
            && 1 <= a.sequence <= c.sequence
            && var entry := c.entries[a.sequence - 1];
               entry.packageDigest == packageDigest && entry.formRef == ref && entry.statementVersion == a.statementVersion
  {
    FirstEntryPosition(c.entries, packageDigest);
  }

  lemma {:induction false} FirstEntryPosition(entries: seq<Entry>, packageDigest: string)
    requires FirstEntryFor(entries, packageDigest).Some?
    ensures exists i | 0 <= i < |entries| ::
              entries[i] == FirstEntryFor(entries, packageDigest).value && entries[i].packageDigest == packageDigest
    decreases |entries|
  {
    if entries[0].packageDigest != packageDigest {
      FirstEntryPosition(entries[1..], packageDigest);
      var i :| 0 <= i < |entries[1..]| && entries[1..][i] == FirstEntryFor(entries[1..], packageDigest).value;
      assert entries[i + 1] == entries[1..][i];
    }
  }
}
