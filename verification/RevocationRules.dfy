/** The rules of the revocation chain written out: which checkpoints are well formed,
    which pins advance to which, and what a query is answered, over the literal
    profiles and the entries themselves. */
module RevocationRules {
  import opened Wrappers
  import opened Digests
  import opened Revocation

  // ---------- checkpoints ----------

  /** A checkpoint of the first profile: it has entries, none names a statement
      profile, and all but the first checkpoint name a predecessor. */
  ghost predicate FollowsAlpha(c: Checkpoint)
  {
    && c.apiVersion == "trust.forms.takoform.com/v1alpha1"
    && c.sequence >= 1
    && (c.previousDigest.None? <==> c.sequence == 1)
    && forall e | e in c.entries :: e.statementApiVersion == ""
  }

  /** A checkpoint of the current profile: the empty genesis names version `0.0.0` and
      no predecessor, the others name another version and a predecessor. */
  ghost predicate FollowsCurrent(c: Checkpoint)
  {
    && c.apiVersion == "trust.forms.takoform.com/v1"
    && (c.previousDigest.None? <==> c.sequence == 0)
    && (c.checkpointVersion == "0.0.0" <==> c.sequence == 0)
    && forall e | e in c.entries :: e.statementApiVersion == "trust.forms.takoform.com/v1"
  }

  /** The entries are numbered from one without gaps, and their statements differ. */
  ghost predicate Cumulative(trust: Trust, c: Checkpoint)
  {
    && |c.entries| == c.sequence && c.sequence <= 100000
    && (forall i | 0 <= i < |c.entries| ::
          && c.entries[i].sequence == i + 1
          && ValidDigest(c.entries[i].statementDigest) && ValidDigest(c.entries[i].packageDigest)
          && trust.formRefOk(c.apiVersion, c.entries[i].formRef))
    && (forall i, j | 0 <= i < |c.entries| && 0 <= j < |c.entries| && c.entries[i].statementVersion == c.entries[j].statementVersion :: i == j)
    && (forall i, j | 0 <= i < |c.entries| && 0 <= j < |c.entries| && c.entries[i].statementDigest == c.entries[j].statementDigest :: i == j)
    && (c.entries != [] ==> c.entries[|c.entries| - 1].statementVersion == c.checkpointVersion)
  }

  ghost predicate WellFormedCheckpoint(trust: Trust, c: Checkpoint)
  {
    && c.kind == "FormPackageRevocationCheckpoint"
    && (FollowsAlpha(c) || FollowsCurrent(c))
    && (c.previousDigest.Some? ==> ValidDigest(c.previousDigest.value))
    && Cumulative(trust, c)
  }

  lemma ValidIff(trust: Trust, c: Checkpoint)
    ensures ValidCheckpoint(trust, c) <==> WellFormedCheckpoint(trust, c)
  {
    hide ValidDigest;
    ProfilesDiffer();
    DistinctIff(c.entries);
    EntriesIff(trust, c);
    if |c.entries| == c.sequence && forall i | 0 <= i < |c.entries| :: c.entries[i].sequence == i + 1 {
      ProfilesIff(c);
    }
  }

  lemma EntriesIff(trust: Trust, c: Checkpoint)
    ensures (forall i | 0 <= i < |c.entries| :: EntryOk(trust, c.apiVersion, c.entries[i], i)) <==>
            forall i | 0 <= i < |c.entries| ::
              && c.entries[i].sequence == i + 1
              && ValidDigest(c.entries[i].statementDigest) && ValidDigest(c.entries[i].packageDigest)
              && trust.formRefOk(c.apiVersion, c.entries[i].formRef)
  {
    hide ValidDigest;
    forall i: nat | i < |c.entries|
      ensures EntryOk(trust, c.apiVersion, c.entries[i], i) <==>
              && c.entries[i].sequence == i + 1
              && ValidDigest(c.entries[i].statementDigest) && ValidDigest(c.entries[i].packageDigest)
              && trust.formRefOk(c.apiVersion, c.entries[i].formRef)
    {
    }
  }

  lemma ProfilesIff(c: Checkpoint)
    requires |c.entries| == c.sequence && forall i | 0 <= i < |c.entries| :: c.entries[i].sequence == i + 1
    ensures (c.apiVersion == LEGACY || c.apiVersion == CURRENT) && SchemaOk(c) && LinkOk(c) <==>
            && c.kind == "FormPackageRevocationCheckpoint" && c.sequence <= 100000
            && (FollowsAlpha(c) || FollowsCurrent(c))
            && (c.previousDigest.Some? ==> ValidDigest(c.previousDigest.value))
  {
    hide ValidDigest;
    ProfilesDiffer();
    assert forall i | 0 <= i < |c.entries| :: c.entries[i] in c.entries;
  }

  lemma DistinctIff(entries: seq<Entry>)
    ensures Distinct(entries) <==>
            && (forall i, j | 0 <= i < |entries| && 0 <= j < |entries| && entries[i].statementVersion == entries[j].statementVersion :: i == j)
            && (forall i, j | 0 <= i < |entries| && 0 <= j < |entries| && entries[i].statementDigest == entries[j].statementDigest :: i == j)
  {
    if Distinct(entries) {
      forall i, j | 0 <= i < |entries| && 0 <= j < |entries| && i != j
        ensures entries[i].statementVersion != entries[j].statementVersion && entries[i].statementDigest != entries[j].statementDigest
      {
        if i > j {
          assert entries[j].statementVersion != entries[i].statementVersion && entries[j].statementDigest != entries[i].statementDigest;
        }
      }
    }
  }

  // ---------- the pin ----------

  /** The one checkpoint a current run starts from. */
  function Genesis(): Checkpoint
  {
    Checkpoint("trust.forms.takoform.com/v1", "FormPackageRevocationCheckpoint", "0.0.0", 0, None, [])
  }

  /** Without a pin, only a start is accepted: sequence one of the first profile, or
      the genesis of the current one. */
  lemma FirstPinIff(trust: Trust, c: Checkpoint, pin: Pin)
    ensures Advance(trust, None, c) == Some(pin) <==>
            && ValidCheckpoint(trust, c)
            && (|| (c.apiVersion == "trust.forms.takoform.com/v1alpha1" && c.sequence == 1 && pin.profile == "")
                || (c == Genesis() && pin.profile == "trust.forms.takoform.com/v1"))
            && pin.sequence == c.sequence && pin.digest == trust.digest(c) && pin.entriesDigest == trust.entriesDigest(c.entries)
  {
    hide ValidDigest, EntryOk, Distinct;
    ProfilesDiffer();
  }

  /** A pin is of the profile of the checkpoint; a pin at the genesis is of the
      genesis. */
  ghost predicate PinFits(trust: Trust, pin: Pin, c: Checkpoint)
  {
    || (pin.profile == "" && c.apiVersion == "trust.forms.takoform.com/v1alpha1" && pin.sequence >= 1)
    || (&& pin.profile == "trust.forms.takoform.com/v1" && c.apiVersion == "trust.forms.takoform.com/v1"
        && (pin.sequence == 0 ==> pin.digest == trust.digest(Genesis()) && pin.entriesDigest == trust.entriesDigest([])))
  }

  /** From a pin, exactly the valid checkpoints are accepted that are the next of its
      profile, name its digest and repeat the entries it digested. */
  lemma NextPinIff(trust: Trust, pin: Pin, c: Checkpoint, next: Pin)
    ensures Advance(trust, Some(pin), c) == Some(next) <==>
            && ValidCheckpoint(trust, c) && ValidDigest(pin.digest) && ValidDigest(pin.entriesDigest)
            && PinFits(trust, pin, c)
            && c.sequence == pin.sequence + 1
            && c.previousDigest == Some(pin.digest)
            && trust.entriesDigest(c.entries[..pin.sequence]) == pin.entriesDigest
            && next == Pin(pin.profile, c.sequence, trust.digest(c), trust.entriesDigest(c.entries))
  {
    hide ValidDigest, EntryOk, Distinct;
    ProfilesDiffer();
  }

  // ---------- answers ----------

  /** The first entry of the package stands at `i`. */
  ghost predicate FirstFor(entries: seq<Entry>, packageDigest: string, i: int)
  {
    && 0 <= i < |entries| && entries[i].packageDigest == packageDigest
    && forall j | 0 <= j < i :: entries[j].packageDigest != packageDigest
  }

  lemma {:induction false} FirstEntryIff(entries: seq<Entry>, packageDigest: string, i: int)
    ensures FirstFor(entries, packageDigest, i) ==> FirstEntryFor(entries, packageDigest) == Some(entries[i])
    ensures FirstEntryFor(entries, packageDigest).None? <==> forall e | e in entries :: e.packageDigest != packageDigest
  {
    if entries != [] && entries[0].packageDigest != packageDigest {
      FirstEntryIff(entries[1..], packageDigest, i - 1);
      assert forall j | 1 <= j < |entries| :: entries[j] == entries[1..][j - 1];
      assert entries == [entries[0]] + entries[1..];
    }
  }

  lemma {:induction false} SomeIsFirst(entries: seq<Entry>, packageDigest: string) returns (i: nat)
    requires exists e :: e in entries && e.packageDigest == packageDigest
    ensures FirstFor(entries, packageDigest, i)
  {
    if entries[0].packageDigest == packageDigest {
      i := 0;
    } else {
      assert entries == [entries[0]] + entries[1..];
      var k := SomeIsFirst(entries[1..], packageDigest);
      assert forall j | 1 <= j < |entries| :: entries[j] == entries[1..][j - 1];
      i := k + 1;
    }
  }

  ghost predicate Acceptable(trust: Trust, c: Checkpoint, packageDigest: string, ref: FormRef)
  {
    ValidDigest(packageDigest) && trust.formRefOk(c.apiVersion, ref)
  }

  /** The answer is that of the first entry of the package: revoked when it names the
      Form asked for, a conflict when it names another, and not revoked when there is
      no entry. */
  lemma AnsweredIff(trust: Trust, c: Checkpoint, packageDigest: string, ref: FormRef, version: string, sequence: uint64)
    ensures var a := Answered(trust, c, packageDigest, ref);
            && (a == Unacceptable <==> !Acceptable(trust, c, packageDigest, ref))
            && (a == NotRevoked <==> Acceptable(trust, c, packageDigest, ref) && forall e | e in c.entries :: e.packageDigest != packageDigest)
            && (a == Conflict <==> Acceptable(trust, c, packageDigest, ref)
                                   && exists i :: FirstFor(c.entries, packageDigest, i) && c.entries[i].formRef != ref)
            && (a == Revoked(version, sequence) <==>
                  Acceptable(trust, c, packageDigest, ref)
                  && exists i :: FirstFor(c.entries, packageDigest, i) && c.entries[i].formRef == ref
                                 && c.entries[i].statementVersion == version && c.entries[i].sequence == sequence)
  {
    hide ValidDigest, FirstEntryFor;
    FirstEntryIff(c.entries, packageDigest, 0);
    forall i | FirstFor(c.entries, packageDigest, i) ensures FirstEntryFor(c.entries, packageDigest) == Some(c.entries[i]) {
      FirstEntryIff(c.entries, packageDigest, i);
    }
    if exists e :: e in c.entries && e.packageDigest == packageDigest {
      var i := SomeIsFirst(c.entries, packageDigest);
    }
  }
}
