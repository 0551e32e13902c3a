/** The exact target Forms a desired schema names, wherever they stand in it. */
module TargetReferences {
  import opened Wrappers
  import opened JsonModel
  import opened Pointers
  import opened Ordering
  import opened Identities
  import opened ContractAnnotations

  const TARGETS := "x-takoform-target-formrefs"

  datatype TargetRef = TargetRef(pointer: string, ref: FormRef)

  type FormReader = Json -> Option<FormRef>

  ghost function TargetRefs(decode: FormReader, v: Json, pointer: string): seq<TargetRef>
    decreases v, 1, 0
  {
    match v
    case Obj(members) => MemberTargets(decode, v, Ordered(BytesLess, members.Keys), pointer)
    case Arr(items) => ItemTargets(decode, v, 0, pointer)
    case _ => []
  }

  ghost function MemberTargets(decode: FormReader, v: Json, keys: seq<string>, pointer: string): seq<TargetRef>
    requires v.Obj?
    decreases v, 0, |keys|
  {
    if keys == [] then []
    else
      (if keys[0] !in v.members then []
       else if keys[0] == TARGETS then EntryTargets(decode, v.members[TARGETS], 0, MemberPointer(pointer, TARGETS))
       else TargetRefs(decode, v.members[keys[0]], MemberPointer(pointer, keys[0])))
      + MemberTargets(decode, v, keys[1..], pointer)
  }

  ghost function ItemTargets(decode: FormReader, v: Json, from_: nat, pointer: string): seq<TargetRef>
    requires v.Arr? && from_ <= |v.items|
    decreases v, 0, |v.items| - from_
  {
    if from_ == |v.items| then []
    else TargetRefs(decode, v.items[from_], ItemPointer(pointer, from_)) + ItemTargets(decode, v, from_ + 1, pointer)
  }

  /** The entries of the annotation that decode strictly; any other is skipped. */
  function EntryTargets(decode: FormReader, entries: Json, from_: nat, pointer: string): seq<TargetRef>
    decreases if entries.Arr? then |entries.items| - from_ else 0
  {
    if !entries.Arr? || from_ >= |entries.items| then []
    else
      (match decode(entries.items[from_])
       case None => []
       case Some(ref) => [TargetRef(ItemPointer(pointer, from_), ref)])
      + EntryTargets(decode, entries, from_ + 1, pointer)
  }

  /** `tokens` lead from `v` to an annotation entry that reads as `ref`, through
      members that are not themselves the annotation. */
  ghost predicate TargetAt(decode: FormReader, v: Json, tokens: seq<string>, ref: FormRef)
    decreases |tokens|
  {
    tokens != [] &&
    match v
    case Obj(members) =>
      && tokens[0] in members
      && if tokens[0] == "x-takoform-target-formrefs" then EntryAt(decode, members["x-takoform-target-formrefs"], tokens[1..], ref)
         else TargetAt(decode, members[tokens[0]], tokens[1..], ref)
    case Arr(items) =>
      exists i :: 0 <= i < |items| && tokens[0] == Itoa(i) && TargetAt(decode, items[i], tokens[1..], ref)
    case _ => false
  }

  ghost predicate EntryAt(decode: FormReader, entries: Json, tokens: seq<string>, ref: FormRef)
  {
    && |tokens| == 1 && entries.Arr?
    && exists i :: 0 <= i < |entries.items| && tokens[0] == Itoa(i) && decode(entries.items[i]) == Some(ref)
  }

  method CollectTargets(decode: FormReader, value: Json, pointer: string) returns (output: seq<TargetRef>)
    ensures output == TargetRefs(decode, value, pointer)
    decreases value
  {
    hide TargetRefs, MemberTargets, ItemTargets, EntryTargets, Ordered, BytesLess, MemberPointer, ItemPointer;
    output := [];
    match value
    case Obj(members) =>
      var keys := SortedListing(BytesLess, members.Keys);
      assert keys == Ordered(BytesLess, members.Keys) by { BytesOrder(); assert Orders(BytesLess, members.Keys); }
      ListsMeaning(keys, members.Keys);
      var i := 0;
      assert keys[0..] == keys;
      while i < |keys|
        invariant 0 <= i <= |keys|
        invariant MemberTargets(decode, value, keys, pointer) == output + MemberTargets(decode, value, keys[i..], pointer)
      {
        var key := keys[i];
        MemberTargetsStep(decode, value, keys[i..], pointer);
        var childPointer := MemberPointer(pointer, key);
        var child;
        if key == TARGETS {
          child := CollectEntries(decode, members[key], childPointer);
        } else {
          child := CollectTargets(decode, members[key], childPointer);
        }
        assert keys[i..][1..] == keys[i + 1..];
        output := output + child;
        i := i + 1;
      }
      assert keys[i..] == [];
      NoMemberTargets(decode, value, pointer);
      ObjectTargets(decode, value, pointer);
    case Arr(items) =>
      ArrayTargets(decode, value, pointer);
      var index := 0;
      while index < |items|
        invariant 0 <= index <= |items|
        invariant ItemTargets(decode, value, 0, pointer) == output + ItemTargets(decode, value, index, pointer)
      {
        ItemTargetsStep(decode, value, index, pointer);
        var child := CollectTargets(decode, items[index], ItemPointer(pointer, index));
        output := output + child;
        index := index + 1;
      }
      ItemTargetsStep(decode, value, index, pointer);
    case _ =>
      NoTargets(decode, value, pointer);
  }

  ghost function OneMember(decode: FormReader, v: Json, key: string, pointer: string): seq<TargetRef>
    requires v.Obj? && key in v.members
  {
    if key == TARGETS then EntryTargets(decode, v.members[TARGETS], 0, MemberPointer(pointer, TARGETS))
    else TargetRefs(decode, v.members[key], MemberPointer(pointer, key))
  }

  lemma NoMemberTargets(decode: FormReader, v: Json, pointer: string)
    requires v.Obj?
    ensures MemberTargets(decode, v, [], pointer) == []
  {
  }

  lemma MemberTargetsStep(decode: FormReader, v: Json, keys: seq<string>, pointer: string)
    requires v.Obj? && keys != [] && keys[0] in v.members
    ensures MemberTargets(decode, v, keys, pointer) ==
            OneMember(decode, v, keys[0], pointer) + MemberTargets(decode, v, keys[1..], pointer)
  {
  }

  lemma ItemTargetsStep(decode: FormReader, v: Json, from_: nat, pointer: string)
    requires v.Arr? && from_ <= |v.items|
    ensures ItemTargets(decode, v, from_, pointer) ==
            if from_ == |v.items| then []
            else TargetRefs(decode, v.items[from_], ItemPointer(pointer, from_)) + ItemTargets(decode, v, from_ + 1, pointer)
  {
  }

  lemma ObjectTargets(decode: FormReader, v: Json, pointer: string)
    requires v.Obj?
    ensures TargetRefs(decode, v, pointer) == MemberTargets(decode, v, Ordered(BytesLess, v.members.Keys), pointer)
  {
  }

  lemma ArrayTargets(decode: FormReader, v: Json, pointer: string)
    requires v.Arr?
    ensures TargetRefs(decode, v, pointer) == ItemTargets(decode, v, 0, pointer)
  {
  }

  method CollectEntries(decode: FormReader, entries: Json, pointer: string) returns (output: seq<TargetRef>)
    ensures output == EntryTargets(decode, entries, 0, pointer)
  {
    hide ItemPointer;
    output := [];
    if !entries.Arr? {
      return;
    }
    var index := 0;
    while index < |entries.items|
      invariant 0 <= index <= |entries.items|
      invariant EntryTargets(decode, entries, 0, pointer) == output + EntryTargets(decode, entries, index, pointer)
    {
      var decoded := decode(entries.items[index]);
      if decoded.Some? {
        output := output + [TargetRef(ItemPointer(pointer, index), decoded.value)];
      }
      index := index + 1;
    }
  }

  // ---------- what is collected ----------

  lemma PointerSplits(pointer: string, tokens: seq<string>)
    requires tokens != []
    ensures pointer + JoinTokens(tokens) == MemberPointer(pointer, tokens[0]) + JoinTokens(tokens[1..])
  {
    EscapesAgree(tokens[0]);
  }

  lemma ItemIsMember(pointer: string, i: nat)
    ensures ItemPointer(pointer, i) == MemberPointer(pointer, Itoa(i))
  {
    ItoaDigits(i);
    EscapesAgree(Itoa(i));
    DigitsUnescaped(Itoa(i));
  }

  /** A target is collected exactly where its tokens lead. */
  ghost predicate Placed(decode: FormReader, v: Json, pointer: string, t: TargetRef)
  {
    exists tokens :: t.pointer == pointer + JoinTokens(tokens) && TargetAt(decode, v, tokens, t.ref)
  }

  lemma {:induction false} EntryCollected(decode: FormReader, entries: Json, from_: nat, pointer: string, t: TargetRef)
    ensures t in EntryTargets(decode, entries, from_, pointer) <==>
            entries.Arr? && exists i :: from_ <= i < |entries.items| && t.pointer == ItemPointer(pointer, i)
                                        && decode(entries.items[i]) == Some(t.ref)
    decreases if entries.Arr? then |entries.items| - from_ else 0
  {
    hide ItemPointer;
    if entries.Arr? && from_ < |entries.items| {
      EntryCollected(decode, entries, from_ + 1, pointer, t);
    }
  }

  lemma {:induction false} MemberCollectedTarget(decode: FormReader, v: Json, keys: seq<string>, pointer: string, t: TargetRef)
    requires v.Obj?
    ensures t in MemberTargets(decode, v, keys, pointer) <==>
            exists key :: key in keys && key in v.members && t in OneMember(decode, v, key, pointer)
    decreases |keys|
  {
    hide TargetRefs, EntryTargets, MemberPointer;
    if keys != [] {
      MemberCollectedTarget(decode, v, keys[1..], pointer, t);
      assert keys == [keys[0]] + keys[1..];
    }
  }

  lemma {:induction false} ItemCollectedTarget(decode: FormReader, v: Json, from_: nat, pointer: string, t: TargetRef)
    requires v.Arr? && from_ <= |v.items|
    ensures t in ItemTargets(decode, v, from_, pointer) <==>
            exists i :: from_ <= i < |v.items| && t in TargetRefs(decode, v.items[i], ItemPointer(pointer, i))
    decreases |v.items| - from_
  {
    hide TargetRefs, ItemPointer;
    if from_ < |v.items| {
      ItemCollectedTarget(decode, v, from_ + 1, pointer, t);
    }
  }

  /** The compiler sees every target Form a desired schema names, at its pointer,
      and no other. */
  lemma {:induction false} TargetsCollected(decode: FormReader, v: Json, pointer: string, t: TargetRef)
    ensures t in TargetRefs(decode, v, pointer) <==> Placed(decode, v, pointer, t)
    decreases v
  {
    hide TargetRefs, MemberTargets, ItemTargets, MemberPointer, ItemPointer, TargetAt, JoinTokens, Placed, Ordered;
    match v
    case Obj(members) =>
      ObjectTargets(decode, v, pointer);
      var keys := Ordered(BytesLess, members.Keys);
      ListsMeaning(keys, members.Keys);
      MemberCollectedTarget(decode, v, keys, pointer, t);
      forall key | key in members && key != TARGETS
        ensures t in OneMember(decode, v, key, pointer) <==> Placed(decode, members[key], MemberPointer(pointer, key), t)
      {
        TargetsCollected(decode, members[key], MemberPointer(pointer, key), t);
      }
      PlacedInObject(decode, v, pointer, t);
      if TARGETS in members {
        PlacedEntry(decode, v, pointer, t);
      }
    case Arr(items) =>
      ArrayTargets(decode, v, pointer);
      ItemCollectedTarget(decode, v, 0, pointer, t);
      forall i | 0 <= i < |items|
        ensures t in TargetRefs(decode, items[i], ItemPointer(pointer, i)) <==> Placed(decode, items[i], ItemPointer(pointer, i), t)
      {
        TargetsCollected(decode, items[i], ItemPointer(pointer, i), t);
      }
      PlacedInArray(decode, v, pointer, t);
    case _ =>
      NoTargets(decode, v, pointer);
  }

  lemma NoTargets(decode: FormReader, v: Json, pointer: string)
    requires !v.Obj? && !v.Arr?
    ensures TargetRefs(decode, v, pointer) == []
    ensures forall t :: !Placed(decode, v, pointer, t)
  {
  }

  ghost predicate PlacedUnder(decode: FormReader, v: Json, key: string, pointer: string, t: TargetRef)
    requires v.Obj? && key in v.members
  {
    exists tokens :: tokens != [] && tokens[0] == key && t.pointer == pointer + JoinTokens(tokens) && TargetAt(decode, v, tokens, t.ref)
  }

  lemma PlacedInObject(decode: FormReader, v: Json, pointer: string, t: TargetRef)
    requires v.Obj?
    ensures Placed(decode, v, pointer, t) <==> exists key :: key in v.members && PlacedUnder(decode, v, key, pointer, t)
    ensures forall key | key in v.members && key != TARGETS ::
              PlacedUnder(decode, v, key, pointer, t) <==> Placed(decode, v.members[key], MemberPointer(pointer, key), t)
  {
    hide JoinTokens, MemberPointer;
    forall key | key in v.members && key != TARGETS
      ensures PlacedUnder(decode, v, key, pointer, t) <==> Placed(decode, v.members[key], MemberPointer(pointer, key), t)
    {
      PlacedUnderMember(decode, v, key, pointer, t);
    }
    if Placed(decode, v, pointer, t) {
      var tokens :| t.pointer == pointer + JoinTokens(tokens) && TargetAt(decode, v, tokens, t.ref);
      assert PlacedUnder(decode, v, tokens[0], pointer, t);
    }
  }

  lemma PlacedUnderMember(decode: FormReader, v: Json, key: string, pointer: string, t: TargetRef)
    requires v.Obj? && key in v.members && key != TARGETS
    ensures PlacedUnder(decode, v, key, pointer, t) <==> Placed(decode, v.members[key], MemberPointer(pointer, key), t)
  {
    hide JoinTokens, MemberPointer;
    if PlacedUnder(decode, v, key, pointer, t) {
      var tokens :| tokens != [] && tokens[0] == key && t.pointer == pointer + JoinTokens(tokens) && TargetAt(decode, v, tokens, t.ref);
      PointerSplits(pointer, tokens);
      assert TargetAt(decode, v.members[key], tokens[1..], t.ref);
    }
    if Placed(decode, v.members[key], MemberPointer(pointer, key), t) {
      var rest :| t.pointer == MemberPointer(pointer, key) + JoinTokens(rest) && TargetAt(decode, v.members[key], rest, t.ref);
      var tokens := [key] + rest;
      assert tokens[1..] == rest;
      PointerSplits(pointer, tokens);
    }
  }

  lemma PlacedEntry(decode: FormReader, v: Json, pointer: string, t: TargetRef)
    requires v.Obj? && TARGETS in v.members
    ensures PlacedUnder(decode, v, TARGETS, pointer, t) <==> t in OneMember(decode, v, TARGETS, pointer)
  {
    hide JoinTokens, MemberPointer, ItemPointer, TargetRefs, EntryTargets;
    var entries := v.members[TARGETS];
    var under := MemberPointer(pointer, TARGETS);
    EntryCollected(decode, entries, 0, under, t);
    if PlacedUnder(decode, v, TARGETS, pointer, t) {
      var tokens :| tokens != [] && tokens[0] == TARGETS && t.pointer == pointer + JoinTokens(tokens) && TargetAt(decode, v, tokens, t.ref);
      PointerSplits(pointer, tokens);
      var i :| 0 <= i < |entries.items| && tokens[1..][0] == Itoa(i) && decode(entries.items[i]) == Some(t.ref);
      EntryPointer(under, tokens[1..], i);
    }
    if t in OneMember(decode, v, TARGETS, pointer) {
      var i :| 0 <= i < |entries.items| && t.pointer == ItemPointer(under, i) && decode(entries.items[i]) == Some(t.ref);
      var tokens := [TARGETS, Itoa(i)];
      assert tokens[1..] == [Itoa(i)];
      PointerSplits(pointer, tokens);
      EntryPointer(under, tokens[1..], i);
      assert EntryAt(decode, entries, tokens[1..], t.ref);
    }
  }

  lemma EntryPointer(pointer: string, tokens: seq<string>, i: nat)
    requires |tokens| == 1 && tokens[0] == Itoa(i)
    ensures pointer + JoinTokens(tokens) == ItemPointer(pointer, i)
  {
    PointerSplits(pointer, tokens);
    ItemIsMember(pointer, i);
    assert tokens[1..] == [];
  }

  lemma PlacedInArray(decode: FormReader, v: Json, pointer: string, t: TargetRef)
    requires v.Arr?
    ensures Placed(decode, v, pointer, t) <==>
            exists i :: 0 <= i < |v.items| && Placed(decode, v.items[i], ItemPointer(pointer, i), t)
  {
    hide JoinTokens, MemberPointer, ItemPointer;
    if Placed(decode, v, pointer, t) {
      var tokens :| t.pointer == pointer + JoinTokens(tokens) && TargetAt(decode, v, tokens, t.ref);
      var i :| 0 <= i < |v.items| && tokens[0] == Itoa(i) && TargetAt(decode, v.items[i], tokens[1..], t.ref);
      PointerSplits(pointer, tokens);
      ItemIsMember(pointer, i);
      assert Placed(decode, v.items[i], ItemPointer(pointer, i), t);
    }
    if i :| 0 <= i < |v.items| && Placed(decode, v.items[i], ItemPointer(pointer, i), t) {
      var rest :| t.pointer == ItemPointer(pointer, i) + JoinTokens(rest) && TargetAt(decode, v.items[i], rest, t.ref);
      var tokens := [Itoa(i)] + rest;
      assert tokens[1..] == rest;
      PointerSplits(pointer, tokens);
      ItemIsMember(pointer, i);
      assert TargetAt(decode, v, tokens, t.ref);
    }
  }
}
