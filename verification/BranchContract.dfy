/** What the branch validator's verdict means (`packages/contracts/src/branch-validation.ts`). */
module BranchContract {
  import opened BranchRules
  import opened BranchValidator
  import opened Wrappers

  // ---------------------------------------------------------------- the contract, declaratively

  predicate Within(value: int, least: Option<int>, most: Option<int>) {
    (least.Some? ==> least.value <= value) && (most.Some? ==> value <= most.value)
  }

  predicate FileMeets(slot: Slot, file: File, lower: Lower) {
    && ValidName(NameKey(file, lower)) && Within(file.bytes, slot.minBytes, slot.maxBytes)
    && (slot.mediaTypes != [] ==> lower(file.mediaType) in slot.mediaTypes)
    && (slot.extensions != [] ==> Lowered(slot.extensions, lower(FromLastDot(BaseName(file.name))), lower))
  }

  predicate NamesDiffer(files: seq<File>, lower: Lower) {
    forall j, k :: 0 <= j < k < |files| ==> NameKey(files[j], lower) != NameKey(files[k], lower)
  }

  predicate SlotMeets(slot: Slot, required: bool, files: seq<File>, lower: Lower) {
    && Within(|files|, slot.minFiles, if slot.maxFiles.Some? then slot.maxFiles else Some(1)) && (required ==> files != [])
    && (forall k :: 0 <= k < |files| ==> FileMeets(slot, files[k], lower))
    && NamesDiffer(files, lower)
    && Within(Total(files), None, slot.maxTotalBytes)
  }

  predicate SlotMet(contract: Contract, input: Input, slot: string, lower: Lower)
    requires slot in contract.slots
  {
    SlotMeets(contract.slots[slot], slot in ArtifactRequired(contract), FilesOf(input, slot), lower)
  }

  predicate PayloadMeets(contract: Contract, input: Input, verdict: Verdict) {
    match contract.schema
    case Some(schema) => verdict(PayloadSchema(schema, ArtifactRequired(contract)), input.payload)
    case None => forall k :: 0 <= k < |PayloadRequired(contract)| ==> PayloadRequired(contract)[k] in input.payload
  }

  predicate Meets(contract: Contract, input: Input, lower: Lower, verdict: Verdict) {
    && PayloadMeets(contract, input, verdict)
    && input.files.Keys <= contract.slots.Keys
    && forall slot :: slot in contract.slots ==> SlotMet(contract, input, slot, lower)
  }

  // ---------------------------------------------------------------- no violation means met

  lemma FilesMeetIff(slot: Slot, files: seq<File>, lower: Lower)
    ensures (forall rule :: !FileViolates(slot, files, rule, lower))
      <==> (forall k :: 0 <= k < |files| ==> FileMeets(slot, files[k], lower)) && NamesDiffer(files, lower)
  {
    if forall rule :: !FileViolates(slot, files, rule, lower) {
      forall k: nat | k < |files|
        ensures FileMeets(slot, files[k], lower)
      {
        assert !FileViolates(slot, files, BadFilename(k), lower) && !FileViolates(slot, files, TooSmall(k), lower);
        assert !FileViolates(slot, files, TooBig(k), lower) && !FileViolates(slot, files, BadMediaType(k), lower);
        assert !FileViolates(slot, files, BadExtension(k), lower);
      }
      forall j, k: nat | 0 <= j < k < |files|
        ensures NameKey(files[j], lower) != NameKey(files[k], lower)
      {
        assert !FileViolates(slot, files, DuplicateFilename(k), lower);
        assert FileMeets(slot, files[k], lower);
      }
    }
  }

  lemma SlotMeetsIff(slot: Slot, required: bool, files: seq<File>, lower: Lower)
    ensures (forall rule :: !SlotViolates(slot, required, files, rule, lower)) <==> SlotMeets(slot, required, files, lower)
  {
    FilesMeetIff(slot, files, lower);
    if forall rule :: !SlotViolates(slot, required, files, rule, lower) {
      assert !SlotViolates(slot, required, files, TooFewFiles, lower);
      assert !SlotViolates(slot, required, files, TooManyFiles, lower);
      assert !SlotViolates(slot, required, files, TooManyBytesInAll, lower);
      forall rule
        ensures !FileViolates(slot, files, rule, lower)
      {
        assert !SlotViolates(slot, required, files, rule, lower);
      }
    }
  }

  lemma UnviolatedSlot(contract: Contract, input: Input, slot: string, lower: Lower, verdict: Verdict)
    requires slot in contract.slots && forall e :: !Violates(contract, input, e, lower, verdict)
    ensures SlotMet(contract, input, slot, lower)
  {
    var s, required, files := contract.slots[slot], slot in ArtifactRequired(contract), FilesOf(input, slot);
    forall rule
      ensures !SlotViolates(s, required, files, rule, lower)
    {
      assert !Violates(contract, input, Artifact(slot, rule), lower, verdict);
    }
    SlotMeetsIff(s, required, files, lower);
  }

  lemma UnviolatedPayload(contract: Contract, input: Input, lower: Lower, verdict: Verdict)
    requires forall e :: !Violates(contract, input, e, lower, verdict)
    ensures PayloadMeets(contract, input, verdict)
  {
    assert !Violates(contract, input, SchemaRefuses, lower, verdict);
    forall k | 0 <= k < |PayloadRequired(contract)|
      ensures contract.schema.None? ==> PayloadRequired(contract)[k] in input.payload
    {
      assert !Violates(contract, input, MissingField(PayloadRequired(contract)[k]), lower, verdict);
    }
  }

  lemma UnviolatedMeets(contract: Contract, input: Input, lower: Lower, verdict: Verdict)
    requires forall e :: !Violates(contract, input, e, lower, verdict)
    ensures Meets(contract, input, lower, verdict)
  {
    UnviolatedPayload(contract, input, lower, verdict);
    forall slot | slot in input.files
      ensures slot in contract.slots
    {
      assert !Violates(contract, input, Artifact(slot, UnknownSlot), lower, verdict);
    }
    forall slot | slot in contract.slots
      ensures SlotMet(contract, input, slot, lower)
    {
      UnviolatedSlot(contract, input, slot, lower, verdict);
    }
  }

  lemma MetIsUnviolated(contract: Contract, input: Input, e: Error, lower: Lower, verdict: Verdict)
    requires Meets(contract, input, lower, verdict)
    ensures !Violates(contract, input, e, lower, verdict)
  {
    if e.Artifact? && e.slot in contract.slots {
      assert SlotMet(contract, input, e.slot, lower);
      SlotMeetsIff(contract.slots[e.slot], e.slot in ArtifactRequired(contract), FilesOf(input, e.slot), lower);
    }
  }

  /** The validator reports nothing exactly when the declared contract is met. */
  lemma MeetsIff(contract: Contract, input: Input, lower: Lower, verdict: Verdict)
    ensures (forall e :: !Violates(contract, input, e, lower, verdict)) <==> Meets(contract, input, lower, verdict)
  {
    if forall e :: !Violates(contract, input, e, lower, verdict) {
      UnviolatedMeets(contract, input, lower, verdict);
    } else {
      var e :| Violates(contract, input, e, lower, verdict);
      if Meets(contract, input, lower, verdict) {
        MetIsUnviolated(contract, input, e, lower, verdict);
      }
    }
  }

  // ---------------------------------------------------------------- the order of the files

  function Count(files: seq<File>, key: string, lower: Lower): nat {
    if files == [] then 0
    else Count(files[..|files| - 1], key, lower) + if NameKey(files[|files| - 1], lower) == key then 1 else 0
  }

  function Removed(files: seq<File>, k: nat): seq<File>
    requires k < |files|
  {
    files[..k] + files[k + 1..]
  }

  lemma RemovedSnoc(files: seq<File>, k: nat)
    requires k < |files| - 1
    ensures Removed(files, k) == Removed(files[..|files| - 1], k) + [files[|files| - 1]]
    ensures Removed(files, k)[..|files| - 2] == Removed(files[..|files| - 1], k)
  {
  }

  lemma {:induction false} RemovedTotal(files: seq<File>, k: nat)
    requires k < |files|
    ensures Total(files) == Total(Removed(files, k)) + files[k].bytes
  {
    var n := |files| - 1;
    if k == n {
      assert Removed(files, k) == files[..n];
    } else {
      RemovedTotal(files[..n], k);
      RemovedSnoc(files, k);
    }
  }

  lemma {:induction false} RemovedCount(files: seq<File>, k: nat, key: string, lower: Lower)
    requires k < |files|
    ensures Count(files, key, lower)
         == Count(Removed(files, k), key, lower) + if NameKey(files[k], lower) == key then 1 else 0
  {
    var n := |files| - 1;
    if k == n {
      assert Removed(files, k) == files[..n];
    } else {
      RemovedCount(files[..n], k, key, lower);
      RemovedSnoc(files, k);
    }
  }

  lemma RemovedMultiset(files: seq<File>, k: nat)
    requires k < |files|
    ensures multiset(Removed(files, k)) == multiset(files) - multiset{files[k]}
  {
    assert files == files[..k] + [files[k]] + files[k + 1..];
  }

  lemma TakeFrom(files: seq<File>, others: seq<File>) returns (k: nat)
    requires multiset(files) == multiset(others) && files != []
    ensures k < |others| && others[k] == files[|files| - 1]
    ensures multiset(files[..|files| - 1]) == multiset(Removed(others, k))
  {
    var n := |files| - 1;
    assert files[n] in multiset(others);
    k :| 0 <= k < |others| && others[k] == files[n];
    RemovedMultiset(others, k);
    RemovedMultiset(files, n);
    assert Removed(files, n) == files[..n];
  }

  lemma {:induction false} PermutedSums(files: seq<File>, others: seq<File>, key: string, lower: Lower)
    requires multiset(files) == multiset(others)
    ensures Total(files) == Total(others) && Count(files, key, lower) == Count(others, key, lower)
    decreases |files|
  {
    if files == [] {
      assert |multiset(others)| == 0;
    } else {
      var k := TakeFrom(files, others);
      RemovedTotal(others, k);
      RemovedCount(others, k, key, lower);
      PermutedSums(files[..|files| - 1], Removed(others, k), key, lower);
    }
  }

  lemma {:induction false} CountPositive(files: seq<File>, k: nat, lower: Lower)
    requires k < |files|
    ensures Count(files, NameKey(files[k], lower), lower) >= 1
  {
    if k < |files| - 1 {
      CountPositive(files[..|files| - 1], k, lower);
    }
  }

  lemma {:induction false} CountPairs(files: seq<File>, j: nat, k: nat, lower: Lower)
    requires j < k < |files| && NameKey(files[j], lower) == NameKey(files[k], lower)
    ensures Count(files, NameKey(files[k], lower), lower) >= 2
  {
    if k < |files| - 1 {
      CountPairs(files[..|files| - 1], j, k, lower);
    } else {
      CountPositive(files[..|files| - 1], j, lower);
    }
  }

  lemma {:induction false} CountOnce(files: seq<File>, key: string, lower: Lower)
    requires NamesDiffer(files, lower)
    ensures Count(files, key, lower) <= 1
    ensures Count(files, key, lower) == 1 ==> exists k | 0 <= k < |files| :: NameKey(files[k], lower) == key
  {
    if files != [] {
      var front, last := files[..|files| - 1], files[|files| - 1];
      CountOnce(front, key, lower);
      if Count(front, key, lower) == 1 {
        var k :| 0 <= k < |front| && NameKey(front[k], lower) == key;
        assert NameKey(files[k], lower) == key;
      } else if NameKey(last, lower) == key {
        assert NameKey(files[|files| - 1], lower) == key;
      }
    }
  }

  lemma PermutedNamesDiffer(files: seq<File>, others: seq<File>, lower: Lower)
    requires multiset(files) == multiset(others) && NamesDiffer(files, lower)
    ensures NamesDiffer(others, lower)
  {
    forall j, k: nat | 0 <= j < k < |others|
      ensures NameKey(others[j], lower) != NameKey(others[k], lower)
    {
      var key := NameKey(others[k], lower);
      PermutedSums(files, others, key, lower);
      CountOnce(files, key, lower);
      if NameKey(others[j], lower) == key {
        CountPairs(others, j, k, lower);
      }
    }
  }

  lemma PermutedMeets(slot: Slot, required: bool, files: seq<File>, others: seq<File>, lower: Lower)
    requires multiset(files) == multiset(others) && SlotMeets(slot, required, files, lower)
    ensures SlotMeets(slot, required, others, lower)
  {
    PermutedSums(files, others, "", lower);
    PermutedNamesDiffer(files, others, lower);
    assert |multiset(files)| == |multiset(others)|;
    forall k | 0 <= k < |others|
      ensures FileMeets(slot, others[k], lower)
    {
      assert others[k] in multiset(files);
    }
  }

  lemma PermutedMeetsIff(slot: Slot, required: bool, files: seq<File>, others: seq<File>, lower: Lower)
    requires multiset(files) == multiset(others)
    ensures SlotMeets(slot, required, files, lower) <==> SlotMeets(slot, required, others, lower)
  {
    if SlotMeets(slot, required, files, lower) {
      PermutedMeets(slot, required, files, others, lower);
    } else if SlotMeets(slot, required, others, lower) {
      PermutedMeets(slot, required, others, files, lower);
    }
  }

  lemma OrderOfSlotIsFree(
      contract: Contract, input: Input, slot: string, others: seq<File>, name: string, lower: Lower)
    requires slot in input.files && multiset(others) == multiset(input.files[slot]) && name in contract.slots
    ensures SlotMet(contract, input, name, lower)
      <==> SlotMet(contract, input.(files := input.files[slot := others]), name, lower)
  {
    if name == slot {
      PermutedMeetsIff(contract.slots[slot], slot in ArtifactRequired(contract), input.files[slot], others, lower);
    }
  }

  /** The verdict does not depend on the order in which a slot's files are listed. */
  lemma OrderOfFilesIsFree(contract: Contract, input: Input, slot: string, others: seq<File>, lower: Lower, verdict: Verdict)
    requires slot in input.files && multiset(others) == multiset(input.files[slot])
    ensures Meets(contract, input, lower, verdict)
      <==> Meets(contract, input.(files := input.files[slot := others]), lower, verdict)
  {
    var changed := input.(files := input.files[slot := others]);
    assert changed.files.Keys == input.files.Keys && changed.payload == input.payload;
    forall name | name in contract.slots
      ensures SlotMet(contract, input, name, lower) <==> SlotMet(contract, changed, name, lower)
    {
      OrderOfSlotIsFree(contract, input, slot, others, name, lower);
    }
  }

  // ---------------------------------------------------------------- required fields

  lemma {:induction false} ExceptSlots(names: seq<string>, all: seq<string>, slots: map<string, Slot>)
    requires forall k :: 0 <= k < |names| ==> names[k] in all
    ensures Except(names, Only(all, slots, true)) == Only(names, slots, false)
  {
    if names != [] {
      ExceptSlots(names[..|names| - 1], all, slots);
      OnlyHas(all, slots, true, names[|names| - 1]);
    }
  }

  /** By default a required field is asked of the files when it names a slot and of the payload
      otherwise; the schema the payload is checked against asks for exactly the latter. */
  lemma RequiredFieldsPartition(contract: Contract, name: string)
    requires contract.payloadRequired.None? && contract.artifactRequired.None?
    requires contract.schema.Some? && contract.schema.value.required.Some?
    ensures name in Required(contract) <==> name in PayloadRequired(contract) || name in ArtifactRequired(contract)
    ensures !(name in PayloadRequired(contract) && name in ArtifactRequired(contract))
    ensures PayloadSchema(contract.schema.value, ArtifactRequired(contract)).required == Some(PayloadRequired(contract))
  {
    OnlyHas(Required(contract), contract.slots, false, name);
    OnlyHas(Required(contract), contract.slots, true, name);
    ExceptSlots(Required(contract), Required(contract), contract.slots);
  }
}
