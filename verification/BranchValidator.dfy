/** The check of a step result against its branch contract
    (`packages/contracts/src/branch-validation.ts`).

    Every rule is stated on its own as what it means to violate it; the validator's loops are proved
    to report exactly the violations.  Lower-casing and the verdict of the JSON Schema validator are
    parameters. */
module BranchValidator {
  import opened Wrappers

  datatype File = File(name: string, mediaType: string, bytes: int)

  datatype Slot = Slot(
    minFiles: Option<int>, maxFiles: Option<int>, minBytes: Option<int>, maxBytes: Option<int>,
    maxTotalBytes: Option<int>, mediaTypes: seq<string>, extensions: seq<string>)

  /** A payload schema: its required fields, if it lists any, and everything else. */
  datatype Schema = Schema(required: Option<seq<string>>, rest: string)

  datatype Contract = Contract(
    schema: Option<Schema>, payloadRequired: Option<seq<string>>, artifactRequired: Option<seq<string>>,
    slots: map<string, Slot>)

  datatype Input = Input(payload: map<string, string>, files: map<string, seq<File>>)

  datatype Rule =
    | UnknownSlot | TooFewFiles | TooManyFiles | TooManyBytesInAll
    | BadFilename(at: nat) | DuplicateFilename(at: nat) | TooSmall(at: nat) | TooBig(at: nat)
    | BadMediaType(at: nat) | BadExtension(at: nat)

  datatype Error = MissingField(name: string) | SchemaRefuses | Artifact(slot: string, rule: Rule)

  type Lower = string -> string

  type Verdict = (Schema, map<string, string>) -> bool

  // ---------------------------------------------------------------- names

  /** What follows the last slash or backslash. */
  function BaseName(name: string): string {
    if name == "" then ""
    else if name[|name| - 1] == '/' || name[|name| - 1] == '\\' then ""
    else BaseName(name[..|name| - 1]) + [name[|name| - 1]]
  }

  /** From the last dot on; empty without a dot. */
  function FromLastDot(name: string): string {
    if name == "" then ""
    else if name[|name| - 1] == '.' then "."
    else
      var front := FromLastDot(name[..|name| - 1]);
      if front == "" then "" else front + [name[|name| - 1]]
  }

  function NameKey(file: File, lower: Lower): string {
    lower(BaseName(file.name))
  }

  predicate ValidName(key: string) {
    key != "" && key != "." && key != ".."
  }

  // ---------------------------------------------------------------- what a violation is

  function Total(files: seq<File>): int {
    if files == [] then 0 else Total(files[..|files| - 1]) + files[|files| - 1].bytes
  }

  predicate Below(value: int, bound: Option<int>) {
    bound.Some? && value < bound.value
  }

  predicate Above(value: int, bound: Option<int>) {
    bound.Some? && value > bound.value
  }

  predicate Lowered(extensions: seq<string>, extension: string, lower: Lower) {
    exists k | 0 <= k < |extensions| :: lower(extensions[k]) == extension
  }

  /** An earlier file of the slot has the same name, ignoring case and directories. */
  predicate NameTaken(files: seq<File>, k: nat, lower: Lower)
    requires k < |files|
  {
    exists j | 0 <= j < k :: NameKey(files[j], lower) == NameKey(files[k], lower)
  }

  /** What a file of a slot can do wrong. */
  predicate FileViolates(slot: Slot, files: seq<File>, rule: Rule, lower: Lower) {
    match rule
    case BadFilename(k) => k < |files| && !ValidName(NameKey(files[k], lower))
    case DuplicateFilename(k) => k < |files| && ValidName(NameKey(files[k], lower)) && NameTaken(files, k, lower)
    case TooSmall(k) => k < |files| && Below(files[k].bytes, slot.minBytes)
    case TooBig(k) => k < |files| && Above(files[k].bytes, slot.maxBytes)
    case BadMediaType(k) => k < |files| && slot.mediaTypes != [] && lower(files[k].mediaType) !in slot.mediaTypes
    case BadExtension(k) =>
      k < |files| && slot.extensions != [] && !Lowered(slot.extensions, lower(FromLastDot(BaseName(files[k].name))), lower)
    case _ => false
  }

  function MinFiles(slot: Slot, required: bool): int {
    var least := if slot.minFiles.Some? then slot.minFiles.value else 0;
    if required && least < 1 then 1 else if least < 0 then 0 else least
  }

  function MaxFiles(slot: Slot): int {
    if slot.maxFiles.Some? then slot.maxFiles.value else 1
  }

  predicate SlotViolates(slot: Slot, required: bool, files: seq<File>, rule: Rule, lower: Lower) {
    match rule
    case UnknownSlot => false
    case TooFewFiles => |files| < MinFiles(slot, required)
    case TooManyFiles => |files| > MaxFiles(slot)
    case TooManyBytesInAll => Above(Total(files), slot.maxTotalBytes)
    case _ => FileViolates(slot, files, rule, lower)
  }

  function Required(contract: Contract): seq<string> {
    if contract.schema.Some? && contract.schema.value.required.Some? then contract.schema.value.required.value else []
  }

  function Only(names: seq<string>, slots: map<string, Slot>, inSlots: bool): seq<string> {
    if names == [] then []
    else
      var front, last := Only(names[..|names| - 1], slots, inSlots), names[|names| - 1];
      if (last in slots) == inSlots then front + [last] else front
  }

  function PayloadRequired(contract: Contract): seq<string> {
    if contract.payloadRequired.Some? then contract.payloadRequired.value
    else Only(Required(contract), contract.slots, false)
  }

  function ArtifactRequired(contract: Contract): seq<string> {
    if contract.artifactRequired.Some? then contract.artifactRequired.value
    else Only(Required(contract), contract.slots, true)
  }

  function Except(names: seq<string>, gone: seq<string>): seq<string> {
    if names == [] then []
    else
      var front, last := Except(names[..|names| - 1], gone), names[|names| - 1];
      if last in gone then front else front + [last]
  }

  /** The schema the payload alone has to meet. */
  function PayloadSchema(schema: Schema, artifactRequired: seq<string>): Schema {
    if schema.required.Some? then schema.(required := Some(Except(schema.required.value, artifactRequired))) else schema
  }

  function FilesOf(input: Input, slot: string): seq<File> {
    if slot in input.files then input.files[slot] else []
  }

  predicate Violates(contract: Contract, input: Input, e: Error, lower: Lower, verdict: Verdict) {
    match e
    case SchemaRefuses =>
      contract.schema.Some? && !verdict(PayloadSchema(contract.schema.value, ArtifactRequired(contract)), input.payload)
    case MissingField(name) => contract.schema.None? && name in PayloadRequired(contract) && name !in input.payload
    case Artifact(slot, rule) =>
      if slot in contract.slots
      then SlotViolates(contract.slots[slot], slot in ArtifactRequired(contract), FilesOf(input, slot), rule, lower)
      else rule == UnknownSlot && slot in input.files
  }

  // ---------------------------------------------------------------- the validator

  method CheckFiles(slot: Slot, files: seq<File>, lower: Lower) returns (rules: set<Rule>, total: int)
    ensures forall rule :: rule in rules <==> FileViolates(slot, files, rule, lower)
    ensures total == Total(files)
  {
    rules, total := {}, 0;
    var names: set<string> := {};
    for i := 0 to |files|
      invariant names == set k | 0 <= k < i :: NameKey(files[k], lower)
      invariant total == Total(files[..i])
      invariant forall rule :: rule in rules <==> FileViolates(slot, files[..i], rule, lower)
    {
      var file := files[i];
      assert files[..i + 1][..i] == files[..i];
      var more := CheckFile(slot, files, i, names, lower);
      FileViolatesOneMore(slot, files, i, lower);
      names := names + {NameKey(file, lower)};
      total := total + file.bytes;
      rules := rules + more;
    }
    assert files[..|files|] == files;
  }

  /** The rules a file breaks, given the names before it. */
  method CheckFile(slot: Slot, files: seq<File>, i: nat, names: set<string>, lower: Lower) returns (rules: set<Rule>)
    requires i < |files| && names == set k | 0 <= k < i :: NameKey(files[k], lower)
    ensures forall rule :: rule in rules <==> At(rule, i) && FileViolates(slot, files, rule, lower)
  {
    rules := {};
    var file := files[i];
    var key := NameKey(file, lower);
    if !ValidName(key) {
      rules := rules + {BadFilename(i)};
    } else if key in names {
      rules := rules + {DuplicateFilename(i)};
    }
    if Below(file.bytes, slot.minBytes) {
      rules := rules + {TooSmall(i)};
    }
    if Above(file.bytes, slot.maxBytes) {
      rules := rules + {TooBig(i)};
    }
    if slot.mediaTypes != [] && lower(file.mediaType) !in slot.mediaTypes {
      rules := rules + {BadMediaType(i)};
    }
    if slot.extensions != [] && !Lowered(slot.extensions, lower(FromLastDot(BaseName(file.name))), lower) {
      rules := rules + {BadExtension(i)};
    }
  }

  /** The rule speaks of this file. */
  predicate At(rule: Rule, i: nat) {
    match rule
    case BadFilename(k) => k == i
    case DuplicateFilename(k) => k == i
    case TooSmall(k) => k == i
    case TooBig(k) => k == i
    case BadMediaType(k) => k == i
    case BadExtension(k) => k == i
    case _ => false
  }

  lemma FileViolatesOneMore(slot: Slot, files: seq<File>, i: nat, lower: Lower)
    requires i < |files|
    ensures forall rule ::
      FileViolates(slot, files[..i + 1], rule, lower)
      <==> FileViolates(slot, files[..i], rule, lower) || (At(rule, i) && FileViolates(slot, files, rule, lower))
  {
    var now, before := files[..i + 1], files[..i];
    forall k: nat | k < i
      ensures now[k] == before[k] == files[k] && (NameTaken(now, k, lower) <==> NameTaken(before, k, lower))
    {
      assert forall j :: 0 <= j < k ==> now[j] == before[j];
    }
    assert NameTaken(now, i, lower) <==> NameTaken(files, i, lower) by {
      assert forall j :: 0 <= j <= i ==> now[j] == files[j];
    }
  }

  method CheckSlot(slot: Slot, required: bool, files: seq<File>, lower: Lower) returns (rules: set<Rule>)
    ensures forall rule :: rule in rules <==> SlotViolates(slot, required, files, rule, lower)
  {
    var total;
    rules, total := CheckFiles(slot, files, lower);
    if |files| < MinFiles(slot, required) {
      rules := rules + {TooFewFiles};
    }
    if |files| > MaxFiles(slot) {
      rules := rules + {TooManyFiles};
    }
    if Above(total, slot.maxTotalBytes) {
      rules := rules + {TooManyBytesInAll};
    }
  }

  /** Reports exactly the violations, so the result is acceptable if and only if there is none. */
  method ValidateBranchContract(contract: Contract, input: Input, lower: Lower, verdict: Verdict) returns (errors: set<Error>)
    ensures forall e :: e in errors <==> Violates(contract, input, e, lower, verdict)
  {
    errors := CheckPayload(contract, input, lower, verdict);
    var unknown := set slot | slot in input.files && slot !in contract.slots :: Artifact(slot, UnknownSlot);
    var found: set<Error> := {};
    var todo := contract.slots.Keys;
    while todo != {}
      invariant todo <= contract.slots.Keys
      invariant forall e :: e in found <==>
        e.Artifact? && e.slot in contract.slots && e.slot !in todo && Violates(contract, input, e, lower, verdict)
    {
      var slot :| slot in todo;
      var rules := CheckSlot(contract.slots[slot], slot in ArtifactRequired(contract), FilesOf(input, slot), lower);
      found := found + set rule | rule in rules :: Artifact(slot, rule);
      todo := todo - {slot};
    }
    errors := errors + unknown + found;
  }

  method CheckPayload(contract: Contract, input: Input, lower: Lower, verdict: Verdict) returns (errors: set<Error>)
    ensures forall e :: e in errors <==> !e.Artifact? && Violates(contract, input, e, lower, verdict)
  {
    if contract.schema.Some? {
      if !verdict(PayloadSchema(contract.schema.value, ArtifactRequired(contract)), input.payload) {
        return {SchemaRefuses};
      }
      return {};
    }
    errors := {};
    var names := PayloadRequired(contract);
    for i := 0 to |names|
      invariant errors == set k | 0 <= k < i && names[k] !in input.payload :: MissingField(names[k])
    {
      if names[i] !in input.payload {
        errors := errors + {MissingField(names[i])};
      }
    }
  }
}
