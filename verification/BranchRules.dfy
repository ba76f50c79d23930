/** What each rule of a branch contract asks, by the fields of the contract and of the files
    (`packages/contracts/src/branch-validation.ts`). */
module BranchRules {
  import opened BranchValidator
  import opened Selections
  import opened Wrappers

  // ---------------------------------------------------------------- names

  predicate IsSeparator(c: char) {
    c == '/' || c == '\\'
  }

  /** `base` is what follows the last slash or backslash of `name`. */
  ghost predicate IsBaseName(name: string, base: string) {
    && (forall k :: 0 <= k < |base| ==> !IsSeparator(base[k]))
    && exists dir :: name == dir + base && (dir == "" || IsSeparator(dir[|dir| - 1]))
  }

  lemma {:induction false} BaseNameIs(name: string)
    ensures IsBaseName(name, BaseName(name))
  {
    if name == "" {
      assert name == "" + BaseName(name);
    } else {
      var front, c := name[..|name| - 1], name[|name| - 1];
      assert name == front + [c];
      if IsSeparator(c) {
        assert name == name + BaseName(name);
      } else {
        BaseNameIs(front);
        var dir :| front == dir + BaseName(front) && (dir == "" || IsSeparator(dir[|dir| - 1]));
        assert name == dir + BaseName(name);
      }
    }
  }

  lemma BaseNameOnly(name: string, a: string, b: string)
    requires IsBaseName(name, a) && IsBaseName(name, b) && |a| <= |b|
    ensures a == b
  {
    var c :| name == c + a && (c == "" || IsSeparator(c[|c| - 1]));
    var d :| name == d + b && (d == "" || IsSeparator(d[|d| - 1]));
    if |c| > |d| {
      EndsInside(c, a, d, b);
    }
    assert a == name[|c|..] && b == name[|d|..];
  }

  /** The longer of two beginnings of a text ends inside what follows the shorter one. */
  lemma EndsInside<T>(c: seq<T>, a: seq<T>, d: seq<T>, b: seq<T>)
    requires c + a == d + b && |c| > |d|
    ensures |c| - |d| <= |b| && b[|c| - |d| - 1] == c[|c| - 1]
    ensures a != [] ==> |c| - |d| < |b| && b[|c| - |d|] == a[0]
  {
    assert (c + a)[|c| - 1] == c[|c| - 1] && (d + b)[|c| - 1] == b[|c| - |d| - 1];
    if a != [] {
      assert (c + a)[|c|] == a[0] && (d + b)[|c|] == b[|c| - |d|];
    }
  }

  lemma BaseNameIff(name: string, base: string)
    ensures IsBaseName(name, base) <==> base == BaseName(name)
  {
    BaseNameIs(name);
    if IsBaseName(name, base) {
      if |base| <= |BaseName(name)| {
        BaseNameOnly(name, base, BaseName(name));
      } else {
        BaseNameOnly(name, BaseName(name), base);
      }
    }
  }

  /** `extension` is `base` from its last dot on, or empty when it has none. */
  ghost predicate IsExtension(base: string, extension: string) {
    if '.' !in base then extension == ""
    else
      && extension != "" && extension[0] == '.' && (forall k :: 0 < k < |extension| ==> extension[k] != '.')
      && exists stem :: base == stem + extension
  }

  lemma {:induction false} ExtensionIs(base: string)
    ensures IsExtension(base, FromLastDot(base))
    ensures FromLastDot(base) == "" <==> '.' !in base
  {
    if base != "" {
      var front, c := base[..|base| - 1], base[|base| - 1];
      assert base == front + [c];
      if c == '.' {
        assert base == front + FromLastDot(base);
      } else {
        ExtensionIs(front);
        if '.' in front {
          var stem :| front == stem + FromLastDot(front);
          assert base == stem + FromLastDot(base);
        }
      }
    }
  }

  lemma ExtensionOnly(base: string, a: string, b: string)
    requires IsExtension(base, a) && IsExtension(base, b) && |a| <= |b|
    ensures a == b
  {
    if '.' in base {
      var c :| base == c + a;
      var d :| base == d + b;
      if |c| > |d| {
        EndsInside(c, a, d, b);
      }
      assert a == base[|c|..] && b == base[|d|..];
    }
  }

  lemma ExtensionIff(base: string, extension: string)
    ensures IsExtension(base, extension) <==> extension == FromLastDot(base)
  {
    ExtensionIs(base);
    if IsExtension(base, extension) {
      if |extension| <= |FromLastDot(base)| {
        ExtensionOnly(base, extension, FromLastDot(base));
      } else {
        ExtensionOnly(base, FromLastDot(base), extension);
      }
    }
  }

  // ---------------------------------------------------------------- required fields

  /** The fields the contract's schema lists as required. */
  ghost predicate ListsRequired(contract: Contract, name: string) {
    && contract.schema.Some? && contract.schema.value.required.Some?
    && name in contract.schema.value.required.value
  }

  /** What must be in the payload: what the contract says, or else the required fields that are no slots. */
  ghost predicate AskedOfPayload(contract: Contract, name: string) {
    if contract.payloadRequired.Some? then name in contract.payloadRequired.value
    else ListsRequired(contract, name) && name !in contract.slots
  }

  /** What must come as files: what the contract says, or else the required fields that are slots. */
  ghost predicate AskedOfFiles(contract: Contract, name: string) {
    if contract.artifactRequired.Some? then name in contract.artifactRequired.value
    else ListsRequired(contract, name) && name in contract.slots
  }

  lemma {:induction false} OnlyHas(names: seq<string>, slots: map<string, Slot>, inSlots: bool, name: string)
    ensures name in Only(names, slots, inSlots) <==> name in names && (name in slots) == inSlots
  {
    if names != [] {
      OnlyHas(names[..|names| - 1], slots, inSlots, name);
      assert names == names[..|names| - 1] + [names[|names| - 1]];
    }
  }

  lemma AskedIff(contract: Contract, name: string)
    ensures name in PayloadRequired(contract) <==> AskedOfPayload(contract, name)
    ensures name in ArtifactRequired(contract) <==> AskedOfFiles(contract, name)
  {
    OnlyHas(Required(contract), contract.slots, false, name);
    OnlyHas(Required(contract), contract.slots, true, name);
  }

  /** The schema for the payload alone: the contract's own, without the files among its required fields. */
  ghost predicate ForPayload(contract: Contract, schema: Schema) {
    && contract.schema.Some? && schema.rest == contract.schema.value.rest
    && match contract.schema.value.required
       case None => schema.required.None?
       case Some(names) => schema.required == Some(Kept(names, OnPayload(contract)))
  }

  ghost function OnPayload(contract: Contract): string -> bool {
    name => !AskedOfFiles(contract, name)
  }

  lemma {:induction false} ExceptIsKept(names: seq<string>, contract: Contract)
    ensures Except(names, ArtifactRequired(contract)) == Kept(names, OnPayload(contract))
  {
    if names != [] {
      ExceptIsKept(names[..|names| - 1], contract);
      AskedIff(contract, names[|names| - 1]);
    }
  }

  lemma SchemaIsForPayload(contract: Contract)
    requires contract.schema.Some?
    ensures ForPayload(contract, PayloadSchema(contract.schema.value, ArtifactRequired(contract)))
  {
    if contract.schema.value.required.Some? {
      ExceptIsKept(contract.schema.value.required.value, contract);
    }
  }

  // ---------------------------------------------------------------- the rules

  function Files(input: Input, slot: string): seq<File> {
    if slot in input.files then input.files[slot] else []
  }

  /** The sizes of all files, added up. */
  function Bytes(files: seq<File>): int {
    if files == [] then 0 else files[0].bytes + Bytes(files[1..])
  }

  lemma {:induction false} BytesSnoc(files: seq<File>, file: File)
    ensures Bytes(files + [file]) == Bytes(files) + file.bytes
  {
    if files == [] {
      assert [file][1..] == [] && [] + [file] == [file];
    } else {
      assert (files + [file])[1..] == files[1..] + [file];
      BytesSnoc(files[1..], file);
    }
  }

  lemma {:induction false} TotalIsBytes(files: seq<File>)
    ensures Total(files) == Bytes(files)
  {
    if files != [] {
      var n := |files| - 1;
      TotalIsBytes(files[..n]);
      BytesSnoc(files[..n], files[n]);
      assert files == files[..n] + [files[n]];
    }
  }

  ghost predicate SameName(a: File, b: File, lower: Lower) {
    exists x, y :: IsBaseName(a.name, x) && IsBaseName(b.name, y) && lower(x) == lower(y)
  }

  /** The file's name, in lower case and without directories, is no name. */
  ghost predicate Nameless(file: File, lower: Lower) {
    exists base :: IsBaseName(file.name, base) && lower(base) in {"", ".", ".."}
  }

  /** None of the slot's extensions is the file's, whatever the case. */
  ghost predicate WrongExtension(slot: Slot, file: File, lower: Lower) {
    exists base, extension :: IsBaseName(file.name, base) && IsExtension(base, extension) &&
      forall k :: 0 <= k < |slot.extensions| ==> lower(slot.extensions[k]) != lower(extension)
  }

  /** What is wrong with file `k` of a slot. */
  ghost predicate FileBreaks(slot: Slot, files: seq<File>, rule: Rule, k: nat, lower: Lower)
    requires k < |files|
  {
    match rule
    case BadFilename(_) => Nameless(files[k], lower)
    case DuplicateFilename(_) =>
      !Nameless(files[k], lower) && exists j :: 0 <= j < k && SameName(files[j], files[k], lower)
    case TooSmall(_) => slot.minBytes.Some? && files[k].bytes < slot.minBytes.value
    case TooBig(_) => slot.maxBytes.Some? && slot.maxBytes.value < files[k].bytes
    case BadMediaType(_) => slot.mediaTypes != [] && lower(files[k].mediaType) !in slot.mediaTypes
    case BadExtension(_) => slot.extensions != [] && WrongExtension(slot, files[k], lower)
    case _ => false
  }

  /** A slot takes at least its minimum, and one file when it is required; at most its maximum, which
      is one unless it says otherwise. */
  ghost predicate SlotBreaks(contract: Contract, input: Input, name: string, rule: Rule, lower: Lower)
    requires name in contract.slots
  {
    var slot, files := contract.slots[name], Files(input, name);
    match rule
    case UnknownSlot => false
    case TooFewFiles =>
      || (slot.minFiles.Some? && |files| < slot.minFiles.value)
      || (AskedOfFiles(contract, name) && files == [])
    case TooManyFiles => if slot.maxFiles.Some? then slot.maxFiles.value < |files| else 1 < |files|
    case TooManyBytesInAll => slot.maxTotalBytes.Some? && slot.maxTotalBytes.value < Bytes(files)
    case BadFilename(k) => k < |files| && FileBreaks(slot, files, rule, k, lower)
    case DuplicateFilename(k) => k < |files| && FileBreaks(slot, files, rule, k, lower)
    case TooSmall(k) => k < |files| && FileBreaks(slot, files, rule, k, lower)
    case TooBig(k) => k < |files| && FileBreaks(slot, files, rule, k, lower)
    case BadMediaType(k) => k < |files| && FileBreaks(slot, files, rule, k, lower)
    case BadExtension(k) => k < |files| && FileBreaks(slot, files, rule, k, lower)
  }

  ghost predicate Breaks(contract: Contract, input: Input, e: Error, lower: Lower, verdict: Verdict) {
    match e
    case SchemaRefuses => exists schema :: ForPayload(contract, schema) && !verdict(schema, input.payload)
    case MissingField(name) => contract.schema.None? && AskedOfPayload(contract, name) && name !in input.payload
    case Artifact(name, rule) =>
      if name in contract.slots then SlotBreaks(contract, input, name, rule, lower)
      else name in input.files && rule == UnknownSlot
  }

  lemma SameNameIff(a: File, b: File, lower: Lower)
    ensures SameName(a, b, lower) <==> NameKey(a, lower) == NameKey(b, lower)
  {
    BaseNameIs(a.name);
    BaseNameIs(b.name);
    if SameName(a, b, lower) {
      var x, y :| IsBaseName(a.name, x) && IsBaseName(b.name, y) && lower(x) == lower(y);
      BaseNameIff(a.name, x);
      BaseNameIff(b.name, y);
    }
  }

  lemma NamelessIff(file: File, lower: Lower)
    ensures Nameless(file, lower) <==> !ValidName(NameKey(file, lower))
  {
    BaseNameIs(file.name);
    if Nameless(file, lower) {
      var base :| IsBaseName(file.name, base) && lower(base) in {"", ".", ".."};
      BaseNameIff(file.name, base);
    }
  }

  lemma WrongExtensionIff(slot: Slot, file: File, lower: Lower)
    ensures WrongExtension(slot, file, lower)
      <==> !Lowered(slot.extensions, lower(FromLastDot(BaseName(file.name))), lower)
  {
    BaseNameIs(file.name);
    ExtensionIs(BaseName(file.name));
    if WrongExtension(slot, file, lower) {
      var base, extension :| IsBaseName(file.name, base) && IsExtension(base, extension) &&
        forall k :: 0 <= k < |slot.extensions| ==> lower(slot.extensions[k]) != lower(extension);
      BaseNameIff(file.name, base);
      ExtensionIff(base, extension);
    }
  }

  lemma FileBreaksIff(slot: Slot, files: seq<File>, rule: Rule, k: nat, lower: Lower)
    requires k < |files| && At(rule, k)
    ensures FileViolates(slot, files, rule, lower) <==> FileBreaks(slot, files, rule, k, lower)
  {
    NamelessIff(files[k], lower);
    WrongExtensionIff(slot, files[k], lower);
    forall j | 0 <= j < k
      ensures SameName(files[j], files[k], lower) <==> NameKey(files[j], lower) == NameKey(files[k], lower)
    {
      SameNameIff(files[j], files[k], lower);
    }
  }

  lemma SlotBreaksIff(contract: Contract, input: Input, name: string, rule: Rule, lower: Lower)
    requires name in contract.slots
    ensures Violates(contract, input, Artifact(name, rule), lower, (s, p) => true)
      <==> SlotBreaks(contract, input, name, rule, lower)
  {
    var slot, files := contract.slots[name], Files(input, name);
    AskedIff(contract, name);
    TotalIsBytes(files);
    match rule
    case BadFilename(k) => if k < |files| { FileBreaksIff(slot, files, rule, k, lower); }
    case DuplicateFilename(k) => if k < |files| { FileBreaksIff(slot, files, rule, k, lower); }
    case TooSmall(k) => if k < |files| { FileBreaksIff(slot, files, rule, k, lower); }
    case TooBig(k) => if k < |files| { FileBreaksIff(slot, files, rule, k, lower); }
    case BadMediaType(k) => if k < |files| { FileBreaksIff(slot, files, rule, k, lower); }
    case BadExtension(k) => if k < |files| { FileBreaksIff(slot, files, rule, k, lower); }
    case _ =>
  }

  lemma SchemaRefusesIff(contract: Contract, input: Input, lower: Lower, verdict: Verdict)
    ensures Violates(contract, input, SchemaRefuses, lower, verdict)
      <==> exists schema :: ForPayload(contract, schema) && !verdict(schema, input.payload)
  {
    if contract.schema.Some? {
      var reduced := PayloadSchema(contract.schema.value, ArtifactRequired(contract));
      SchemaIsForPayload(contract);
    }
  }

  /** The violations, and so the errors the validator reports, are exactly what breaks the contract. */
  lemma ViolatesIff(contract: Contract, input: Input, e: Error, lower: Lower, verdict: Verdict)
    ensures Violates(contract, input, e, lower, verdict) <==> Breaks(contract, input, e, lower, verdict)
  {
    match e
    case SchemaRefuses => SchemaRefusesIff(contract, input, lower, verdict);
    case MissingField(name) => AskedIff(contract, name);
    case Artifact(name, rule) =>
      if name in contract.slots {
        SlotBreaksIff(contract, input, name, rule, lower);
      }
  }
}
