/** Separating an archive's import members from its implementation, and checking a receipt that says it was
    done (`scripts/windows_gnu_coff.py`). The classifier, the digest and the indexing tool are parameters. */
module Separation {

  import opened Wrappers
  import opened Archive

  datatype Evidence =
    | ShortImport(dll: string, symbol: string, kind: nat)
    | StructuralHelper(sections: seq<string>)

  /** What `classify` says of one member: an implementation to keep, import evidence to remove, or bytes it
      refuses. */
  datatype Classification = Implementation | Removable(evidence: Evidence) | Unsupported

  /** Reading the archive, against one DLL inventory, and hashing bytes. */
  datatype Tools = Tools(classify: Bytes -> Classification, digest: Bytes -> string)

  datatype Identity = Identity(sha256: string, size: nat)
  /** Indices are what the receipt says they are, so they may be negative. */
  datatype Retained = Retained(index: int, sha256: string)
  datatype Removed = Removed(index: int, sha256: string, evidence: Evidence)

  datatype Receipt = Receipt(
    schemaVersion: int, target: string, operation: string,
    input: Identity, output: Identity, retained: seq<Retained>, removed: seq<Removed>)

  datatype SeparationError =
    | Unreadable | UnsupportedMember | HeaderTooLong | ToolFailed | Changed
    | UnsupportedReceipt | OutputMismatch | BadIndices | OrderDiffers | MembersDiffer | RawMismatch | LedgerDiffers
    | NoInventory

  const TARGET := "x64mingw"
  const OPERATION := "separate-coff-imports-v1"

  function IdentityOf(tools: Tools, data: Bytes): Identity {
    Identity(tools.digest(data), |data|)
  }

  /** The members of an archive split: what is kept, with its bytes, and what is removed. */
  datatype Split = Split(kept: seq<Kept>, removed: seq<Removed>)

  function SplitOf(tools: Tools, entries: seq<Entry>): Result<Split, SeparationError> {
    if entries == [] then Ok(Split([], []))
    else
      var n := |entries| - 1;
      match SplitOf(tools, entries[..n])
      case Err(error) => Err(error)
      case Ok(split) => SplitStep(tools, split, n, entries[n])
  }

  function SplitStep(tools: Tools, split: Split, n: nat, entry: Entry): Result<Split, SeparationError> {
    if IsIndex(entry.name) then Ok(split)
    else
      match tools.classify(entry.body)
      case Implementation => Ok(split.(kept := split.kept + [Kept(n, entry.body)]))
      case Removable(evidence) =>
        Ok(split.(removed := split.removed + [Removed(n, tools.digest(entry.body), evidence)]))
      case Unsupported => Err(UnsupportedMember)
  }

  /** Each member is classified as it is read: a refused member comes before an unreadable one after it. */
  function SplitArchive(tools: Tools, raw: Bytes): Result<Split, SeparationError> {
    match SplitOf(tools, Readable(raw))
    case Err(error) => Err(error)
    case Ok(split) => if Parse(raw).Err? then Err(Unreadable) else Ok(split)
  }

  function RetainedOf(tools: Tools, kept: seq<Kept>): seq<Retained> {
    seq(|kept|, i requires 0 <= i < |kept| => Retained(kept[i].index, tools.digest(kept[i].body)))
  }

  /** The digests of an archive's members, its index members aside. */
  function BodyDigests(tools: Tools, entries: seq<Entry>): seq<string> {
    if entries == [] then []
    else
      var n := |entries| - 1;
      BodyDigests(tools, entries[..n]) + if IsIndex(entries[n].name) then [] else [tools.digest(entries[n].body)]
  }

  function ArchiveDigests(tools: Tools, data: Bytes): Result<seq<string>, SeparationError> {
    match Parse(data)
    case Err(_) => Err(Unreadable)
    case Ok(entries) => Ok(BodyDigests(tools, entries))
  }

  function RecordedDigests(retained: seq<Retained>): seq<string> {
    seq(|retained|, i requires 0 <= i < |retained| => retained[i].sha256)
  }

  /** The loop that classifies members, in both `separate` and `validate_separation`. */
  method SplitMembers(tools: Tools, raw: Bytes) returns (result: Result<Split, SeparationError>)
    ensures result == SplitArchive(tools, raw)
  {
    var entries, parsed := Members(raw);
    result := SplitEntries(tools, entries);
    if result.Ok? && parsed.Err? {
      result := Err(Unreadable);
    }
  }

  method SplitEntries(tools: Tools, entries: seq<Entry>) returns (result: Result<Split, SeparationError>)
    ensures result == SplitOf(tools, entries)
  {
    var kept: seq<Kept>, removed: seq<Removed> := [], [];
    for n := 0 to |entries|
      invariant SplitOf(tools, entries[..n]) == Ok(Split(kept, removed))
    {
      assert entries[..n + 1][..n] == entries[..n];
      var entry := entries[n];
      if !IsIndex(entry.name) {
        match tools.classify(entry.body)
        case Implementation => kept := kept + [Kept(n, entry.body)];
        case Removable(evidence) => removed := removed + [Removed(n, tools.digest(entry.body), evidence)];
        case Unsupported =>
          SplitFails(tools, entries, n + 1);
          return Err(UnsupportedMember);
      }
    }
    assert entries[..|entries|] == entries;
    result := Ok(Split(kept, removed));
  }

  lemma {:induction false} SplitFails(tools: Tools, entries: seq<Entry>, n: nat)
    requires n <= |entries| && SplitOf(tools, entries[..n]) == Err(UnsupportedMember)
    ensures SplitOf(tools, entries) == Err(UnsupportedMember)
    decreases |entries| - n
  {
    if n == |entries| {
      assert entries[..n] == entries;
    } else {
      assert entries[..n + 1][..n] == entries[..n];
      SplitFails(tools, entries, n + 1);
    }
  }

  // Receipts.

  predicate NonNegative(indices: seq<int>) {
    forall i | 0 <= i < |indices| :: indices[i] >= 0
  }

  predicate Distinct(indices: seq<int>) {
    forall i, j | 0 <= i < j < |indices| :: indices[i] != indices[j]
  }

  predicate InOrder(retained: seq<Retained>) {
    forall i, j | 0 <= i < j < |retained| :: retained[i].index <= retained[j].index
  }

  function Indices(receipt: Receipt): seq<int> {
    seq(|receipt.retained|, i requires 0 <= i < |receipt.retained| => receipt.retained[i].index)
    + seq(|receipt.removed|, i requires 0 <= i < |receipt.removed| => receipt.removed[i].index)
  }

  /** `validate_separation`: raw bytes, when given, need an inventory to be classified against. */
  function Validation(tools: Tools, receipt: Receipt, final: Bytes, raw: Option<Bytes>, inventory: bool):
    Result<(), SeparationError> {
    if (receipt.schemaVersion, receipt.target, receipt.operation) != (1, TARGET, OPERATION) then Err(UnsupportedReceipt)
    else if IdentityOf(tools, final) != receipt.output then Err(OutputMismatch)
    else if !NonNegative(Indices(receipt)) || !Distinct(Indices(receipt)) then Err(BadIndices)
    else if !InOrder(receipt.retained) then Err(OrderDiffers)
    else
      match ArchiveDigests(tools, final)
      case Err(error) => Err(error)
      case Ok(digests) =>
        if digests != RecordedDigests(receipt.retained) then Err(MembersDiffer)
        else if raw.None? then Ok(())
        else if !inventory then Err(NoInventory)
        else if IdentityOf(tools, raw.value) != receipt.input then Err(RawMismatch)
        else
          match SplitArchive(tools, raw.value)
          case Err(error) => Err(error)
          case Ok(split) =>
            if RetainedOf(tools, split.kept) != receipt.retained || split.removed != receipt.removed
            then Err(LedgerDiffers) else Ok(())
  }

  method DigestMembers(tools: Tools, data: Bytes) returns (result: Result<seq<string>, SeparationError>)
    ensures result == ArchiveDigests(tools, data)
  {
    var entries, parsed := Members(data);
    var digests: seq<string> := [];
    for n := 0 to |entries|
      invariant digests == BodyDigests(tools, entries[..n])
    {
      assert entries[..n + 1][..n] == entries[..n];
      if !IsIndex(entries[n].name) {
        digests := digests + [tools.digest(entries[n].body)];
      }
    }
    assert entries[..|entries|] == entries;
    result := if parsed.Err? then Err(Unreadable) else Ok(digests);
  }

  method ValidateSeparation(tools: Tools, receipt: Receipt, final: Bytes, raw: Option<Bytes>, inventory: bool)
    returns (result: Result<(), SeparationError>)
    ensures result == Validation(tools, receipt, final, raw, inventory)
  {
    if (receipt.schemaVersion, receipt.target, receipt.operation) != (1, TARGET, OPERATION) {
      return Err(UnsupportedReceipt);
    }
    if IdentityOf(tools, final) != receipt.output {
      return Err(OutputMismatch);
    }
    var indices := Indices(receipt);
    if !NonNegative(indices) || !Distinct(indices) {
      return Err(BadIndices);
    }
    if !InOrder(receipt.retained) {
      return Err(OrderDiffers);
    }
    var actual := DigestMembers(tools, final);
    if actual.Err? {
      return Err(actual.error);
    }
    if actual.value != RecordedDigests(receipt.retained) {
      return Err(MembersDiffer);
    }
    if raw.Some? {
      if !inventory {
        return Err(NoInventory);
      }
      if IdentityOf(tools, raw.value) != receipt.input {
        return Err(RawMismatch);
      }
      var split := SplitMembers(tools, raw.value);
      if split.Err? {
        return Err(split.error);
      }
      if RetainedOf(tools, split.value.kept) != receipt.retained || split.value.removed != receipt.removed {
        return Err(LedgerDiffers);
      }
    }
    result := Ok(());
  }

  // What a split is.

  /** The record of a member to keep, or to remove. */
  ghost predicate KeptEntry(tools: Tools, entries: seq<Entry>, r: Retained) {
    && 0 <= r.index < |entries| && !IsIndex(entries[r.index].name)
    && r.sha256 == tools.digest(entries[r.index].body)
    && tools.classify(entries[r.index].body).Implementation?
  }

  ghost predicate RemovedEntry(tools: Tools, entries: seq<Entry>, r: Removed) {
    && 0 <= r.index < |entries| && !IsIndex(entries[r.index].name)
    && r.sha256 == tools.digest(entries[r.index].body)
    && tools.classify(entries[r.index].body) == Removable(r.evidence)
  }

  ghost predicate RetainedAscends(retained: seq<Retained>) {
    forall i, j | 0 <= i < j < |retained| :: retained[i].index < retained[j].index
  }

  ghost predicate RemovedAscends(removed: seq<Removed>) {
    forall i, j | 0 <= i < j < |removed| :: removed[i].index < removed[j].index
  }

  /** The in-order split of an archive's members by the classifier: each member that is not an index member
      is listed once, with its digest, under what the classifier says of it; and nothing else is listed. */
  ghost predicate Describes(tools: Tools, entries: seq<Entry>, retained: seq<Retained>, removed: seq<Removed>) {
    && RetainedAscends(retained) && (forall r :: r in retained <==> KeptEntry(tools, entries, r))
    && RemovedAscends(removed) && (forall r :: r in removed <==> RemovedEntry(tools, entries, r))
  }

  /** No member is refused by the classifier. */
  ghost predicate Classifiable(tools: Tools, entries: seq<Entry>) {
    forall i | 0 <= i < |entries| && !IsIndex(entries[i].name) :: !tools.classify(entries[i].body).Unsupported?
  }

  /** `separate`, with the tool that indexes what was written as a parameter: keep the implementations,
      write them, have them indexed, and check what came back. */
  method Separate(tools: Tools, indexTool: Bytes -> Option<Bytes>, raw: Bytes)
    returns (result: Result<Receipt, SeparationError>)
    ensures result == Separated(tools, indexTool, raw)
  {
    var split := SplitMembers(tools, raw);
    if split.Err? {
      return Err(split.error);
    }
    var written := Write(split.value.kept);
    if written.None? {
      return Err(HeaderTooLong);
    }
    var output := indexTool(written.value);
    if output.None? {
      return Err(ToolFailed);
    }
    var after := DigestMembers(tools, output.value);
    if after.Err? {
      return Err(after.error);
    }
    var retained := RetainedOf(tools, split.value.kept);
    if after.value != RecordedDigests(retained) {
      return Err(Changed);
    }
    var receipt := Receipt(1, TARGET, OPERATION, IdentityOf(tools, raw), IdentityOf(tools, output.value),
                           retained, split.value.removed);
    var valid := ValidateSeparation(tools, receipt, output.value, Some(raw), true);
    if valid.Err? {
      return Err(valid.error);
    }
    result := Ok(receipt);
  }

  function ReceiptOf(tools: Tools, raw: Bytes, output: Bytes, split: Split): Receipt {
    Receipt(1, TARGET, OPERATION, IdentityOf(tools, raw), IdentityOf(tools, output),
            RetainedOf(tools, split.kept), split.removed)
  }

  function Separated(tools: Tools, indexTool: Bytes -> Option<Bytes>, raw: Bytes): Result<Receipt, SeparationError> {
    match SplitArchive(tools, raw)
    case Err(error) => Err(error)
    case Ok(split) =>
      if !AllFit(split.kept) then Err(HeaderTooLong)
      else
        match indexTool(Written(split.kept))
        case None => Err(ToolFailed)
        case Some(output) =>
          match ArchiveDigests(tools, output)
          case Err(error) => Err(error)
          case Ok(after) =>
            var receipt := ReceiptOf(tools, raw, output, split);
            if after != RecordedDigests(receipt.retained) then Err(Changed)
            else
              match Validation(tools, receipt, output, Some(raw), true)
              case Err(error) => Err(error)
              case Ok(_) => Ok(receipt)
  }
}
