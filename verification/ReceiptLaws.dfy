/** What a receipt is checked for when there is no raw archive, and how a separation that fails says so. */
module ReceiptLaws {

  import opened Wrappers
  import opened Archive
  import opened Separation
  import opened SeparationLaws

  /** The recorded indices are natural numbers, none twice, and those kept are in order. */
  ghost predicate Indexed(receipt: Receipt) {
    && RetainedAscends(receipt.retained)
    && (forall i | 0 <= i < |receipt.retained| :: receipt.retained[i].index >= 0)
    && (forall j | 0 <= j < |receipt.removed| :: receipt.removed[j].index >= 0)
    && (forall i, j | 0 <= i < j < |receipt.removed| :: receipt.removed[i].index != receipt.removed[j].index)
    && forall i, j | 0 <= i < |receipt.retained| && 0 <= j < |receipt.removed| ::
         receipt.retained[i].index != receipt.removed[j].index
  }

  lemma IndexAt(receipt: Receipt, i: nat)
    ensures i < |receipt.retained| ==>
              i < |Indices(receipt)| && Indices(receipt)[i] == receipt.retained[i].index
    ensures i < |receipt.removed| ==>
              && i + |receipt.retained| < |Indices(receipt)|
              && Indices(receipt)[i + |receipt.retained|] == receipt.removed[i].index
    ensures |Indices(receipt)| == |receipt.retained| + |receipt.removed|
  {
  }

  lemma {:induction false} ApartAt(receipt: Receipt, i: nat, j: nat)
    requires Distinct(Indices(receipt))
    ensures i < j < |receipt.retained| ==> receipt.retained[i].index != receipt.retained[j].index
    ensures i < j < |receipt.removed| ==> receipt.removed[i].index != receipt.removed[j].index
    ensures i < |receipt.retained| && j < |receipt.removed| ==> receipt.retained[i].index != receipt.removed[j].index
  {
    IndexAt(receipt, i);
    IndexAt(receipt, j);
  }

  lemma {:induction false} NaturalAt(receipt: Receipt, i: nat)
    requires NonNegative(Indices(receipt))
    ensures i < |receipt.retained| ==> receipt.retained[i].index >= 0
    ensures i < |receipt.removed| ==> receipt.removed[i].index >= 0
  {
    IndexAt(receipt, i);
  }

  lemma {:induction false} IndexedIsChecked(receipt: Receipt)
    requires Indexed(receipt)
    ensures NonNegative(Indices(receipt)) && Distinct(Indices(receipt)) && InOrder(receipt.retained)
  {
    var k := |receipt.retained|;
    IndexAt(receipt, 0);
    forall i | 0 <= i < |Indices(receipt)| ensures Indices(receipt)[i] >= 0 {
      assert Indices(receipt)[i] == if i < k then receipt.retained[i].index else receipt.removed[i - k].index;
    }
    forall i, j | 0 <= i < j < |Indices(receipt)| ensures Indices(receipt)[i] != Indices(receipt)[j] {
      assert Indices(receipt)[i] == if i < k then receipt.retained[i].index else receipt.removed[i - k].index;
      assert Indices(receipt)[j] == if j < k then receipt.retained[j].index else receipt.removed[j - k].index;
    }
  }

  /** The tests of the indices are those of natural numbers, none twice, those kept in order. */
  lemma {:induction false} IndexedExactly(receipt: Receipt)
    ensures NonNegative(Indices(receipt)) && Distinct(Indices(receipt)) && InOrder(receipt.retained) <==>
            Indexed(receipt)
  {
    if NonNegative(Indices(receipt)) && Distinct(Indices(receipt)) && InOrder(receipt.retained) {
      forall i: nat, j: nat
        ensures i < j < |receipt.retained| ==> receipt.retained[i].index != receipt.retained[j].index
        ensures i < j < |receipt.removed| ==> receipt.removed[i].index != receipt.removed[j].index
        ensures i < |receipt.retained| && j < |receipt.removed| ==>
                  receipt.retained[i].index != receipt.removed[j].index
      {
        ApartAt(receipt, i, j);
      }
      forall i: nat
        ensures i < |receipt.retained| ==> receipt.retained[i].index >= 0
        ensures i < |receipt.removed| ==> receipt.removed[i].index >= 0
      {
        NaturalAt(receipt, i);
      }
    }
    if Indexed(receipt) {
      IndexedIsChecked(receipt);
    }
  }

  /** Without the raw archive a receipt passes exactly when it names the operation, identifies the final archive,
      records the digests of its members in order, and its indices could be some archive's. */
  lemma {:induction false} FinalExactly(tools: Tools, receipt: Receipt, final: Bytes, inventory: bool)
    ensures Validation(tools, receipt, final, None, inventory).Ok? <==>
              && receipt.schemaVersion == 1 && receipt.target == "x64mingw"
              && receipt.operation == "separate-coff-imports-v1"
              && receipt.output == IdentityOf(tools, final) && Indexed(receipt)
              && Parse(final).Ok? && BodyDigests(tools, Parse(final).value) == RecordedDigests(receipt.retained)
  {
    IndexedExactly(receipt);
  }

  /** A raw archive is never taken for validated without an inventory to classify it by; and with one, whatever
      passes passes without the raw archive too. */
  lemma {:induction false} RawNeedsInventory(tools: Tools, receipt: Receipt, final: Bytes, raw: Bytes)
    ensures Validation(tools, receipt, final, Some(raw), false).Err?
    ensures Validation(tools, receipt, final, Some(raw), true).Ok? ==>
              Validation(tools, receipt, final, None, false).Ok?
    ensures Validation(tools, receipt, final, None, false).Ok? ==>
              Validation(tools, receipt, final, Some(raw), false) == Err(NoInventory)
  {
  }

  lemma {:induction false} FailsBefore(tools: Tools, indexTool: Bytes -> Option<Bytes>, raw: Bytes)
    requires Separated(tools, indexTool, raw).Err? && SplitArchive(tools, raw).Ok?
    requires AllFit(SplitArchive(tools, raw).value.kept)
    requires indexTool(Written(SplitArchive(tools, raw).value.kept)).Some?
    ensures var output, error := indexTool(Written(SplitArchive(tools, raw).value.kept)).value,
                                 Separated(tools, indexTool, raw).error;
            (error == Unreadable || error == Changed) && (error == Unreadable <==> Parse(output).Err?)
  {
    var split := SplitArchive(tools, raw).value;
    var output := indexTool(Written(split.kept)).value;
    ReadWhole(tools, raw);
    if Parse(output).Ok? && BodyDigests(tools, Parse(output).value) == RecordedDigests(RetainedOf(tools, split.kept)) {
      ReceiptPasses(tools, raw, output, split);
    }
  }

  /** Why a separation fails: its split does, and says so; or a header does not fit; or the tool fails; or what the
      tool leaves cannot be read, or records other members. The validation after that never refuses. */
  lemma {:induction false} SeparateRefusedExactly(tools: Tools, indexTool: Bytes -> Option<Bytes>, raw: Bytes)
    requires Separated(tools, indexTool, raw).Err?
    ensures var error, split := Separated(tools, indexTool, raw).error, SplitArchive(tools, raw);
            if split.Err? then error == split.error
            else if !AllFit(split.value.kept) then error == HeaderTooLong
            else
              var output := indexTool(Written(split.value.kept));
              if output.None? then error == ToolFailed
              else if Parse(output.value).Err? then error == Unreadable else error == Changed
  {
    var split := SplitArchive(tools, raw);
    if split.Ok? && AllFit(split.value.kept) && indexTool(Written(split.value.kept)).Some? {
      FailsBefore(tools, indexTool, raw);
    }
  }
}
