/** What a separation receipt proves: the split it describes is the classifier's, in order, with nothing
    lost, added or listed twice; and the separator's own receipt is never refused. */
module SeparationLaws {

  import opened Wrappers
  import opened Archive
  import opened ArchiveLaws
  import opened Separation

  lemma PrefixEntries(tools: Tools, entries: seq<Entry>, n: nat, r: Retained, s: Removed)
    requires n < |entries|
    ensures KeptEntry(tools, entries[..n + 1], r) <==>
              KeptEntry(tools, entries[..n], r) || (r.index == n && KeptEntry(tools, entries[..n + 1], r))
    ensures RemovedEntry(tools, entries[..n + 1], s) <==>
              RemovedEntry(tools, entries[..n], s) || (s.index == n && RemovedEntry(tools, entries[..n + 1], s))
  {
    assert forall i | 0 <= i < n :: entries[..n + 1][i] == entries[..n][i];
  }

  /** A split as the receipt records it. */
  ghost predicate SplitDescribed(tools: Tools, entries: seq<Entry>, split: Split) {
    && Describes(tools, entries, RetainedOf(tools, split.kept), split.removed)
    && forall i | 0 <= i < |split.kept| ::
         split.kept[i].index < |entries| && split.kept[i].body == entries[split.kept[i].index].body
  }

  lemma KeepDescribed(tools: Tools, entries: seq<Entry>, split: Split, n: nat)
    requires n < |entries| && SplitDescribed(tools, entries[..n], split)
    requires !IsIndex(entries[n].name) && tools.classify(entries[n].body) == Implementation
    ensures SplitDescribed(tools, entries[..n + 1], split.(kept := split.kept + [Kept(n, entries[n].body)]))
  {
    var before, kept := RetainedOf(tools, split.kept), split.kept + [Kept(n, entries[n].body)];
    var record := Retained(n, tools.digest(entries[n].body));
    assert RetainedOf(tools, kept) == before + [record];
    forall r ensures r in before + [record] <==> KeptEntry(tools, entries[..n + 1], r) {
      PrefixEntries(tools, entries, n, r, Removed(0, "", StructuralHelper([])));
    }
    forall r ensures r in split.removed <==> RemovedEntry(tools, entries[..n + 1], r) {
      PrefixEntries(tools, entries, n, record, r);
    }
    assert RetainedAscends(before + [record]) by {
      assert forall i | 0 <= i < |before| :: before[i] in before;
    }
  }

  lemma RemoveDescribed(tools: Tools, entries: seq<Entry>, split: Split, n: nat, evidence: Evidence)
    requires n < |entries| && SplitDescribed(tools, entries[..n], split)
    requires !IsIndex(entries[n].name) && tools.classify(entries[n].body) == Removable(evidence)
    ensures SplitDescribed(tools, entries[..n + 1],
                           split.(removed := split.removed + [Removed(n, tools.digest(entries[n].body), evidence)]))
  {
    var record := Removed(n, tools.digest(entries[n].body), evidence);
    forall r ensures r in split.removed + [record] <==> RemovedEntry(tools, entries[..n + 1], r) {
      PrefixEntries(tools, entries, n, Retained(0, ""), r);
    }
    forall r ensures r in RetainedOf(tools, split.kept) <==> KeptEntry(tools, entries[..n + 1], r) {
      PrefixEntries(tools, entries, n, r, record);
    }
    assert RemovedAscends(split.removed + [record]) by {
      assert forall i | 0 <= i < |split.removed| :: split.removed[i] in split.removed;
    }
  }

  lemma SkipDescribed(tools: Tools, entries: seq<Entry>, split: Split, n: nat)
    requires n < |entries| && SplitDescribed(tools, entries[..n], split) && IsIndex(entries[n].name)
    ensures SplitDescribed(tools, entries[..n + 1], split)
  {
    forall r ensures r in split.removed <==> RemovedEntry(tools, entries[..n + 1], r) {
      PrefixEntries(tools, entries, n, Retained(0, ""), r);
    }
    forall r ensures r in RetainedOf(tools, split.kept) <==> KeptEntry(tools, entries[..n + 1], r) {
      PrefixEntries(tools, entries, n, r, Removed(0, "", StructuralHelper([])));
    }
  }

  /** The split succeeds exactly when every member is classifiable, and then it describes the archive. */
  lemma {:induction false} SplitIsDescription(tools: Tools, entries: seq<Entry>, n: nat)
    requires n <= |entries|
    ensures SplitOf(tools, entries[..n]).Ok? <==> Classifiable(tools, entries[..n])
    ensures SplitOf(tools, entries[..n]).Ok? ==> SplitDescribed(tools, entries[..n], SplitOf(tools, entries[..n]).value)
  {
    if n > 0 {
      SplitIsDescription(tools, entries, n - 1);
      assert entries[..n][..n - 1] == entries[..n - 1];
      ClassifiableStep(tools, entries, n - 1);
      var before := SplitOf(tools, entries[..n - 1]);
      if before.Ok? {
        if IsIndex(entries[n - 1].name) {
          SkipDescribed(tools, entries, before.value, n - 1);
        } else {
          match tools.classify(entries[n - 1].body)
          case Implementation => KeepDescribed(tools, entries, before.value, n - 1);
          case Removable(evidence) => RemoveDescribed(tools, entries, before.value, n - 1, evidence);
          case Unsupported =>
        }
      }
    }
  }

  lemma ClassifiableStep(tools: Tools, entries: seq<Entry>, n: nat)
    requires n < |entries|
    ensures Classifiable(tools, entries[..n + 1]) <==>
              && Classifiable(tools, entries[..n])
              && (IsIndex(entries[n].name) || !tools.classify(entries[n].body).Unsupported?)
  {
    assert forall i | 0 <= i < n :: entries[..n][i] == entries[..n + 1][i];
    assert entries[..n + 1][n] == entries[n];
  }

  // There is only one description.

  ghost predicate SameRetained(a: seq<Retained>, b: seq<Retained>) {
    forall r :: r in a <==> r in b
  }

  lemma RetainedWithoutLast(a: seq<Retained>, r: Retained)
    requires RetainedAscends(a) && |a| > 0
    ensures r in a[..|a| - 1] <==> r in a && r != a[|a| - 1]
  {
    assert a == a[..|a| - 1] + [a[|a| - 1]];
  }

  lemma {:induction false} RetainedUnique(a: seq<Retained>, b: seq<Retained>)
    requires RetainedAscends(a) && RetainedAscends(b) && SameRetained(a, b)
    ensures a == b
  {
    assert |a| > 0 ==> a[0] in a;
    assert |b| > 0 ==> b[0] in b;
    if |a| > 0 && |b| > 0 {
      var x, y := a[|a| - 1], b[|b| - 1];
      assert x in b && y in a;
      assert x == y;
      var before, before' := a[..|a| - 1], b[..|b| - 1];
      forall r ensures r in before <==> r in before' {
        RetainedWithoutLast(a, r);
        RetainedWithoutLast(b, r);
      }
      RetainedUnique(a[..|a| - 1], b[..|b| - 1]);
      assert a == a[..|a| - 1] + [x] && b == b[..|b| - 1] + [y];
    }
  }

  ghost predicate SameRemoved(a: seq<Removed>, b: seq<Removed>) {
    forall r :: r in a <==> r in b
  }

  lemma RemovedWithoutLast(a: seq<Removed>, r: Removed)
    requires RemovedAscends(a) && |a| > 0
    ensures r in a[..|a| - 1] <==> r in a && r != a[|a| - 1]
  {
    assert a == a[..|a| - 1] + [a[|a| - 1]];
  }

  lemma {:induction false} RemovedUnique(a: seq<Removed>, b: seq<Removed>)
    requires RemovedAscends(a) && RemovedAscends(b) && SameRemoved(a, b)
    ensures a == b
  {
    assert |a| > 0 ==> a[0] in a;
    assert |b| > 0 ==> b[0] in b;
    if |a| > 0 && |b| > 0 {
      var x, y := a[|a| - 1], b[|b| - 1];
      assert x in b && y in a;
      assert x == y;
      var before, before' := a[..|a| - 1], b[..|b| - 1];
      forall r ensures r in before <==> r in before' {
        RemovedWithoutLast(a, r);
        RemovedWithoutLast(b, r);
      }
      RemovedUnique(a[..|a| - 1], b[..|b| - 1]);
      assert a == a[..|a| - 1] + [x] && b == b[..|b| - 1] + [y];
    }
  }

  /** The ledger comparison of the validator: the recorded lists are the split exactly when they describe it. */
  lemma LedgerIsDescription(tools: Tools, entries: seq<Entry>, retained: seq<Retained>, removed: seq<Removed>)
    ensures (&& SplitOf(tools, entries).Ok?
             && RetainedOf(tools, SplitOf(tools, entries).value.kept) == retained
             && SplitOf(tools, entries).value.removed == removed)
            <==> Classifiable(tools, entries) && Describes(tools, entries, retained, removed)
  {
    assert entries[..|entries|] == entries;
    SplitIsDescription(tools, entries, |entries|);
    if Classifiable(tools, entries) && Describes(tools, entries, retained, removed) {
      var split := SplitOf(tools, entries).value;
      RetainedUnique(RetainedOf(tools, split.kept), retained);
      RemovedUnique(split.removed, removed);
    }
  }

  /** A description lists no member twice and none out of order. */
  lemma DescribedIndices(tools: Tools, entries: seq<Entry>, receipt: Receipt)
    requires Describes(tools, entries, receipt.retained, receipt.removed)
    ensures NonNegative(Indices(receipt)) && Distinct(Indices(receipt)) && InOrder(receipt.retained)
  {
    var indices, k := Indices(receipt), |receipt.retained|;
    forall i | 0 <= i < |indices| ensures indices[i] >= 0 {
      assert if i < k then receipt.retained[i] in receipt.retained else receipt.removed[i - k] in receipt.removed;
    }
    forall i, j | 0 <= i < j < |indices| ensures indices[i] != indices[j] {
      if i < k <= j {
        assert receipt.retained[i] in receipt.retained && receipt.removed[j - k] in receipt.removed;
        assert KeptEntry(tools, entries, receipt.retained[i]) && RemovedEntry(tools, entries, receipt.removed[j - k]);
      }
    }
  }

  /** A receipt passes with raw bytes and an inventory exactly when it names the operation, identifies both
      archives, records the digests of the final members in order, and describes the in-order split of the
      raw archive's members by the classifier. */
  lemma ValidationExactly(tools: Tools, receipt: Receipt, final: Bytes, raw: Bytes)
    ensures Validation(tools, receipt, final, Some(raw), true).Ok? <==>
              && receipt.schemaVersion == 1 && receipt.target == TARGET && receipt.operation == OPERATION
              && receipt.output == IdentityOf(tools, final) && receipt.input == IdentityOf(tools, raw)
              && Parse(final).Ok? && BodyDigests(tools, Parse(final).value) == RecordedDigests(receipt.retained)
              && Parse(raw).Ok? && Classifiable(tools, Parse(raw).value)
              && Describes(tools, Parse(raw).value, receipt.retained, receipt.removed)
  {
    ParsedArchive(raw);
    if Parse(raw).Ok? {
      var entries := Parse(raw).value;
      LedgerIsDescription(tools, entries, receipt.retained, receipt.removed);
      if Describes(tools, entries, receipt.retained, receipt.removed) {
        DescribedIndices(tools, entries, receipt);
      }
    }
  }

  /** A member the classifier refuses is reported before one after it that cannot be read, and a split
      succeeds exactly when there is neither. */
  lemma SplitRefusedExactly(tools: Tools, raw: Bytes)
    ensures SplitArchive(tools, raw).Ok? <==> Parse(raw).Ok? && Classifiable(tools, Parse(raw).value)
    ensures SplitArchive(tools, raw) == Err(UnsupportedMember) <==> !Classifiable(tools, Readable(raw))
    ensures SplitArchive(tools, raw) == Err(Unreadable) <==> Parse(raw).Err? && Classifiable(tools, Readable(raw))
    ensures Parse(raw).Ok? ==> Parse(raw).value == Readable(raw)
  {
    var entries := Readable(raw);
    assert entries[..|entries|] == entries;
    SplitIsDescription(tools, entries, |entries|);
    SplitErrorIsRefusal(tools, entries);
    ParsedArchive(raw);
  }

  lemma ParsedArchive(raw: Bytes)
    ensures Parse(raw).Ok? ==> Parse(raw).value == Readable(raw)
  {
    if MAGIC <= raw {
      ParsedIsReadable(raw[8..]);
    }
  }

  lemma {:induction false} SplitErrorIsRefusal(tools: Tools, entries: seq<Entry>)
    ensures SplitOf(tools, entries).Err? ==> SplitOf(tools, entries).error == UnsupportedMember
  {
    if entries != [] {
      SplitErrorIsRefusal(tools, entries[..|entries| - 1]);
    }
  }

  /** The conditions under which a separation can succeed, before its receipt is validated. */
  ghost predicate Separable(tools: Tools, indexTool: Bytes -> Option<Bytes>, raw: Bytes) {
    && Parse(raw).Ok? && SplitOf(tools, Parse(raw).value).Ok?
    && var kept := SplitOf(tools, Parse(raw).value).value.kept;
       && AllFit(kept) && indexTool(Written(kept)).Some?
       && var output := indexTool(Written(kept)).value;
          && Parse(output).Ok? && BodyDigests(tools, Parse(output).value) == RecordedDigests(RetainedOf(tools, kept))
  }

  /** The receipt of a split and an output that records what it kept passes. */
  lemma ReceiptPasses(tools: Tools, raw: Bytes, output: Bytes, split: Split)
    requires Parse(raw).Ok? && SplitOf(tools, Parse(raw).value) == Ok(split)
    requires Parse(output).Ok?
    requires BodyDigests(tools, Parse(output).value) == RecordedDigests(RetainedOf(tools, split.kept))
    ensures Validation(tools, ReceiptOf(tools, raw, output, split), output, Some(raw), true) == Ok(())
  {
    var receipt := ReceiptOf(tools, raw, output, split);
    LedgerIsDescription(tools, Parse(raw).value, receipt.retained, receipt.removed);
    ValidationExactly(tools, receipt, output, raw);
  }

  lemma ReadWhole(tools: Tools, data: Bytes)
    ensures Parse(data).Ok? ==> SplitArchive(tools, data) == SplitOf(tools, Parse(data).value)
    ensures Parse(data).Err? ==> SplitArchive(tools, data).Err?
  {
    ParsedArchive(data);
  }

  /** The receipt of a separation always passes: the final validation refuses nothing the steps before it
      let through. */
  lemma SeparateNeverRefusesItself(tools: Tools, indexTool: Bytes -> Option<Bytes>, raw: Bytes)
    ensures Separated(tools, indexTool, raw).Ok? <==> Separable(tools, indexTool, raw)
  {
    ReadWhole(tools, raw);
    if Parse(raw).Ok? && SplitOf(tools, Parse(raw).value).Ok? {
      var split := SplitOf(tools, Parse(raw).value).value;
      var output := indexTool(Written(split.kept));
      if && AllFit(split.kept) && output.Some? && Parse(output.value).Ok?
         && BodyDigests(tools, Parse(output.value).value) == RecordedDigests(RetainedOf(tools, split.kept)) {
        ReceiptPasses(tools, raw, output.value, split);
      }
    }
  }

  lemma {:induction false} ObjectDigests(tools: Tools, entries: seq<Entry>, n: nat)
    requires n <= |entries| && forall i | 0 <= i < |entries| :: !IsIndex(entries[i].name)
    ensures |BodyDigests(tools, entries[..n])| == n
    ensures forall i | 0 <= i < n :: BodyDigests(tools, entries[..n])[i] == tools.digest(entries[i].body)
  {
    if n > 0 {
      ObjectDigests(tools, entries, n - 1);
      assert entries[..n][..n - 1] == entries[..n - 1];
    }
  }

  /** Before indexing, the written archive already records exactly the digests of the members kept: a tool
      that leaves the members alone always passes the check after it. */
  lemma UnindexedPasses(tools: Tools, kept: seq<Kept>)
    requires AllFit(kept)
    ensures Parse(Written(kept)).Ok?
    ensures BodyDigests(tools, Parse(Written(kept)).value) == RecordedDigests(RetainedOf(tools, kept))
  {
    WrittenArchiveReadsBack(kept);
    var entries := Parse(Written(kept)).value;
    ObjectDigests(tools, entries, |entries|);
    assert entries[..|entries|] == entries;
  }

  /** So a separation whose tool leaves the written archive as it is succeeds exactly when the archive
      reads, the classifier refuses none of its members, and the headers of those kept fit. */
  lemma SeparateUnindexed(tools: Tools, raw: Bytes)
    ensures Separated(tools, written => Some(written), raw).Ok? <==>
              && Parse(raw).Ok? && Classifiable(tools, Parse(raw).value) && SplitOf(tools, Parse(raw).value).Ok?
              && AllFit(SplitOf(tools, Parse(raw).value).value.kept)
  {
    SeparateNeverRefusesItself(tools, written => Some(written), raw);
    if Parse(raw).Ok? {
      var entries := Parse(raw).value;
      assert entries[..|entries|] == entries;
      SplitIsDescription(tools, entries, |entries|);
      if Classifiable(tools, entries) && AllFit(SplitOf(tools, entries).value.kept) {
        UnindexedPasses(tools, SplitOf(tools, entries).value.kept);
      }
    }
  }
}
