/** An archive's own index and name table are not members: wherever they stand they are neither kept nor removed,
    and a tool that puts them in changes nothing a separation checks. */
module IndexMembers {

  import opened Wrappers
  import opened Archive
  import opened ArchiveLaws
  import opened ArchiveGrammar
  import opened Separation
  import opened SeparationLaws

  /** The symbol index, or the table of long names. */
  predicate NamesIndex(name: seq<nat>) {
    name == [0x2F] || name == [0x2F, 0x2F]
  }

  function Inserted<T>(s: seq<T>, p: nat, x: T): seq<T>
    requires p <= |s|
  {
    s[..p] + [x] + s[p..]
  }

  function Later(index: nat, p: nat): nat {
    if index < p then index else index + 1
  }

  /** The same bodies, digests and evidence, each index past `p` one more. */
  ghost predicate SameButIndices(a: Split, b: Split, p: nat) {
    && |b.kept| == |a.kept| && |b.removed| == |a.removed|
    && (forall i | 0 <= i < |a.kept| :: b.kept[i] == Kept(Later(a.kept[i].index, p), a.kept[i].body))
    && forall i | 0 <= i < |a.removed| ::
         a.removed[i].index >= 0 && b.removed[i] == a.removed[i].(index := Later(a.removed[i].index, p))
  }

  lemma PrefixesOf(entries: seq<Entry>, p: nat, entry: Entry, n: nat)
    requires p <= n < |entries|
    ensures Inserted(entries, p, entry)[n + 1] == entries[n]
  {
  }

  lemma PrefixInserted(entries: seq<Entry>, p: nat, entry: Entry)
    requires p <= |entries|
    ensures Inserted(entries, p, entry)[..p + 1] == entries[..p] + [entry]
  {
  }

  /** The split of one member more. */
  function Further(tools: Tools, before: Result<Split, SeparationError>, n: nat, entry: Entry):
    Result<Split, SeparationError>
  {
    match before
    case Err(error) => Err(error)
    case Ok(split) => SplitStep(tools, split, n, entry)
  }

  lemma {:induction false} SplitFurther(tools: Tools, entries: seq<Entry>, n: nat, k: nat)
    requires n < |entries| && k == n + 1
    ensures SplitOf(tools, entries[..k]) == Further(tools, SplitOf(tools, entries[..n]), n, entries[n])
  {
    assert entries[..k][..n] == entries[..n];
  }

  ghost predicate SameOutcome(a: Result<Split, SeparationError>, b: Result<Split, SeparationError>, p: nat) {
    if a.Ok? then b.Ok? && SameButIndices(a.value, b.value, p) else b == a
  }

  lemma {:induction false} SplitBefore(tools: Tools, entries: seq<Entry>, p: nat, n: nat)
    requires n <= p <= |entries| && SplitOf(tools, entries[..n]).Ok?
    ensures var split := SplitOf(tools, entries[..n]).value;
            && (forall i | 0 <= i < |split.kept| :: split.kept[i].index < n)
            && forall i | 0 <= i < |split.removed| :: 0 <= split.removed[i].index < n
  {
    if n > 0 {
      assert entries[..n][..n - 1] == entries[..n - 1];
      SplitBefore(tools, entries, p, n - 1);
    }
  }

  lemma {:induction false} FurtherSame(
    tools: Tools, a: Result<Split, SeparationError>, b: Result<Split, SeparationError>, p: nat, n: nat, entry: Entry)
    requires SameOutcome(a, b, p) && n >= p
    ensures SameOutcome(Further(tools, a, n, entry), Further(tools, b, n + 1, entry), p)
  {
  }

  lemma {:induction false} InsertedFirst(tools: Tools, entries: seq<Entry>, p: nat, entry: Entry, k: nat)
    requires p <= |entries| && NamesIndex(entry.name) && k == p + 1
    ensures SameOutcome(SplitOf(tools, entries[..p]), SplitOf(tools, Inserted(entries, p, entry)[..k]), p)
  {
    var longer := entries[..p] + [entry];
    PrefixInserted(entries, p, entry);
    assert longer[..p] == entries[..p] && longer[..k] == longer;
    SplitFurther(tools, longer, p, k);
    if SplitOf(tools, entries[..p]).Ok? {
      SplitBefore(tools, entries, p, p);
    }
  }

  /** An index member put anywhere changes no body, digest or evidence kept or removed, only the indices after it;
      and no refusal. */
  lemma {:induction false} IndexChangesNothing(
    tools: Tools, entries: seq<Entry>, p: nat, entry: Entry, n: nat, k: nat)
    requires p <= n <= |entries| && NamesIndex(entry.name) && k == n + 1
    ensures SameOutcome(SplitOf(tools, entries[..n]), SplitOf(tools, Inserted(entries, p, entry)[..k]), p)
    decreases n
  {
    if n == p {
      InsertedFirst(tools, entries, p, entry, k);
    } else {
      IndexChangesNothing(tools, entries, p, entry, n - 1, n);
      SplitFurther(tools, entries, n - 1, n);
      SplitFurther(tools, Inserted(entries, p, entry), n, k);
      PrefixesOf(entries, p, entry, n - 1);
      FurtherSame(tools, SplitOf(tools, entries[..n - 1]), SplitOf(tools, Inserted(entries, p, entry)[..n]), p, n - 1,
                  entries[n - 1]);
    }
  }

  lemma InsertedImage(images: seq<Bytes>, entries: seq<Entry>, p: nat, image: Bytes, entry: Entry)
    requires p <= |entries| && AreImages(images, entries) && IsImage(image, entry)
    ensures AreImages(Inserted(images, p, image), Inserted(entries, p, entry))
  {
    forall i | 0 <= i < |entries| + 1 ensures IsImage(Inserted(images, p, image)[i], Inserted(entries, p, entry)[i]) {
      if i < p {
        assert IsImage(images[i], entries[i]);
      } else if i > p {
        assert IsImage(images[i - 1], entries[i - 1]);
      }
    }
  }

  /** The same of the archive's bytes: the image of an index member put between any two members of an archive. */
  lemma {:induction false} IndexPutIn(
    tools: Tools, data: Bytes, images: seq<Bytes>, entries: seq<Entry>, p: nat, image: Bytes, entry: Entry)
    requires IsArchive(data, images, entries) && p <= |entries| && IsImage(image, entry) && NamesIndex(entry.name)
    ensures SameOutcome(SplitArchive(tools, data), SplitArchive(tools, MAGIC + Flat(Inserted(images, p, image))), p)
  {
    var after, longer := MAGIC + Flat(Inserted(images, p, image)), Inserted(entries, p, entry);
    var n, k := |entries|, |longer|;
    InsertedImage(images, entries, p, image, entry);
    assert IsArchive(after, Inserted(images, p, image), longer);
    ParsesExactly(data, entries);
    ParsesExactly(after, longer);
    ReadWhole(tools, data);
    ReadWhole(tools, after);
    IndexChangesNothing(tools, entries, p, entry, n, k);
    assert entries[..n] == entries && longer[..k] == longer;
  }

  /** And they are all that is left out: any other member is kept, or removed with the classifier's evidence. */
  lemma {:induction false} FateExactly(tools: Tools, entries: seq<Entry>, i: nat, evidence: Evidence)
    requires i < |entries| && SplitOf(tools, entries).Ok?
    ensures var split, body, index := SplitOf(tools, entries).value, entries[i].body, NamesIndex(entries[i].name);
            && (Kept(i, body) in split.kept <==> !index && tools.classify(body) == Implementation)
            && (Removed(i, tools.digest(body), evidence) in split.removed <==>
                !index && tools.classify(body) == Removable(evidence))
  {
    assert entries[..|entries|] == entries;
    SplitIsDescription(tools, entries, |entries|);
    var split, body := SplitOf(tools, entries).value, entries[i].body;
    var retained, record := RetainedOf(tools, split.kept), Retained(i, tools.digest(body));
    assert RemovedEntry(tools, entries, Removed(i, tools.digest(body), evidence)) <==>
           Removed(i, tools.digest(body), evidence) in split.removed;
    assert KeptEntry(tools, entries, record) <==> record in retained;
    if record in retained {
      var j :| 0 <= j < |retained| && retained[j] == record;
      assert split.kept[j] == Kept(i, body);
    }
    if Kept(i, body) in split.kept {
      var j :| 0 <= j < |split.kept| && split.kept[j] == Kept(i, body);
      assert retained[j] == record;
    }
  }

  lemma {:induction false} DigestsConcat(tools: Tools, a: seq<Entry>, b: seq<Entry>)
    ensures BodyDigests(tools, a + b) == BodyDigests(tools, a) + BodyDigests(tools, b)
  {
    if b == [] {
      assert a + b == a;
    } else {
      assert (a + b)[..|a + b| - 1] == a + b[..|b| - 1];
      DigestsConcat(tools, a, b[..|b| - 1]);
    }
  }

  /** What an indexing tool puts before the members of an archive: any images of index members. */
  ghost predicate AreIndexes(images: seq<Bytes>, entries: seq<Entry>) {
    AreImages(images, entries) && forall i | 0 <= i < |entries| :: NamesIndex(entries[i].name)
  }

  lemma {:induction false} IndexesHaveNoDigests(tools: Tools, entries: seq<Entry>)
    requires forall i | 0 <= i < |entries| :: NamesIndex(entries[i].name)
    ensures BodyDigests(tools, entries) == []
  {
    if entries != [] {
      IndexesHaveNoDigests(tools, entries[..|entries| - 1]);
    }
  }

  lemma Associative<T>(a: seq<T>, b: seq<T>, c: seq<T>)
    ensures a + b + c == a + (b + c)
  {
  }

  lemma FirstOf<T>(a: seq<T>, b: seq<T>)
    requires a != []
    ensures a + b == [a[0]] + (a[1..] + b)
  {
  }

  lemma {:induction false} OneImageFirst(
    images: seq<Bytes>, entries: seq<Entry>, rest: Bytes, more: seq<Entry>, members: seq<Entry>)
    requires images != [] && entries != [] && IsImage(images[0], entries[0]) && more == entries[1..] + members
    requires ParseFrom(Flat(images[1..]) + rest) == Ok(more)
    ensures ParseFrom(Flat(images) + rest) == Ok(entries + members)
  {
    ImageFirst(images[0], entries[0], Flat(images[1..]) + rest, more);
    Associative(images[0], Flat(images[1..]), rest);
    FirstOf(entries, members);
  }

  lemma {:induction false} ImagesFirst(images: seq<Bytes>, entries: seq<Entry>, rest: Bytes, members: seq<Entry>)
    requires AreImages(images, entries) && ParseFrom(rest) == Ok(members)
    ensures ParseFrom(Flat(images) + rest) == Ok(entries + members)
  {
    if images == [] {
      assert [] + rest == rest && entries + members == members;
    } else {
      assert AreImages(images[1..], entries[1..]);
      ImagesFirst(images[1..], entries[1..], rest, members);
      OneImageFirst(images, entries, rest, entries[1..] + members, members);
    }
  }

  /** The archive `separate` wrote, with index members put before its members. */
  function Indexed(indexes: seq<Bytes>, kept: seq<Kept>): Bytes {
    MAGIC + (Flat(indexes) + WrittenFrom(kept))
  }

  /** It still records exactly the digests of the members kept. */
  lemma {:induction false} IndexedPasses(tools: Tools, indexes: seq<Bytes>, entries: seq<Entry>, kept: seq<Kept>)
    requires AllFit(kept) && AreIndexes(indexes, entries)
    ensures Parse(Indexed(indexes, kept)).Ok?
    ensures BodyDigests(tools, Parse(Indexed(indexes, kept)).value) == RecordedDigests(RetainedOf(tools, kept))
  {
    UnindexedPasses(tools, kept);
    SignatureFirst(WrittenFrom(kept));
    SignatureFirst(Flat(indexes) + WrittenFrom(kept));
    var members := Parse(Written(kept)).value;
    ImagesFirst(indexes, entries, WrittenFrom(kept), members);
    DigestsConcat(tools, entries, members);
    IndexesHaveNoDigests(tools, entries);
  }

  /** So a separation whose tool indexes what was written succeeds exactly when one whose tool does nothing does. */
  lemma {:induction false} SeparateIndexed(
    tools: Tools, indexTool: Bytes -> Option<Bytes>, indexes: seq<Bytes>, entries: seq<Entry>, raw: Bytes)
    requires AreIndexes(indexes, entries)
    requires forall kept | AllFit(kept) :: indexTool(Written(kept)) == Some(Indexed(indexes, kept))
    ensures Separated(tools, indexTool, raw).Ok? <==>
              && Parse(raw).Ok? && Classifiable(tools, Parse(raw).value) && SplitOf(tools, Parse(raw).value).Ok?
              && AllFit(SplitOf(tools, Parse(raw).value).value.kept)
  {
    SeparateNeverRefusesItself(tools, indexTool, raw);
    SeparateUnindexed(tools, raw);
    if Parse(raw).Ok? && SplitOf(tools, Parse(raw).value).Ok? {
      var kept := SplitOf(tools, Parse(raw).value).value.kept;
      assert Parse(raw).value[..|Parse(raw).value|] == Parse(raw).value;
      SplitIsDescription(tools, Parse(raw).value, |Parse(raw).value|);
      if AllFit(kept) {
        IndexedPasses(tools, indexes, entries, kept);
      }
    }
  }

  /** An index member as tools write it: its name padded, fields that do not matter, and its size. */
  lemma {:induction false} IndexImage(name: Bytes, fields: Bytes, body: Bytes)
    requires NamesIndex(name) && |fields| == 32 && |Decimal(|body|)| <= 10
    ensures IsImage(LeftJustified(name, 16) + (fields + (LeftJustified(Decimal(|body|), 10) + (HEADER_END + (body +
                    if |body| % 2 == 1 then [0x0A] else [])))), Entry(name, body))
  {
    var size := LeftJustified(Decimal(|body|), 10);
    var tail := body + if |body| % 2 == 1 then [0x0A] else [];
    var b := LeftJustified(name, 16) + (fields + (size + (HEADER_END + tail)));
    NameReadsBack(name, 16);
    PaddedDecimalReadsBack(|body|, 10);
    assert b[..16] == LeftJustified(name, 16);
    assert b[16..] == fields + (size + (HEADER_END + tail));
    assert b[48..] == b[16..][32..] == size + (HEADER_END + tail);
    assert b[48..58] == b[48..][..10] == size;
    assert b[58..] == b[48..][10..] == HEADER_END + tail;
    assert b[60..] == b[58..][2..] == tail;
    assert b[60..60 + |body|] == b[60..][..|body|] == body;
  }
}
