/** Reading and writing archives (`scripts/windows_gnu_coff.py`), in the format of the "Archive (Library)
    File Format" section of Microsoft's PE Format specification. */
module Archive {

  import opened Wrappers

  type byte = b: int | 0 <= b < 256

  type Bytes = seq<byte>

  /** "!<arch>\n" */
  const MAGIC: Bytes := [0x21, 0x3C, 0x61, 0x72, 0x63, 0x68, 0x3E, 0x0A]
  /** What every member header ends with. */
  const HEADER_END: Bytes := [0x60, 0x0A]
  const OBJECT_SUFFIX: Bytes := [0x2E, 0x6F, 0x62, 0x6A, 0x2F]

  datatype ArchiveError = NotArchive | BadHeader | BadSize | BadName | BadPadding

  /** A member's name, as code points, and its bytes. */
  datatype Entry = Entry(name: seq<nat>, body: Bytes)

  // Numbers.

  predicate IsDigit(b: byte) {
    0x30 <= b <= 0x39
  }

  function DigitValue(b: byte): nat
    requires IsDigit(b)
  {
    b - 0x30
  }

  predicate IsByteSpace(b: byte) {
    b == 0x20 || 0x09 <= b <= 0x0D
  }

  /** Decimal digits, with single underscores allowed between them. */
  function ParseDigits(s: Bytes): Option<nat>
    decreases |s|
  {
    var n := |s|;
    if n == 0 || !IsDigit(s[n - 1]) then None
    else if n == 1 then Some(DigitValue(s[0]))
    else
      var rest := if s[n - 2] == 0x5F then s[..n - 2] else s[..n - 1];
      match ParseDigits(rest)
      case None => None
      case Some(v) => Some(v * 10 + DigitValue(s[n - 1]))
  }

  function StripLeft(s: Bytes): Bytes {
    if s != [] && IsByteSpace(s[0]) then StripLeft(s[1..]) else s
  }

  function StripRight(s: Bytes): Bytes {
    if s != [] && IsByteSpace(s[|s| - 1]) then StripRight(s[..|s| - 1]) else s
  }

  function Signed(negative: bool, v: int): int {
    if negative then -v else v
  }

  /** Python's `int` of bytes: surrounding white space, an optional sign, and digits. */
  function PythonInt(s: Bytes): Option<int> {
    var t := StripRight(StripLeft(s));
    if t != [] && (t[0] == 0x2D || t[0] == 0x2B) then
      var digits := ParseDigits(t[1..]);
      if digits.None? then None else Some(Signed(t[0] == 0x2D, digits.value))
    else ParseDigits(t)
  }

  function Decimal(n: nat): (s: Bytes)
    ensures s != [] && forall i | 0 <= i < |s| :: IsDigit(s[i])
  {
    if n < 10 then [0x30 + n] else Decimal(n / 10) + [0x30 + n % 10]
  }

  // Names.

  predicate Continues(b: byte) {
    0x80 <= b < 0xC0
  }

  /** The payload of a lead or continuation byte above its marker. */
  function Bits(b: byte, marker: int, scale: int): int {
    (b - marker) * scale
  }

  /** Strict UTF-8: no overlong form, no surrogate, nothing past U+10FFFF. */
  function DecodeUtf8(s: Bytes): Option<seq<nat>> {
    if s == [] then Some([])
    else if s[0] < 0x80 then Prepend(s[0], DecodeUtf8(s[1..]))
    else if 0xC2 <= s[0] < 0xE0 && |s| > 1 && Continues(s[1]) then
      Prepend(Bits(s[0], 0xC0, 0x40) + Bits(s[1], 0x80, 1), DecodeUtf8(s[2..]))
    else if 0xE0 <= s[0] < 0xF0 && |s| > 2 && Continues(s[1]) && Continues(s[2]) then
      var c := Bits(s[0], 0xE0, 0x1000) + Bits(s[1], 0x80, 0x40) + Bits(s[2], 0x80, 1);
      if c < 0x800 || 0xD800 <= c < 0xE000 then None else Prepend(c, DecodeUtf8(s[3..]))
    else if 0xF0 <= s[0] < 0xF5 && |s| > 3 && Continues(s[1]) && Continues(s[2]) && Continues(s[3]) then
      var c := Bits(s[0], 0xF0, 0x4_0000) + Bits(s[1], 0x80, 0x1000) + Bits(s[2], 0x80, 0x40) + Bits(s[3], 0x80, 1);
      if c < 0x1_0000 || c >= 0x11_0000 then None else Prepend(c, DecodeUtf8(s[4..]))
    else None
  }

  function Prepend(c: nat, rest: Option<seq<nat>>): Option<seq<nat>> {
    match rest
    case None => None
    case Some(cs) => Some([c] + cs)
  }

  /** What Python's `str.strip` takes for white space. */
  predicate IsTextSpace(c: nat) {
    || 0x09 <= c <= 0x0D || 0x1C <= c <= 0x20 || c == 0x85 || c == 0xA0 || c == 0x1680
    || 0x2000 <= c <= 0x200A || c == 0x2028 || c == 0x2029 || c == 0x202F || c == 0x205F || c == 0x3000
  }

  function TrimLeft(s: seq<nat>): seq<nat> {
    if s != [] && IsTextSpace(s[0]) then TrimLeft(s[1..]) else s
  }

  function TrimRight(s: seq<nat>): seq<nat> {
    if s != [] && IsTextSpace(s[|s| - 1]) then TrimRight(s[..|s| - 1]) else s
  }

  function MemberName(field: Bytes): Option<seq<nat>> {
    match DecodeUtf8(field)
    case None => None
    case Some(cs) => Some(TrimRight(TrimLeft(cs)))
  }

  /** The archive's own symbol index ("/") and name table ("//"). */
  predicate IsIndex(name: seq<nat>) {
    name == [0x2F] || name == [0x2F, 0x2F]
  }

  // Reading.

  /** One member at the start of `rest`, and where the next one starts. */
  datatype Step = Step(entry: Entry, next: nat)

  function ParseEntry(rest: Bytes): (r: Result<Step, ArchiveError>)
    ensures r.Ok? ==> 0 < r.value.next <= |rest|
  {
    if |rest| < 60 || rest[58..60] != HEADER_END then Err(BadHeader)
    else
      var size := PythonInt(rest[48..58]);
      if size.None? || size.value < 0 || 60 + size.value > |rest| then Err(BadSize)
      else
        var name, end := MemberName(rest[..16]), 60 + size.value;
        if name.None? then Err(BadName) else Ok(Step(Entry(name.value, rest[60..end]), end))
  }

  /** A body of odd size is padded with a line feed. */
  function ParseOne(rest: Bytes): (r: Result<Step, ArchiveError>)
    ensures r.Ok? ==> 0 < r.value.next <= |rest|
  {
    match ParseEntry(rest)
    case Err(error) => Err(error)
    case Ok(step) =>
      if |step.entry.body| % 2 == 0 then Ok(step)
      else if step.next == |rest| || rest[step.next] != 0x0A then Err(BadPadding)
      else Ok(step.(next := step.next + 1))
  }

  /** The members from the start of a header on. */
  function ParseFrom(rest: Bytes): Result<seq<Entry>, ArchiveError>
    decreases |rest|
  {
    if rest == [] then Ok([])
    else
      match ParseOne(rest)
      case Err(error) => Err(error)
      case Ok(step) => Prefixed([step.entry], ParseFrom(rest[step.next..]))
  }

  function Prefixed(entries: seq<Entry>, rest: Result<seq<Entry>, ArchiveError>): Result<seq<Entry>, ArchiveError> {
    match rest
    case Err(error) => Err(error)
    case Ok(more) => Ok(entries + more)
  }

  function Parse(data: Bytes): Result<seq<Entry>, ArchiveError> {
    if !(MAGIC <= data) then Err(NotArchive) else ParseFrom(data[8..])
  }

  /** The members read before the data ends or one cannot be read. A member is read before its padding is. */
  function ReadableFrom(rest: Bytes): seq<Entry>
    decreases |rest|
  {
    if rest == [] || ParseEntry(rest).Err? then []
    else if ParseOne(rest).Err? then [ParseEntry(rest).value.entry]
    else [ParseEntry(rest).value.entry] + ReadableFrom(rest[ParseOne(rest).value.next..])
  }

  function Readable(data: Bytes): seq<Entry> {
    if !(MAGIC <= data) then [] else ReadableFrom(data[8..])
  }

  lemma {:induction false} ParsedIsReadable(rest: Bytes)
    ensures ParseFrom(rest).Ok? ==> ParseFrom(rest).value == ReadableFrom(rest)
    decreases |rest|
  {
    if rest != [] && ParseOne(rest).Ok? {
      ParsedIsReadable(rest[ParseOne(rest).value.next..]);
    }
  }

  lemma PrefixedByNothing(rest: Result<seq<Entry>, ArchiveError>)
    ensures Prefixed([], rest) == rest
  {
    if rest.Ok? {
      assert [] + rest.value == rest.value;
    }
  }

  lemma PrefixedTwice(a: seq<Entry>, b: seq<Entry>, rest: Result<seq<Entry>, ArchiveError>)
    ensures Prefixed(a, Prefixed(b, rest)) == Prefixed(a + b, rest)
  {
    if rest.Ok? {
      assert a + (b + rest.value) == a + b + rest.value;
    }
  }

  lemma SliceOfRest(data: Bytes, offset: nat, from: nat, to: nat)
    requires offset <= |data| && from <= to <= |data| - offset
    ensures data[offset..][from..to] == data[offset + from..offset + to]
  {
  }

  /** The member at an offset, and where its body ends. */
  method ReadMember(data: Bytes, offset: nat) returns (result: Result<(Entry, nat), ArchiveError>)
    requires offset < |data|
    ensures match ParseEntry(data[offset..])
            case Err(error) => result == Err(error)
            case Ok(step) => result == Ok((step.entry, offset + step.next))
  {
    if offset + 60 > |data| {
      return Err(BadHeader);
    }
    SliceOfRest(data, offset, 58, 60);
    SliceOfRest(data, offset, 48, 58);
    SliceOfRest(data, offset, 0, 16);
    if data[offset + 58..offset + 60] != HEADER_END {
      return Err(BadHeader);
    }
    var size := PythonInt(data[offset + 48..offset + 58]);
    if size.None? || size.value < 0 || offset + 60 + size.value > |data| {
      return Err(BadSize);
    }
    var name := MemberName(data[offset..offset + 16]);
    if name.None? {
      return Err(BadName);
    }
    var end := offset + 60 + size.value;
    var body := data[offset + 60..end];
    SliceOfRest(data, offset, 60, 60 + size.value);
    result := Ok((Entry(name.value, body), end));
  }

  /** The padding after a body, in the whole data. */
  lemma PaddingAt(data: Bytes, offset: nat, entry: Entry, end: nat)
    requires offset < end <= |data| && ParseEntry(data[offset..]) == Ok(Step(entry, end - offset))
    ensures ParseOne(data[offset..]) ==
              if |entry.body| % 2 == 0 then Ok(Step(entry, end - offset))
              else if end == |data| || data[end] != 0x0A then Err(BadPadding)
              else Ok(Step(entry, end + 1 - offset))
  {
    assert end < |data| ==> data[offset..][end - offset] == data[end];
  }

  lemma SliceFrom(data: Bytes, offset: nat, n: nat)
    requires offset + n <= |data|
    ensures data[offset..][n..] == data[offset + n..]
  {
  }

  lemma RestMoves(rest: Bytes, step: Step)
    requires ParseOne(rest) == Ok(step)
    ensures step.next <= |rest|
    ensures ParseFrom(rest) == Prefixed([step.entry], ParseFrom(rest[step.next..]))
    ensures ReadableFrom(rest) == [step.entry] + ReadableFrom(rest[step.next..])
  {
    assert ParseEntry(rest).Ok? && ParseEntry(rest).value.entry == step.entry;
  }

  lemma EntryMoves(entries: seq<Entry>, entry: Entry, parsed: Result<seq<Entry>, ArchiveError>, readable: seq<Entry>)
    ensures Prefixed(entries, Prefixed([entry], parsed)) == Prefixed(entries + [entry], parsed)
    ensures entries + ([entry] + readable) == entries + [entry] + readable
  {
    PrefixedTwice(entries, [entry], parsed);
  }

  /** A member read moves from what is to be read to what has been. */
  lemma MemberMoves(data: Bytes, offset: nat, entries: seq<Entry>, step: Step, end: nat)
    requires offset < |data| && ParseOne(data[offset..]) == Ok(step) && end == offset + step.next
    ensures end <= |data|
    ensures Prefixed(entries, ParseFrom(data[offset..])) == Prefixed(entries + [step.entry], ParseFrom(data[end..]))
    ensures entries + ReadableFrom(data[offset..]) == entries + [step.entry] + ReadableFrom(data[end..])
  {
    RestMoves(data[offset..], step);
    SliceFrom(data, offset, step.next);
    EntryMoves(entries, step.entry, ParseFrom(data[end..]), ReadableFrom(data[end..]));
  }

  /** A member refused ends both. */
  lemma MemberRefused(data: Bytes, offset: nat, entries: seq<Entry>)
    requires offset < |data| && ParseOne(data[offset..]).Err?
    ensures Prefixed(entries, ParseFrom(data[offset..])) == Err(ParseOne(data[offset..]).error)
    ensures entries + ReadableFrom(data[offset..]) ==
              if ParseEntry(data[offset..]).Err? then entries
              else entries + [ParseEntry(data[offset..]).value.entry]
  {
  }

  /** `members`: an offset advanced over the data, one member at a time. It yields as it reads, so its caller
      has the readable members even when a later one is refused. */
  method Members(data: Bytes) returns (entries: seq<Entry>, result: Result<seq<Entry>, ArchiveError>)
    ensures result == Parse(data) && entries == Readable(data)
    ensures result.Ok? ==> result.value == entries
  {
    entries := [];
    if !(MAGIC <= data) {
      return entries, Err(NotArchive);
    }
    var offset := 8;
    PrefixedByNothing(ParseFrom(data[8..]));
    while offset < |data|
      invariant 8 <= offset <= |data|
      invariant Parse(data) == Prefixed(entries, ParseFrom(data[offset..]))
      invariant Readable(data) == entries + ReadableFrom(data[offset..])
    {
      var next := ReadMember(data, offset);
      if next.Err? {
        MemberRefused(data, offset, entries);
        return entries, Err(next.error);
      }
      var (entry, end) := next.value;
      PaddingAt(data, offset, entry, end);
      if |entry.body| % 2 == 1 {
        if end == |data| || data[end] != 0x0A {
          MemberRefused(data, offset, entries);
          return entries + [entry], Err(BadPadding);
        }
        end := end + 1;
      }
      MemberMoves(data, offset, entries, Step(entry, end - offset), end);
      entries := entries + [entry];
      offset := end;
    }
    assert data[offset..] == [];
    assert entries + [] == entries;
    result := Ok(entries);
  }

  // Writing.

  function Spaces(n: nat): (s: Bytes)
    ensures |s| == n && forall i | 0 <= i < n :: s[i] == 0x20
  {
    seq(n, _ => 0x20)
  }

  function LeftJustified(s: Bytes, width: nat): Bytes {
    s + Spaces(if |s| < width then width - |s| else 0)
  }

  function Name(index: nat): Bytes {
    Decimal(index) + OBJECT_SUFFIX
  }

  /** The fields between the name and the size: date, owner, group and mode. */
  function FixedFields(): (s: Bytes)
    ensures |s| == 32
  {
    LeftJustified([0x30], 12) + LeftJustified([0x30], 6) + LeftJustified([0x30], 6)
    + LeftJustified([0x36, 0x34, 0x34], 8)
  }

  function Header(index: nat, body: Bytes): Bytes {
    LeftJustified(Name(index), 16) + FixedFields() + LeftJustified(Decimal(|body|), 10) + HEADER_END
  }

  /** The header a member of this index and size would get is 60 bytes long. */
  predicate HeaderFits(index: nat, body: Bytes) {
    |Header(index, body)| == 60
  }

  function WrittenMember(index: nat, body: Bytes): Bytes {
    Header(index, body) + body + if |body| % 2 == 1 then [0x0A] else []
  }

  /** A member kept, with its index in the archive it came from. */
  datatype Kept = Kept(index: nat, body: Bytes)

  predicate AllFit(kept: seq<Kept>) {
    forall i | 0 <= i < |kept| :: HeaderFits(kept[i].index, kept[i].body)
  }

  function WrittenFrom(kept: seq<Kept>): Bytes {
    if kept == [] then [] else WrittenMember(kept[0].index, kept[0].body) + WrittenFrom(kept[1..])
  }

  function Written(kept: seq<Kept>): Bytes {
    MAGIC + WrittenFrom(kept)
  }

  lemma {:induction false} WrittenSnoc(kept: seq<Kept>, k: Kept)
    ensures WrittenFrom(kept + [k]) == WrittenFrom(kept) + WrittenMember(k.index, k.body)
  {
    if kept == [] {
      assert [k][1..] == [];
    } else {
      assert (kept + [k])[1..] == kept[1..] + [k];
      WrittenSnoc(kept[1..], k);
    }
  }

  /** One turn of the writing loop. */
  lemma WriteStep(kept: seq<Kept>, i: nat)
    requires i < |kept| && AllFit(kept[..i]) && HeaderFits(kept[i].index, kept[i].body)
    ensures AllFit(kept[..i + 1])
    ensures Written(kept[..i + 1]) == Written(kept[..i]) + WrittenMember(kept[i].index, kept[i].body)
  {
    assert kept[..i + 1] == kept[..i] + [kept[i]];
    WrittenSnoc(kept[..i], kept[i]);
    Associative(MAGIC, WrittenFrom(kept[..i]), WrittenMember(kept[i].index, kept[i].body));
  }

  lemma Associative(a: Bytes, b: Bytes, c: Bytes)
    ensures a + (b + c) == a + b + c
  {
  }

  /** The writing loop of `separate`: every member, or an error at the first header that does not fit. */
  method Write(kept: seq<Kept>) returns (output: Option<Bytes>)
    ensures output == if AllFit(kept) then Some(Written(kept)) else None
  {
    var stream := MAGIC;
    for i := 0 to |kept|
      invariant AllFit(kept[..i]) && stream == Written(kept[..i])
    {
      var member := WriteMember(kept[i].index, kept[i].body);
      if member.None? {
        assert !AllFit(kept);
        return None;
      }
      WriteStep(kept, i);
      stream := stream + member.value;
    }
    assert kept[..|kept|] == kept;
    output := Some(stream);
  }

  method WriteMember(index: nat, body: Bytes) returns (member: Option<Bytes>)
    ensures member == if HeaderFits(index, body) then Some(WrittenMember(index, body)) else None
  {
    var header := Header(index, body);
    if |header| != 60 {
      return None;
    }
    member := Some(header + body + if |body| % 2 == 1 then [0x0A] else []);
  }
}
