/** The archive format as a grammar, and its fields as what they encode: the reader accepts exactly the
    concatenations of member images. */
module ArchiveGrammar {

  import opened Wrappers
  import opened Archive
  import opened ArchiveLaws
  import TextUnits

  // Members.

  /** The bytes of one member: a sixty-byte header with its name and size, its body, and a line feed after a body
      of odd size. */
  ghost predicate IsImage(b: Bytes, entry: Entry) {
    var size := |entry.body|;
    && |b| == 60 + size + size % 2
    && MemberName(b[..16]) == Some(entry.name) && PythonInt(b[48..58]) == Some(size)
    && b[58] == 0x60 && b[59] == 0x0A && b[60..60 + size] == entry.body
    && (size % 2 == 1 ==> b[60 + size] == 0x0A)
  }

  function Flat(images: seq<Bytes>): Bytes {
    if images == [] then [] else images[0] + Flat(images[1..])
  }

  ghost predicate AreImages(images: seq<Bytes>, entries: seq<Entry>) {
    |images| == |entries| && forall i | 0 <= i < |images| :: IsImage(images[i], entries[i])
  }

  /** The archive signature and the images of its members, one after another. */
  ghost predicate IsArchive(data: Bytes, images: seq<Bytes>, entries: seq<Entry>) {
    AreImages(images, entries) && data == MAGIC + Flat(images)
  }

  lemma {:induction false} SliceOfStart(b: Bytes, rest: Bytes, from: nat, to: nat)
    requires from <= to <= |b|
    ensures (b + rest)[from..to] == b[from..to]
  {
  }

  lemma {:induction false} ImageParses(b: Bytes, entry: Entry, rest: Bytes)
    requires IsImage(b, entry)
    ensures ParseOne(b + rest) == Ok(Step(entry, |b|)) && (b + rest)[|b|..] == rest
  {
    var all, size := b + rest, |entry.body|;
    SliceOfStart(b, rest, 0, 16);
    SliceOfStart(b, rest, 48, 58);
    SliceOfStart(b, rest, 58, 60);
    SliceOfStart(b, rest, 60, 60 + size);
    assert all[..16] == b[..16] && b[58..60] == [0x60, 0x0A];
  }

  lemma {:induction false} ParsedIsImage(data: Bytes, step: Step)
    requires ParseOne(data) == Ok(step)
    ensures step.next <= |data| && IsImage(data[..step.next], step.entry)
  {
    var size := |step.entry.body|;
    var b := data[..step.next];
    assert b[..16] == data[..16] && b[48..58] == data[48..58] && b[60..60 + size] == data[60..60 + size];
    assert data[58..60][0] == data[58] && data[58..60][1] == data[59];
  }

  lemma {:induction false} ImageFirst(image: Bytes, entry: Entry, rest: Bytes, entries: seq<Entry>)
    requires IsImage(image, entry) && ParseFrom(rest) == Ok(entries)
    ensures ParseFrom(image + rest) == Ok([entry] + entries)
  {
    ImageParses(image, entry, rest);
    RestMoves(image + rest, Step(entry, |image|));
  }

  lemma {:induction false} ImagesParse(images: seq<Bytes>, entries: seq<Entry>)
    requires AreImages(images, entries)
    ensures ParseFrom(Flat(images)) == Ok(entries)
  {
    if images != [] {
      assert AreImages(images[1..], entries[1..]);
      ImagesParse(images[1..], entries[1..]);
      ImageFirst(images[0], entries[0], Flat(images[1..]), entries[1..]);
      assert [entries[0]] + entries[1..] == entries;
    }
  }

  lemma {:induction false} ImagesAfter(image: Bytes, entry: Entry, more: seq<Bytes>, entries: seq<Entry>)
    requires IsImage(image, entry) && AreImages(more, entries)
    ensures AreImages([image] + more, [entry] + entries) && Flat([image] + more) == image + Flat(more)
  {
    assert ([image] + more)[1..] == more;
  }

  lemma {:induction false} Cut(s: Bytes, n: nat)
    requires n <= |s|
    ensures s[..n] + s[n..] == s
  {
  }

  lemma {:induction false} ImageBefore(rest: Bytes, step: Step, entries: seq<Entry>, more: seq<Bytes>)
    requires ParseOne(rest) == Ok(step) && step.next <= |rest| && ParseFrom(rest) == Ok([step.entry] + entries)
    requires AreImages(more, entries) && Flat(more) == rest[step.next..]
    ensures AreImages([rest[..step.next]] + more, [step.entry] + entries)
    ensures Flat([rest[..step.next]] + more) == rest
  {
    ParsedIsImage(rest, step);
    ImagesAfter(rest[..step.next], step.entry, more, entries);
    Cut(rest, step.next);
  }

  lemma {:induction false} ParsedAreImages(rest: Bytes) returns (images: seq<Bytes>)
    requires ParseFrom(rest).Ok?
    ensures AreImages(images, ParseFrom(rest).value) && Flat(images) == rest
    decreases |rest|
  {
    if rest == [] {
      images := [];
    } else {
      var step := ParseOne(rest).value;
      RestMoves(rest, step);
      var more := ParsedAreImages(rest[step.next..]);
      ImageBefore(rest, step, ParseFrom(rest[step.next..]).value, more);
      images := [rest[..step.next]] + more;
    }
  }

  lemma {:induction false} SignatureFirst(rest: Bytes)
    ensures MAGIC <= MAGIC + rest && (MAGIC + rest)[8..] == rest
    ensures Parse(MAGIC + rest) == ParseFrom(rest)
  {
  }

  lemma {:induction false} SignatureRead(data: Bytes)
    requires MAGIC <= data
    ensures data == MAGIC + data[8..] && Parse(data) == ParseFrom(data[8..])
  {
  }

  /** The reader accepts data as an archive of some members exactly when it is the signature and an image of
      each of them, in order. */
  lemma {:induction false} ParsesExactly(data: Bytes, entries: seq<Entry>)
    ensures Parse(data) == Ok(entries) <==> exists images :: IsArchive(data, images, entries)
  {
    if Parse(data) == Ok(entries) {
      SignatureRead(data);
      var images := ParsedAreImages(data[8..]);
      assert IsArchive(data, images, entries);
    }
    if images :| IsArchive(data, images, entries) {
      ImagesParse(images, entries);
      SignatureFirst(Flat(images));
    }
  }

  // Numbers.

  predicate AllSpaces(s: Bytes) {
    forall i | 0 <= i < |s| :: s[i] == 0x20 || 0x09 <= s[i] <= 0x0D
  }

  lemma {:induction false} StripLeftSpaces(spaces: Bytes, s: Bytes)
    requires AllSpaces(spaces) && s != [] && !IsByteSpace(s[0])
    ensures StripLeft(spaces + s) == s
  {
    if spaces == [] {
      assert spaces + s == s;
    } else {
      assert (spaces + s)[1..] == spaces[1..] + s;
      StripLeftSpaces(spaces[1..], s);
    }
  }

  lemma {:induction false} StripRightSpaces(s: Bytes, spaces: Bytes)
    requires AllSpaces(spaces) && s != [] && !IsByteSpace(s[|s| - 1])
    ensures StripRight(s + spaces) == s
  {
    if spaces == [] {
      assert s + spaces == s;
    } else {
      var all := s + spaces;
      assert all[..|all| - 1] == s + spaces[..|spaces| - 1];
      StripRightSpaces(s, spaces[..|spaces| - 1]);
    }
  }

  /** A number reads as itself whatever white space is around it, with its sign. */
  lemma {:induction false} SignedReadsBack(left: Bytes, n: nat, right: Bytes)
    requires AllSpaces(left) && AllSpaces(right)
    ensures PythonInt(left + (Decimal(n) + right)) == Some(n)
    ensures var minus := PythonInt(left + (([0x2D] + Decimal(n)) + right)); minus.Some? && minus.value + n == 0
    ensures PythonInt(left + (([0x2B] + Decimal(n)) + right)) == Some(n)
  {
    var s := Decimal(n);
    DecimalReadsBack(n);
    NumberReads(left, s, right);
    NumberReads(left, [0x2D] + s, right);
    NumberReads(left, [0x2B] + s, right);
    assert ([0x2D] + s)[1..] == s && ([0x2B] + s)[1..] == s;
  }

  lemma {:induction false} NumberReads(left: Bytes, s: Bytes, right: Bytes)
    requires AllSpaces(left) && AllSpaces(right) && s != [] && !IsByteSpace(s[0]) && !IsByteSpace(s[|s| - 1])
    ensures StripRight(StripLeft(left + (s + right))) == s
    ensures PythonInt(left + (s + right)) == PythonInt(s)
  {
    StripLeftSpaces(left, s + right);
    StripRightSpaces(s, right);
    StripLeftSpaces([], s);
    StripRightSpaces(s, []);
    assert [] + s == s && s + [] == s;
  }

  // Names.

  /** A scalar value in UTF-8. */
  function ScalarBytes(c: TextUnits.Scalar): Bytes {
    TextUnits.EncodeScalar(TextUnits.Utf8, c)
  }

  predicate IsScalar(c: nat) {
    c < 0xD800 || 0xE000 <= c < 0x11_0000
  }

  predicate Scalars(cs: seq<nat>) {
    forall i | 0 <= i < |cs| :: IsScalar(cs[i])
  }

  function Encoded(cs: TextUnits.Text): seq<nat> {
    TextUnits.Encode(TextUnits.Utf8, cs)
  }

  lemma {:induction false} EncodedFirst(cs: TextUnits.Text)
    requires cs != []
    ensures Encoded(cs) == ScalarBytes(cs[0]) + Encoded(cs[1..])
  {
    TextUnits.EncodeFirst(TextUnits.Utf8, cs);
  }

  // A scalar value by its base-64 digits, which its bytes after the first carry.

  lemma TwoDigits(a: nat, b: nat)
    requires 2 <= a < 0x20 && b < 0x40
    ensures ScalarBytes(0x40 * a + b) == [0xC0 + a, 0x80 + b]
  {
  }

  lemma ThreeDigits(a: nat, b: nat, d: nat)
    requires a < 0x10 && b < 0x40 && d < 0x40 && 0x1000 * a + 0x40 * b >= 0x800
    requires IsScalar(0x1000 * a + 0x40 * b + d)
    ensures ScalarBytes(0x1000 * a + 0x40 * b + d) == [0xE0 + a, 0x80 + b, 0x80 + d]
  {
    var c := 0x1000 * a + 0x40 * b + d;
    assert c / 0x40 == 0x40 * a + b && c % 0x40 == d;
    assert c / 0x1000 == a;
  }

  lemma LastDigit(rest: nat, last: nat)
    requires last < 0x40
    ensures (0x40 * rest + last) / 0x40 == rest && (0x40 * rest + last) % 0x40 == last
  {
  }

  lemma FourDigits(a: nat, b: nat, d: nat, e: nat)
    requires b < 0x40 && d < 0x40 && e < 0x40 && 0x1_0000 <= 0x4_0000 * a + 0x1000 * b < 0x11_0000
    ensures 0x4_0000 * a + 0x1000 * b + 0x40 * d + e < 0x11_0000
    ensures ScalarBytes(0x4_0000 * a + 0x1000 * b + 0x40 * d + e) == [0xF0 + a, 0x80 + b, 0x80 + d, 0x80 + e]
  {
    var c := 0x4_0000 * a + 0x1000 * b + 0x40 * d + e;
    LastDigit(0x1000 * a + 0x40 * b + d, e);
    LastDigit(0x40 * a + b, d);
    LastDigit(a, b);
    assert c / 0x1000 == c / 0x40 / 0x40 && c / 0x4_0000 == c / 0x40 / 0x40 / 0x40;
  }

  lemma {:induction false} OneDecodes(a: byte, rest: Bytes)
    requires a < 0x80
    ensures DecodeUtf8([a] + rest) == Prepend(a, DecodeUtf8(rest))
  {
    assert ([a] + rest)[1..] == rest;
  }

  lemma {:induction false} TwoDecode(a: byte, b: byte, rest: Bytes)
    requires 2 <= a < 0x20 && b < 0x40
    ensures DecodeUtf8([0xC0 + a, 0x80 + b] + rest) == Prepend(0x40 * a + b, DecodeUtf8(rest))
  {
    assert ([0xC0 + a, 0x80 + b] + rest)[2..] == rest;
  }

  lemma {:induction false} ThreeDecode(a: byte, b: byte, d: byte, rest: Bytes)
    requires a < 0x10 && b < 0x40 && d < 0x40
    requires 0x1000 * a + 0x40 * b >= 0x800 && IsScalar(0x1000 * a + 0x40 * b + d)
    ensures DecodeUtf8([0xE0 + a, 0x80 + b, 0x80 + d] + rest) ==
            Prepend(0x1000 * a + 0x40 * b + d, DecodeUtf8(rest))
  {
    assert ([0xE0 + a, 0x80 + b, 0x80 + d] + rest)[3..] == rest;
  }

  lemma {:induction false} FourDecode(a: byte, b: byte, d: byte, e: byte, rest: Bytes)
    requires a < 0x05 && b < 0x40 && d < 0x40 && e < 0x40 && 0x1_0000 <= 0x4_0000 * a + 0x1000 * b < 0x11_0000
    ensures DecodeUtf8([0xF0 + a, 0x80 + b, 0x80 + d, 0x80 + e] + rest) ==
            Prepend(0x4_0000 * a + 0x1000 * b + 0x40 * d + e, DecodeUtf8(rest))
  {
    assert ([0xF0 + a, 0x80 + b, 0x80 + d, 0x80 + e] + rest)[4..] == rest;
  }

  lemma Digits(c: nat)
    ensures c == 0x1000 * (c / 0x1000) + 0x40 * (c / 0x40 % 0x40) + c % 0x40
    ensures c == 0x4_0000 * (c / 0x4_0000) + 0x1000 * (c / 0x1000 % 0x40) + 0x40 * (c / 0x40 % 0x40) + c % 0x40
  {
  }

  lemma {:induction false} ScalarDecodes(c: nat, rest: Bytes)
    requires IsScalar(c)
    ensures DecodeUtf8(ScalarBytes(c) + rest) == Prepend(c, DecodeUtf8(rest))
  {
    var e, d, b := c % 0x40, c / 0x40 % 0x40, c / 0x1000 % 0x40;
    if c < 0x80 {
      OneDecodes(c, rest);
    } else if c < 0x800 {
      TwoDecode(c / 0x40, e, rest);
    } else if c < 0x1_0000 {
      Digits(c);
      ThreeDecode(c / 0x1000, d, e, rest);
    } else {
      Digits(c);
      FourDecode(c / 0x4_0000, b, d, e, rest);
    }
  }

  /** How many bytes the first scalar value takes, by its first byte. */
  function Width(b: byte): nat {
    if b < 0x80 then 1 else if b < 0xE0 then 2 else if b < 0xF0 then 3 else 4
  }

  lemma {:induction false} DecodedBytes(s: Bytes)
    requires s != [] && DecodeUtf8(s).Some?
    ensures Width(s[0]) <= |s| && forall i | 1 <= i < Width(s[0]) :: Continues(s[i])
    ensures s[0] < 0x80 || 0xC2 <= s[0] < 0xF5
  {
  }

  lemma {:induction false} FirstTwo(s: Bytes)
    requires s != [] && DecodeUtf8(s).Some? && Width(s[0]) == 2 && |s| >= 2
    ensures DecodeUtf8(s) == Prepend(Bits(s[0], 0xC0, 0x40) + Bits(s[1], 0x80, 1), DecodeUtf8(s[2..]))
  {
  }

  lemma {:induction false} FirstThree(s: Bytes)
    requires s != [] && DecodeUtf8(s).Some? && Width(s[0]) == 3 && |s| >= 3
    ensures var c := Bits(s[0], 0xE0, 0x1000) + Bits(s[1], 0x80, 0x40) + Bits(s[2], 0x80, 1);
            c >= 0x800 && IsScalar(c) && DecodeUtf8(s) == Prepend(c, DecodeUtf8(s[3..]))
  {
  }

  lemma {:induction false} FirstFour(s: Bytes)
    requires s != [] && DecodeUtf8(s).Some? && Width(s[0]) == 4 && |s| >= 4
    ensures var c := Bits(s[0], 0xF0, 0x4_0000) + Bits(s[1], 0x80, 0x1000) + Bits(s[2], 0x80, 0x40) +
                     Bits(s[3], 0x80, 1);
            0x1_0000 <= c < 0x11_0000 && DecodeUtf8(s) == Prepend(c, DecodeUtf8(s[4..]))
  {
  }

  lemma {:induction false} TwoBytes(x: byte, y: byte)
    requires 0xC2 <= x < 0xE0 && Continues(y)
    ensures var c := Bits(x, 0xC0, 0x40) + Bits(y, 0x80, 1); 0 <= c < 0xD800 && ScalarBytes(c) == [x, y]
  {
    var a: int, b: int := x - 0xC0, y - 0x80;
    TwoDigits(a, b);
  }

  lemma {:induction false} ThreeBytes(x: byte, y: byte, z: byte)
    requires 0xE0 <= x < 0xF0 && Continues(y) && Continues(z)
    requires Bits(x, 0xE0, 0x1000) + Bits(y, 0x80, 0x40) + Bits(z, 0x80, 1) >= 0x800
    requires IsScalar(Bits(x, 0xE0, 0x1000) + Bits(y, 0x80, 0x40) + Bits(z, 0x80, 1))
    ensures ScalarBytes(Bits(x, 0xE0, 0x1000) + Bits(y, 0x80, 0x40) + Bits(z, 0x80, 1)) == [x, y, z]
  {
    var a: int, b: int, d: int := x - 0xE0, y - 0x80, z - 0x80;
    ThreeDigits(a, b, d);
  }

  lemma {:induction false} FourBytes(x: byte, y: byte, z: byte, w: byte)
    requires 0xF0 <= x < 0xF5 && Continues(y) && Continues(z) && Continues(w)
    requires 0x1_0000 <= Bits(x, 0xF0, 0x4_0000) + Bits(y, 0x80, 0x1000) + Bits(z, 0x80, 0x40) + Bits(w, 0x80, 1)
    requires Bits(x, 0xF0, 0x4_0000) + Bits(y, 0x80, 0x1000) + Bits(z, 0x80, 0x40) + Bits(w, 0x80, 1) < 0x11_0000
    ensures ScalarBytes(Bits(x, 0xF0, 0x4_0000) + Bits(y, 0x80, 0x1000) + Bits(z, 0x80, 0x40) + Bits(w, 0x80, 1)) ==
            [x, y, z, w]
  {
    var a: int, b: int, d: int, e: int := x - 0xF0, y - 0x80, z - 0x80, w - 0x80;
    FourDigits(a, b, d, e);
  }

  lemma {:induction false} DecodedScalar(s: Bytes) returns (c: nat, rest: Bytes)
    requires s != [] && DecodeUtf8(s).Some?
    ensures IsScalar(c) && s == ScalarBytes(c) + rest && |rest| < |s|
    ensures DecodeUtf8(s) == Prepend(c, DecodeUtf8(rest))
  {
    DecodedBytes(s);
    var n := Width(s[0]);
    rest := s[n..];
    if n == 1 {
      c := s[0];
      assert s == [s[0]] + rest;
      assert ScalarBytes(c) == [s[0]];
      OneDecodes(s[0], rest);
    } else if n == 2 {
      FirstTwo(s);
      TwoBytes(s[0], s[1]);
      c := Bits(s[0], 0xC0, 0x40) + Bits(s[1], 0x80, 1);
      assert s == [s[0], s[1]] + rest;
    } else if n == 3 {
      FirstThree(s);
      ThreeBytes(s[0], s[1], s[2]);
      c := Bits(s[0], 0xE0, 0x1000) + Bits(s[1], 0x80, 0x40) + Bits(s[2], 0x80, 1);
      assert s == [s[0], s[1], s[2]] + rest;
    } else {
      FirstFour(s);
      FourBytes(s[0], s[1], s[2], s[3]);
      c := Bits(s[0], 0xF0, 0x4_0000) + Bits(s[1], 0x80, 0x1000) + Bits(s[2], 0x80, 0x40) + Bits(s[3], 0x80, 1);
      assert s == [s[0], s[1], s[2], s[3]] + rest;
    }
  }

  lemma {:induction false} DecodedIsEncoded(s: Bytes, cs: seq<nat>)
    requires DecodeUtf8(s) == Some(cs)
    ensures Scalars(cs) && Encoded(cs) == s
    decreases |s|
  {
    if s != [] {
      var c, rest := DecodedScalar(s);
      assert cs[0] == c && cs[1..] == DecodeUtf8(rest).value;
      DecodedIsEncoded(rest, cs[1..]);
      assert cs == [c] + cs[1..];
      EncodedFirst(cs);
    }
  }

  lemma {:induction false} EncodedDecodes(s: Bytes, cs: seq<nat>)
    requires Scalars(cs) && Encoded(cs) == s
    ensures DecodeUtf8(s) == Some(cs)
    decreases |cs|
  {
    if cs != [] {
      EncodedFirst(cs);
      var n := |ScalarBytes(cs[0])|;
      var rest := s[n..];
      assert s == ScalarBytes(cs[0]) + rest && rest == Encoded(cs[1..]);
      ScalarDecodes(cs[0], rest);
      EncodedDecodes(rest, cs[1..]);
      assert [cs[0]] + cs[1..] == cs;
    }
  }

  /** Decoding is exactly the inverse of encoding: every sequence of scalar values is decoded from its bytes, and
      nothing else is decoded at all. */
  lemma {:induction false} DecodesExactly(s: Bytes, cs: seq<nat>)
    ensures DecodeUtf8(s) == Some(cs) <==> Scalars(cs) && Encoded(cs) == s
  {
    if DecodeUtf8(s) == Some(cs) {
      DecodedIsEncoded(s, cs);
    }
    if Scalars(cs) && Encoded(cs) == s {
      EncodedDecodes(s, cs);
    }
  }

  predicate AllTextSpaces(s: seq<nat>) {
    forall i | 0 <= i < |s| :: IsTextSpace(s[i])
  }

  lemma {:induction false} TrimmedLeft(s: seq<nat>) returns (spaces: seq<nat>)
    ensures AllTextSpaces(spaces) && s == spaces + TrimLeft(s)
    ensures TrimLeft(s) != [] ==> !IsTextSpace(TrimLeft(s)[0])
  {
    if s != [] && IsTextSpace(s[0]) {
      var more := TrimmedLeft(s[1..]);
      spaces := [s[0]] + more;
    } else {
      spaces := [];
    }
  }

  lemma {:induction false} TrimmedRight(s: seq<nat>) returns (spaces: seq<nat>)
    ensures AllTextSpaces(spaces) && s == TrimRight(s) + spaces
    ensures TrimRight(s) != [] ==> !IsTextSpace(TrimRight(s)[|TrimRight(s)| - 1])
  {
    if s != [] && IsTextSpace(s[|s| - 1]) {
      var more := TrimmedRight(s[..|s| - 1]);
      spaces := more + [s[|s| - 1]];
    } else {
      spaces := [];
    }
  }

  /** A name is what its field's bytes encode, without the white space around it. */
  lemma {:induction false} NameIsTrimmed(field: Bytes, cs: seq<nat>)
    requires DecodeUtf8(field) == Some(cs)
    ensures MemberName(field).Some?
    ensures exists left, right :: AllTextSpaces(left) && AllTextSpaces(right) &&
              cs == left + MemberName(field).value + right
    ensures var name := MemberName(field).value;
            name != [] ==> !IsTextSpace(name[0]) && !IsTextSpace(name[|name| - 1])
  {
    var left := TrimmedLeft(cs);
    var right := TrimmedRight(TrimLeft(cs));
    var name := MemberName(field).value;
    assert cs == left + name + right;
    if name != [] {
      assert TrimLeft(cs)[0] == name[0];
    }
  }
}
