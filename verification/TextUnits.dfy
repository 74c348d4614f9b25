/** Text as Unicode scalar values, and the two ways an offset into it is counted: UTF-8 bytes (RFC 3629,
    section 3) by the editor, and UTF-16 code units (RFC 2781, section 2.1) by the platform. */
module TextUnits {

  type Scalar = c: int | 0 <= c < 0x11_0000 && !(0xD800 <= c < 0xE000) witness 0

  type Text = seq<Scalar>

  datatype Encoding = Utf8 | Utf16

  /** The bytes or code units one scalar takes. */
  function Len(enc: Encoding, c: Scalar): nat {
    match enc
    case Utf8 => if c < 0x80 then 1 else if c < 0x800 then 2 else if c < 0x1_0000 then 3 else 4
    case Utf16 => if c < 0x1_0000 then 1 else 2
  }

  function Size(enc: Encoding, t: Text): nat {
    if t == [] then 0 else Size(enc, t[..|t| - 1]) + Len(enc, t[|t| - 1])
  }

  function EncodeScalar(enc: Encoding, c: Scalar): seq<nat> {
    match enc
    case Utf8 =>
      if c < 0x80 then [c]
      else if c < 0x800 then [0xC0 + c / 0x40, 0x80 + c % 0x40]
      else if c < 0x1_0000 then [0xE0 + c / 0x1000, 0x80 + c / 0x40 % 0x40, 0x80 + c % 0x40]
      else [0xF0 + c / 0x4_0000, 0x80 + c / 0x1000 % 0x40, 0x80 + c / 0x40 % 0x40, 0x80 + c % 0x40]
    case Utf16 =>
      if c < 0x1_0000 then [c] else [0xD800 + (c - 0x1_0000) / 0x400, 0xDC00 + (c - 0x1_0000) % 0x400]
  }

  function Encode(enc: Encoding, t: Text): seq<nat> {
    if t == [] then [] else Encode(enc, t[..|t| - 1]) + EncodeScalar(enc, t[|t| - 1])
  }

  /** The least number of leading scalars that take at least `target` units, or all of them. */
  function Search(enc: Encoding, t: Text, target: nat, from: nat := 0): (k: nat)
    requires from <= |t|
    ensures from <= k <= |t|
    ensures k < |t| ==> Size(enc, t[..k]) >= target
    decreases |t| - from
  {
    if from == |t| || Size(enc, t[..from]) >= target then from else Search(enc, t, target, from + 1)
  }

  /** Some number of leading scalars take exactly `b` bytes. */
  ghost predicate IsBoundary(t: Text, b: nat) {
    exists k :: 0 <= k <= |t| && Size(Utf8, t[..k]) == b
  }

  /** The scalars before a boundary. */
  function Before(t: Text, b: nat): Text {
    t[..Search(Utf8, t, b)]
  }

  function After(t: Text, b: nat): Text {
    t[Search(Utf8, t, b)..]
  }

  function ToUtf16(t: Text, b: nat): nat {
    Size(Utf16, Before(t, b))
  }

  function ByteOffset(t: Text, units: nat): nat {
    Size(Utf8, t[..Search(Utf16, t, units)])
  }

  /** `byte_offset_from_utf16` and `utf16_offset`: counting both ways at once. */
  method ByteOffsetFromUtf16(t: Text, offset: nat) returns (bytes: nat)
    ensures bytes == ByteOffset(t, offset)
  {
    bytes := 0;
    var units, k := 0, 0;
    while k < |t| && units < offset
      invariant k <= |t| && units == Size(Utf16, t[..k]) && bytes == Size(Utf8, t[..k])
      invariant Search(Utf16, t, offset) == Search(Utf16, t, offset, k)
    {
      assert t[..k + 1][..k] == t[..k];
      units := units + Len(Utf16, t[k]);
      bytes := bytes + Len(Utf8, t[k]);
      k := k + 1;
    }
  }

  lemma {:induction false} SizeIsEncodedLength(enc: Encoding, t: Text)
    ensures |Encode(enc, t)| == Size(enc, t)
  {
    if t != [] {
      SizeIsEncodedLength(enc, t[..|t| - 1]);
    }
  }

  /** A scalar past the first plane is a high and a low surrogate, which carry ten bits each; any other is
      itself, and so never a surrogate. */
  lemma SurrogatesReadBack(c: Scalar)
    ensures var units := EncodeScalar(Utf16, c);
            if c < 0x1_0000 then units == [c]
            else
              && |units| == 2 && 0xD800 <= units[0] < 0xDC00 && 0xDC00 <= units[1] < 0xE000
              && c == 0x1_0000 + (units[0] - 0xD800) * 0x400 + (units[1] - 0xDC00)
  {
  }

  lemma Regroup<T>(a: seq<T>, b: seq<T>, c: seq<T>)
    ensures a + b + c == a + (b + c)
  {
  }

  lemma {:induction false} EncodeConcat(enc: Encoding, a: Text, b: Text)
    ensures Encode(enc, a + b) == Encode(enc, a) + Encode(enc, b)
  {
    if b == [] {
      assert a + b == a;
    } else {
      assert (a + b)[..|a + b| - 1] == a + b[..|b| - 1];
      EncodeConcat(enc, a, b[..|b| - 1]);
      Regroup(Encode(enc, a), Encode(enc, b[..|b| - 1]), EncodeScalar(enc, b[|b| - 1]));
    }
  }

  lemma {:induction false} EncodeFirst(enc: Encoding, t: Text)
    requires t != []
    ensures Encode(enc, t) == EncodeScalar(enc, t[0]) + Encode(enc, t[1..])
  {
    var first := [t[0]];
    assert first[..0] == [] && first + t[1..] == t;
    EncodeConcat(enc, first, t[1..]);
    assert Encode(enc, first[..0]) + EncodeScalar(enc, t[0]) == EncodeScalar(enc, t[0]);
  }

  lemma {:induction false} SizeConcat(enc: Encoding, a: Text, b: Text)
    ensures Size(enc, a + b) == Size(enc, a) + Size(enc, b)
  {
    if b == [] {
      assert a + b == a;
    } else {
      assert (a + b)[..|a + b| - 1] == a + b[..|b| - 1];
      SizeConcat(enc, a, b[..|b| - 1]);
    }
  }

  /** A longer prefix is strictly larger. */
  lemma PrefixGrows(enc: Encoding, t: Text, j: nat, k: nat)
    requires j <= k <= |t|
    ensures Size(enc, t[..j]) + (k - j) <= Size(enc, t[..k])
    decreases k
  {
    if j < k {
      PrefixGrows(enc, t, j, k - 1);
      assert t[..k][..k - 1] == t[..k - 1];
    }
  }

  /** The search passes only prefixes that are too short. */
  lemma {:induction false} SearchPasses(enc: Encoding, t: Text, target: nat, from: nat, j: nat)
    requires from <= |t| && from <= j < Search(enc, t, target, from)
    ensures Size(enc, t[..j]) < target
    decreases |t| - from
  {
    if from < j {
      SearchPasses(enc, t, target, from + 1, j);
    }
  }

  /** Searching for the size of a prefix finds that prefix. */
  lemma SearchPrefix(enc: Encoding, t: Text, k: nat)
    requires k <= |t|
    ensures Search(enc, t, Size(enc, t[..k])) == k
  {
    var found := Search(enc, t, Size(enc, t[..k]));
    if found < k {
      PrefixGrows(enc, t, found, k);
    } else if k < found {
      SearchPasses(enc, t, Size(enc, t[..k]), 0, k);
    }
  }

  lemma SplitAtBoundary(t: Text, b: nat)
    requires IsBoundary(t, b)
    ensures Before(t, b) + After(t, b) == t
    ensures Size(Utf8, Before(t, b)) == b && Size(Utf8, After(t, b)) == Size(Utf8, t) - b
  {
    var k :| 0 <= k <= |t| && Size(Utf8, t[..k]) == b;
    SearchPrefix(Utf8, t, k);
    SizeConcat(Utf8, t[..k], t[k..]);
    assert t[..k] + t[k..] == t;
  }

  /** A boundary converted to UTF-16 and back is unchanged. */
  lemma RoundTrip(t: Text, b: nat)
    requires IsBoundary(t, b)
    ensures ByteOffset(t, ToUtf16(t, b)) == b
  {
    var k :| 0 <= k <= |t| && Size(Utf8, t[..k]) == b;
    SearchPrefix(Utf8, t, k);
    SearchPrefix(Utf16, t, k);
  }

  /** What a prefix's UTF-8 length converts to. */
  lemma PrefixToUtf16(t: Text, k: nat)
    requires k <= |t|
    ensures IsBoundary(t, Size(Utf8, t[..k])) && ToUtf16(t, Size(Utf8, t[..k])) == Size(Utf16, t[..k])
  {
    SearchPrefix(Utf8, t, k);
  }

  /** No boundary that converts to at least `units` lies before the one found. */
  lemma FoundIsLeast(t: Text, units: nat, b: nat)
    requires IsBoundary(t, b) && ToUtf16(t, b) >= units
    ensures ByteOffset(t, units) <= b
  {
    var j :| 0 <= j <= |t| && Size(Utf8, t[..j]) == b;
    PrefixToUtf16(t, j);
    if j < Search(Utf16, t, units) {
      SearchPasses(Utf16, t, units, 0, j);
    }
    PrefixGrows(Utf8, t, Search(Utf16, t, units), j);
  }

  /** The search runs to the end exactly when the text is too short. */
  lemma SearchReaches(t: Text, units: nat)
    ensures units <= Size(Utf16, t) ==> Size(Utf16, t[..Search(Utf16, t, units)]) >= units
    ensures units > Size(Utf16, t) ==> Search(Utf16, t, units) == |t|
  {
    var k := Search(Utf16, t, units);
    assert t[..|t|] == t;
    if k < |t| {
      PrefixGrows(Utf16, t, k, |t|);
    }
  }

  /** Any UTF-16 offset maps to the least boundary at or past it, or to the end; it comes back unchanged
      exactly when it does not split a surrogate pair and is not past the end. */
  lemma LeastBoundary(t: Text, units: nat)
    ensures IsBoundary(t, ByteOffset(t, units))
    ensures units <= Size(Utf16, t) ==>
              && ToUtf16(t, ByteOffset(t, units)) >= units
              && forall b | IsBoundary(t, b) && ToUtf16(t, b) >= units :: ByteOffset(t, units) <= b
    ensures units > Size(Utf16, t) ==> ByteOffset(t, units) == Size(Utf8, t)
    ensures ToUtf16(t, ByteOffset(t, units)) == units <==> exists k :: 0 <= k <= |t| && Size(Utf16, t[..k]) == units
  {
    assert t[..|t|] == t;
    SearchReaches(t, units);
    PrefixToUtf16(t, Search(Utf16, t, units));
    forall b | IsBoundary(t, b) && ToUtf16(t, b) >= units ensures ByteOffset(t, units) <= b {
      FoundIsLeast(t, units, b);
    }
    if j :| 0 <= j <= |t| && Size(Utf16, t[..j]) == units {
      SearchPrefix(Utf16, t, j);
    }
  }

  lemma OffsetsAreOrdered(t: Text, from: nat, to: nat)
    requires from <= to
    ensures ByteOffset(t, from) <= ByteOffset(t, to) <= Size(Utf8, t)
  {
    var j, k := Search(Utf16, t, from), Search(Utf16, t, to);
    assert t[..|t|] == t;
    if k < j {
      SearchPasses(Utf16, t, from, 0, k);
    }
    PrefixGrows(Utf8, t, j, k);
    PrefixGrows(Utf8, t, k, |t|);
  }

  /** A boundary inside the middle of a text is a boundary of the whole. */
  lemma BoundaryInside(a: Text, t: Text, z: Text, b: nat)
    requires IsBoundary(t, b)
    ensures IsBoundary(a + t + z, Size(Utf8, a) + b)
  {
    var k :| 0 <= k <= |t| && Size(Utf8, t[..k]) == b;
    var whole := a + t + z;
    assert whole[..|a| + k] == a + t[..k];
    SizeConcat(Utf8, a, t[..k]);
  }

  lemma EndsAreBoundaries(t: Text)
    ensures IsBoundary(t, 0) && IsBoundary(t, Size(Utf8, t))
  {
    assert t[..0] == [] && t[..|t|] == t;
  }

  // ASCII, where every offset is a character's.

  predicate Ascii(t: Text) {
    forall i | 0 <= i < |t| :: t[i] < 0x80
  }

  lemma {:induction false} AsciiSize(enc: Encoding, t: Text)
    requires Ascii(t)
    ensures Size(enc, t) == |t|
  {
    if t != [] {
      AsciiSize(enc, t[..|t| - 1]);
    }
  }

  lemma AsciiSearch(enc: Encoding, t: Text, k: nat)
    requires Ascii(t) && k <= |t|
    ensures Search(enc, t, k) == k
  {
    AsciiSize(enc, t[..k]);
    SearchPrefix(enc, t, k);
  }

  lemma AsciiOffset(t: Text, k: nat)
    requires Ascii(t) && k <= |t|
    ensures ByteOffset(t, k) == k
  {
    AsciiSearch(Utf16, t, k);
    AsciiSize(Utf8, t[..k]);
  }
}
