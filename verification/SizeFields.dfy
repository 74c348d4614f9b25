/** The text fields of a member header: which sizes are read, as what, and what is written between the name and
    the size. */
module SizeFields {

  import opened Wrappers
  import opened Archive
  import opened ArchiveGrammar
  import AppLexer

  /** ASCII text as bytes. */
  function Ascii(text: string): Bytes
    requires forall i | 0 <= i < |text| :: text[i] as int < 128
  {
    seq(|text|, i requires 0 <= i < |text| => text[i] as int)
  }

  /** The fixed texts of the format, spelled out: the signature, the end of a header, the end of a written name,
      and the date, owner, group and mode of every written member. */
  lemma TextsAre()
    ensures MAGIC == Ascii("!<arch>\n") && HEADER_END == Ascii("`\n") && OBJECT_SUFFIX == Ascii(".obj/")
    ensures FixedFields() == Ascii("0           0     0     644     ")
  {
  }

  /** Names are stripped of what Python takes for white space in text. */
  lemma NamesStripWhite(c: nat)
    ensures IsTextSpace(c) <==> c in AppLexer.WHITE
  {
  }

  // Sizes.

  predicate Figure(b: byte) {
    b == 0x30 || b == 0x31 || b == 0x32 || b == 0x33 || b == 0x34 || b == 0x35 || b == 0x36 || b == 0x37 || b == 0x38
    || b == 0x39
  }

  /** Digits, with no more than one underscore between two of them. */
  ghost predicate Grouped(s: Bytes) {
    && s != [] && Figure(s[0]) && Figure(s[|s| - 1])
    && (forall i | 0 <= i < |s| :: Figure(s[i]) || s[i] == 0x5F)
    && forall i | 0 < i < |s| :: Figure(s[i - 1]) || Figure(s[i])
  }

  /** The digits alone. */
  function Figures(s: Bytes): Bytes {
    if s == [] then [] else Figures(s[..|s| - 1]) + if s[|s| - 1] == 0x5F then [] else [s[|s| - 1]]
  }

  lemma {:induction false} GroupedStep(s: Bytes)
    requires |s| > 1 && Figure(s[|s| - 1])
    ensures Grouped(s) <==> Grouped(if s[|s| - 2] == 0x5F then s[..|s| - 2] else s[..|s| - 1])
  {
    var n := |s|;
    var rest := if s[n - 2] == 0x5F then s[..n - 2] else s[..n - 1];
    assert forall i | 0 <= i < |rest| :: rest[i] == s[i];
    if Grouped(s) {
      assert Figure(s[n - 2]) || s[n - 2] == 0x5F;
      assert n > 2 ==> Figure(s[n - 3]) || Figure(s[n - 2]);
    }
  }

  /** Digits are read exactly when they are grouped. */
  lemma {:induction false} DigitsExactly(s: Bytes)
    ensures ParseDigits(s).Some? <==> Grouped(s)
    decreases |s|
  {
    if |s| > 1 && Figure(s[|s| - 1]) {
      GroupedStep(s);
      DigitsExactly(if s[|s| - 2] == 0x5F then s[..|s| - 2] else s[..|s| - 1]);
    }
  }

  lemma {:induction false} FiguresStep(s: Bytes, rest: Bytes)
    requires |s| > 1 && Figure(s[|s| - 1]) && Grouped(rest)
    requires rest == if s[|s| - 2] == 0x5F then s[..|s| - 2] else s[..|s| - 1]
    ensures Figures(s) == Figures(rest) + [s[|s| - 1]] && Figures(rest) != []
    ensures Figure(Figures(rest)[|Figures(rest)| - 1])
  {
    if s[|s| - 2] == 0x5F {
      assert s[..|s| - 1][..|s| - 2] == rest;
    }
    assert rest[|rest| - 1] != 0x5F;
  }

  function Zeros(n: nat): (s: Bytes)
    ensures |s| == n && forall i | 0 <= i < n :: s[i] == 0x30
  {
    seq(n, _ => 0x30)
  }

  lemma DecimalFurther(m: nat, d: nat)
    requires d < 10
    ensures Decimal(10 * m + d) == if m == 0 then [0x30 + d] else Decimal(m) + [0x30 + d]
  {
    assert (10 * m + d) / 10 == m && (10 * m + d) % 10 == d;
  }

  lemma {:induction false} DigitsFurther(rest: Bytes, b: byte, m: nat)
    requires rest != [] && rest[|rest| - 1] != 0x5F && ParseDigits(rest) == Some(m) && Figure(b)
    ensures ParseDigits(rest + [b]) == Some(10 * m + (b - 0x30))
  {
    var s := rest + [b];
    assert s[..|s| - 1] == rest;
  }

  lemma {:induction false} ParsedFurther(s: Bytes, rest: Bytes, m: nat)
    requires |s| > 1 && Figure(s[|s| - 1]) && ParseDigits(rest) == Some(m)
    requires rest == if s[|s| - 2] == 0x5F then s[..|s| - 2] else s[..|s| - 1]
    ensures ParseDigits(s) == Some(10 * m + (s[|s| - 1] - 0x30))
  {
  }

  /** Underscores make no difference to what is read. */
  lemma {:induction false} UnderscoresAside(s: Bytes)
    requires Grouped(s)
    ensures ParseDigits(s).Some? && ParseDigits(Figures(s)) == ParseDigits(s)
    decreases |s|
  {
    DigitsExactly(s);
    if |s| == 1 {
      OneFigure(s);
    } else {
      var rest := if s[|s| - 2] == 0x5F then s[..|s| - 2] else s[..|s| - 1];
      GroupedStep(s);
      UnderscoresAside(rest);
      FiguresStep(s, rest);
      ParsedFurther(s, rest, ParseDigits(rest).value);
      DigitsFurther(Figures(rest), s[|s| - 1], ParseDigits(rest).value);
    }
  }

  lemma {:induction false} OneFigure(s: Bytes)
    requires |s| == 1 && Figure(s[0])
    ensures Figures(s) == s
  {
    assert s[..0] == [] && [] + [s[0]] == s;
  }

  lemma ZerosFurther(zeros: nat, more: Bytes, k: nat)
    requires k == zeros + 1
    ensures Zeros(zeros) + [0x30] + more == Zeros(k) + more
  {
    assert Zeros(zeros) + [0x30] == Zeros(k);
  }

  lemma {:induction false} FiguresFurther(rest: Bytes, b: byte, zeros: nat, m: nat) returns (more: nat)
    requires rest != [] && ParseDigits(rest) == Some(m) && rest == Zeros(zeros) + Decimal(m) && Figure(b)
    ensures ParseDigits(rest + [b]).Some?
    ensures rest + [b] == Zeros(more) + Decimal(ParseDigits(rest + [b]).value)
  {
    assert rest[|rest| - 1] == Decimal(m)[|Decimal(m)| - 1];
    DigitsFurther(rest, b, m);
    DecimalFurther(m, b - 0x30);
    if m == 0 {
      more := zeros + 1;
      ZerosFurther(zeros, [b], more);
    } else {
      more := zeros;
    }
  }

  /** Digits alone read as the number whose decimal they are, after any zeros. */
  lemma {:induction false} FiguresAreDecimal(s: Bytes) returns (zeros: nat)
    requires s != [] && forall i | 0 <= i < |s| :: Figure(s[i])
    ensures ParseDigits(s).Some? && s == Zeros(zeros) + Decimal(ParseDigits(s).value)
  {
    if |s| == 1 {
      zeros := 0;
      assert s == Zeros(0) + [s[0]];
    } else {
      var rest := s[..|s| - 1];
      assert s == rest + [s[|s| - 1]];
      zeros := FiguresAreDecimal(rest);
      zeros := FiguresFurther(rest, s[|s| - 1], zeros, ParseDigits(rest).value);
    }
  }

  lemma {:induction false} StrippedLeft(s: Bytes) returns (left: Bytes)
    ensures AllSpaces(left) && s == left + StripLeft(s)
    ensures StripLeft(s) != [] ==> !IsByteSpace(StripLeft(s)[0])
  {
    if s != [] && IsByteSpace(s[0]) {
      left := StrippedLeft(s[1..]);
      left := [s[0]] + left;
    } else {
      left := [];
    }
  }

  lemma {:induction false} StrippedRight(s: Bytes) returns (right: Bytes)
    ensures AllSpaces(right) && s == StripRight(s) + right
  {
    if s != [] && IsByteSpace(s[|s| - 1]) {
      right := StrippedRight(s[..|s| - 1]);
      right := right + [s[|s| - 1]];
    } else {
      right := [];
    }
  }

  predicate IsSign(sign: Bytes) {
    sign == [] || sign == [0x2B] || sign == [0x2D]
  }

  /** A size: grouped digits, with a sign or none, and white space or none around them. */
  ghost predicate IsNumber(s: Bytes, left: Bytes, sign: Bytes, digits: Bytes, right: Bytes) {
    s == left + ((sign + digits) + right) && AllSpaces(left) && AllSpaces(right) && IsSign(sign) && Grouped(digits)
  }

  lemma {:induction false} SignedIsRead(sign: Bytes, digits: Bytes)
    requires IsSign(sign) && Grouped(digits)
    ensures ParseDigits(digits).Some? && PythonInt(sign + digits).Some?
    ensures sign == [0x2D] ==> PythonInt(sign + digits).value + ParseDigits(digits).value == 0
    ensures sign != [0x2D] ==> PythonInt(sign + digits).value == ParseDigits(digits).value
    ensures var t := sign + digits; t != [] && !IsByteSpace(t[0]) && !IsByteSpace(t[|t| - 1])
  {
    var t := sign + digits;
    DigitsExactly(digits);
    NumberReads([], t, []);
    assert [] + (t + []) == t;
    assert sign == [] ==> t == digits;
    assert sign != [] ==> t[1..] == digits;
  }

  /** Such a field reads as its digits do, and with its sign. */
  lemma {:induction false} NumberIsRead(s: Bytes, left: Bytes, sign: Bytes, digits: Bytes, right: Bytes)
    requires IsNumber(s, left, sign, digits, right)
    ensures ParseDigits(digits).Some? && PythonInt(s).Some?
    ensures sign == [0x2D] ==> PythonInt(s).value + ParseDigits(digits).value == 0
    ensures sign != [0x2D] ==> PythonInt(s).value == ParseDigits(digits).value
  {
    SignedIsRead(sign, digits);
    NumberReads(left, sign + digits, right);
  }

  /** A size field is read exactly when it is such a number. */
  lemma {:induction false} SizesExactly(s: Bytes)
    ensures PythonInt(s).Some? <==> exists left, sign, digits, right :: IsNumber(s, left, sign, digits, right)
  {
    if PythonInt(s).Some? {
      var left := StrippedLeft(s);
      var right := StrippedRight(StripLeft(s));
      var t := StripRight(StripLeft(s));
      var signed := t != [] && (t[0] == 0x2D || t[0] == 0x2B);
      var sign, digits := if signed then [t[0]] else [], if signed then t[1..] else t;
      DigitsExactly(digits);
      assert sign + digits == t;
      assert IsNumber(s, left, sign, digits, right);
    }
    if left, sign, digits, right :| IsNumber(s, left, sign, digits, right) {
      NumberIsRead(s, left, sign, digits, right);
    }
  }
}
