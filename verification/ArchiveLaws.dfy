/** What is written is read back: parsing a written archive yields exactly its members, in order. */
module ArchiveLaws {

  import opened Wrappers
  import opened Archive

  lemma {:induction false} DecimalReadsBack(n: nat)
    ensures ParseDigits(Decimal(n)) == Some(n)
  {
    if n >= 10 {
      var s := Decimal(n);
      DecimalReadsBack(n / 10);
      assert s[..|s| - 1] == Decimal(n / 10);
    }
  }

  /** Trailing spaces do not change what a number reads as. */
  lemma {:induction false} StripPadding(s: Bytes, n: nat)
    requires s != [] && IsDigit(s[|s| - 1])
    ensures StripRight(s + Spaces(n)) == s
  {
    if n == 0 {
      assert s + Spaces(0) == s;
    } else {
      StripPadding(s, n - 1);
      var t := s + Spaces(n);
      assert t[..|t| - 1] == s + Spaces(n - 1);
    }
  }

  lemma PaddedDecimalReadsBack(n: nat, width: nat)
    ensures PythonInt(LeftJustified(Decimal(n), width)) == Some(n)
  {
    var s := Decimal(n);
    var t := LeftJustified(s, width);
    assert t[0] == s[0] && StripLeft(t) == t;
    StripPadding(s, |t| - |s|);
    assert t == s + Spaces(|t| - |s|);
    assert StripRight(StripLeft(t)) == s;
    assert IsDigit(s[0]);
    DecimalReadsBack(n);
  }

  predicate Printable(s: Bytes) {
    forall i | 0 <= i < |s| :: 0x20 < s[i] < 0x7F
  }

  lemma {:induction false} AsciiDecodes(s: Bytes)
    requires forall i | 0 <= i < |s| :: s[i] < 0x80
    ensures DecodeUtf8(s) == Some(s)
  {
    if s != [] {
      AsciiDecodes(s[1..]);
      assert [s[0]] + s[1..] == s;
    }
  }

  lemma {:induction false} TrimPadding(s: Bytes, n: nat)
    requires s != [] && Printable(s)
    ensures TrimRight(s + Spaces(n)) == s
  {
    if n == 0 {
      assert s + Spaces(0) == s;
    } else {
      TrimPadding(s, n - 1);
      var t := s + Spaces(n);
      assert t[..|t| - 1] == s + Spaces(n - 1);
    }
  }

  /** A printable name read from its padded field is itself. */
  lemma NameReadsBack(s: Bytes, width: nat)
    requires s != [] && Printable(s)
    ensures MemberName(LeftJustified(s, width)) == Some(s)
  {
    var t := LeftJustified(s, width);
    AsciiDecodes(t);
    assert t[0] == s[0] && TrimLeft(t) == t;
    TrimPadding(s, |t| - |s|);
    assert t == s + Spaces(|t| - |s|);
  }

  lemma ObjectName(index: nat)
    ensures Printable(Name(index)) && Name(index) != [] && !IsIndex(Name(index))
  {
    assert |Name(index)| > 5;
  }

  /** A header fits exactly when its name and its size fit their fields. */
  lemma FitsFields(index: nat, body: Bytes)
    ensures HeaderFits(index, body) <==> |Name(index)| <= 16 && |Decimal(|body|)| <= 10
  {
  }

  function Pow10(k: nat): nat {
    if k == 0 then 1 else 10 * Pow10(k - 1)
  }

  lemma {:induction false} DecimalLength(n: nat, k: nat)
    requires k > 0
    ensures |Decimal(n)| <= k <==> n < Pow10(k)
  {
    if n >= 10 {
      if k == 1 {
        assert Pow10(1) == 10;
      } else {
        DecimalLength(n / 10, k - 1);
      }
    } else {
      PowPositive(k - 1);
    }
  }

  lemma {:induction false} PowPositive(k: nat)
    ensures Pow10(k) > 0
  {
    if k > 0 {
      PowPositive(k - 1);
    }
  }

  /** That is, when the member came before the hundred-billionth and is smaller than ten billion bytes. */
  lemma FitsExactly(index: nat, body: Bytes)
    ensures HeaderFits(index, body) <==> index < 100_000_000_000 && |body| < 10_000_000_000
  {
    FitsFields(index, body);
    DecimalLength(index, 11);
    DecimalLength(|body|, 10);
    assert Pow10(5) == 100_000;
    assert Pow10(10) == 10_000_000_000 && Pow10(11) == 100_000_000_000;
  }

  /** The fields of a written member, followed by anything. */
  lemma WrittenFields(index: nat, body: Bytes, rest: Bytes)
    requires HeaderFits(index, body)
    ensures var all := WrittenMember(index, body) + rest;
            && |all| >= 60 + |body|
            && all[..16] == LeftJustified(Name(index), 16)
            && all[48..58] == LeftJustified(Decimal(|body|), 10)
            && all[58..60] == HEADER_END
            && all[60..60 + |body|] == body
  {
    FitsFields(index, body);
    var header := Header(index, body);
    assert header[..16] == LeftJustified(Name(index), 16);
    assert header[48..58] == LeftJustified(Decimal(|body|), 10);
    assert header[58..60] == HEADER_END;
    var all := WrittenMember(index, body) + rest;
    assert all[..60] == header;
    assert all[..60][..16] == all[..16] && all[..60][48..58] == all[48..58] && all[..60][58..60] == all[58..60];
  }

  lemma WrittenMemberParses(index: nat, body: Bytes, rest: Bytes)
    requires HeaderFits(index, body)
    ensures ParseOne(WrittenMember(index, body) + rest) ==
            Ok(Step(Entry(Name(index), body), |WrittenMember(index, body)|))
  {
    var all := WrittenMember(index, body) + rest;
    WrittenFields(index, body, rest);
    PaddedDecimalReadsBack(|body|, 10);
    ObjectName(index);
    NameReadsBack(Name(index), 16);
    if |body| % 2 == 1 {
      assert all[60 + |body|] == WrittenMember(index, body)[60 + |body|] == 0x0A;
    }
  }

  /** The entries a written archive should read back as. */
  function Entries(kept: seq<Kept>): seq<Entry> {
    if kept == [] then [] else [Entry(Name(kept[0].index), kept[0].body)] + Entries(kept[1..])
  }

  lemma {:induction false} WrittenFromParses(kept: seq<Kept>)
    requires AllFit(kept)
    ensures ParseFrom(WrittenFrom(kept)) == Ok(Entries(kept))
  {
    if kept != [] {
      var index, body := kept[0].index, kept[0].body;
      var member, rest := WrittenMember(index, body), WrittenFrom(kept[1..]);
      WrittenFromParses(kept[1..]);
      assert HeaderFits(index, body);
      WrittenMemberParses(index, body, rest);
      assert (member + rest)[|member|..] == rest;
    }
  }

  lemma {:induction false} EntriesAreMembers(kept: seq<Kept>)
    ensures |Entries(kept)| == |kept|
    ensures forall i | 0 <= i < |kept| :: Entries(kept)[i].body == kept[i].body && !IsIndex(Entries(kept)[i].name)
  {
    if kept != [] {
      EntriesAreMembers(kept[1..]);
      ObjectName(kept[0].index);
    }
  }

  /** Parsing what the writer wrote yields exactly the bodies kept, in order, none of them an index member,
      for every list of bodies whose headers fit. */
  lemma WrittenArchiveReadsBack(kept: seq<Kept>)
    requires AllFit(kept)
    ensures Parse(Written(kept)).Ok?
    ensures var entries := Parse(Written(kept)).value;
            && |entries| == |kept|
            && forall i | 0 <= i < |kept| :: entries[i].body == kept[i].body && !IsIndex(entries[i].name)
  {
    WrittenFromParses(kept);
    EntriesAreMembers(kept);
    assert Written(kept)[8..] == WrittenFrom(kept);
    assert MAGIC <= Written(kept);
  }
}
