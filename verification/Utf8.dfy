/** UTF-8 as RFC 3629 defines it (section 3), and the incremental validator that mirrors its grammar (section 4). */
module Utf8 {
  import opened Bytes

  // ----- RFC 3629 section 3: characters to octets -----

  type Scalar = c: int | 0 <= c < 0x110000 && !(0xD800 <= c < 0xE000)

  function Encode(c: Scalar): seq<byte> {
    if c < 0x80 then [c]
    else if c < 0x800 then [0xC0 + c / 64, 0x80 + c % 64]
    else if c < 0x10000 then [0xE0 + c / 4096, 0x80 + c / 64 % 64, 0x80 + c % 64]
    else [0xF0 + c / 262144, 0x80 + c / 4096 % 64, 0x80 + c / 64 % 64, 0x80 + c % 64]
  }

  function EncodeAll(text: seq<Scalar>): seq<byte> {
    if text == [] then [] else Encode(text[0]) + EncodeAll(text[1..])
  }

  /** The octets spell a sequence of Unicode scalar values. */
  ghost predicate WellFormed(s: seq<byte>) {
    exists text: seq<Scalar> :: EncodeAll(text) == s
  }

  // ----- The validator -----

  /** How the octets begin: a whole character, an octet that can never continue, or a character cut off by the end. */
  datatype Head = Whole(width: nat) | Broken(length: nat) | CutOff

  predicate Continues(b: byte) { 0x80 <= b < 0xC0 }

  /**
    The second octet is restricted after some first octets: no overlong forms, no surrogates, no values
    above U+10FFFF.
   */
  predicate SecondFits(first: byte, second: byte) {
    if first == 0xE0 then 0xA0 <= second < 0xC0
    else if first == 0xED then 0x80 <= second < 0xA0
    else if first == 0xF0 then 0x90 <= second < 0xC0
    else if first == 0xF4 then 0x80 <= second < 0x90
    else Continues(second)
  }

  function Width(first: byte): nat {
    if first < 0x80 then 1
    else if 0xC2 <= first < 0xE0 then 2
    else if 0xE0 <= first < 0xF0 then 3
    else if 0xF0 <= first < 0xF5 then 4
    else 0
  }

  function HeadOf(s: seq<byte>): (h: Head)
    requires s != []
    ensures h.Whole? ==> 0 < h.width <= |s|
    ensures h.CutOff? ==> |s| <= 3
  {
    var width := Width(s[0]);
    if width == 0 then Broken(1)
    else if width == 1 then Whole(1)
    else if |s| == 1 then CutOff
    else if !SecondFits(s[0], s[1]) then Broken(1)
    else if width == 2 then Whole(2)
    else if |s| == 2 then CutOff
    else if !Continues(s[2]) then Broken(2)
    else if width == 3 then Whole(3)
    else if |s| == 3 then CutOff
    else if !Continues(s[3]) then Broken(3)
    else Whole(4)
  }

  /** `std::str::from_utf8`: fine, or valid up to an offset where an octet is broken or the input ends too early. */
  datatype Verdict = Fine | Invalid(validUpTo: nat, errorLength: Option<nat>)

  function FromUtf8(s: seq<byte>): (v: Verdict)
    ensures v.Invalid? ==> v.validUpTo < |s|
    ensures v.Invalid? && v.errorLength.None? ==> |s| - v.validUpTo <= 3
  {
    if s == [] then Fine
    else
      match HeadOf(s)
      case Broken(length) => Invalid(0, Some(length))
      case CutOff => Invalid(0, None)
      case Whole(width) =>
        match FromUtf8(s[width..])
        case Fine => Fine
        case Invalid(upTo, length) => Invalid(upTo + width, length)
  }

  /** No octet so far is beyond repair: everything is valid but for a character cut off at the end. */
  predicate Repairable(s: seq<byte>) {
    FromUtf8(s).Fine? || FromUtf8(s).errorLength.None?
  }

  /** The cut-off character at the end, if any. */
  function Tail(s: seq<byte>): (tail: seq<byte>)
    requires Repairable(s)
    ensures |tail| <= 3
    ensures tail == [] <==> FromUtf8(s).Fine?
  {
    if FromUtf8(s).Fine? then [] else s[FromUtf8(s).validUpTo..]
  }

  /** Once broken, no continuation helps; otherwise only the cut-off tail matters for what follows. */
  lemma {:induction false} ResumeFromTail(s: seq<byte>, more: seq<byte>)
    ensures !Repairable(s) ==> !Repairable(s + more)
    ensures Repairable(s) ==> (Repairable(s + more) <==> Repairable(Tail(s) + more))
    ensures Repairable(s) && Repairable(s + more) ==> Tail(s + more) == Tail(Tail(s) + more)
    decreases |s|
  {
    if s == [] {
      assert s + more == more;
    } else {
      var whole := s + more;
      match HeadOf(s)
      case Broken(_) =>
        assert HeadOf(whole) == HeadOf(s);
      case CutOff =>
        assert Tail(s) == s;
      case Whole(width) =>
        assert HeadOf(whole) == HeadOf(s);
        assert whole[width..] == s[width..] + more;
        ResumeFromTail(s[width..], more);
        TailSkips(s, width);
        TailSkips(whole, width);
    }
  }

  lemma TailSkips(s: seq<byte>, width: nat)
    requires s != [] && HeadOf(s) == Whole(width)
    ensures Repairable(s) <==> Repairable(s[width..])
    ensures Repairable(s) ==> Tail(s) == Tail(s[width..])
  {
    if Repairable(s) && FromUtf8(s).Invalid? {
      var upTo := FromUtf8(s[width..]).validUpTo;
      assert s[upTo + width..] == s[width..][upTo..];
    }
  }

  // ----- The validator accepts exactly the well-formed sequences -----

  /** The number a whole character stands for. */
  function Decode(s: seq<byte>): int
    requires s != [] && HeadOf(s).Whole?
  {
    var first: int := s[0];
    match HeadOf(s).width
    case 1 => first
    case 2 => (first - 0xC0) * 64 + Low(s[1])
    case 3 => (first - 0xE0) * 4096 + Low(s[1]) * 64 + Low(s[2])
    case _ => (first - 0xF0) * 262144 + Low(s[1]) * 4096 + Low(s[2]) * 64 + Low(s[3])
  }

  function Low(b: byte): int { b - 0x80 }

  lemma OneGroup(q: nat, d: nat)
    requires d < 64
    ensures (q * 64 + d) / 64 == q && (q * 64 + d) % 64 == d
  {
  }

  lemma TwoGroups(q: nat, d: nat)
    requires d < 4096
    ensures (q * 4096 + d) / 4096 == q
  {
  }

  lemma ThreeGroups(q: nat, d: nat)
    requires d < 262144
    ensures (q * 262144 + d) / 262144 == q
  {
  }

  lemma SixBitGroups(a: nat, b: nat, c: nat, d: nat)
    requires b < 64 && c < 64 && d < 64
    ensures var n := a * 262144 + b * 4096 + c * 64 + d;
            n % 64 == d && n / 64 % 64 == c && n / 4096 % 64 == b && n / 262144 == a
            && n / 64 == a * 4096 + b * 64 + c && n / 4096 == a * 64 + b
  {
    OneGroup(a * 4096 + b * 64 + c, d);
    OneGroup(a * 64 + b, c);
    OneGroup(a, b);
    TwoGroups(a * 64 + b, c * 64 + d);
    ThreeGroups(a, b * 4096 + c * 64 + d);
  }

  lemma EncodeUndoesDecode(s: seq<byte>)
    requires s != [] && HeadOf(s).Whole?
    ensures 0 <= Decode(s) < 0x110000 && !(0xD800 <= Decode(s) < 0xE000)
    ensures Encode(Decode(s)) == s[..HeadOf(s).width]
  {
    var first: int := s[0];
    match HeadOf(s).width {
      case 1 =>
      case 2 => SixBitGroups(0, 0, first - 0xC0, Low(s[1]));
      case 3 => ThreeOctets(s);
      case _ => FourOctets(s);
    }
  }

  lemma ThreeOctets(s: seq<byte>)
    requires s != [] && HeadOf(s) == Whole(3)
    ensures 0x800 <= Decode(s) < 0x10000 && !(0xD800 <= Decode(s) < 0xE000)
    ensures Encode(Decode(s)) == s[..3]
  {
    SixBitGroups(0, s[0] - 0xE0, Low(s[1]), Low(s[2]));
  }

  lemma FourOctets(s: seq<byte>)
    requires s != [] && HeadOf(s) == Whole(4)
    ensures 0x10000 <= Decode(s) < 0x110000
    ensures Encode(Decode(s)) == s[..4]
  {
    SixBitGroups(s[0] - 0xF0, Low(s[1]), Low(s[2]), Low(s[3]));
  }

  lemma HeadOfEncoding(c: Scalar, rest: seq<byte>)
    ensures HeadOf(Encode(c) + rest) == Whole(|Encode(c)|)
  {
    var s := Encode(c) + rest;
    assert s[0] == Encode(c)[0];
    if c >= 0x80 {
      assert s[1] == Encode(c)[1];
    }
    if c >= 0x800 {
      assert s[2] == Encode(c)[2];
    }
    if c >= 0x10000 {
      assert s[3] == Encode(c)[3];
    }
  }

  lemma {:induction false} EncodingIsFine(text: seq<Scalar>)
    ensures FromUtf8(EncodeAll(text)).Fine?
  {
    if text != [] {
      var first, rest := Encode(text[0]), EncodeAll(text[1..]);
      HeadOfEncoding(text[0], rest);
      assert (first + rest)[|first|..] == rest;
      EncodingIsFine(text[1..]);
    }
  }

  lemma EncodeAllStep(c: Scalar, rest: seq<Scalar>)
    ensures EncodeAll([c] + rest) == Encode(c) + EncodeAll(rest)
  {
    assert ([c] + rest)[1..] == rest;
  }

  /** The character at the head, and what follows it. */
  lemma FirstCharacter(s: seq<byte>) returns (c: Scalar, rest: seq<byte>)
    requires s != [] && FromUtf8(s).Fine?
    ensures FromUtf8(rest).Fine? && s == Encode(c) + rest && |rest| < |s|
  {
    var width := HeadOf(s).width;
    EncodeUndoesDecode(s);
    c, rest := Decode(s), s[width..];
    assert s == s[..width] + s[width..];
  }

  lemma {:induction false} FineIsEncoding(s: seq<byte>) returns (text: seq<Scalar>)
    requires FromUtf8(s).Fine?
    ensures EncodeAll(text) == s
    decreases |s|
  {
    if s == [] {
      text := [];
    } else {
      var c, tail := FirstCharacter(s);
      var rest := FineIsEncoding(tail);
      EncodeAllStep(c, rest);
      text := [c] + rest;
    }
  }

  lemma ValidatorIsExact(s: seq<byte>)
    ensures FromUtf8(s).Fine? <==> WellFormed(s)
  {
    if FromUtf8(s).Fine? {
      var text := FineIsEncoding(s);
    }
    if text: seq<Scalar> :| EncodeAll(text) == s {
      EncodingIsFine(text);
    }
  }
}
