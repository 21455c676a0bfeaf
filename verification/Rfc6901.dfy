/**
  Array indices as RFC 6901 section 4 spells them, beside the spellings the redaction accepts: the
  code also takes a plus sign and leading zeros.
 */
module Rfc6901 {
  import opened Bytes
  import opened Redaction

  /** The grammar of section 4: a single zero, or digits without a leading zero. */
  predicate IsArrayIndex(segment: string) {
    && segment != ""
    && (forall c | c in segment :: IsDigit(c))
    && (segment[0] == '0' ==> |segment| == 1)
  }

  /** The index a segment means by that grammar; no array has more items than a `usize` counts. */
  function ArrayIndex(segment: string): Option<nat> {
    if IsArrayIndex(segment) && Decimal(segment) <= USIZE_MAX then Some(Decimal(segment)) else None
  }

  /** A plus sign in front, or a zero in front of more. */
  predicate LooseSpelling(segment: string) {
    segment != "" && (segment[0] == '+' || (segment[0] == '0' && |segment| > 1))
  }

  /** What the code takes for an index although the grammar does not. */
  predicate LooseIndex(segment: string) {
    ParseIndex(segment).Some? && LooseSpelling(segment)
  }

  /** Of the segments taken for an index, exactly those without plus sign and leading zero follow the grammar. */
  lemma ParsedIndexIsRfcIndex(segment: string)
    requires ParseIndex(segment).Some?
    ensures IsArrayIndex(segment) <==> !LooseSpelling(segment)
    ensures ParseIndex(segment) == ArrayIndex(segment) <==> !LooseSpelling(segment)
  {
    if segment[0] == '+' {
      assert segment[0] in segment && !IsDigit('+');
    }
  }

  /** Both readings of a segment agree exactly when it is not loose. */
  lemma ReadingsAgree(segment: string)
    ensures ParseIndex(segment) == ArrayIndex(segment) <==> !LooseIndex(segment)
  {
    if ParseIndex(segment).Some? {
      ParsedIndexIsRfcIndex(segment);
    } else if IsArrayIndex(segment) {
      assert segment[0] in segment && segment[0] != '+';
    }
  }

  // ----- Numbers and their spelling -----

  function Digit(n: nat): char
    requires n < 10
  {
    ['0', '1', '2', '3', '4', '5', '6', '7', '8', '9'][n]
  }

  /** A number in decimal, without sign or leading zeros. */
  function Spelling(n: nat): string {
    if n < 10 then [Digit(n)] else Spelling(n / 10) + [Digit(n % 10)]
  }

  /** The segment without a plus sign and leading zeros; a last digit stays. */
  function Stripped(segment: string): string {
    WithoutZeros(if segment != "" && segment[0] == '+' then segment[1..] else segment)
  }

  function WithoutZeros(digits: string): string {
    if |digits| > 1 && digits[0] == '0' then WithoutZeros(digits[1..]) else digits
  }

  lemma DigitIsItself(n: nat)
    requires n < 10
    ensures IsDigit(Digit(n)) && DigitValue(Digit(n)) == n && (Digit(n) == '0' <==> n == 0)
  {
  }

  lemma DigitOfValue(c: char)
    requires IsDigit(c)
    ensures DigitValue(c) < 10 && Digit(DigitValue(c)) == c
  {
  }

  ghost predicate AllDigits(text: string) {
    forall c | c in text :: IsDigit(c)
  }

  lemma DecimalStep(digits: string, c: char)
    requires AllDigits(digits) && IsDigit(c)
    ensures AllDigits(digits + [c]) && Decimal(digits + [c]) == 10 * Decimal(digits) + DigitValue(c)
  {
    assert (digits + [c])[..|digits|] == digits;
  }

  /** A spelled number reads back. */
  lemma {:induction false} SpellingReadsBack(n: nat)
    ensures AllDigits(Spelling(n)) && Spelling(n) != "" && Decimal(Spelling(n)) == n
    ensures Spelling(n)[0] == '0' ==> n == 0
  {
    if n < 10 {
      DigitIsItself(n);
      DecimalStep("", Digit(n));
      assert "" + [Digit(n)] == [Digit(n)];
    } else {
      SpellingReadsBack(n / 10);
      DigitIsItself(n % 10);
      DecimalStep(Spelling(n / 10), Digit(n % 10));
    }
  }

  lemma LastDigit(digits: string)
    requires digits != "" && AllDigits(digits)
    ensures var front, last := digits[..|digits| - 1], digits[|digits| - 1];
            digits == front + [last] && AllDigits(front) && IsDigit(last)
  {
    assert digits[|digits| - 1] in digits;
    assert forall c :: c in digits[..|digits| - 1] ==> c in digits;
  }

  lemma OneMoreDigit(n: nat, d: nat)
    requires n > 0 && d < 10
    ensures Spelling(10 * n + d) == Spelling(n) + [Digit(d)]
  {
    assert (10 * n + d) / 10 == n && (10 * n + d) % 10 == d;
  }

  /** Digits without a leading zero are the spelling of their number. */
  lemma {:induction false} DigitsAreSpelled(digits: string)
    requires digits != "" && AllDigits(digits) && (digits[0] == '0' ==> |digits| == 1)
    ensures Spelling(Decimal(digits)) == digits
    ensures digits[0] != '0' ==> Decimal(digits) > 0
    decreases |digits|
  {
    var front, last := digits[..|digits| - 1], digits[|digits| - 1];
    LastDigit(digits);
    DecimalStep(front, last);
    DigitOfValue(last);
    if front == "" {
      DigitIsItself(DigitValue(last));
    } else {
      DigitsAreSpelled(front);
      OneMoreDigit(Decimal(front), DigitValue(last));
    }
  }

  lemma {:induction false} ZerosAreWorthless(digits: string)
    requires AllDigits(digits)
    ensures AllDigits(WithoutZeros(digits)) && Decimal(WithoutZeros(digits)) == Decimal(digits)
    decreases |digits|
  {
    if |digits| > 1 && digits[0] == '0' {
      assert forall c :: c in digits[1..] ==> c in digits;
      ZerosAreWorthless(digits[1..]);
      LeadingZero(digits[1..]);
      assert "0" + digits[1..] == digits;
    }
  }

  lemma {:induction false} LeadingZero(digits: string)
    requires AllDigits(digits)
    ensures AllDigits("0" + digits) && Decimal("0" + digits) == Decimal(digits)
    decreases |digits|
  {
    if digits == "" {
      DecimalStep("", '0');
      assert "0" + "" == "" + ['0'];
    } else {
      var front, last := digits[..|digits| - 1], digits[|digits| - 1];
      LastDigit(digits);
      LeadingZero(front);
      DecimalStep(front, last);
      DecimalStep("0" + front, last);
      assert "0" + digits == "0" + front + [last];
    }
  }

  lemma {:induction false} WithoutZerosShape(digits: string)
    ensures digits != "" ==> WithoutZeros(digits) != ""
    ensures WithoutZeros(digits) != "" && WithoutZeros(digits)[0] == '0' ==> |WithoutZeros(digits)| == 1
    ensures AllDigits(WithoutZeros(digits)) ==> AllDigits(digits)
    decreases |digits|
  {
    if |digits| > 1 && digits[0] == '0' {
      WithoutZerosShape(digits[1..]);
      assert digits == ['0'] + digits[1..];
    }
  }

  /** A segment is taken for the index `n` exactly when it spells `n`, but for a plus sign and leading zeros. */
  lemma ParseIndexIsExact(segment: string, n: nat)
    ensures ParseIndex(segment) == Some(n) <==> n < 0x1_0000_0000_0000_0000 && Stripped(segment) == Spelling(n)
  {
    var digits := if segment != "" && segment[0] == '+' then segment[1..] else segment;
    SpellingReadsBack(n);
    WithoutZerosShape(digits);
    if digits != "" && AllDigits(digits) {
      ZerosAreWorthless(digits);
      DigitsAreSpelled(WithoutZeros(digits));
    }
  }

  /** Every number is understood, as itself, in its own spelling. */
  lemma SpellingIsUnderstood(n: nat)
    requires n <= USIZE_MAX
    ensures ParseIndex(Spelling(n)) == Some(n) && ArrayIndex(Spelling(n)) == Some(n)
  {
    SpellingReadsBack(n);
    OwnSpelling(n);
    ParseIndexIsExact(Spelling(n), n);
  }

  lemma OwnSpelling(n: nat)
    ensures Stripped(Spelling(n)) == Spelling(n) && Spelling(n) != "*"
    ensures Spelling(n)[0] == '0' ==> |Spelling(n)| == 1
  {
    SpellingReadsBack(n);
    assert Spelling(n)[0] in Spelling(n);
    if n == 0 {
      assert Spelling(0) == ['0'];
    }
  }

  lemma IndexRedacts(items: seq<Json>, segment: string, n: nat, rest: seq<string>)
    requires segment != "*" && ParseIndex(segment) == Some(n)
    ensures RedactPath(Array(items), [segment] + rest)
         == Array(if n < |items| then items[n := RedactPath(items[n], rest)] else items)
  {
    var path := [segment] + rest;
    assert path[0] == segment && path[1..] == rest;
  }

  /** A path that begins with a number goes on in the item with that number, and in no other. */
  lemma NumberRedactsItsItem(items: seq<Json>, n: nat, rest: seq<string>)
    requires n <= USIZE_MAX
    ensures RedactPath(Array(items), [Spelling(n)] + rest)
         == Array(if n < |items| then items[n := RedactPath(items[n], rest)] else items)
    ensures rest == [] && n < |items| ==>
              RedactPath(Array(items), [Spelling(n)] + rest) == Array(items[n := REDACTED])
  {
    var segment := Spelling(n);
    assert segment != "*" && ParseIndex(segment) == Some(n) by {
      SpellingIsUnderstood(n);
      OwnSpelling(n);
    }
    IndexRedacts(items, segment, n, rest);
  }

  /** The inputs that show the difference. */
  lemma PlusAndZeroAreAccepted()
    ensures ParseIndex("+1") == Some(1) && ArrayIndex("+1") == None
    ensures ParseIndex("01") == Some(1) && ArrayIndex("01") == None
    ensures RedactPath(Array([Null, Null]), ["+1"]) == Array([Null, REDACTED])
    ensures RedactPath(Array([Null, Null]), ["01"]) == Array([Null, REDACTED])
    ensures RedactByRfc(Array([Null, Null]), ["+1"]) == RedactByRfc(Array([Null, Null]), ["01"]) == Array([Null, Null])
  {
    assert "+1"[1..] == "1" && "1"[..0] == "" && "01"[..1] == "0" && "0"[..0] == "";
    assert Decimal("1") == 1 && Decimal("01") == 1;
    assert '+' == "+1"[0] && '+' in "+1";
    assert [Null, Null][1 := REDACTED] == [Null, REDACTED];
  }

  /** The redaction of a path with the RFC's reading of array indices. */
  function RedactByRfc(value: Json, path: seq<string>): Json {
    RedactAlong(value, path, ArrayIndex)
  }

  predicate Strict(path: seq<string>) {
    forall segment | segment in path :: !LooseIndex(segment)
  }

  /** Readers that agree on the segments of a path redact it alike. */
  lemma {:induction false} ReadersAgree(
    value: Json, path: seq<string>, one: string -> Option<nat>, other: string -> Option<nat>)
    requires forall segment :: segment in path ==> one(segment) == other(segment)
    ensures RedactAlong(value, path, one) == RedactAlong(value, path, other)
    decreases |path|
  {
    if path != [] {
      var rest := path[1..];
      match value
      case Object(fields) =>
        forall k | k in fields
          ensures RedactAlong(fields[k], rest, one) == RedactAlong(fields[k], rest, other)
        {
          ReadersAgree(fields[k], rest, one, other);
        }
        assert RedactAlong(value, path, one).fields == RedactAlong(value, path, other).fields;
      case Array(items) =>
        assert path[0] in path;
        forall i | 0 <= i < |items|
          ensures RedactAlong(items[i], rest, one) == RedactAlong(items[i], rest, other)
        {
          ReadersAgree(items[i], rest, one, other);
        }
        assert RedactAlong(value, path, one).items == RedactAlong(value, path, other).items;
      case _ =>
    }
  }

  /** Nested objects that a path leads through to the end. */
  function Along(path: seq<string>, leaf: Json): Json {
    if path == [] then leaf else Object(map[path[0] := Along(path[1..], leaf)])
  }

  /** A path changes what it leads to. */
  lemma {:induction false} PathChanges(path: seq<string>)
    ensures RedactPath(Along(path, Null), path) != Along(path, Null)
  {
    if path != [] {
      PathChanges(path[1..]);
      var fields := map[path[0] := Along(path[1..], Null)];
      assert RedactPath(Object(fields), path).fields[path[0]] == RedactPath(fields[path[0]], path[1..]);
    }
  }

  /** An array that the loose index of a path's first segment reaches into. */
  lemma LooseSegmentShows(path: seq<string>) returns (value: Json)
    requires path != [] && LooseIndex(path[0])
    ensures RedactPath(value, path) != RedactByRfc(value, path)
  {
    ReadingsAgree(path[0]);
    ParsedIndexIsRfcIndex(path[0]);
    PathChanges(path[1..]);
    var index, item := ParseIndex(path[0]).value, Along(path[1..], Null);
    var items := seq(index + 1, i => item);
    value := Array(items);
    assert path[0] != "*";
    assert RedactPath(value, path).items[index] == RedactPath(item, path[1..]);
    assert RedactByRfc(value, path) == value && items[index] == item;
  }

  lemma {:induction false} LoosePathShows(path: seq<string>) returns (value: Json)
    requires !Strict(path)
    ensures RedactPath(value, path) != RedactByRfc(value, path)
    decreases |path|
  {
    if LooseIndex(path[0]) {
      value := LooseSegmentShows(path);
    } else {
      var segment :| segment in path && LooseIndex(segment);
      assert segment in path[1..];
      var below := LoosePathShows(path[1..]);
      value := Object(map[path[0] := below]);
      assert RedactPath(value, path).fields[path[0]] == RedactPath(below, path[1..]);
      assert RedactByRfc(value, path).fields[path[0]] == RedactByRfc(below, path[1..]);
    }
  }

  /**
    The code follows the RFC's reading of a path on every value exactly when no segment of the path is
    taken for an index in spite of a plus sign or a leading zero.
   */
  lemma AgreesWithRfcExactlyWhenStrict(path: seq<string>)
    ensures (forall value: Json :: RedactPath(value, path) == RedactByRfc(value, path)) <==> Strict(path)
  {
    if Strict(path) {
      forall value: Json
        ensures RedactPath(value, path) == RedactByRfc(value, path)
      {
        forall segment | segment in path
          ensures ParseIndex(segment) == ArrayIndex(segment)
        {
          ReadingsAgree(segment);
        }
        ReadersAgree(value, path, ParseIndex, ArrayIndex);
      }
    } else {
      var value := LoosePathShows(path);
    }
  }
}
