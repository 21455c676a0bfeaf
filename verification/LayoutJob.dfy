/** Laying out one body: validate it through the checking reader, then print it byte by byte. */
module LayoutJob {
  import opened Bytes
  import opened Utf8
  import opened CheckedReader
  import opened JsonLayout
  import opened JsonRender

  datatype LayoutError = Unavailable | Interrupted

  /** One round of the printing loop: what to write for `byte`, and where that leaves the printer. */
  method PrintByte(byte: byte, inString0: bool, escaped0: bool, depth0: nat)
    returns (out: seq<byte>, inString: bool, escaped: bool, depth: nat)
    requires Closes(byte) && !inString0 ==> depth0 > 0
    ensures out == Emit(Place(inString0, escaped0, depth0), byte)
    ensures Place(inString, escaped, depth) == Place(inString0, escaped0, depth0).After(byte)
  {
    inString, escaped, depth := inString0, escaped0, depth0;
    out := [];
    if inString {
      out := [byte];
      if escaped {
        escaped := false;
      } else if byte == BACKSLASH {
        escaped := true;
      } else if byte == QUOTE {
        inString := false;
      }
    } else if byte == QUOTE {
      inString := true;
      out := [byte];
    } else if Opens(byte) {
      depth := depth + 1;
      out := [byte, NEWLINE] + Spaces(depth * 2);
    } else if Closes(byte) {
      depth := depth - 1;
      out := [NEWLINE] + Spaces(depth * 2) + [byte];
    } else if byte == COMMA {
      out := [COMMA, NEWLINE] + Spaces(depth * 2);
    } else if byte == COLON {
      out := [COLON, SPACE];
    } else if !IsSpace(byte) {
      out := [byte];
    }
  }

  /** What may stop the second pass: a read at an input offset, or a write (or the last flush) at an output length. */
  datatype Hazards = Hazards(readStops: nat -> bool, writeStops: nat -> bool) {

    /** The pass is stopped when `n` bytes of the body have been printed. */
    predicate StopsAt(body: seq<byte>, n: nat)
      requires n <= |body|
    {
      readStops(n) || writeStops(|Format(body[..n])|)
    }

    ghost predicate ClearUpTo(body: seq<byte>, n: nat)
      requires n <= |body| + 1
    {
      forall k: nat :: k < n ==> !StopsAt(body, k)
    }
  }

  lemma OneByteMore(body: seq<byte>, i: nat)
    requires i < |body|
    ensures PlaceAfter(body[..i + 1]) == PlaceAfter(body[..i]).After(body[i])
    ensures Format(body[..i + 1]) == Format(body[..i]) + Emit(PlaceAfter(body[..i]), body[i])
  {
    assert body[..i + 1] == body[..i] + [body[i]];
    PlaceStep(body[..i], body[i]);
    FormatStep(body[..i], body[i]);
  }

  /** The printing loop. It is interrupted exactly when something stops it at an offset up to the end of the body. */
  method Print(body: seq<byte>, hazards: Hazards) returns (r: Result<seq<byte>, LayoutError>)
    requires Balanced(body)
    ensures r.Ok? ==> r.value == Format(body) && hazards.ClearUpTo(body, |body| + 1)
    ensures r.Err? ==> r.error == Interrupted && exists n: nat :: n <= |body| && hazards.StopsAt(body, n)
  {
    var output: seq<byte> := [];
    var inString, escaped := false, false;
    var depth: nat := 0;
    assert body[..0] == [];
    for i := 0 to |body|
      invariant Place(inString, escaped, depth) == PlaceAfter(body[..i])
      invariant output == Format(body[..i])
      invariant hazards.ClearUpTo(body, i)
    {
      var byte := body[i];
      if hazards.readStops(i) || hazards.writeStops(|output|) {
        assert hazards.StopsAt(body, i);
        return Err(Interrupted);
      }
      OneByteMore(body, i);
      var out;
      out, inString, escaped, depth := PrintByte(byte, inString, escaped, depth);
      output := output + out;
    }
    assert body[..|body|] == body;
    if hazards.readStops(|body|) || hazards.writeStops(|output|) {
      assert hazards.StopsAt(body, |body|);
      return Err(Interrupted);
    }
    r := Ok(output);
  }

  /**
    The layout job on one body: validate through the checking reader, then print. `parses` is the
    parser's verdict on the text; a cancelled or failed read of the first pass reaches the user as a
    refusal of the text as well.
   */
  method FormatJson(chunks: seq<seq<byte>>, parses: bool, ends: nat, cancelled: nat -> bool, fails: nat -> bool,
                    hazards: Hazards)
    returns (r: Result<seq<byte>, LayoutError>)
    requires forall c :: c in chunks ==> c != []
    requires ends > 0
    requires parses ==> IsJson(Concat(chunks))
    ensures r == Err(Unavailable) <==> !(&& parses && WellFormed(Concat(chunks)) && Shallow(Concat(chunks))
                                         && FairReads(cancelled, fails, |chunks| + ends))
    ensures r != Err(Unavailable) ==>
              (r == Err(Interrupted) <==>
               exists n: nat :: n <= |Concat(chunks)| && hazards.StopsAt(Concat(chunks), n))
    ensures r.Ok? ==> r.value == Format(Concat(chunks)) && |r.value| <= 258 * |Concat(chunks)|
    ensures r.Ok? ==> Tokens(r.value) == Tokens(Concat(chunks)) && IsJson(r.value)
    ensures forall v: Value :: r.Ok? && Proper(v) && TokensOf(v) == Tokens(Concat(chunks)) ==> r.value == Render(v, 0)
  {
    var accepted := ReadToEnd(chunks, ends, cancelled, fails);
    if !accepted || !parses {
      return Err(Unavailable);
    }
    var body := Concat(chunks);
    JsonIsBalanced(body);
    LayoutPreservesMeaning(body);
    FormatSize(body);
    forall v: Value | Proper(v) && TokensOf(v) == Tokens(body)
      ensures Format(body) == Render(v, 0)
    {
      FormatIsRender(body, v);
    }
    r := Print(body, hazards);
  }

  lemma BracketsAreJson()
    ensures IsJson([91, 93])
  {
    var s: seq<byte> := [91, 93];
    assert s[..1] == [91];
    OneByte(NOTHING, 91);
    assert Lex([91]) == Lexed([Punct(91)], Between);
    assert Lex(s) == Lex([91]).After(93);
    assert Tokens(s) == [Punct(91), Punct(93)];
    assert TokensOf(Array(End)) == [Punct(91), Punct(93)];
    assert Proper(Array(End));
  }

  /** The text `[]` and nothing wrong with it. */
  lemma BracketsAreFine()
    ensures IsJson([91, 93]) && WellFormed([91, 93]) && Shallow([91, 93])
  {
    BracketsAreJson();
    var s: seq<byte> := [91, 93];
    EncodeAllStep(91, [93]);
    EncodeAllStep(93, []);
    assert [91] + [93] == s && [93] + [] == [93];
    assert EncodeAll([91, 93]) == s;
    assert s[..1] == [91] && [91][..0] == [];
    assert PlaceAfter([91]) == Place(false, false, 1);
    ShallowStep([], 91);
    ShallowStep([91], 93);
    assert [] + [91] == [91];
  }

  /** It can happen: a text with nothing wrong is refused because the layout was cancelled while it was validated. */
  method CancelledTextIsRefused() returns (r: Result<seq<byte>, LayoutError>)
    ensures IsJson([91, 93]) && WellFormed([91, 93]) && Shallow([91, 93])
    ensures r == Err(Unavailable)
  {
    BracketsAreFine();
    var chunks: seq<seq<byte>> := [[91, 93]];
    assert Concat(chunks) == [91, 93] by {
      assert chunks[..0] == [];
    }
    var cancelled := (n: nat) => n == 0;
    assert cancelled(0);
    r := FormatJson(chunks, true, 1, cancelled, n => false, Hazards(n => false, n => false));
  }
}
