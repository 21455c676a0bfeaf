/**
  The JSON layout: a byte-level printer that may change only whitespace outside
  strings. Its meaning is given by an independent tokenizer and by the grammar
  of RFC 8259, section 2.
 */
module JsonLayout {
  import opened Bytes
  import opened Utf8
  import opened CheckedReader

  const NEWLINE: byte := 10
  const SPACE: byte := 32
  const COMMA: byte := 44
  const COLON: byte := 58

  predicate IsSpace(b: byte) { b == 32 || b == 10 || b == 13 || b == 9 }

  predicate IsPunctuation(b: byte) { Opens(b) || Closes(b) || b == COMMA || b == COLON }

  // ----- The printer as a function of the whole text -----

  function Spaces(n: nat): (s: seq<byte>)
    ensures |s| == n && forall b :: b in s ==> b == SPACE
  {
    seq(n, i => SPACE)
  }

  /** What is written for `b` standing at `place`. */
  function Emit(place: Place, b: byte): (out: seq<byte>)
    ensures place.depth <= MAX_DEPTH && place.After(b).depth <= MAX_DEPTH ==> |out| <= 258
  {
    if place.inString then [b]
    else if Opens(b) then [b, NEWLINE] + Spaces(2 * place.After(b).depth)
    else if Closes(b) then [NEWLINE] + Spaces(2 * place.After(b).depth) + [b]
    else if b == COMMA then [COMMA, NEWLINE] + Spaces(2 * place.depth)
    else if b == COLON then [COLON, SPACE]
    else if IsSpace(b) then []
    else [b]
  }

  function Format(s: seq<byte>): seq<byte> {
    if s == [] then []
    else Format(s[..|s| - 1]) + Emit(PlaceAfter(s[..|s| - 1]), s[|s| - 1])
  }

  lemma FormatStep(s: seq<byte>, b: byte)
    ensures Format(s + [b]) == Format(s) + Emit(PlaceAfter(s), b)
  {
    assert (s + [b])[..|s|] == s;
  }

  // ----- Tokens -----

  datatype Token = Punct(b: byte) | Str(bytes: seq<byte>) | Scalar(bytes: seq<byte>)

  /** Between tokens, inside a run of scalar bytes, or inside a string (after a backslash or not). */
  datatype Mode = Between | InScalar | InString(escaped: bool)

  /** The tokens begun so far; an unfinished one is the last. */
  datatype Lexed = Lexed(tokens: seq<Token>, mode: Mode) {

    predicate EndsInScalar() {
      tokens != [] && tokens[|tokens| - 1].Scalar?
    }

    function Push(token: Token, mode': Mode): Lexed {
      Lexed(tokens + [token], mode')
    }

    /** The unfinished token gains a byte. */
    function Extend(b: byte, mode': Mode): Lexed {
      if tokens == [] then Lexed([], mode')
      else
        var last := tokens[|tokens| - 1];
        var longer := match last
                      case Punct(_) => last
                      case Str(bytes) => Str(bytes + [b])
                      case Scalar(bytes) => Scalar(bytes + [b]);
        Lexed(tokens[..|tokens| - 1] + [longer], mode')
    }

    function After(b: byte): Lexed {
      match mode
      case InString(true) => Extend(b, InString(false))
      case InString(false) => Extend(b, if b == BACKSLASH then InString(true) else if b == QUOTE then Between else mode)
      case _ =>
        if IsSpace(b) then Lexed(tokens, Between)
        else if IsPunctuation(b) then Push(Punct(b), Between)
        else if b == QUOTE then Push(Str([b]), InString(false))
        else if mode == Between then Push(Scalar([b]), InScalar)
        else Extend(b, InScalar)
    }

    function AfterAll(s: seq<byte>): Lexed {
      if s == [] then this else AfterAll(s[..|s| - 1]).After(s[|s| - 1])
    }

    lemma {:induction false} AfterBoth(s: seq<byte>, t: seq<byte>)
      ensures AfterAll(s + t) == AfterAll(s).AfterAll(t)
    {
      if t == [] {
        assert s + t == s;
      } else {
        AfterBoth(s, t[..|t| - 1]);
        assert (s + t)[..|s + t| - 1] == s + t[..|t| - 1];
      }
    }

    lemma {:induction false} AfterSpaces(n: nat)
      requires !mode.InString?
      ensures AfterAll(Spaces(n)) == if n == 0 then this else Lexed(tokens, Between)
    {
      if n > 0 {
        assert Spaces(n)[..n - 1] == Spaces(n - 1);
        AfterSpaces(n - 1);
      }
    }
  }

  const NOTHING := Lexed([], Between)

  function Lex(s: seq<byte>): Lexed {
    NOTHING.AfterAll(s)
  }

  function Tokens(s: seq<byte>): seq<Token> {
    Lex(s).tokens
  }

  /** Two scalars in a row, which only whitespace can have kept apart. */
  predicate FusedAt(tokens: seq<Token>, i: nat) {
    i + 1 < |tokens| && tokens[i].Scalar? && tokens[i + 1].Scalar?
  }

  ghost predicate NoFusion(tokens: seq<Token>) {
    forall i: nat :: !FusedAt(tokens, i)
  }

  /**
    The tokenizer and the place agree on what is inside a string, and an unfinished token has the kind
    its mode says.
   */
  lemma {:induction false} LexAgreesWithPlace(s: seq<byte>)
    ensures Lex(s).mode.InString? <==> PlaceAfter(s).inString
    ensures Lex(s).mode.InString? ==> Lex(s).mode.escaped == PlaceAfter(s).escaped
    ensures !PlaceAfter(s).inString ==> !PlaceAfter(s).escaped
    ensures Lex(s).mode.InString? ==> Tokens(s) != [] && Tokens(s)[|Tokens(s)| - 1].Str?
    ensures Lex(s).mode.InScalar? ==> Lex(s).EndsInScalar()
  {
    if s != [] {
      LexAgreesWithPlace(s[..|s| - 1]);
    }
  }

  /**
    The lexed input `a` and the lexed output `b` after the same prefix. They part only where
    whitespace after a scalar was dropped, and the output has one token less per fused pair.
   */
  ghost predicate InStep(a: Lexed, b: Lexed) {
    && b.mode == (if a.mode == Between && a.EndsInScalar() then InScalar else a.mode)
    && |b.tokens| <= |a.tokens|
    && (NoFusion(a.tokens) ==> a.tokens == b.tokens)
    && (!NoFusion(a.tokens) ==> |b.tokens| < |a.tokens|)
  }

  lemma PushKeepsFusion(tokens: seq<Token>, token: Token)
    ensures NoFusion(tokens + [token])
       <==> NoFusion(tokens) && !(tokens != [] && tokens[|tokens| - 1].Scalar? && token.Scalar?)
  {
    var longer := tokens + [token];
    assert forall i: nat :: i + 1 < |tokens| ==> (FusedAt(longer, i) <==> FusedAt(tokens, i));
    if tokens != [] {
      assert FusedAt(longer, |tokens| - 1) <==> tokens[|tokens| - 1].Scalar? && token.Scalar?;
    }
  }

  lemma ExtendKeepsFusion(a: Lexed, b: byte, mode: Mode)
    ensures NoFusion(a.Extend(b, mode).tokens) <==> NoFusion(a.tokens)
    ensures |a.Extend(b, mode).tokens| == |a.tokens|
  {
    var longer := a.Extend(b, mode).tokens;
    assert forall i: nat :: FusedAt(longer, i) <==> FusedAt(a.tokens, i);
  }

  /** Punctuation that ends its line. */
  lemma LexesThenBreak(lexed: Lexed, b: byte, n: nat)
    requires !lexed.mode.InString? && IsPunctuation(b)
    ensures lexed.AfterAll([b, NEWLINE] + Spaces(n)) == lexed.Push(Punct(b), Between)
  {
    var pushed := lexed.Push(Punct(b), Between);
    OneByte(lexed, b);
    OneByte(pushed, NEWLINE);
    lexed.AfterBoth([b], [NEWLINE]);
    assert [b] + [NEWLINE] == [b, NEWLINE];
    lexed.AfterBoth([b, NEWLINE], Spaces(n));
    pushed.AfterSpaces(n);
  }

  /** Punctuation that begins a line. */
  lemma BreakThenLexes(lexed: Lexed, b: byte, n: nat)
    requires !lexed.mode.InString? && IsPunctuation(b)
    ensures lexed.AfterAll([NEWLINE] + Spaces(n) + [b]) == lexed.Push(Punct(b), Between)
  {
    var calm := Lexed(lexed.tokens, Between);
    OneByte(lexed, NEWLINE);
    lexed.AfterBoth([NEWLINE], Spaces(n));
    calm.AfterSpaces(n);
    lexed.AfterBoth([NEWLINE] + Spaces(n), [b]);
    OneByte(calm, b);
  }

  lemma LexesThenSpace(lexed: Lexed, b: byte)
    requires !lexed.mode.InString? && IsPunctuation(b)
    ensures lexed.AfterAll([b, SPACE]) == lexed.Push(Punct(b), Between)
  {
    OneByte(lexed, b);
    lexed.AfterBoth([b], [SPACE]);
    OneByte(lexed.Push(Punct(b), Between), SPACE);
    assert [b] + [SPACE] == [b, SPACE];
  }

  /** Appending what is emitted for one byte, as the output's tokenizer sees it. */
  lemma EmitLexes(place: Place, b: byte, lexed: Lexed)
    requires place.inString <==> lexed.mode.InString?
    ensures place.inString ==> lexed.AfterAll(Emit(place, b)) == lexed.After(b)
    ensures !place.inString && IsSpace(b) ==> lexed.AfterAll(Emit(place, b)) == lexed
    ensures !place.inString && IsPunctuation(b) ==> lexed.AfterAll(Emit(place, b)) == lexed.Push(Punct(b), Between)
    ensures !place.inString && !IsSpace(b) && !IsPunctuation(b) ==> lexed.AfterAll(Emit(place, b)) == lexed.After(b)
  {
    if place.inString {
      OneByte(lexed, b);
    } else if Opens(b) {
      LexesThenBreak(lexed, b, 2 * place.After(b).depth);
    } else if Closes(b) {
      BreakThenLexes(lexed, b, 2 * place.After(b).depth);
    } else if b == COMMA {
      LexesThenBreak(lexed, b, 2 * place.depth);
    } else if b == COLON {
      LexesThenSpace(lexed, b);
    } else if !IsSpace(b) {
      OneByte(lexed, b);
    }
  }

  lemma OneByte(lexed: Lexed, b: byte)
    ensures lexed.AfterAll([b]) == lexed.After(b)
  {
    assert [b][..0] == [];
    assert lexed.AfterAll([]) == lexed;
  }

  /** Inside a string both gain the byte. */
  lemma StringInStep(a: Lexed, b: Lexed, byte: byte)
    requires InStep(a, b) && a.mode.InString?
    requires a.tokens != [] && a.tokens[|a.tokens| - 1].Str?
    ensures InStep(a.After(byte), b.After(byte))
  {
    ExtendKeepsFusion(a, byte, a.After(byte).mode);
    ExtendKeepsFusion(b, byte, b.After(byte).mode);
  }

  /** Punctuation, or a quote, begins a token in both. */
  lemma PushInStep(a: Lexed, b: Lexed, token: Token, mode: Mode)
    requires InStep(a, b) && !token.Scalar? && mode != InScalar
    requires mode == Between ==> token.Punct?
    ensures InStep(a.Push(token, mode), b.Push(token, mode))
  {
    PushKeepsFusion(a.tokens, token);
  }

  /** A scalar byte begins a token in the input, and in the output unless it follows a scalar. */
  lemma ScalarInStep(a: Lexed, b: Lexed, byte: byte)
    requires InStep(a, b) && !a.mode.InString?
    requires a.mode.InScalar? ==> a.EndsInScalar()
    requires !IsSpace(byte) && !IsPunctuation(byte) && byte != QUOTE
    ensures InStep(a.After(byte), b.After(byte))
  {
    PushKeepsFusion(a.tokens, Scalar([byte]));
    ExtendKeepsFusion(a, byte, InScalar);
    ExtendKeepsFusion(b, byte, InScalar);
  }

  lemma StepInStep(place: Place, a: Lexed, b: Lexed, byte: byte)
    requires InStep(a, b)
    requires place.inString <==> a.mode.InString?
    requires a.mode.InScalar? ==> a.EndsInScalar()
    requires a.mode.InString? ==> a.tokens != [] && a.tokens[|a.tokens| - 1].Str?
    ensures InStep(a.After(byte), b.AfterAll(Emit(place, byte)))
  {
    EmitLexes(place, byte, b);
    if place.inString {
      StringInStep(a, b, byte);
    } else if IsPunctuation(byte) {
      PushInStep(a, b, Punct(byte), Between);
    } else if byte == QUOTE {
      PushInStep(a, b, Str([byte]), InString(false));
    } else if !IsSpace(byte) {
      ScalarInStep(a, b, byte);
    }
  }

  lemma {:induction false} FormatInStep(s: seq<byte>)
    ensures InStep(Lex(s), Lex(Format(s)))
  {
    if s != [] {
      var front, b := s[..|s| - 1], s[|s| - 1];
      FormatInStep(front);
      LexAgreesWithPlace(front);
      StepInStep(PlaceAfter(front), Lex(front), Lex(Format(front)), b);
      NOTHING.AfterBoth(Format(front), Emit(PlaceAfter(front), b));
    }
  }

  /** The layout keeps the token sequence exactly when no two scalars stand side by side. */
  lemma FormatKeepsTokens(s: seq<byte>)
    ensures Tokens(Format(s)) == Tokens(s) <==> NoFusion(Tokens(s))
  {
    FormatInStep(s);
  }

  // ----- Formatter algebra -----

  /** The text without whitespace outside strings. */
  function Strip(s: seq<byte>): seq<byte> {
    if s == [] then []
    else
      var front, b := s[..|s| - 1], s[|s| - 1];
      Strip(front) + (if !PlaceAfter(front).inString && IsSpace(b) then [] else [b])
  }

  lemma StripStep(s: seq<byte>, b: byte)
    ensures Strip(s + [b]) == Strip(s) + (if !PlaceAfter(s).inString && IsSpace(b) then [] else [b])
  {
    assert (s + [b])[..|s|] == s;
  }

  lemma {:induction false} AppendSpaces(s: seq<byte>, n: nat)
    requires !PlaceAfter(s).inString
    ensures PlaceAfter(s + Spaces(n)) == PlaceAfter(s)
    ensures Strip(s + Spaces(n)) == Strip(s)
  {
    if n == 0 {
      assert s + Spaces(0) == s;
    } else {
      AppendSpaces(s, n - 1);
      assert s + Spaces(n) == s + Spaces(n - 1) + [SPACE];
      PlaceStep(s + Spaces(n - 1), SPACE);
      StripStep(s + Spaces(n - 1), SPACE);
    }
  }

  lemma AppendByte(out: seq<byte>, b: byte)
    ensures PlaceAfter(out + [b]) == PlaceAfter(out).After(b)
    ensures Strip(out + [b]) == Strip(out) + (if !PlaceAfter(out).inString && IsSpace(b) then [] else [b])
  {
    PlaceStep(out, b);
    StripStep(out, b);
  }

  /** A newline and an indent. */
  lemma AppendBreak(out: seq<byte>, n: nat)
    requires !PlaceAfter(out).inString
    ensures PlaceAfter(out + [NEWLINE] + Spaces(n)) == PlaceAfter(out)
    ensures Strip(out + [NEWLINE] + Spaces(n)) == Strip(out)
  {
    var broken := out + [NEWLINE];
    assert PlaceAfter(broken) == PlaceAfter(out) && Strip(broken) == Strip(out) by {
      AppendByte(out, NEWLINE);
    }
    AppendSpaces(broken, n);
  }

  /** `result` is `out` plus the byte, as far as place and stripped text can tell. */
  ghost predicate Adds(out: seq<byte>, b: byte, result: seq<byte>) {
    && PlaceAfter(result) == PlaceAfter(out).After(b)
    && Strip(result) == Strip(out) + (if !PlaceAfter(out).inString && IsSpace(b) then [] else [b])
  }

  lemma Reassociate(out: seq<byte>, b: byte, spaces: seq<byte>)
    ensures out + [b] + [NEWLINE] + spaces == out + ([b, NEWLINE] + spaces)
    ensures out + [NEWLINE] + spaces + [b] == out + ([NEWLINE] + spaces + [b])
  {
  }

  lemma AddsThenBreak(out: seq<byte>, b: byte, n: nat)
    requires !PlaceAfter(out).inString && b != QUOTE
    ensures Adds(out, b, out + ([b, NEWLINE] + Spaces(n)))
  {
    var longer := out + [b];
    assert Adds(out, b, longer) by {
      AppendByte(out, b);
    }
    assert Adds(out, b, longer + [NEWLINE] + Spaces(n)) by {
      AppendBreak(longer, n);
    }
    Reassociate(out, b, Spaces(n));
  }

  lemma BreakThenAdds(out: seq<byte>, b: byte, n: nat)
    requires !PlaceAfter(out).inString
    ensures Adds(out, b, out + ([NEWLINE] + Spaces(n) + [b]))
  {
    var broken := out + [NEWLINE] + Spaces(n);
    assert PlaceAfter(broken) == PlaceAfter(out) && Strip(broken) == Strip(out) by {
      AppendBreak(out, n);
    }
    assert Adds(out, b, broken + [b]) by {
      AppendByte(broken, b);
    }
    Reassociate(out, b, Spaces(n));
  }

  lemma AddsThenSpace(out: seq<byte>, b: byte)
    requires !PlaceAfter(out).inString && b != QUOTE
    ensures Adds(out, b, out + [b, SPACE])
  {
    AppendByte(out, b);
    AppendByte(out + [b], SPACE);
    assert out + [b] + [SPACE] == out + [b, SPACE];
  }

  /**
    Emitting a byte leaves output and input at the same place, and adds the byte itself unless it is
    loose whitespace.
   */
  lemma EmitKeepsPlace(out: seq<byte>, place: Place, b: byte)
    requires PlaceAfter(out) == place
    ensures Adds(out, b, out + Emit(place, b))
  {
    if place.inString || b == QUOTE {
      AppendByte(out, b);
    } else if Opens(b) {
      AddsThenBreak(out, b, 2 * place.After(b).depth);
    } else if Closes(b) {
      BreakThenAdds(out, b, 2 * place.After(b).depth);
    } else if b == COMMA {
      AddsThenBreak(out, b, 2 * place.depth);
    } else if b == COLON {
      AddsThenSpace(out, b);
    } else if IsSpace(b) {
      assert out + [] == out;
    } else {
      AppendByte(out, b);
    }
  }

  /** Only whitespace outside strings is added or removed. */
  lemma {:induction false} FormatChangesOnlySpace(s: seq<byte>)
    ensures Strip(Format(s)) == Strip(s)
    ensures PlaceAfter(Format(s)) == PlaceAfter(s)
  {
    if s != [] {
      var front, b := s[..|s| - 1], s[|s| - 1];
      FormatChangesOnlySpace(front);
      EmitKeepsPlace(Format(front), PlaceAfter(front), b);
    }
  }

  lemma {:induction false} FormatIgnoresSpace(s: seq<byte>)
    ensures Format(Strip(s)) == Format(s)
    ensures PlaceAfter(Strip(s)) == PlaceAfter(s)
  {
    if s != [] {
      var front, b := s[..|s| - 1], s[|s| - 1];
      FormatIgnoresSpace(front);
      if !PlaceAfter(front).inString && IsSpace(b) {
        assert Strip(s) == Strip(front);
      } else {
        FormatStep(Strip(front), b);
        PlaceStep(Strip(front), b);
      }
    }
  }

  /** The layout depends on the stripped text alone, both ways. */
  lemma FormatIsCanonical(s: seq<byte>, t: seq<byte>)
    ensures Format(s) == Format(t) <==> Strip(s) == Strip(t)
    ensures Format(Format(s)) == Format(s)
  {
    FormatChangesOnlySpace(s);
    FormatChangesOnlySpace(t);
    FormatIgnoresSpace(s);
    FormatIgnoresSpace(t);
    FormatIgnoresSpace(Format(s));
  }

  lemma {:induction false} FormatSize(s: seq<byte>)
    requires Shallow(s)
    ensures |Format(s)| <= 258 * |s|
  {
    if s != [] {
      var front := s[..|s| - 1];
      assert front + [s[|s| - 1]] == s;
      ShallowStep(front, s[|s| - 1]);
      assert front[..|front|] == front && PlaceAfter(front).depth <= MAX_DEPTH;
      FormatSize(front);
    }
  }

  // ----- The grammar -----

  /** JSON values over tokens; an object's entries carry a name, an array's do not. */
  datatype Value =
    | Leaf(token: Token)
    | Array(entries: Entries)
    | Object(entries: Entries)

  datatype Entries = End | More(name: Option<Token>, value: Value, rest: Entries)

  predicate Proper(v: Value) {
    match v
    case Leaf(token) => !token.Punct?
    case Array(entries) => ProperEntries(entries, false)
    case Object(entries) => ProperEntries(entries, true)
  }

  predicate ProperEntries(entries: Entries, named: bool) {
    match entries
    case End => true
    case More(name, value, rest) =>
      && (if named then name.Some? && name.value.Str? else name.None?)
      && Proper(value)
      && ProperEntries(rest, named)
  }

  function TokensOf(v: Value): seq<Token> {
    match v
    case Leaf(token) => [token]
    case Array(entries) => [Punct(91)] + TokensOfEntries(entries) + [Punct(93)]
    case Object(entries) => [Punct(123)] + TokensOfEntries(entries) + [Punct(125)]
  }

  function TokensOfEntries(entries: Entries): seq<Token> {
    match entries
    case End => []
    case More(name, value, rest) =>
      (if name.Some? then [name.value, Punct(COLON)] else [])
      + TokensOf(value)
      + (if rest.End? then [] else [Punct(COMMA)] + TokensOfEntries(rest))
  }

  /** The tokens of `s` spell one JSON value and no string is left open. */
  ghost predicate IsJson(s: seq<byte>) {
    !Lex(s).mode.InString? && exists v: Value :: Proper(v) && TokensOf(v) == Tokens(s)
  }

  lemma JoinWithoutFusion(a: seq<Token>, b: seq<Token>)
    requires NoFusion(a) && NoFusion(b)
    requires a != [] && b != [] ==> !a[|a| - 1].Scalar? || !b[0].Scalar?
    ensures NoFusion(a + b)
  {
    forall i: nat
      ensures !FusedAt(a + b, i)
    {
      if i + 1 >= |a| && FusedAt(a + b, i) && i >= |a| {
        assert FusedAt(b, i - |a|);
      }
      assert !FusedAt(a, i);
    }
  }

  lemma {:induction false} ValuesDoNotFuse(v: Value)
    requires Proper(v)
    ensures NoFusion(TokensOf(v)) && TokensOf(v) != []
    decreases v, 1
  {
    match v
    case Leaf(_) =>
    case Array(entries) =>
      EntriesDoNotFuse(entries, false);
      JoinWithoutFusion([Punct(91)], TokensOfEntries(entries));
      JoinWithoutFusion([Punct(91)] + TokensOfEntries(entries), [Punct(93)]);
    case Object(entries) =>
      EntriesDoNotFuse(entries, true);
      JoinWithoutFusion([Punct(123)], TokensOfEntries(entries));
      JoinWithoutFusion([Punct(123)] + TokensOfEntries(entries), [Punct(125)]);
  }

  lemma {:induction false} EntriesDoNotFuse(entries: Entries, named: bool)
    requires ProperEntries(entries, named)
    ensures NoFusion(TokensOfEntries(entries))
    decreases entries, 0
  {
    match entries
    case End =>
    case More(name, value, rest) =>
      ValuesDoNotFuse(value);
      EntriesDoNotFuse(rest, named);
      var head := if name.Some? then [name.value, Punct(COLON)] else [];
      var tail := if rest.End? then [] else [Punct(COMMA)] + TokensOfEntries(rest);
      JoinWithoutFusion([Punct(COMMA)], TokensOfEntries(rest));
      JoinWithoutFusion(head, TokensOf(value));
      JoinWithoutFusion(head + TokensOf(value), tail);
  }

  /** The layout of a JSON text has the same tokens, byte for byte, and is a JSON text again. */
  lemma LayoutPreservesMeaning(s: seq<byte>)
    requires IsJson(s)
    ensures Tokens(Format(s)) == Tokens(s)
    ensures IsJson(Format(s))
  {
    var v: Value :| Proper(v) && TokensOf(v) == Tokens(s);
    ValuesDoNotFuse(v);
    FormatKeepsTokens(s);
    FormatInStep(s);
  }

  // ----- Brackets -----

  function Change(token: Token): int {
    if token.Punct? && Opens(token.b) then 1 else if token.Punct? && Closes(token.b) then -1 else 0
  }

  /** Walk over tokens counting open brackets; none if one closes that was never opened. */
  function Walk(tokens: seq<Token>, depth: nat): Option<nat> {
    if tokens == [] then Some(depth)
    else
      var before := Walk(tokens[..|tokens| - 1], depth);
      if before.None? || before.value + Change(tokens[|tokens| - 1]) < 0 then None
      else Some(before.value + Change(tokens[|tokens| - 1]))
  }

  lemma {:induction false} WalkJoins(a: seq<Token>, b: seq<Token>, depth: nat)
    requires Walk(a, depth).Some?
    ensures Walk(a + b, depth) == Walk(b, Walk(a, depth).value)
  {
    if b == [] {
      assert a + b == a;
    } else {
      WalkJoins(a, b[..|b| - 1], depth);
      assert (a + b)[..|a + b| - 1] == a + b[..|b| - 1];
    }
  }

  lemma WalkOne(token: Token, depth: nat)
    ensures depth + Change(token) >= 0 ==> Walk([token], depth) == Some(depth + Change(token))
  {
    assert [token][..0] == [];
  }

  lemma {:induction false} ValuesBalance(v: Value, depth: nat)
    requires Proper(v)
    ensures Walk(TokensOf(v), depth) == Some(depth)
    decreases v, 1
  {
    match v
    case Leaf(token) => WalkOne(token, depth);
    case Array(entries) => EntriesBalance(entries, false, depth + 1); Bracketed(91, 93, entries, depth);
    case Object(entries) => EntriesBalance(entries, true, depth + 1); Bracketed(123, 125, entries, depth);
  }

  lemma Bracketed(open: byte, close: byte, entries: Entries, depth: nat)
    requires Opens(open) && Closes(close)
    requires Walk(TokensOfEntries(entries), depth + 1) == Some(depth + 1)
    ensures Walk([Punct(open)] + TokensOfEntries(entries) + [Punct(close)], depth) == Some(depth)
  {
    WalkOne(Punct(open), depth);
    WalkJoins([Punct(open)], TokensOfEntries(entries), depth);
    WalkOne(Punct(close), depth + 1);
    WalkJoins([Punct(open)] + TokensOfEntries(entries), [Punct(close)], depth);
  }

  lemma {:induction false} EntriesBalance(entries: Entries, named: bool, depth: nat)
    requires ProperEntries(entries, named)
    ensures Walk(TokensOfEntries(entries), depth) == Some(depth)
    decreases entries, 0
  {
    match entries
    case End =>
    case More(name, value, rest) =>
      ValuesBalance(value, depth);
      EntriesBalance(rest, named, depth);
      var head := if name.Some? then [name.value, Punct(COLON)] else [];
      var tail := if rest.End? then [] else [Punct(COMMA)] + TokensOfEntries(rest);
      NameBalances(name, depth);
      WalkOne(Punct(COMMA), depth);
      WalkJoins([Punct(COMMA)], TokensOfEntries(rest), depth);
      LevelsJoin(head, TokensOf(value), tail, depth);
  }

  lemma NameBalances(name: Option<Token>, depth: nat)
    requires name.Some? ==> name.value.Str?
    ensures Walk(if name.Some? then [name.value, Punct(COLON)] else [], depth) == Some(depth)
  {
    if name.Some? {
      WalkOne(name.value, depth);
      WalkOne(Punct(COLON), depth);
      WalkJoins([name.value], [Punct(COLON)], depth);
      assert [name.value] + [Punct(COLON)] == [name.value, Punct(COLON)];
    }
  }

  lemma LevelsJoin(a: seq<Token>, b: seq<Token>, c: seq<Token>, depth: nat)
    requires Walk(a, depth) == Some(depth) && Walk(b, depth) == Some(depth) && Walk(c, depth) == Some(depth)
    ensures Walk(a + b + c, depth) == Some(depth)
  {
    WalkJoins(a, b, depth);
    WalkJoins(a + b, c, depth);
  }

  /** No bracket outside a string closes what was never opened. */
  ghost predicate Balanced(s: seq<byte>) {
    forall n: nat :: n < |s| && Closes(s[n]) && !PlaceAfter(s[..n]).inString ==> PlaceAfter(s[..n]).depth > 0
  }

  /** Pushing a token moves the walk by its change; extending the last one does not move it. */
  lemma WalkPush(lexed: Lexed, token: Token, mode: Mode)
    ensures Walk(lexed.Push(token, mode).tokens, 0)
         == match Walk(lexed.tokens, 0)
            case None => None
            case Some(depth) => if depth + Change(token) < 0 then None else Some(depth + Change(token))
  {
    assert (lexed.tokens + [token])[..|lexed.tokens|] == lexed.tokens;
  }

  lemma WalkExtend(lexed: Lexed, b: byte, mode: Mode)
    requires lexed.tokens != [] && !lexed.tokens[|lexed.tokens| - 1].Punct?
    ensures Walk(lexed.Extend(b, mode).tokens, 0) == Walk(lexed.tokens, 0)
  {
    var longer, n := lexed.Extend(b, mode).tokens, |lexed.tokens| - 1;
    assert longer[..n] == lexed.tokens[..n];
    assert Change(longer[n]) == Change(lexed.tokens[n]) == 0;
  }

  lemma WalkStep(lexed: Lexed, b: byte)
    requires !lexed.mode.Between? ==> lexed.tokens != [] && !lexed.tokens[|lexed.tokens| - 1].Punct?
    ensures lexed.mode.InString? || !(Opens(b) || Closes(b)) ==> Walk(lexed.After(b).tokens, 0) == Walk(lexed.tokens, 0)
    ensures !lexed.mode.InString? && (Opens(b) || Closes(b)) ==> lexed.After(b) == lexed.Push(Punct(b), Between)
  {
    if lexed.mode.InString? || (lexed.mode.InScalar? && !IsSpace(b) && !IsPunctuation(b) && b != QUOTE) {
      WalkExtend(lexed, b, lexed.After(b).mode);
    } else if IsPunctuation(b) {
      WalkPush(lexed, Punct(b), Between);
    } else if b == QUOTE {
      WalkPush(lexed, Str([b]), InString(false));
    } else if !IsSpace(b) {
      WalkPush(lexed, Scalar([b]), InScalar);
    }
  }

  lemma BalancedStep(s: seq<byte>, b: byte)
    requires Balanced(s)
    requires Closes(b) && !PlaceAfter(s).inString ==> PlaceAfter(s).depth > 0
    ensures Balanced(s + [b])
  {
    var t := s + [b];
    assert t[..|s|] == s;
    assert forall n: nat :: n < |s| ==> t[..n] == s[..n];
  }

  /** One byte more, while the token walk does not fail. */
  lemma WalkGoesOn(front: seq<byte>, b: byte)
    requires Walk(Lex(front).After(b).tokens, 0).Some?
    requires Walk(Tokens(front), 0).Some? ==> Walk(Tokens(front), 0).value == PlaceAfter(front).depth
    ensures Walk(Tokens(front), 0).Some?
    ensures Walk(Lex(front).After(b).tokens, 0).value == PlaceAfter(front).After(b).depth
    ensures Closes(b) && !PlaceAfter(front).inString ==> PlaceAfter(front).depth > 0
  {
    LexAgreesWithPlace(front);
    WalkStep(Lex(front), b);
    if !PlaceAfter(front).inString && (Opens(b) || Closes(b)) {
      WalkPush(Lex(front), Punct(b), Between);
    }
  }

  lemma LexStep(s: seq<byte>, b: byte)
    ensures Lex(s + [b]) == Lex(s).After(b)
  {
    assert (s + [b])[..|s|] == s;
  }

  /** As long as the token walk never fails, its depth is the reader's, and no bracket closes at depth 0. */
  lemma {:induction false} WalkIsDepth(s: seq<byte>)
    requires Walk(Tokens(s), 0).Some?
    ensures Walk(Tokens(s), 0).value == PlaceAfter(s).depth
    ensures Balanced(s)
  {
    if s != [] {
      var front, b := s[..|s| - 1], s[|s| - 1];
      assert front + [b] == s;
      LexStep(front, b);
      if Walk(Tokens(front), 0).Some? {
        WalkIsDepth(front);
      }
      WalkGoesOn(front, b);
      PlaceStep(front, b);
      BalancedStep(front, b);
    }
  }

  /** In a JSON text the depth never underflows and ends at zero. */
  lemma JsonIsBalanced(s: seq<byte>)
    requires IsJson(s)
    ensures Balanced(s) && PlaceAfter(s).depth == 0 && !PlaceAfter(s).inString
  {
    var v: Value :| Proper(v) && TokensOf(v) == Tokens(s);
    ValuesBalance(v, 0);
    WalkIsDepth(s);
    LexAgreesWithPlace(s);
  }
}
