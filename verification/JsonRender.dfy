/**
  What a layout looks like: the value tree written with one entry a line, two spaces a level. The
  printer, which sees bytes and knows no tree, writes exactly that.
 */
module JsonRender {
  import opened Bytes
  import opened CheckedReader
  import opened JsonLayout

  function Text(token: Token): seq<byte> {
    match token
    case Punct(b) => [b]
    case Str(bytes) => bytes
    case Scalar(bytes) => bytes
  }

  /** A new line at this level. */
  function Line(depth: nat): seq<byte> {
    [10] + Spaces(2 * depth)
  }

  /** Brackets open a level and close it on a line of their own; the empty ones too. */
  function Render(v: Value, depth: nat): seq<byte> {
    match v
    case Leaf(token) => Text(token)
    case Array(entries) => Bracketed('[' as byte, RenderEntries(entries, depth + 1), ']' as byte, depth)
    case Object(entries) => Bracketed('{' as byte, RenderEntries(entries, depth + 1), '}' as byte, depth)
  }

  function Bracketed(open: byte, inside: seq<byte>, close: byte, depth: nat): seq<byte> {
    [open] + Line(depth + 1) + inside + Line(depth) + [close]
  }

  /** Entries are separated by a comma at the end of the line; names by a colon and a space. */
  function RenderEntries(entries: Entries, depth: nat): seq<byte> {
    match entries
    case End => []
    case More(name, value, rest) =>
      (match name case Some(token) => Text(token) + [':' as byte, ' ' as byte] case None => [])
      + Render(value, depth)
      + (if rest.End? then [] else [',' as byte] + Line(depth) + RenderEntries(rest, depth))
  }

  // ----- Token by token -----

  function DepthStep(token: Token, depth: nat): nat {
    if token.Punct? && Opens(token.b) then depth + 1
    else if token.Punct? && Closes(token.b) then if depth == 0 then 0 else depth - 1
    else depth
  }

  function DepthAfter(tokens: seq<Token>, depth: nat): nat {
    if tokens == [] then depth
    else DepthStep(tokens[|tokens| - 1], DepthAfter(tokens[..|tokens| - 1], depth))
  }

  /** A token that begins at this depth, with the breaks around it. */
  function Written(token: Token, depth: nat): seq<byte> {
    if token.Punct? && Opens(token.b) then [token.b] + Line(depth + 1)
    else if token.Punct? && Closes(token.b) then Line(DepthStep(token, depth)) + [token.b]
    else if token == Punct(COMMA) then [COMMA] + Line(depth)
    else if token == Punct(COLON) then [COLON, SPACE]
    else Text(token)
  }

  function WrittenAll(tokens: seq<Token>, depth: nat): seq<byte> {
    if tokens == [] then []
    else
      var front := tokens[..|tokens| - 1];
      WrittenAll(front, depth) + Written(tokens[|tokens| - 1], DepthAfter(front, depth))
  }

  lemma WrittenStep(tokens: seq<Token>, token: Token, depth: nat)
    ensures WrittenAll(tokens + [token], depth) == WrittenAll(tokens, depth) + Written(token, DepthAfter(tokens, depth))
    ensures DepthAfter(tokens + [token], depth) == DepthStep(token, DepthAfter(tokens, depth))
  {
    assert (tokens + [token])[..|tokens|] == tokens;
  }

  lemma Associates<T>(a: seq<T>, b: seq<T>, c: seq<T>)
    ensures a + b + c == a + (b + c)
  {
  }

  lemma SplitLast<T>(a: seq<T>, b: seq<T>)
    requires b != []
    ensures a + b == a + b[..|b| - 1] + [b[|b| - 1]] && b == b[..|b| - 1] + [b[|b| - 1]]
  {
  }

  lemma {:induction false} WrittenJoins(a: seq<Token>, b: seq<Token>, depth: nat)
    ensures WrittenAll(a + b, depth) == WrittenAll(a, depth) + WrittenAll(b, DepthAfter(a, depth))
    ensures DepthAfter(a + b, depth) == DepthAfter(b, DepthAfter(a, depth))
  {
    if b == [] {
      assert a + b == a;
      assert WrittenAll(a, depth) + [] == WrittenAll(a, depth);
    } else {
      var front, last, between := b[..|b| - 1], b[|b| - 1], DepthAfter(a, depth);
      SplitLast(a, b);
      WrittenJoins(a, front, depth);
      assert WrittenAll(a + b, depth) == WrittenAll(a + front, depth) + Written(last, DepthAfter(front, between))
          && DepthAfter(a + b, depth) == DepthAfter(b, between) by {
        WrittenStep(a + front, last, depth);
        WrittenStep(front, last, between);
      }
      assert WrittenAll(b, between) == WrittenAll(front, between) + Written(last, DepthAfter(front, between)) by {
        WrittenStep(front, last, between);
      }
      Associates(WrittenAll(a, depth), WrittenAll(front, between), Written(last, DepthAfter(front, between)));
    }
  }

  // ----- The printer writes token by token -----

  /** What is printed and lexed so far agree. */
  ghost predicate Agrees(printed: seq<byte>, depth: nat, lexed: Lexed) {
    printed == WrittenAll(lexed.tokens, 0) && depth == DepthAfter(lexed.tokens, 0)
  }

  lemma PushAgrees(printed: seq<byte>, depth: nat, lexed: Lexed, token: Token, mode: Mode)
    requires Agrees(printed, depth, lexed)
    ensures Agrees(printed + Written(token, depth), DepthStep(token, depth), lexed.Push(token, mode))
  {
    WrittenStep(lexed.tokens, token, 0);
  }

  lemma TextGrows(lexed: Lexed, b: byte, mode: Mode)
    requires lexed.tokens != [] && !lexed.tokens[|lexed.tokens| - 1].Punct?
    ensures var front, last := lexed.tokens[..|lexed.tokens| - 1], lexed.tokens[|lexed.tokens| - 1];
            var longer := lexed.Extend(b, mode).tokens;
            && longer != [] && longer == front + [longer[|longer| - 1]] && lexed.tokens == front + [last]
            && !longer[|longer| - 1].Punct? && Text(longer[|longer| - 1]) == Text(last) + [b]
  {
  }

  lemma TextIsWritten(tokens: seq<Token>, token: Token, depth: nat)
    requires !token.Punct?
    ensures WrittenAll(tokens + [token], depth) == WrittenAll(tokens, depth) + Text(token)
    ensures DepthAfter(tokens + [token], depth) == DepthAfter(tokens, depth)
  {
    WrittenStep(tokens, token, depth);
  }

  lemma ExtendAgrees(printed: seq<byte>, depth: nat, lexed: Lexed, b: byte, mode: Mode)
    requires Agrees(printed, depth, lexed)
    requires lexed.tokens != [] && !lexed.tokens[|lexed.tokens| - 1].Punct?
    ensures Agrees(printed + [b], depth, lexed.Extend(b, mode))
  {
    var front, last := lexed.tokens[..|lexed.tokens| - 1], lexed.tokens[|lexed.tokens| - 1];
    var longer := lexed.Extend(b, mode).tokens;
    TextGrows(lexed, b, mode);
    TextIsWritten(front, last, 0);
    TextIsWritten(front, longer[|longer| - 1], 0);
    Associates(WrittenAll(front, 0), Text(last), [b]);
  }

  /** Outside strings: what is emitted for punctuation is the token as written. */
  lemma PunctuationIsWritten(place: Place, b: byte)
    requires !place.inString && IsPunctuation(b)
    ensures Emit(place, b) == Written(Punct(b), place.depth)
    ensures place.After(b).depth == DepthStep(Punct(b), place.depth)
  {
    var spaces := Spaces(2 * place.After(b).depth);
    assert [b, NEWLINE] + spaces == [b] + ([NEWLINE] + spaces);
  }

  lemma PunctuationAgrees(printed: seq<byte>, place: Place, lexed: Lexed, b: byte)
    requires Agrees(printed, place.depth, lexed)
    requires !place.inString && !lexed.mode.InString? && IsPunctuation(b)
    ensures Agrees(printed + Emit(place, b), place.After(b).depth, lexed.After(b))
  {
    PunctuationIsWritten(place, b);
    PushAgrees(printed, place.depth, lexed, Punct(b), Between);
  }

  lemma TextAgrees(printed: seq<byte>, place: Place, lexed: Lexed, b: byte)
    requires Agrees(printed, place.depth, lexed)
    requires !place.inString && !lexed.mode.InString? && !IsPunctuation(b) && !IsSpace(b)
    requires lexed.mode.InScalar? ==> lexed.EndsInScalar()
    ensures Agrees(printed + Emit(place, b), place.After(b).depth, lexed.After(b))
  {
    if b == QUOTE {
      PushAgrees(printed, place.depth, lexed, Str([b]), InString(false));
    } else if lexed.mode == Between {
      PushAgrees(printed, place.depth, lexed, Scalar([b]), InScalar);
    } else {
      ExtendAgrees(printed, place.depth, lexed, b, InScalar);
    }
  }

  lemma StringAgrees(printed: seq<byte>, place: Place, lexed: Lexed, b: byte)
    requires Agrees(printed, place.depth, lexed) && place.inString && lexed.mode.InString?
    requires lexed.tokens != [] && lexed.tokens[|lexed.tokens| - 1].Str?
    ensures Agrees(printed + Emit(place, b), place.After(b).depth, lexed.After(b))
  {
    ExtendAgrees(printed, place.depth, lexed, b, lexed.After(b).mode);
  }

  lemma SpaceAgrees(printed: seq<byte>, place: Place, lexed: Lexed, b: byte)
    requires Agrees(printed, place.depth, lexed) && !place.inString && !lexed.mode.InString? && IsSpace(b)
    ensures Agrees(printed + Emit(place, b), place.After(b).depth, lexed.After(b))
  {
    assert printed + [] == printed;
  }

  lemma ByteAgrees(printed: seq<byte>, place: Place, lexed: Lexed, b: byte)
    requires Agrees(printed, place.depth, lexed)
    requires place.inString <==> lexed.mode.InString?
    requires lexed.mode.InString? ==> lexed.tokens != [] && lexed.tokens[|lexed.tokens| - 1].Str?
    requires lexed.mode.InScalar? ==> lexed.EndsInScalar()
    ensures Agrees(printed + Emit(place, b), place.After(b).depth, lexed.After(b))
  {
    if place.inString {
      StringAgrees(printed, place, lexed, b);
    } else if IsPunctuation(b) {
      PunctuationAgrees(printed, place, lexed, b);
    } else if IsSpace(b) {
      SpaceAgrees(printed, place, lexed, b);
    } else {
      TextAgrees(printed, place, lexed, b);
    }
  }

  lemma {:induction false} FormatIsWritten(s: seq<byte>)
    ensures Agrees(Format(s), PlaceAfter(s).depth, Lex(s))
  {
    if s != [] {
      var front, b := s[..|s| - 1], s[|s| - 1];
      FormatIsWritten(front);
      LexAgreesWithPlace(front);
      ByteAgrees(Format(front), PlaceAfter(front), Lex(front), b);
    }
  }

  // ----- Tokens of a value -----

  lemma WrittenOne(token: Token, depth: nat)
    ensures WrittenAll([token], depth) == Written(token, depth) && DepthAfter([token], depth) == DepthStep(token, depth)
  {
    assert [token][..0] == [];
  }

  lemma OneThenMore(token: Token, more: seq<Token>, depth: nat)
    ensures WrittenAll([token] + more, depth) == Written(token, depth) + WrittenAll(more, DepthStep(token, depth))
    ensures DepthAfter([token] + more, depth) == DepthAfter(more, DepthStep(token, depth))
  {
    WrittenOne(token, depth);
    WrittenJoins([token], more, depth);
  }

  lemma OneAfter(tokens: seq<Token>, token: Token, depth: nat, inner: nat, text: seq<byte>)
    requires WrittenAll(tokens, depth) == text && DepthAfter(tokens, depth) == inner
    ensures WrittenAll(tokens + [token], depth) == text + Written(token, inner)
    ensures DepthAfter(tokens + [token], depth) == DepthStep(token, inner)
  {
    WrittenStep(tokens, token, depth);
  }

  lemma OpeningIsWritten(open: byte, inside: seq<Token>, depth: nat)
    requires Opens(open)
    ensures WrittenAll([Punct(open)] + inside, depth) == [open] + Line(depth + 1) + WrittenAll(inside, depth + 1)
    ensures DepthAfter([Punct(open)] + inside, depth) == DepthAfter(inside, depth + 1)
  {
    OneThenMore(Punct(open), inside, depth);
  }

  lemma ClosingIsWritten(open: byte, inside: seq<byte>, close: byte, depth: nat)
    requires Closes(close)
    ensures [open] + Line(depth + 1) + inside + Written(Punct(close), depth + 1)
         == Bracketed(open, inside, close, depth)
    ensures DepthStep(Punct(close), depth + 1) == depth
  {
    Associates([open] + Line(depth + 1) + inside, Line(depth), [close]);
  }

  lemma BracketsAreWritten(open: byte, inside: seq<Token>, close: byte, depth: nat)
    requires Opens(open) && Closes(close) && DepthAfter(inside, depth + 1) == depth + 1
    ensures var tokens := [Punct(open)] + inside + [Punct(close)];
            && WrittenAll(tokens, depth) == Bracketed(open, WrittenAll(inside, depth + 1), close, depth)
            && DepthAfter(tokens, depth) == depth
  {
    var head := [open] + Line(depth + 1) + WrittenAll(inside, depth + 1);
    OpeningIsWritten(open, inside, depth);
    OneAfter([Punct(open)] + inside, Punct(close), depth, depth + 1, head);
    ClosingIsWritten(open, WrittenAll(inside, depth + 1), close, depth);
  }

  lemma ArrayIsRendered(entries: Entries, depth: nat)
    requires WrittenAll(TokensOfEntries(entries), depth + 1) == RenderEntries(entries, depth + 1)
    requires DepthAfter(TokensOfEntries(entries), depth + 1) == depth + 1
    ensures WrittenAll(TokensOf(Array(entries)), depth) == Render(Array(entries), depth)
    ensures DepthAfter(TokensOf(Array(entries)), depth) == depth
  {
    BracketsAreWritten('[' as byte, TokensOfEntries(entries), ']' as byte, depth);
  }

  lemma ObjectIsRendered(entries: Entries, depth: nat)
    requires WrittenAll(TokensOfEntries(entries), depth + 1) == RenderEntries(entries, depth + 1)
    requires DepthAfter(TokensOfEntries(entries), depth + 1) == depth + 1
    ensures WrittenAll(TokensOf(Object(entries)), depth) == Render(Object(entries), depth)
    ensures DepthAfter(TokensOf(Object(entries)), depth) == depth
  {
    BracketsAreWritten('{' as byte, TokensOfEntries(entries), '}' as byte, depth);
  }

  lemma LeafIsRendered(token: Token, depth: nat)
    requires !token.Punct?
    ensures WrittenAll(TokensOf(Leaf(token)), depth) == Render(Leaf(token), depth)
    ensures DepthAfter(TokensOf(Leaf(token)), depth) == depth
  {
    WrittenOne(token, depth);
  }

  lemma {:induction false} ValueIsRendered(v: Value, depth: nat)
    requires Proper(v)
    ensures WrittenAll(TokensOf(v), depth) == Render(v, depth)
    ensures DepthAfter(TokensOf(v), depth) == depth
    decreases v, 1
  {
    match v
    case Leaf(token) =>
      LeafIsRendered(token, depth);
    case Array(entries) =>
      EntriesAreRendered(entries, false, depth + 1);
      ArrayIsRendered(entries, depth);
    case Object(entries) =>
      EntriesAreRendered(entries, true, depth + 1);
      ObjectIsRendered(entries, depth);
  }

  lemma NameIsWritten(name: Option<Token>, depth: nat)
    requires name.Some? ==> name.value.Str?
    ensures var tokens := if name.Some? then [name.value, Punct(COLON)] else [];
            && WrittenAll(tokens, depth) == (if name.Some? then Text(name.value) + [COLON, SPACE] else [])
            && DepthAfter(tokens, depth) == depth
  {
    if name.Some? {
      WrittenOne(name.value, depth);
      WrittenStep([name.value], Punct(COLON), depth);
      assert [name.value] + [Punct(COLON)] == [name.value, Punct(COLON)];
    }
  }

  lemma RestIsWritten(rest: Entries, depth: nat)
    requires WrittenAll(TokensOfEntries(rest), depth) == RenderEntries(rest, depth)
    requires DepthAfter(TokensOfEntries(rest), depth) == depth
    ensures var tokens := if rest.End? then [] else [Punct(COMMA)] + TokensOfEntries(rest);
            && WrittenAll(tokens, depth)
               == (if rest.End? then [] else [COMMA] + Line(depth) + RenderEntries(rest, depth))
            && DepthAfter(tokens, depth) == depth
  {
    if !rest.End? {
      OneThenMore(Punct(COMMA), TokensOfEntries(rest), depth);
    }
  }

  /** Three stretches that each end at the level they began at. */
  lemma ThreeJoin(a: seq<Token>, b: seq<Token>, c: seq<Token>, depth: nat)
    requires DepthAfter(a, depth) == DepthAfter(b, depth) == DepthAfter(c, depth) == depth
    ensures WrittenAll(a + b + c, depth) == WrittenAll(a, depth) + WrittenAll(b, depth) + WrittenAll(c, depth)
    ensures DepthAfter(a + b + c, depth) == depth
  {
    WrittenJoins(a, b, depth);
    WrittenJoins(a + b, c, depth);
  }

  lemma {:induction false} EntriesAreRendered(entries: Entries, named: bool, depth: nat)
    requires ProperEntries(entries, named)
    ensures WrittenAll(TokensOfEntries(entries), depth) == RenderEntries(entries, depth)
    ensures DepthAfter(TokensOfEntries(entries), depth) == depth
    decreases entries, 0
  {
    match entries
    case End =>
    case More(name, value, rest) =>
      ValueIsRendered(value, depth);
      EntriesAreRendered(rest, named, depth);
      NameIsWritten(name, depth);
      RestIsWritten(rest, depth);
      var head := if name.Some? then [name.value, Punct(COLON)] else [];
      var tail := if rest.End? then [] else [Punct(COMMA)] + TokensOfEntries(rest);
      ThreeJoin(head, TokensOf(value), tail, depth);
  }

  /** The layout of every JSON text is its value, rendered. */
  lemma FormatIsRender(s: seq<byte>, v: Value)
    requires Proper(v) && TokensOf(v) == Tokens(s)
    ensures Format(s) == Render(v, 0)
  {
    FormatIsWritten(s);
    ValueIsRendered(v, 0);
  }

  // ----- The bytes the tokens are made of -----

  /** The structural bytes, quotes and white space of RFC 8259 section 2. */
  lemma AlphabetIsRfc8259(b: byte)
    ensures Opens(b) <==> b == '[' as byte || b == '{' as byte
    ensures Closes(b) <==> b == ']' as byte || b == '}' as byte
    ensures IsPunctuation(b) <==> Opens(b) || Closes(b) || b == ',' as byte || b == ':' as byte
    ensures IsSpace(b) <==> b == ' ' as byte || b == '\t' as byte || b == '\n' as byte || b == '\r' as byte
    ensures QUOTE == '"' as byte && BACKSLASH == '\\' as byte
  {
  }

  /** The bytes of the tokens, one after the other. */
  function Spelled(tokens: seq<Token>): seq<byte> {
    if tokens == [] then [] else Spelled(tokens[..|tokens| - 1]) + Text(tokens[|tokens| - 1])
  }

  lemma SpelledStep(tokens: seq<Token>, token: Token)
    ensures Spelled(tokens + [token]) == Spelled(tokens) + Text(token)
  {
    assert (tokens + [token])[..|tokens|] == tokens;
  }

  lemma ExtendIsSpelled(lexed: Lexed, b: byte, mode: Mode)
    requires lexed.tokens != [] && !lexed.tokens[|lexed.tokens| - 1].Punct?
    ensures Spelled(lexed.Extend(b, mode).tokens) == Spelled(lexed.tokens) + [b]
  {
    var front, last := lexed.tokens[..|lexed.tokens| - 1], lexed.tokens[|lexed.tokens| - 1];
    var longer := lexed.Extend(b, mode).tokens;
    TextGrows(lexed, b, mode);
    SpelledStep(front, last);
    SpelledStep(front, longer[|longer| - 1]);
    Associates(Spelled(front), Text(last), [b]);
  }

  lemma ByteIsSpelled(lexed: Lexed, b: byte)
    requires !lexed.mode.Between? ==> lexed.tokens != [] && !lexed.tokens[|lexed.tokens| - 1].Punct?
    ensures Spelled(lexed.After(b).tokens)
         == Spelled(lexed.tokens) + (if !lexed.mode.InString? && IsSpace(b) then [] else [b])
  {
    if lexed.mode.InString? || (lexed.mode.InScalar? && !IsSpace(b) && !IsPunctuation(b) && b != QUOTE) {
      ExtendIsSpelled(lexed, b, lexed.After(b).mode);
    } else if !IsSpace(b) {
      var after := lexed.After(b).tokens;
      SpelledStep(lexed.tokens, after[|lexed.tokens|]);
    } else {
      assert Spelled(lexed.tokens) + [] == Spelled(lexed.tokens);
    }
  }

  /** The tokens hold every byte of the text but the loose white space, in order. */
  lemma {:induction false} TokensAreTheText(s: seq<byte>)
    ensures Spelled(Tokens(s)) == Strip(s)
  {
    if s != [] {
      var front, b := s[..|s| - 1], s[|s| - 1];
      TokensAreTheText(front);
      LexAgreesWithPlace(front);
      ByteIsSpelled(Lex(front), b);
    }
  }
}
