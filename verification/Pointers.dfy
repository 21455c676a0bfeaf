/** Configured redaction paths: trimming, splitting and unescaping JSON Pointers (RFC 6901, sections 3 and 4). */
module Pointers {
  import opened Bytes
  import opened Text
  import opened Utf8

  datatype PathError = TooManyPaths | NotAPointer | BadEscape

  const MAX_PATHS: nat := 64
  const MAX_PATH_BYTES: nat := 512

  // ----- One segment -----

  /** RFC 6901 section 4: `~0` stands for a tilde and `~1` for a slash. */
  function Decode(segment: string): (r: Result<string, PathError>)
    ensures r.Err? ==> r.error == BadEscape
  {
    if segment == "" then Ok("")
    else if segment[0] != '~' then Prepend(segment[0], Decode(segment[1..]))
    else if |segment| > 1 && segment[1] == '0' then Prepend('~', Decode(segment[2..]))
    else if |segment| > 1 && segment[1] == '1' then Prepend('/', Decode(segment[2..]))
    else Err(BadEscape)
  }

  function Prepend(c: char, rest: Result<string, PathError>): Result<string, PathError> {
    After([c], rest)
  }

  function After(done: string, rest: Result<string, PathError>): Result<string, PathError> {
    if rest.Ok? then Ok(done + rest.value) else rest
  }

  /** RFC 6901 section 3. */
  function Escape(text: string): string {
    if text == "" then ""
    else (if text[0] == '~' then "~0" else if text[0] == '/' then "~1" else [text[0]]) + Escape(text[1..])
  }

  method DecodeSegment(segment: string) returns (r: Result<string, PathError>)
    ensures r == Decode(segment)
  {
    var decoded := "";
    var characters := segment;
    assert Decode(segment).Ok? ==> "" + Decode(segment).value == Decode(segment).value;
    while characters != ""
      invariant Decode(segment) == After(decoded, Decode(characters))
      decreases |characters|
    {
      AfterAssociates(decoded);
      var character := characters[0];
      characters := characters[1..];
      if character != '~' {
        decoded := decoded + [character];
        continue;
      }
      if characters == "" {
        return Err(BadEscape);
      }
      var next := characters[0];
      characters := characters[1..];
      if next == '0' {
        decoded := decoded + ['~'];
      } else if next == '1' {
        decoded := decoded + ['/'];
      } else {
        return Err(BadEscape);
      }
    }
    assert decoded + "" == decoded;
    r := Ok(decoded);
  }

  lemma AfterAssociates(done: string)
    ensures forall c: char, r :: After(done, Prepend(c, r)) == After(done + [c], r)
  {
    forall c: char, r: Result<string, PathError>
      ensures After(done, Prepend(c, r)) == After(done + [c], r)
    {
      if r.Ok? {
        assert done + ([c] + r.value) == done + [c] + r.value;
      }
    }
  }

  lemma {:induction false} DecodeUndoesEscape(text: string)
    ensures Decode(Escape(text)) == Ok(text)
    ensures '/' !in Escape(text)
  {
    if text != "" {
      DecodeUndoesEscape(text[1..]);
      var whole, rest := Escape(text), Escape(text[1..]);
      assert text == [text[0]] + text[1..];
      if text[0] == '~' || text[0] == '/' {
        assert whole[2..] == rest;
      } else {
        assert whole[1..] == rest;
      }
    }
  }

  lemma {:induction false} EscapeUndoesDecode(segment: string)
    requires '/' !in segment
    requires Decode(segment).Ok?
    ensures Escape(Decode(segment).value) == segment
    decreases |segment|
  {
    if segment != "" {
      var consumed := if segment[0] == '~' then 2 else 1;
      EscapeUndoesDecode(segment[consumed..]);
      var text := Decode(segment).value;
      assert text[1..] == Decode(segment[consumed..]).value;
    }
  }

  /** A tilde that no `0` or `1` follows. */
  ghost predicate Malformed(segment: string) {
    exists i :: 0 <= i < |segment| && segment[i] == '~' && (i + 1 == |segment| || segment[i + 1] !in {'0', '1'})
  }

  lemma {:induction false} DecodeRejectsMalformed(segment: string)
    ensures Decode(segment).Err? <==> Malformed(segment)
    decreases |segment|
  {
    if segment != "" {
      if segment[0] == '~' && (|segment| == 1 || segment[1] !in {'0', '1'}) {
      } else {
        var consumed := if segment[0] == '~' then 2 else 1;
        var rest := segment[consumed..];
        DecodeRejectsMalformed(rest);
        assert forall i :: 0 <= i < |rest| ==> rest[i] == segment[i + consumed];
        if Malformed(rest) {
          var i :| 0 <= i < |rest| && rest[i] == '~' && (i + 1 == |rest| || rest[i + 1] !in {'0', '1'});
          assert segment[i + consumed] == '~';
        }
        if Malformed(segment) {
          var i :| 0 <= i < |segment| && segment[i] == '~' && (i + 1 == |segment| || segment[i + 1] !in {'0', '1'});
          assert rest[i - consumed] == '~';
        }
      }
    }
  }

  // ----- A whole path -----

  function Split(text: string): (parts: seq<string>)
    ensures parts != []
  {
    if text == "" then [""]
    else if text[0] == '/' then [""] + Split(text[1..])
    else var rest := Split(text[1..]); [[text[0]] + rest[0]] + rest[1..]
  }

  function DecodeAll(segments: seq<string>): Result<seq<string>, PathError> {
    if segments == [] then Ok([])
    else
      match (Decode(segments[0]), DecodeAll(segments[1..]))
      case (Ok(first), Ok(rest)) => Ok([first] + rest)
      case _ => Err(BadEscape)
  }

  /** The length `str::len` reports: UTF-8 bytes, not characters. */
  function ByteLength(text: string): nat {
    if text == "" then 0
    else (if text[0] < '\U{80}' then 1 else if text[0] < '\U{800}' then 2 else if text[0] < '\U{10000}' then 3 else 4)
         + ByteLength(text[1..])
  }

  /** The characters as Unicode scalar values. */
  function Characters(text: string): seq<Scalar> {
    seq(|text|, i requires 0 <= i < |text| => text[i] as int as Scalar)
  }

  /** It is the length of the UTF-8 encoding. */
  lemma {:induction false} ByteLengthIsEncoded(text: string)
    ensures ByteLength(text) == |EncodeAll(Characters(text))|
  {
    if text != "" {
      ByteLengthIsEncoded(text[1..]);
      assert Characters(text)[1..] == Characters(text[1..]);
      assert Characters(text)[0] == text[0] as int;
    }
  }

  /** One trimmed, non-empty configured path. */
  function CompilePath(path: string): Result<seq<string>, PathError>
    requires path != ""
  {
    if ByteLength(path) > MAX_PATH_BYTES || path[0] != '/' then Err(NotAPointer)
    else DecodeAll(Split(path[1..]))
  }

  /** The RFC 6901 spelling of a list of segments. */
  function PointerText(segments: seq<string>): string {
    if segments == [] then "" else "/" + Escape(segments[0]) + PointerText(segments[1..])
  }

  lemma {:induction false} SplitAtSlash(segment: string, rest: string)
    requires '/' !in segment
    ensures Split(segment + "/" + rest) == [segment] + Split(rest)
    ensures Split(segment) == [segment]
  {
    if segment == "" {
      assert segment + "/" + rest == "/" + rest;
    } else {
      SplitAtSlash(segment[1..], rest);
      var whole := segment + "/" + rest;
      assert whole[1..] == segment[1..] + "/" + rest;
      assert whole[0] == segment[0] == [segment[0]][0] && segment == [segment[0]] + segment[1..];
    }
  }

  lemma DecodeAllStep(part: string, parts: seq<string>, first: string, rest: seq<string>)
    ensures DecodeAll([part] + parts) == Ok([first] + rest)
       <==> Decode(part) == Ok(first) && DecodeAll(parts) == Ok(rest)
  {
    var all := [part] + parts;
    assert all[0] == part && all[1..] == parts;
    assert ([first] + rest)[1..] == rest;
    if DecodeAll(all).Ok? && DecodeAll(parts).Ok? {
      assert DecodeAll(all).value[1..] == DecodeAll(parts).value;
    }
  }

  lemma PointerTextStep(first: string, rest: seq<string>)
    ensures PointerText([first] + rest) == "/" + Escape(first) + PointerText(rest)
  {
    assert ([first] + rest)[1..] == rest;
  }

  lemma CompileReadsOne(first: string)
    ensures DecodeAll(Split(PointerText([first])[1..])) == Ok([first])
  {
    DecodeUndoesEscape(first);
    PointerTextStep(first, []);
    assert [first] + [] == [first];
    assert PointerText([first])[1..] == Escape(first);
    SplitAtSlash(Escape(first), "");
    DecodeAllStep(Escape(first), [], first, []);
  }

  lemma StartsWithSlash(segments: seq<string>)
    requires segments != []
    ensures PointerText(segments) != "" && PointerText(segments)[0] == '/'
  {
  }

  lemma SlashesJoin(text: string, part: string, more: string)
    requires text == "/" + part + more && more != "" && more[0] == '/'
    ensures text[1..] == part + "/" + more[1..]
  {
    assert more == "/" + more[1..];
  }

  lemma TextOfMore(first: string, rest: seq<string>)
    requires rest != []
    ensures PointerText([first] + rest)[1..] == Escape(first) + "/" + PointerText(rest)[1..]
  {
    PointerTextStep(first, rest);
    StartsWithSlash(rest);
    SlashesJoin(PointerText([first] + rest), Escape(first), PointerText(rest));
  }

  lemma CompileReadsMore(first: string, rest: seq<string>)
    requires rest != [] && DecodeAll(Split(PointerText(rest)[1..])) == Ok(rest)
    ensures DecodeAll(Split(PointerText([first] + rest)[1..])) == Ok([first] + rest)
  {
    var tail := PointerText(rest)[1..];
    TextOfMore(first, rest);
    DecodeUndoesEscape(first);
    SplitAtSlash(Escape(first), tail);
    DecodeAllStep(Escape(first), Split(tail), first, rest);
  }

  lemma {:induction false} CompileReadsPointer(segments: seq<string>)
    requires segments != []
    ensures DecodeAll(Split(PointerText(segments)[1..])) == Ok(segments)
  {
    var first, rest := segments[0], segments[1..];
    assert segments == [first] + rest;
    if rest == [] {
      assert segments == [first];
      CompileReadsOne(first);
    } else {
      CompileReadsPointer(rest);
      CompileReadsMore(first, rest);
    }
  }

  lemma PointerTextOf(part: string, tail: string, first: string, rest: seq<string>)
    requires '/' !in part && Decode(part) == Ok(first)
    ensures PointerText([first]) == "/" + part
    ensures PointerText(rest) == "/" + tail ==> PointerText([first] + rest) == "/" + (part + "/" + tail)
  {
    EscapeUndoesDecode(part);
    PointerTextStep(first, rest);
    PointerTextStep(first, []);
    assert [first] + [] == [first];
  }

  lemma {:induction false} SplitJoins(text: string, parts: seq<string>, segments: seq<string>)
    requires parts == Split(text) && DecodeAll(parts) == Ok(segments)
    ensures segments != [] && PointerText(segments) == "/" + text
    decreases |text|
  {
    SplitShape(text, parts);
    var part, first, rest := parts[0], segments[0], segments[1..];
    assert parts == [part] + parts[1..] && segments == [first] + rest;
    DecodeAllStep(part, parts[1..], first, rest);
    if |parts| > 1 {
      var tail := text[|part| + 1..];
      SplitJoins(tail, parts[1..], rest);
      assert text == part + "/" + tail;
      PointerTextOf(part, tail, first, rest);
    } else {
      PointerTextOf(part, "", first, rest);
      assert segments == [first];
    }
  }

  lemma {:induction false} SplitShape(text: string, parts: seq<string>)
    requires parts == Split(text)
    ensures && '/' !in parts[0] && parts[0] <= text
            && (|parts| == 1 ==> text == parts[0])
            && (|parts| > 1 ==>
                  |parts[0]| < |text| && text[|parts[0]|] == '/' && parts[1..] == Split(text[|parts[0]| + 1..]))
  {
    if text != "" && text[0] != '/' {
      var rest := Split(text[1..]);
      SplitShape(text[1..], rest);
      assert parts[0] == [text[0]] + rest[0] && parts[1..] == rest[1..];
      if |rest| > 1 {
        assert text[1..][|rest[0]| + 1..] == text[|parts[0]| + 1..];
      }
    }
  }

  /** Compilation accepts exactly the RFC 6901 spellings of at most 512 bytes, and reads each back to its segments. */
  lemma CompileIsExact(path: string, segments: seq<string>)
    requires path != ""
    ensures CompilePath(path) == Ok(segments)
       <==> segments != [] && path == PointerText(segments) && ByteLength(path) <= 512
  {
    if CompilePath(path) == Ok(segments) {
      SplitJoins(path[1..], Split(path[1..]), segments);
      assert "/" + path[1..] == path;
    }
    if segments != [] && path == PointerText(segments) {
      CompileReadsPointer(segments);
    }
  }

  // ----- The whole list -----

  function CompileEach(paths: seq<string>, white: char -> bool): Result<seq<seq<string>>, PathError> {
    if paths == [] then Ok([])
    else if Trim(paths[0], white) == "" then CompileEach(paths[1..], white)
    else
      match CompilePath(Trim(paths[0], white))
      case Err(error) => Err(error)
      case Ok(first) =>
        var rest := CompileEach(paths[1..], white);
        if rest.Ok? then Ok([first] + rest.value) else rest
  }

  function CompilePaths(paths: seq<string>, white: char -> bool): Result<seq<seq<string>>, PathError> {
    if |paths| > MAX_PATHS then Err(TooManyPaths) else CompileEach(paths, white)
  }

  /** The configured paths that are not blank, trimmed. */
  function Meant(paths: seq<string>, white: char -> bool): seq<string> {
    if paths == [] then []
    else (if Trim(paths[0], white) == "" then [] else [Trim(paths[0], white)]) + Meant(paths[1..], white)
  }

  lemma {:induction false} EachIsExact(paths: seq<string>, white: char -> bool, compiled: seq<seq<string>>)
    ensures CompileEach(paths, white) == Ok(compiled)
       <==> && |compiled| == |Meant(paths, white)|
            && forall i :: 0 <= i < |compiled| ==>
                 && compiled[i] != [] && Meant(paths, white)[i] == PointerText(compiled[i])
                 && ByteLength(Meant(paths, white)[i]) <= MAX_PATH_BYTES
  {
    if paths != [] {
      var meant, rest := Meant(paths, white), Meant(paths[1..], white);
      if Trim(paths[0], white) == "" {
        assert meant == rest;
        EachIsExact(paths[1..], white, compiled);
      } else if compiled == [] {
        assert CompileEach(paths, white) != Ok(compiled);
      } else {
        CompileIsExact(Trim(paths[0], white), compiled[0]);
        EachIsExact(paths[1..], white, compiled[1..]);
        assert compiled == [compiled[0]] + compiled[1..];
        assert forall i :: 0 <= i < |rest| ==> rest[i] == meant[i + 1];
        assert forall i :: 0 < i < |compiled| ==> compiled[i] == compiled[1..][i - 1];
      }
    }
  }

  /** The non-blank paths are compiled in order; the result is determined by, and determines, their trimmed spelling. */
  lemma CompilePathsIsExact(paths: seq<string>, white: char -> bool, compiled: seq<seq<string>>)
    ensures CompilePaths(paths, white) == Ok(compiled)
       <==> && |paths| <= 64
            && |compiled| == |Meant(paths, white)|
            && forall i :: 0 <= i < |compiled| ==>
                 && compiled[i] != [] && Meant(paths, white)[i] == PointerText(compiled[i])
                 && ByteLength(Meant(paths, white)[i]) <= MAX_PATH_BYTES
  {
    EachIsExact(paths, white, compiled);
  }

  // ----- What is refused -----

  ghost predicate AnyMalformed(segments: seq<string>) {
    exists i :: 0 <= i < |segments| && Malformed(segments[i])
  }

  lemma {:induction false} OneBadSegmentIsEnough(segments: seq<string>)
    ensures if AnyMalformed(segments) then DecodeAll(segments) == Err(BadEscape) else DecodeAll(segments).Ok?
  {
    if segments != [] {
      DecodeRejectsMalformed(segments[0]);
      OneBadSegmentIsEnough(segments[1..]);
      assert forall i :: 0 < i < |segments| ==> segments[i] == segments[1..][i - 1];
      if i :| 0 <= i < |segments[1..]| && Malformed(segments[1..][i]) {
        assert segments[i + 1] == segments[1..][i];
      }
    }
  }

  /** A path is refused for its length or its first character, else exactly for a malformed segment. */
  lemma PathRefusalIsExact(path: string)
    requires path != ""
    ensures ByteLength(path) > 512 || path[0] != '/' ==> CompilePath(path) == Err(NotAPointer)
    ensures ByteLength(path) <= 512 && path[0] == '/' ==>
              if AnyMalformed(Split(path[1..])) then CompilePath(path) == Err(BadEscape) else CompilePath(path).Ok?
  {
    var parts := Split(path[1..]);
    OneBadSegmentIsEnough(parts);
    assert ByteLength(path) <= 512 && path[0] == '/' ==> CompilePath(path) == DecodeAll(parts);
  }

  /** The first path that is refused, and why. */
  ghost predicate FirstRefused(paths: seq<string>, i: int, error: PathError) {
    && 0 <= i < |paths| && paths[i] != "" && CompilePath(paths[i]) == Err(error)
    && forall j :: 0 <= j < i ==> paths[j] != "" && CompilePath(paths[j]).Ok?
  }

  lemma {:induction false} EachRefusalIsOfTheFirst(paths: seq<string>, white: char -> bool)
    requires CompileEach(paths, white).Err?
    ensures exists i :: FirstRefused(Meant(paths, white), i, CompileEach(paths, white).error)
  {
    var meant, rest, error := Meant(paths, white), Meant(paths[1..], white), CompileEach(paths, white).error;
    var path := Trim(paths[0], white);
    if path == "" {
      EachRefusalIsOfTheFirst(paths[1..], white);
      assert meant == rest;
    } else if CompilePath(path).Err? {
      assert FirstRefused(meant, 0, error);
    } else {
      EachRefusalIsOfTheFirst(paths[1..], white);
      var i :| FirstRefused(rest, i, error);
      assert FirstRefused(meant, i + 1, error);
    }
  }

  /** A list is refused for more than 64 paths, else for the first of its paths that is refused. */
  lemma PathsRefusalIsExact(paths: seq<string>, white: char -> bool)
    requires CompilePaths(paths, white).Err?
    ensures var error := CompilePaths(paths, white).error;
            if |paths| > 64 then error == TooManyPaths else exists i :: FirstRefused(Meant(paths, white), i, error)
  {
    if |paths| <= 64 {
      EachRefusalIsOfTheFirst(paths, white);
    }
  }
}
