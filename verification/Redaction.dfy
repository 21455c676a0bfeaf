/**
  Redaction of request bodies: the built-in pass over sensitive keys and JSON
  Pointer paths with wildcards. Each pass masks a set of positions; all theorems
  go through that one description.
 */
module Redaction {
  import opened Bytes

  datatype Json =
    | Null
    | Bool(b: bool)
    | Number(spelling: string)
    | Text(s: string)
    | Array(items: seq<Json>)
    | Object(fields: map<string, Json>)

  const REDACTED := Text("[REDACTED]")

  // ----- The built-in pass -----

  function RedactJson(value: Json, sensitive: string -> bool): Json {
    match value
    case Object(fields) =>
      Object(map k | k in fields :: if sensitive(k) then REDACTED else RedactJson(fields[k], sensitive))
    case Array(items) =>
      Array(seq(|items|, i requires 0 <= i < |items| => RedactJson(items[i], sensitive)))
    case _ => value
  }

  // ----- Pointer paths -----

  const USIZE_MAX: nat := 0xFFFF_FFFF_FFFF_FFFF

  predicate IsDigit(c: char) { '0' <= c <= '9' }

  function DigitValue(c: char): nat
    requires IsDigit(c)
  {
    c as int - '0' as int
  }

  function Decimal(digits: string): nat
    requires forall c | c in digits :: IsDigit(c)
  {
    if digits == "" then 0
    else
      assert digits[|digits| - 1] in digits;
      Decimal(digits[..|digits| - 1]) * 10 + DigitValue(digits[|digits| - 1])
  }

  /** `str::parse::<usize>`: an optional plus sign, then digits; leading zeros are accepted. */
  function ParseIndex(segment: string): Option<nat> {
    var digits := if segment != "" && segment[0] == '+' then segment[1..] else segment;
    if digits == "" || exists c | c in digits :: !IsDigit(c) then None
    else if Decimal(digits) > USIZE_MAX then None
    else Some(Decimal(digits))
  }

  /** Redaction along a path; `read` says which array index a segment means, if any. */
  function RedactAlong(value: Json, path: seq<string>, read: string -> Option<nat>): Json
    decreases |path|
  {
    if path == [] then REDACTED
    else
      var segment, remaining := path[0], path[1..];
      match value
      case Object(fields) =>
        if segment == "*" then
          Object(map k | k in fields :: RedactAlong(fields[k], remaining, read))
        else if segment in fields then
          Object(fields[segment := RedactAlong(fields[segment], remaining, read)])
        else value
      case Array(items) =>
        if segment == "*" then
          Array(seq(|items|, i requires 0 <= i < |items| => RedactAlong(items[i], remaining, read)))
        else
          var index := read(segment);
          if index.Some? && index.value < |items| then
            Array(items[index.value := RedactAlong(items[index.value], remaining, read)])
          else value
      case _ => value
  }

  function RedactPath(value: Json, path: seq<string>): Json {
    RedactAlong(value, path, ParseIndex)
  }

  // ----- Positions and masks -----

  datatype Step = Key(key: string) | Index(index: nat)

  /** A set of positions, counted from the value at hand. */
  type Cover = seq<Step> -> bool

  /** The cover as seen from one step further down. */
  function Below(cover: Cover, step: Step): Cover {
    (position: seq<Step>) => cover([step] + position)
  }

  /** Replace every covered position; what lies beneath one disappears with it. */
  function Mask(value: Json, cover: Cover): Json {
    if cover([]) then REDACTED
    else
      match value
      case Object(fields) => Object(map k | k in fields :: Mask(fields[k], Below(cover, Key(k))))
      case Array(items) => Array(seq(|items|, i requires 0 <= i < |items| => Mask(items[i], Below(cover, Index(i)))))
      case _ => value
  }

  function SegmentMatches(segment: string, step: Step): bool {
    segment == "*" || match step
                      case Key(key) => segment == key
                      case Index(index) => ParseIndex(segment) == Some(index)
  }

  /** The positions a pointer selects: same depth, every segment matching. */
  function Selected(path: seq<string>): Cover {
    (position: seq<Step>) =>
      |position| == |path| && forall i :: 0 <= i < |path| ==> SegmentMatches(path[i], position[i])
  }

  /** The positions the built-in pass selects: those reached through a sensitive key. */
  function BuiltIn(sensitive: string -> bool): Cover {
    (position: seq<Step>) => position != [] && var last := position[|position| - 1]; last.Key? && sensitive(last.key)
  }

  ghost predicate SameCover(a: Cover, b: Cover) {
    forall position: seq<Step> :: a(position) == b(position)
  }

  function Either(a: Cover, b: Cover): Cover {
    (position: seq<Step>) => a(position) || b(position)
  }

  lemma {:induction false} SameCoverSameMask(value: Json, a: Cover, b: Cover)
    requires SameCover(a, b)
    ensures Mask(value, a) == Mask(value, b)
    decreases value
  {
    match value
    case Object(fields) =>
      forall k | k in fields
        ensures Mask(fields[k], Below(a, Key(k))) == Mask(fields[k], Below(b, Key(k)))
      {
        SameCoverSameMask(fields[k], Below(a, Key(k)), Below(b, Key(k)));
      }
    case Array(items) =>
      forall i | 0 <= i < |items|
        ensures Mask(items[i], Below(a, Index(i))) == Mask(items[i], Below(b, Index(i)))
      {
        SameCoverSameMask(items[i], Below(a, Index(i)), Below(b, Index(i)));
      }
    case _ =>
  }

  /** Two masks, one after the other, are one mask over both covers. */
  lemma {:induction false} MasksMerge(value: Json, a: Cover, b: Cover)
    ensures Mask(Mask(value, a), b) == Mask(value, Either(a, b))
    decreases value
  {
    if !a([]) && !b([]) {
      match value
      case Object(fields) =>
        forall k | k in fields
          ensures Mask(Mask(fields[k], Below(a, Key(k))), Below(b, Key(k)))
               == Mask(fields[k], Below(Either(a, b), Key(k)))
        {
          MasksMerge(fields[k], Below(a, Key(k)), Below(b, Key(k)));
          SameCoverSameMask(fields[k], Either(Below(a, Key(k)), Below(b, Key(k))), Below(Either(a, b), Key(k)));
        }
      case Array(items) =>
        forall i | 0 <= i < |items|
          ensures Mask(Mask(items[i], Below(a, Index(i))), Below(b, Index(i)))
               == Mask(items[i], Below(Either(a, b), Index(i)))
        {
          MasksMerge(items[i], Below(a, Index(i)), Below(b, Index(i)));
          SameCoverSameMask(items[i], Either(Below(a, Index(i)), Below(b, Index(i))), Below(Either(a, b), Index(i)));
        }
      case _ =>
    }
  }

  lemma {:induction false} NothingCovered(value: Json, cover: Cover)
    requires forall position: seq<Step> :: !cover(position)
    ensures Mask(value, cover) == value
    decreases value
  {
    match value
    case Object(fields) =>
      forall k | k in fields
        ensures Mask(fields[k], Below(cover, Key(k))) == fields[k]
      {
        NothingCovered(fields[k], Below(cover, Key(k)));
      }
      assert Mask(value, cover).fields == fields;
    case Array(items) =>
      forall i | 0 <= i < |items|
        ensures Mask(items[i], Below(cover, Index(i))) == items[i]
      {
        NothingCovered(items[i], Below(cover, Index(i)));
      }
      assert Mask(value, cover).items == items;
    case _ =>
  }

  // ----- Both passes are masks -----

  lemma {:induction false} BuiltInIsMask(value: Json, sensitive: string -> bool)
    ensures RedactJson(value, sensitive) == Mask(value, BuiltIn(sensitive))
    decreases value
  {
    var cover := BuiltIn(sensitive);
    match value
    case Object(fields) =>
      forall k | k in fields
        ensures RedactJson(value, sensitive).fields[k] == Mask(fields[k], Below(cover, Key(k)))
      {
        BelowBuiltIn(fields[k], sensitive, Key(k));
        if !sensitive(k) {
          BuiltInIsMask(fields[k], sensitive);
        }
      }
      SameFields(RedactJson(value, sensitive).fields, value, cover);
    case Array(items) =>
      forall i | 0 <= i < |items|
        ensures RedactJson(value, sensitive).items[i] == Mask(items[i], Below(cover, Index(i)))
      {
        BelowBuiltIn(items[i], sensitive, Index(i));
        BuiltInIsMask(items[i], sensitive);
      }
      SameItems(RedactJson(value, sensitive).items, value, cover);
    case _ =>
  }

  lemma SameFields(result: map<string, Json>, value: Json, cover: Cover)
    requires value.Object? && !cover([]) && result.Keys == value.fields.Keys
    requires forall k | k in result :: result[k] == Mask(value.fields[k], Below(cover, Key(k)))
    ensures Mask(value, cover) == Object(result)
  {
    assert Mask(value, cover).fields == result;
  }

  lemma SameItems(result: seq<Json>, value: Json, cover: Cover)
    requires value.Array? && !cover([]) && |result| == |value.items|
    requires forall i | 0 <= i < |result| :: result[i] == Mask(value.items[i], Below(cover, Index(i)))
    ensures Mask(value, cover) == Array(result)
  {
    assert Mask(value, cover).items == result;
  }

  lemma BelowBuiltIn(child: Json, sensitive: string -> bool, step: Step)
    ensures Mask(child, Below(BuiltIn(sensitive), step))
         == if step.Key? && sensitive(step.key) then REDACTED else Mask(child, BuiltIn(sensitive))
  {
    assert [step] + [] == [step];
    if !(step.Key? && sensitive(step.key)) {
      forall position: seq<Step>
        ensures Below(BuiltIn(sensitive), step)(position) == BuiltIn(sensitive)(position)
      {
        if position != [] {
          assert ([step] + position)[|position|] == position[|position| - 1];
        }
      }
      SameCoverSameMask(child, Below(BuiltIn(sensitive), step), BuiltIn(sensitive));
    }
  }

  lemma {:induction false} PathIsMask(value: Json, path: seq<string>)
    ensures RedactPath(value, path) == Mask(value, Selected(path))
    decreases |path|
  {
    if path != [] {
      match value
      case Object(fields) =>
        forall k | k in fields
          ensures Mask(fields[k], Below(Selected(path), Key(k)))
               == if SegmentMatches(path[0], Key(k)) then RedactPath(fields[k], path[1..]) else fields[k]
        {
          BelowSelected(fields[k], path, Key(k));
          PathIsMask(fields[k], path[1..]);
        }
        assert RedactPath(value, path).fields == Mask(value, Selected(path)).fields;
      case Array(items) =>
        forall i | 0 <= i < |items|
          ensures Mask(items[i], Below(Selected(path), Index(i)))
               == if SegmentMatches(path[0], Index(i)) then RedactPath(items[i], path[1..]) else items[i]
        {
          BelowSelected(items[i], path, Index(i));
          PathIsMask(items[i], path[1..]);
        }
        assert RedactPath(value, path).items == Mask(value, Selected(path)).items;
      case _ =>
    }
  }

  lemma BelowSelected(child: Json, path: seq<string>, step: Step)
    requires path != []
    ensures Mask(child, Below(Selected(path), step))
         == if SegmentMatches(path[0], step) then Mask(child, Selected(path[1..])) else child
  {
    if SegmentMatches(path[0], step) {
      forall position: seq<Step>
        ensures Below(Selected(path), step)(position) == Selected(path[1..])(position)
      {
        var whole := [step] + position;
        if Selected(path[1..])(position) {
          forall i | 0 <= i < |path|
            ensures SegmentMatches(path[i], whole[i])
          {
            if 0 < i { assert SegmentMatches(path[1..][i - 1], position[i - 1]); }
          }
        }
        if Selected(path)(whole) {
          forall i | 0 <= i < |path| - 1
            ensures SegmentMatches(path[1..][i], position[i])
          {
            assert SegmentMatches(path[i + 1], whole[i + 1]);
          }
        }
      }
      SameCoverSameMask(child, Below(Selected(path), step), Selected(path[1..]));
    } else {
      forall position: seq<Step>
        ensures !Below(Selected(path), step)(position)
      {
        assert ([step] + position)[0] == step;
      }
      NothingCovered(child, Below(Selected(path), step));
    }
  }

  // ----- Whole pipelines -----

  datatype Pass = Sensitives | Pointer(path: seq<string>)

  function Apply(value: Json, pass: Pass, sensitive: string -> bool): Json {
    match pass
    case Sensitives => RedactJson(value, sensitive)
    case Pointer(path) => RedactPath(value, path)
  }

  function ApplyAll(value: Json, passes: seq<Pass>, sensitive: string -> bool): Json
    decreases |passes|
  {
    if passes == [] then value
    else ApplyAll(Apply(value, passes[0], sensitive), passes[1..], sensitive)
  }

  function CoverOf(pass: Pass, sensitive: string -> bool): Cover {
    match pass
    case Sensitives => BuiltIn(sensitive)
    case Pointer(path) => Selected(path)
  }

  /** The positions covered by at least one pass. */
  function Covered(passes: set<Pass>, sensitive: string -> bool): Cover {
    (position: seq<Step>) => exists pass | pass in passes :: CoverOf(pass, sensitive)(position)
  }

  function Elements(passes: seq<Pass>): set<Pass> {
    set pass | pass in passes
  }

  lemma {:induction false} PipelineIsMask(value: Json, passes: seq<Pass>, sensitive: string -> bool)
    ensures ApplyAll(value, passes, sensitive) == Mask(value, Covered(Elements(passes), sensitive))
    decreases |passes|
  {
    if passes == [] {
      NothingCovered(value, Covered(Elements(passes), sensitive));
    } else {
      var first, rest := CoverOf(passes[0], sensitive), Covered(Elements(passes[1..]), sensitive);
      match passes[0] {
        case Sensitives => BuiltInIsMask(value, sensitive);
        case Pointer(path) => PathIsMask(value, path);
      }
      PipelineIsMask(Mask(value, first), passes[1..], sensitive);
      MasksMerge(value, first, rest);
      assert Elements(passes) == {passes[0]} + Elements(passes[1..]);
      SameCoverSameMask(value, Either(first, rest), Covered(Elements(passes), sensitive));
    }
  }

  /** Order and repetition of passes are irrelevant: only the set of passes counts. */
  lemma PassesCommuteAndRepeat(value: Json, some: seq<Pass>, others: seq<Pass>, sensitive: string -> bool)
    requires Elements(some) == Elements(others)
    ensures ApplyAll(value, some, sensitive) == ApplyAll(value, others, sensitive)
  {
    PipelineIsMask(value, some, sensitive);
    PipelineIsMask(value, others, sensitive);
  }

  /** Applying any of the same passes again changes nothing. */
  lemma PassesAreStable(value: Json, passes: seq<Pass>, again: seq<Pass>, sensitive: string -> bool)
    requires Elements(again) <= Elements(passes)
    ensures ApplyAll(ApplyAll(value, passes, sensitive), again, sensitive) == ApplyAll(value, passes, sensitive)
  {
    var cover, less := Covered(Elements(passes), sensitive), Covered(Elements(again), sensitive);
    PipelineIsMask(value, passes, sensitive);
    PipelineIsMask(Mask(value, cover), again, sensitive);
    MasksMerge(value, cover, less);
    SameCoverSameMask(value, Either(cover, less), cover);
  }

  // ----- Noninterference and locality -----

  /** Both values have the same shape and leaves wherever no position at or above is covered. */
  ghost predicate AgreeOutside(v: Json, w: Json, cover: Cover)
    decreases v
  {
    cover([]) ||
    match v
    case Object(fields) =>
      && w.Object? && fields.Keys == w.fields.Keys
      && forall k | k in fields :: AgreeOutside(fields[k], w.fields[k], Below(cover, Key(k)))
    case Array(items) =>
      && w.Array? && |items| == |w.items|
      && forall i | 0 <= i < |items| :: AgreeOutside(items[i], w.items[i], Below(cover, Index(i)))
    case _ => v == w
  }

  lemma {:induction false} MaskNoninterference(v: Json, w: Json, cover: Cover)
    ensures Mask(v, cover) == Mask(w, cover) <==> AgreeOutside(v, w, cover)
    decreases v
  {
    if !cover([]) {
      match v
      case Object(fields) =>
        if w.Object? && fields.Keys == w.fields.Keys {
          forall k | k in fields
            ensures Mask(fields[k], Below(cover, Key(k))) == Mask(w.fields[k], Below(cover, Key(k)))
               <==> AgreeOutside(fields[k], w.fields[k], Below(cover, Key(k)))
          {
            MaskNoninterference(fields[k], w.fields[k], Below(cover, Key(k)));
          }
          var mv, mw := Mask(v, cover).fields, Mask(w, cover).fields;
          assert mv == mw <==> forall k | k in fields :: mv[k] == mw[k];
        } else if w.Object? {
          assert Mask(v, cover).fields.Keys == fields.Keys && Mask(w, cover).fields.Keys == w.fields.Keys;
        }
      case Array(items) =>
        if w.Array? && |items| == |w.items| {
          forall i | 0 <= i < |items|
            ensures Mask(items[i], Below(cover, Index(i))) == Mask(w.items[i], Below(cover, Index(i)))
               <==> AgreeOutside(items[i], w.items[i], Below(cover, Index(i)))
          {
            MaskNoninterference(items[i], w.items[i], Below(cover, Index(i)));
          }
          var mv, mw := Mask(v, cover).items, Mask(w, cover).items;
          if mv == mw {
            forall i | 0 <= i < |items|
              ensures AgreeOutside(items[i], w.items[i], Below(cover, Index(i)))
            {
              assert mv[i] == mw[i];
            }
          }
        } else if w.Array? {
          assert |Mask(v, cover).items| == |items| && |Mask(w, cover).items| == |w.items|;
        }
      case _ =>
    }
  }

  /** Two requests are stored alike exactly when they agree outside what the passes cover. */
  lemma RedactionNoninterference(v: Json, w: Json, passes: seq<Pass>, sensitive: string -> bool)
    ensures ApplyAll(v, passes, sensitive) == ApplyAll(w, passes, sensitive)
       <==> AgreeOutside(v, w, Covered(Elements(passes), sensitive))
  {
    PipelineIsMask(v, passes, sensitive);
    PipelineIsMask(w, passes, sensitive);
    MaskNoninterference(v, w, Covered(Elements(passes), sensitive));
  }

  /** The value at a position, if the position exists. */
  function At(value: Json, position: seq<Step>): Option<Json>
    decreases |position|
  {
    if position == [] then Some(value)
    else
      match (value, position[0])
      case (Object(fields), Key(key)) => if key in fields then At(fields[key], position[1..]) else None
      case (Array(items), Index(index)) => if index < |items| then At(items[index], position[1..]) else None
      case _ => None
  }

  /**
    Covered positions that exist read back as the marker; a position with nothing covered above or below
    keeps its value.
   */
  lemma {:induction false} MaskLocality(value: Json, cover: Cover, position: seq<Step>)
    requires At(value, position).Some?
    requires forall n :: 0 <= n < |position| ==> !cover(position[..n])
    ensures At(Mask(value, cover), position).Some?
    ensures cover(position) ==> At(Mask(value, cover), position) == Some(REDACTED)
    ensures (forall below: seq<Step> :: !cover(position + below)) ==>
              At(Mask(value, cover), position) == At(value, position)
    decreases |position|
  {
    if position == [] {
      if forall below: seq<Step> :: !cover(position + below) {
        forall below: seq<Step>
          ensures !cover(below)
        {
          assert position + below == below;
        }
        NothingCovered(value, cover);
      }
    } else {
      var step, rest := position[0], position[1..];
      var child := match step case Key(key) => value.fields[key] case Index(index) => value.items[index];
      assert position[..0] == [];
      assert [step] + rest == position;
      forall n | 0 <= n < |rest|
        ensures !Below(cover, step)(rest[..n])
      {
        assert [step] + rest[..n] == position[..n + 1];
      }
      MaskLocality(child, Below(cover, step), rest);
      if forall below: seq<Step> :: !cover(position + below) {
        forall below: seq<Step>
          ensures !Below(cover, step)(rest + below)
        {
          assert [step] + (rest + below) == position + below;
        }
      }
    }
  }

  /**
    The same for a whole pipeline: covered positions read back as the marker, positions clear above and
    below are untouched.
   */
  lemma RedactionLocality(value: Json, passes: seq<Pass>, sensitive: string -> bool, position: seq<Step>)
    requires At(value, position).Some?
    requires forall n, pass :: 0 <= n < |position| && pass in passes ==> !CoverOf(pass, sensitive)(position[..n])
    ensures (exists pass :: pass in passes && CoverOf(pass, sensitive)(position)) ==>
              At(ApplyAll(value, passes, sensitive), position) == Some(REDACTED)
    ensures (forall below: seq<Step>, pass :: pass in passes ==> !CoverOf(pass, sensitive)(position + below)) ==>
              At(ApplyAll(value, passes, sensitive), position) == At(value, position)
  {
    PipelineIsMask(value, passes, sensitive);
    MaskLocality(value, Covered(Elements(passes), sensitive), position);
  }
}
