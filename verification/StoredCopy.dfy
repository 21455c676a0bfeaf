/**
  What is stored of a JSON request: the built-in pass over the sensitive keys, then the configured
  pointers in their order.
 */
module StoredCopy {
  import opened Bytes
  import opened Redaction

  const SENSITIVE: set<string> := {
    "authorization", "password", "passwd", "token", "accesstoken", "refreshtoken",
    "apikey", "secret", "clientsecret", "cookie", "session"
  }

  /** Drop separators, then lower-case; `lower` is the Unicode table (one character may become several). */
  function Normalize(key: string, lower: char -> string): string {
    if key == "" then ""
    else (if key[0] in {'-', '_', '.'} then "" else lower(key[0])) + Normalize(key[1..], lower)
  }

  /** The keys the engine treats as sensitive, as a predicate the passes take as a parameter. */
  function SensitiveKeys(lower: char -> string): string -> bool {
    (key: string) => Normalize(key, lower) in SENSITIVE
  }

  function Stored(value: Json, paths: seq<seq<string>>, lower: char -> string): Json {
    ApplyAll(value, Passes(paths), SensitiveKeys(lower))
  }

  function Passes(paths: seq<seq<string>>): seq<Pass> {
    [Sensitives] + seq(|paths|, i requires 0 <= i < |paths| => Pointer(paths[i]))
  }

  // ----- Sensitive keys -----

  /** The key without its separators. */
  function Bare(key: string): string {
    if key == "" then "" else (if key[0] in {'-', '_', '.'} then "" else [key[0]]) + Bare(key[1..])
  }

  function LowerAll(text: string, lower: char -> string): string {
    if text == "" then "" else lower(text[0]) + LowerAll(text[1..], lower)
  }

  /** The same text but for letter case. */
  ghost predicate SameButCase(a: string, b: string, lower: char -> string) {
    |a| == |b| && forall i :: 0 <= i < |a| ==> lower(a[i]) == lower(b[i])
  }

  lemma {:induction false} NormalizeIsBareLowered(key: string, lower: char -> string)
    ensures Normalize(key, lower) == LowerAll(Bare(key), lower)
  {
    if key != "" {
      NormalizeIsBareLowered(key[1..], lower);
      if key[0] !in {'-', '_', '.'} {
        assert Bare(key)[0] == key[0] && Bare(key)[1..] == Bare(key[1..]);
      } else {
        assert Bare(key) == Bare(key[1..]);
      }
    }
  }

  lemma {:induction false} CaseIsLowered(a: string, b: string, lower: char -> string)
    requires SameButCase(a, b, lower)
    ensures LowerAll(a, lower) == LowerAll(b, lower)
  {
    if a != "" {
      CaseIsLowered(a[1..], b[1..], lower);
    }
  }

  /** Keys that differ in separators and letter case only are sensitive alike. */
  lemma SensitivityIgnoresSpelling(a: string, b: string, lower: char -> string)
    requires SameButCase(Bare(a), Bare(b), lower)
    ensures SensitiveKeys(lower)(a) <==> SensitiveKeys(lower)(b)
  {
    NormalizeIsBareLowered(a, lower);
    NormalizeIsBareLowered(b, lower);
    CaseIsLowered(Bare(a), Bare(b), lower);
  }

  /** A key is sensitive exactly when it is one of these words, but for separators and letter case. */
  lemma SensitiveKeysAre(key: string, lower: char -> string)
    ensures var plain := LowerAll(Bare(key), lower);
            var listed := || plain == "authorization" || plain == "password" || plain == "passwd" || plain == "token"
                          || plain == "accesstoken" || plain == "refreshtoken" || plain == "apikey"
                          || plain == "secret" || plain == "clientsecret" || plain == "cookie" || plain == "session";
            SensitiveKeys(lower)(key) <==> listed
  {
    NormalizeIsBareLowered(key, lower);
  }

  // ----- What the stored copy reveals -----

  /** The positions reached through a sensitive key or selected by one of the pointers. */
  ghost function Hidden(paths: seq<seq<string>>, lower: char -> string): Cover {
    (position: seq<Step>) =>
      BuiltIn(SensitiveKeys(lower))(position) || exists path :: path in paths && Selected(path)(position)
  }

  function HiddenCover(paths: seq<seq<string>>, lower: char -> string): Cover {
    Covered(Elements(Passes(paths)), SensitiveKeys(lower))
  }

  lemma PassesOf(paths: seq<seq<string>>, pass: Pass)
    ensures pass in Elements(Passes(paths)) <==> pass == Sensitives || pass.path in paths
  {
    var passes := Passes(paths);
    assert passes[0] == Sensitives;
    if pass.Pointer? && pass.path in paths {
      var i :| 0 <= i < |paths| && paths[i] == pass.path;
      assert passes[i + 1] == pass;
    }
    if pass.Pointer? && pass in passes {
      var i :| 0 <= i < |passes| && passes[i] == pass;
      assert paths[i - 1] == pass.path;
    }
  }

  lemma HiddenIsCoveredAt(paths: seq<seq<string>>, lower: char -> string, position: seq<Step>)
    ensures HiddenCover(paths, lower)(position) == Hidden(paths, lower)(position)
  {
    var passes, sensitive := Elements(Passes(paths)), SensitiveKeys(lower);
    if HiddenCover(paths, lower)(position) {
      var pass :| pass in passes && CoverOf(pass, sensitive)(position);
      PassesOf(paths, pass);
    }
    if BuiltIn(sensitive)(position) {
      PassesOf(paths, Sensitives);
      assert CoverOf(Sensitives, sensitive)(position);
    } else if path :| path in paths && Selected(path)(position) {
      PassesOf(paths, Pointer(path));
      assert CoverOf(Pointer(path), sensitive)(position);
    }
  }

  lemma HiddenIsCovered(paths: seq<seq<string>>, lower: char -> string)
    ensures SameCover(HiddenCover(paths, lower), Hidden(paths, lower))
  {
    forall position: seq<Step>
      ensures HiddenCover(paths, lower)(position) == Hidden(paths, lower)(position)
    {
      HiddenIsCoveredAt(paths, lower, position);
    }
  }

  /** Two requests are stored alike exactly when they agree outside the hidden positions. */
  lemma StoredNoninterference(v: Json, w: Json, paths: seq<seq<string>>, lower: char -> string)
    ensures Stored(v, paths, lower) == Stored(w, paths, lower)
       <==> AgreeOutside(v, w, Hidden(paths, lower))
  {
    StoredIsMask(v, paths, lower);
    StoredIsMask(w, paths, lower);
    MaskNoninterference(v, w, Hidden(paths, lower));
  }

  lemma StoredIsMask(value: Json, paths: seq<seq<string>>, lower: char -> string)
    ensures Stored(value, paths, lower) == Mask(value, Hidden(paths, lower))
  {
    HiddenIsCovered(paths, lower);
    PipelineIsMask(value, Passes(paths), SensitiveKeys(lower));
    SameCoverSameMask(value, HiddenCover(paths, lower), Hidden(paths, lower));
  }

  /** A hidden position reads back as the marker; one with nothing hidden above or below keeps its value. */
  lemma StoredLocality(value: Json, paths: seq<seq<string>>, lower: char -> string, position: seq<Step>)
    requires At(value, position).Some?
    requires forall n :: 0 <= n < |position| ==> !Hidden(paths, lower)(position[..n])
    ensures Hidden(paths, lower)(position) ==> At(Stored(value, paths, lower), position) == Some(Text("[REDACTED]"))
    ensures (forall below: seq<Step> :: !Hidden(paths, lower)(position + below)) ==>
              At(Stored(value, paths, lower), position) == At(value, position)
  {
    StoredIsMask(value, paths, lower);
    MaskLocality(value, Hidden(paths, lower), position);
  }

  lemma SomePasses(paths: seq<seq<string>>, others: seq<seq<string>>)
    requires forall path :: path in others ==> path in paths
    ensures Elements(Passes(others)) <= Elements(Passes(paths))
  {
    forall pass
      ensures pass in Elements(Passes(others)) ==> pass in Elements(Passes(paths))
    {
      PassesOf(paths, pass);
      PassesOf(others, pass);
    }
  }

  /**
    The order and repetition of the configured pointers are irrelevant, and storing a stored copy again,
    with the same pointers or fewer, changes nothing.
   */
  lemma StoredIsStable(value: Json, paths: seq<seq<string>>, others: seq<seq<string>>, lower: char -> string)
    requires forall path :: path in others ==> path in paths
    ensures Stored(Stored(value, paths, lower), others, lower) == Stored(value, paths, lower)
    ensures (forall path :: path in paths ==> path in others) ==>
              Stored(value, others, lower) == Stored(value, paths, lower)
  {
    SomePasses(paths, others);
    PassesAreStable(value, Passes(paths), Passes(others), SensitiveKeys(lower));
    if forall path :: path in paths ==> path in others {
      SomePasses(others, paths);
      PassesCommuteAndRepeat(value, Passes(others), Passes(paths), SensitiveKeys(lower));
    }
  }
}
