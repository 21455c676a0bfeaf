/**
  What host rules mean: which hosts a written rule matches, and which class a host gets. A rule is written
  with blanks around it, in any letter case, with trailing dots, perhaps in brackets.
 */
module HostRules {
  import opened Bytes
  import opened Text
  import opened Hosts

  // ----- Classes -----

  /** The class of every host, whatever the rules: Production first, then Development, which local hosts always have. */
  lemma ClassIsExact(c: Classifier, raw: string, platform: Platform)
    ensures var host := Normalize(raw, platform);
            var production := exists p :: p in c.production && p.Matches(host);
            var development := exists p :: p in c.development && p.Matches(host);
            var local := host == "localhost" || platform.isLoopback(host);
            && (c.Classify(raw, platform) == Production <==> production)
            && (c.Classify(raw, platform) == Development <==> !production && (development || local))
            && (c.Classify(raw, platform) == Unknown <==> !production && !development && !local)
  {
  }

  // ----- Letters and labels -----

  /** The same letters but for case. */
  ghost predicate SameLetters(a: string, b: string) {
    |a| == |b| && forall i :: 0 <= i < |a| ==>
                    || a[i] == b[i]
                    || ('A' <= a[i] <= 'Z' && b[i] as int == a[i] as int + 32)
                    || ('A' <= b[i] <= 'Z' && a[i] as int == b[i] as int + 32)
  }

  /** Letter case is ignored, everything else is kept. */
  lemma LowerIgnoresCase(a: string, b: string)
    ensures SameLetters(a, b) ==> Lower(a) == Lower(b)
    ensures SameLetters(a, Lower(a)) && Lower(Lower(a)) == Lower(a)
    ensures forall i :: 0 <= i < |a| ==> !('A' <= Lower(a)[i] <= 'Z')
  {
  }

  function Joined(labels: seq<string>): string
    requires labels != []
  {
    if |labels| == 1 then labels[0] else labels[0] + "." + Joined(labels[1..])
  }

  /** The labels are what the dots separate. */
  lemma {:induction false} LabelsAreSeparated(name: string)
    ensures Joined(Labels(name)) == name
    ensures forall part :: part in Labels(name) ==> '.' !in part
    decreases |name|
  {
    if name != "" {
      var rest := Labels(name[1..]);
      LabelsAreSeparated(name[1..]);
      assert name == [name[0]] + name[1..];
      if name[0] == '.' {
        assert ([""] + rest)[1..] == rest;
        assert "" + "." + Joined(rest) == "." + name[1..];
      } else {
        var labels := [[name[0]] + rest[0]] + rest[1..];
        assert labels[1..] == rest[1..];
        JoinedGrows(name[0], rest);
      }
    }
  }

  lemma JoinedGrows(c: char, labels: seq<string>)
    requires labels != []
    ensures Joined([[c] + labels[0]] + labels[1..]) == [c] + Joined(labels)
  {
    var longer := [[c] + labels[0]] + labels[1..];
    assert longer[1..] == labels[1..];
    if |labels| > 1 {
      assert [c] + labels[0] + "." + Joined(labels[1..]) == [c] + (labels[0] + "." + Joined(labels[1..]));
    }
  }

  lemma {:induction false} LabelsOfJoined(labels: seq<string>)
    requires labels != [] && forall part :: part in labels ==> '.' !in part
    ensures Labels(Joined(labels)) == labels
    decreases |labels|, |labels[0]|
  {
    var first, more, name := labels[0], labels[1..], Joined(labels);
    if first != "" {
      var shorter := [first[1..]] + more;
      assert first[0] in labels[0] && labels[0] in labels;
      LabelsOfJoined(shorter);
      JoinedGrows(first[0], shorter);
      assert first == [first[0]] + first[1..] && shorter[1..] == more;
      assert [[first[0]] + shorter[0]] + shorter[1..] == labels;
      assert name[1..] == Joined(shorter);
    } else if more != [] {
      LabelsOfJoined(more);
      assert name[1..] == Joined(more);
      assert [""] + more == labels;
    }
  }

  /** A host name is labels between dots, of one to 63 letters, digits, hyphens and underscores, no hyphen at an end. */
  lemma HostnameIsExact(labels: seq<string>)
    requires labels != [] && forall part :: part in labels ==> '.' !in part
    ensures ValidHostname(Joined(labels))
       <==> forall part :: part in labels ==>
              && 1 <= |part| <= 63 && part[0] != '-' && part[|part| - 1] != '-'
              && forall c :: c in part ==>
                   'a' <= c <= 'z' || 'A' <= c <= 'Z' || '0' <= c <= '9' || c == '-' || c == '_'
  {
    LabelsOfJoined(labels);
    assert forall c :: HostChar(c) <==> 'a' <= c <= 'z' || 'A' <= c <= 'Z' || '0' <= c <= '9' || c == '-' || c == '_';
  }

  /** The characters of a name are its dots and those of its labels; the last one is the last label's, if it has one. */
  lemma {:induction false} LabelsHoldTheName(name: string)
    ensures forall c :: c in name && c != '.' ==> exists part :: part in Labels(name) && c in part
    ensures var last := Labels(name)[|Labels(name)| - 1];
            if last == "" then name == "" || name[|name| - 1] == '.'
            else name != "" && name[|name| - 1] == last[|last| - 1]
    decreases |name|
  {
    if name != "" {
      var rest, labels := Labels(name[1..]), Labels(name);
      LabelsHoldTheName(name[1..]);
      forall c | c in name && c != '.'
        ensures exists part :: part in labels && c in part
      {
        if c == name[0] {
          assert labels[0] in labels && c in labels[0];
        } else {
          assert c in name[1..];
          var part :| part in rest && c in part;
          if part == rest[0] {
            assert c in labels[if name[0] == '.' then 1 else 0];
          } else {
            assert part in labels;
          }
        }
      }
    }
  }

  /** A name that rules can be written for: lower-case ASCII without brackets, wildcards or a final dot. */
  ghost predicate PlainName(name: string, platform: Platform) {
    && 0 < |name| <= 251 && Lower(name) == name && name[|name| - 1] != '.'
    && (forall c :: c in name ==> c < '\U{80}' && c != '*' && c != '[' && c != ']')
    && (platform.isIp(name) || ValidHostname(name))
  }

  lemma HostnamesArePlain(name: string, platform: Platform)
    requires ValidHostname(name) && |name| <= 251 && Lower(name) == name
    ensures PlainName(name, platform)
  {
    LabelsHoldTheName(name);
    var labels := Labels(name);
    var last := labels[|labels| - 1];
    assert last in labels && last[|last| - 1] in last;
    forall c | c in name
      ensures c < '\U{80}' && c != '*' && c != '[' && c != ']'
    {
      if c != '.' {
        var part :| part in labels && c in part;
        assert HostChar(c);
      }
    }
  }

  // ----- Written rules -----

  /** A rule as somebody writes it: the core in some letter case, dots after it, blanks around it. */
  ghost predicate Written(rule: string, core: string, dots: string, platform: Platform) {
    && Dropped(dots, IsDot)
    && exists lead, tail ::
         rule == lead + (core + dots) + tail && Dropped(lead, platform.white) && Dropped(tail, platform.white)
  }

  /** No blanks in what is written, nor are dots blank. */
  ghost predicate Solid(core: string, platform: Platform) {
    && core != "" && core[|core| - 1] != '.'
    && (forall c :: c in core ==> !platform.white(c)) && !platform.white('.')
  }

  lemma SolidIsTrimmed(core: string, dots: string, platform: Platform)
    requires Solid(core, platform) && Dropped(dots, IsDot)
    ensures Trimmed(core + dots, platform.white)
  {
    var text := core + dots;
    assert text[0] == core[0] && core[0] in core;
    if dots == "" {
      assert text == core && core[|core| - 1] in core;
    } else {
      assert text[|text| - 1] == dots[|dots| - 1] && dots[|dots| - 1] in dots;
    }
  }

  lemma WrittenIsTrimmed(rule: string, core: string, dots: string, platform: Platform)
    requires Written(rule, core, dots, platform) && Solid(core, platform)
    ensures Trim(rule, platform.white) == core + dots
    ensures TrimEnd(core + dots, IsDot) == core
  {
    var lead, tail :| && rule == lead + (core + dots) + tail
                      && Dropped(lead, platform.white) && Dropped(tail, platform.white);
    SolidIsTrimmed(core, dots, platform);
    TrimDrops(lead, core + dots, tail, platform.white);
    TrimEndDrops(core, dots, IsDot);
  }

  lemma LowerKeepsEnds(spelled: string, name: string)
    requires Lower(spelled) == name && name != ""
    ensures |spelled| == |name|
    ensures spelled[0] == '[' <==> name[0] == '['
    ensures spelled[|spelled| - 1] == '.' <==> name[|name| - 1] == '.'
    ensures spelled[|spelled| - 1] == ']' <==> name[|name| - 1] == ']'
  {
  }

  /** A plain name, written in any way, is a rule for exactly that host, and so is the host itself. */
  lemma PlainRuleNamesItself(rule: string, spelled: string, dots: string, name: string, platform: Platform)
    requires Written(rule, spelled, dots, platform) && Solid(spelled, platform)
    requires Lower(spelled) == name && PlainName(name, platform)
    ensures CompilePattern(rule, platform) == Ok(Exact(name))
    ensures forall host :: CompilePattern(rule, platform).value.Matches(host) <==> host == name
    ensures Normalize(rule, platform) == name
  {
    WrittenIsTrimmed(rule, spelled, dots, platform);
    assert name[0] in name && name[|name| - 1] in name;
    assert |name| >= 2 ==> name[..2][0] == name[0] != '*';
    LowerKeepsEnds(spelled, name);
    PlainIsNormal(spelled, dots, platform);
  }

  lemma PlainIsNormal(spelled: string, dots: string, platform: Platform)
    requires Solid(spelled, platform) && Dropped(dots, IsDot)
    requires spelled[0] != '[' && spelled[|spelled| - 1] != ']'
    ensures TrimEnd(TrimEnd(TrimStart(spelled + dots, IsOpening), IsClosing), IsDot) == spelled
  {
    var text := spelled + dots;
    assert text[0] == spelled[0];
    assert dots != "" ==> dots[|dots| - 1] in dots;
    assert text[|text| - 1] == if dots == "" then spelled[|spelled| - 1] else dots[|dots| - 1];
    TrimEndDrops(spelled, dots, IsDot);
  }

  lemma WildcardValue(spelled: string, name: string)
    requires Lower(spelled) == name
    ensures var value := Lower("*." + spelled);
            && value == "*." + name && |value| == |name| + 2 && value[..2] == "*." && value[2..] == name
            && forall c :: c in value ==> c == '*' || c == '.' || c in name
  {
    var value := Lower("*." + spelled);
    assert value == "*." + name;
  }

  lemma WildcardRuleCompiles(rule: string, spelled: string, dots: string, name: string, platform: Platform)
    requires Written(rule, "*." + spelled, dots, platform) && Solid("*." + spelled, platform)
    requires Lower(spelled) == name && PlainName(name, platform) && ValidHostname(name)
    ensures CompilePattern(rule, platform) == Ok(Suffix(name))
  {
    WrittenIsTrimmed(rule, "*." + spelled, dots, platform);
    WildcardValue(spelled, name);
  }

  /** A wildcard before a host name is a rule for exactly the hosts that end in a dot and that name. */
  lemma WildcardRuleCoversSubdomains(rule: string, spelled: string, dots: string, name: string, platform: Platform)
    requires Written(rule, "*." + spelled, dots, platform) && Solid("*." + spelled, platform)
    requires Lower(spelled) == name && PlainName(name, platform) && ValidHostname(name)
    ensures CompilePattern(rule, platform) == Ok(Suffix(name))
    ensures forall host :: CompilePattern(rule, platform).value.Matches(host) <==> EndsWith(host, "." + name)
  {
    WildcardRuleCompiles(rule, spelled, dots, name, platform);
    SuffixCovers(name);
  }

  lemma SuffixCovers(name: string)
    ensures forall host :: Suffix(name).Matches(host) <==> EndsWith(host, "." + name)
  {
    forall host
      ensures Suffix(name).Matches(host) <==> EndsWith(host, "." + name)
    {
      SuffixMatches(name, host);
    }
  }

  lemma BracketedValue(spelled: string, name: string)
    requires Lower(spelled) == name && name != ""
    ensures var value := Lower("[" + spelled + "]");
            && value == "[" + name + "]" && |value| == |name| + 2 && value[1..|value| - 1] == name
            && value[0] == '[' && value[|value| - 1] == ']'
            && forall c :: c in value ==> c == '[' || c == ']' || c in name
  {
    var value := Lower("[" + spelled + "]");
    assert value == "[" + name + "]";
  }

  lemma BracketedRuleCompiles(rule: string, spelled: string, dots: string, name: string, platform: Platform)
    requires Written(rule, "[" + spelled + "]", dots, platform) && Solid("[" + spelled + "]", platform)
    requires Lower(spelled) == name && PlainName(name, platform)
    ensures CompilePattern(rule, platform) == Ok(Exact(name))
  {
    WrittenIsTrimmed(rule, "[" + spelled + "]", dots, platform);
    BracketedValue(spelled, name);
    var value := Lower("[" + spelled + "]");
    assert value[..2][0] == '[';
  }

  /**
    In brackets a plain name is a rule for that host as well. But the same text as a host means that name
    exactly when no dot follows the bracket: a bracket before a dot is not taken off a host.
   */
  lemma BracketedRuleNamesItselfUnlessDotted(
    rule: string, spelled: string, dots: string, name: string, platform: Platform)
    requires Written(rule, "[" + spelled + "]", dots, platform) && Solid("[" + spelled + "]", platform)
    requires Lower(spelled) == name && PlainName(name, platform)
    ensures CompilePattern(rule, platform) == Ok(Exact(name))
    ensures Normalize(rule, platform) == name <==> dots == ""
  {
    BracketedRuleCompiles(rule, spelled, dots, name, platform);
    WrittenIsTrimmed(rule, "[" + spelled + "]", dots, platform);
    LowerKeepsEnds(spelled, name);
    assert name[0] in name && name[|name| - 1] in name;
    BracketsComeOff(spelled, dots);
    assert |Lower(spelled + "]")| == |name| + 1;
  }

  lemma BracketsComeOff(spelled: string, dots: string)
    requires spelled != "" && spelled[0] != '[' && spelled[|spelled| - 1] != ']' && spelled[|spelled| - 1] != '.'
    requires Dropped(dots, IsDot)
    ensures TrimEnd(TrimEnd(TrimStart("[" + spelled + "]" + dots, IsOpening), IsClosing), IsDot)
         == if dots == "" then spelled else spelled + "]"
  {
    var inside := spelled + "]" + dots;
    assert "[" + spelled + "]" + dots == "[" + inside;
    assert Dropped("[", IsOpening);
    TrimStartDrops("[", inside, IsOpening);
    if dots == "" {
      assert inside == spelled + "]";
      assert Dropped("]", IsClosing);
      TrimEndDrops(spelled, "]", IsClosing);
    } else {
      assert dots[|dots| - 1] in dots;
      assert inside[|inside| - 1] == '.';
      TrimEndDrops(spelled + "]", dots, IsDot);
    }
  }

  /** The core stands between the blanks and before the dots, and neither reaches into it. */
  ghost predicate Core(rule: string, core: string, dots: string, platform: Platform) {
    && Written(rule, core, dots, platform) && Trimmed(core + dots, platform.white)
    && (core == "" || core[|core| - 1] != '.')
  }

  /** The core of an address in brackets is what they enclose. */
  function Unbracketed(core: string): string {
    if |core| >= 2 && core[0] == '[' && core[|core| - 1] == ']' then core[1..|core| - 1] else core
  }

  /** Why a rule is refused: its length and alphabet first, then a misplaced wildcard, then what is no host. */
  lemma RefusalIsExact(rule: string, core: string, dots: string, platform: Platform)
    requires Core(rule, core, dots, platform)
    ensures var r, text := CompilePattern(rule, platform), Lower(core);
            var strange := !(1 <= |core| <= 253) || exists c :: c in text && c >= '\U{80}';
            var wildcard := exists name :: text == "*." + name && '*' !in name && ValidHostname(name);
            && (r == Err(BadName) <==> strange)
            && (r == Err(BadWildcard) <==> !strange && '*' in text && !wildcard)
            && (r == Err(NotAHost) <==>
                !strange && '*' !in text && !platform.isIp(Unbracketed(text)) && !ValidHostname(Unbracketed(text)))
            && (r.Err? ==> r.error == BadName || r.error == BadWildcard || r.error == NotAHost)
  {
    CoreIsTrimmed(rule, core, dots, platform);
    WildcardForm(Lower(core));
  }

  /** A text is a wildcard before a host name exactly when taking the wildcard off leaves one. */
  lemma WildcardForm(text: string)
    ensures (exists name :: text == "*." + name && '*' !in name && ValidHostname(name))
       <==> |text| >= 2 && text[..2] == "*." && '*' !in text[2..] && text[2..] != "" && ValidHostname(text[2..])
    ensures |text| >= 2 && text[..2] == "*." ==> '*' in text
  {
    EmptyIsNoHostname();
    if |text| >= 2 && text[..2] == "*." {
      assert text == "*." + text[2..];
      assert text[0] in text;
    }
    if name :| text == "*." + name && '*' !in name && ValidHostname(name) {
      assert text[2..] == name && text[..2] == "*.";
    }
  }

  lemma EmptyIsNoHostname()
    ensures !ValidHostname("")
  {
    assert "" in Labels("");
  }

  lemma CoreIsTrimmed(rule: string, core: string, dots: string, platform: Platform)
    requires Core(rule, core, dots, platform)
    ensures Lower(TrimEnd(Trim(rule, platform.white), IsDot)) == Lower(core)
  {
    var lead, tail :| && rule == lead + (core + dots) + tail
                      && Dropped(lead, platform.white) && Dropped(tail, platform.white);
    TrimDrops(lead, core + dots, tail, platform.white);
    TrimEndDrops(core, dots, IsDot);
  }

  ghost predicate FirstRefused(rules: seq<string>, i: int, error: HostError, platform: Platform) {
    && 0 <= i < |rules| && CompilePattern(rules[i], platform) == Err(error)
    && forall j :: 0 <= j < i ==> CompilePattern(rules[j], platform).Ok?
  }

  /** Every rule is compiled, in its place; the first that is refused refuses the list. */
  lemma {:induction false} EveryRuleCounts(rules: seq<string>, platform: Platform)
    ensures var r := CompilePatterns(rules, platform);
            && (r.Ok? ==> |r.value| == |rules|)
            && (r.Ok? ==> forall i :: 0 <= i < |rules| ==> CompilePattern(rules[i], platform) == Ok(r.value[i]))
            && (r.Err? ==> exists i :: FirstRefused(rules, i, r.error, platform))
  {
    if rules != [] {
      var rest := rules[1..];
      EveryRuleCounts(rest, platform);
      if CompilePattern(rules[0], platform).Err? {
        assert FirstRefused(rules, 0, CompilePattern(rules[0], platform).error, platform);
      } else if CompilePatterns(rest, platform).Err? {
        var error := CompilePatterns(rest, platform).error;
        var i :| FirstRefused(rest, i, error, platform);
        assert FirstRefused(rules, i + 1, error, platform);
      }
    }
  }

  /** A list longer than 128 is refused before any rule is read. */
  lemma RulesAreBounded(development: seq<string>, production: seq<string>, platform: Platform)
    ensures Classifier.Compile(development, production, platform) == Err(TooManyRules)
       <==> |development| > 128 || |production| > 128
  {
    RulesAreNotTooMany(development, platform);
    RulesAreNotTooMany(production, platform);
  }

  lemma RulesAreNotTooMany(rules: seq<string>, platform: Platform)
    ensures CompilePatterns(rules, platform) != Err(TooManyRules)
  {
    EveryRuleCounts(rules, platform);
  }

  /** Whatever rule is accepted, its pattern is a host name after a wildcard, or a host name or address. */
  lemma AcceptedRulesAreNames(rule: string, platform: Platform)
    requires CompilePattern(rule, platform).Ok?
    ensures var pattern := CompilePattern(rule, platform).value;
            && '*' !in pattern.name
            && (pattern.Suffix? ==> ValidHostname(pattern.name))
            && (pattern.Exact? ==> platform.isIp(pattern.name) || ValidHostname(pattern.name))
  {
  }
}
