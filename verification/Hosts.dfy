/**
  Destination rules: host patterns, the test that Development and Production rules do not overlap, and
  classification.
 */
module Hosts {
  import opened Bytes
  import opened Text

  datatype HostError = TooManyRules | BadName | BadWildcard | NotAHost | Ambiguous

  const MAX_RULES: nat := 128

  predicate EndsWith(text: string, end: string) {
    |end| <= |text| && text[|text| - |end|..] == end
  }

  datatype HostPattern = Exact(name: string) | Suffix(name: string) {

    /** A suffix needs something, at least a dot, in front of it. */
    predicate Matches(host: string) {
      match this
      case Exact(expected) => host == expected
      case Suffix(suffix) => |host| > |suffix| && EndsWith(host, suffix) && host[|host| - |suffix| - 1] == '.'
    }

    predicate Overlaps(other: HostPattern) {
      match (this, other)
      case (Exact(left), Exact(right)) => left == right
      case (Exact(host), pattern) => pattern.Matches(host)
      case (pattern, Exact(host)) => pattern.Matches(host)
      case (Suffix(left), Suffix(right)) =>
        left == right || EndsWith(left, "." + right) || EndsWith(right, "." + left)
    }
  }

  // ----- The overlap test -----

  lemma SuffixMatches(suffix: string, host: string)
    ensures Suffix(suffix).Matches(host) <==> EndsWith(host, "." + suffix)
  {
    var end := "." + suffix;
    if |end| <= |host| {
      assert host[|host| - |end|..] == [host[|host| - |suffix| - 1]] + host[|host| - |suffix|..];
      assert end[0] == '.' && end[1..] == suffix;
    }
  }

  /** Of two ends of one text the shorter is an end of the longer. */
  lemma EndsNest(text: string, long: string, short: string)
    requires EndsWith(text, long) && EndsWith(text, short) && |short| <= |long|
    ensures EndsWith(long, short)
  {
    assert long[|long| - |short|..] == text[|text| - |long|..][|long| - |short|..] == text[|text| - |short|..];
  }

  lemma EndsCompose(text: string, long: string, short: string)
    requires EndsWith(text, long) && EndsWith(long, short)
    ensures EndsWith(text, short)
  {
    assert text[|text| - |short|..] == long[|long| - |short|..];
  }

  lemma SuffixesShareAHost(left: string, right: string)
    requires left == right || EndsWith(left, "." + right)
    ensures Suffix(left).Matches("x." + left) && Suffix(right).Matches("x." + left)
  {
    var host := "x." + left;
    SuffixMatches(left, host);
    SuffixMatches(right, host);
    assert host[1..] == "." + left;
    if left != right {
      assert host[2..] == left;
      EndsCompose(host, left, "." + right);
    }
  }

  lemma SharedHostMeansNested(left: string, right: string, host: string)
    requires Suffix(left).Matches(host) && Suffix(right).Matches(host) && |right| <= |left|
    ensures left == right || EndsWith(left, "." + right)
  {
    SuffixMatches(left, host);
    SuffixMatches(right, host);
    if |right| < |left| {
      EndsNest(host, left, "." + right);
    } else {
      assert left == right;
    }
  }

  lemma OverlapHasHost(p: HostPattern, q: HostPattern) returns (host: string)
    requires p.Overlaps(q)
    ensures p.Matches(host) && q.Matches(host)
  {
    if p.Exact? || q.Exact? {
      host := if p.Exact? then p.name else q.name;
    } else if p == q || EndsWith(p.name, "." + q.name) {
      SuffixesShareAHost(p.name, q.name);
      host := "x." + p.name;
    } else {
      SuffixesShareAHost(q.name, p.name);
      host := "x." + q.name;
    }
  }

  lemma SharedHostOverlaps(p: HostPattern, q: HostPattern, host: string)
    requires p.Matches(host) && q.Matches(host)
    ensures p.Overlaps(q)
  {
    if p.Suffix? && q.Suffix? {
      if |q.name| <= |p.name| {
        SharedHostMeansNested(p.name, q.name, host);
      } else {
        SharedHostMeansNested(q.name, p.name, host);
      }
    }
  }

  /** Two patterns overlap exactly when some host matches both. */
  lemma OverlapIsExact(p: HostPattern, q: HostPattern)
    ensures p.Overlaps(q) <==> exists host :: p.Matches(host) && q.Matches(host)
  {
    if p.Overlaps(q) {
      var host := OverlapHasHost(p, q);
    }
    if host :| p.Matches(host) && q.Matches(host) {
      SharedHostOverlaps(p, q, host);
    }
  }

  // ----- Compiling rules -----

  /** Facts from outside: which characters are blank, which names are IP addresses, which of those are loopback. */
  datatype Platform = Platform(white: char -> bool, isIp: string -> bool, isLoopback: string -> bool)

  function Lower(text: string): (r: string)
    ensures |r| == |text|
  {
    seq(|text|, i requires 0 <= i < |text| =>
      if 'A' <= text[i] <= 'Z' then ((text[i] as int) + 32) as char else text[i])
  }

  predicate IsDot(c: char) { c == '.' }

  predicate IsOpening(c: char) { c == '[' }

  predicate IsClosing(c: char) { c == ']' }

  function Labels(name: string): (labels: seq<string>)
    ensures labels != []
  {
    if name == "" then [""]
    else
      var rest := Labels(name[1..]);
      if name[0] == '.' then [""] + rest else [[name[0]] + rest[0]] + rest[1..]
  }

  predicate HostChar(c: char) {
    'a' <= c <= 'z' || 'A' <= c <= 'Z' || '0' <= c <= '9' || c == '-' || c == '_'
  }

  predicate ValidHostname(name: string) {
    forall part | part in Labels(name) ::
      && 0 < |part| <= 63
      && part[0] != '-' && part[|part| - 1] != '-'
      && forall c | c in part :: HostChar(c)
  }

  function CompilePattern(rule: string, platform: Platform): Result<HostPattern, HostError> {
    var trimmed := Trim(rule, platform.white);
    var value := Lower(TrimEnd(trimmed, IsDot));
    if value == "" || |value| > 253 || exists c | c in value :: c >= '\U{80}' then Err(BadName)
    else if |value| >= 2 && value[..2] == "*." then
      var suffix := value[2..];
      if suffix == "" || '*' in suffix || !ValidHostname(suffix) then Err(BadWildcard) else Ok(Suffix(suffix))
    else if '*' in value then Err(BadWildcard)
    else
      var bare := if |value| >= 2 && value[0] == '[' && value[|value| - 1] == ']' then value[1..|value| - 1] else value;
      if !platform.isIp(bare) && !ValidHostname(bare) then Err(NotAHost) else Ok(Exact(bare))
  }

  function CompilePatterns(rules: seq<string>, platform: Platform): Result<seq<HostPattern>, HostError> {
    if rules == [] then Ok([])
    else
      var first := CompilePattern(rules[0], platform);
      if first.Err? then Err(first.error)
      else
        var rest := CompilePatterns(rules[1..], platform);
        if rest.Err? then rest else Ok([first.value] + rest.value)
  }

  datatype DestinationClass = Development | Production | Unknown

  predicate AnyMatches(patterns: seq<HostPattern>, host: string) {
    exists p | p in patterns :: p.Matches(host)
  }

  datatype Classifier = Classifier(development: seq<HostPattern>, production: seq<HostPattern>) {

    static function Compile(development: seq<string>, production: seq<string>, platform: Platform)
      : Result<Classifier, HostError>
    {
      if |development| > MAX_RULES || |production| > MAX_RULES then Err(TooManyRules)
      else
        match CompilePatterns(development, platform)
        case Err(error) => Err(error)
        case Ok(dev) =>
          match CompilePatterns(production, platform)
          case Err(error) => Err(error)
          case Ok(prod) =>
            if exists d, p | d in dev && p in prod :: d.Overlaps(p) then Err(Ambiguous) else Ok(Classifier(dev, prod))
    }

    function Default(host: string, platform: Platform): DestinationClass {
      if host == "localhost" || platform.isLoopback(host) then Development else Unknown
    }

    function Classify(raw: string, platform: Platform): DestinationClass {
      var host := Normalize(raw, platform);
      if AnyMatches(production, host) then Production
      else if AnyMatches(development, host) then Development
      else Default(host, platform)
    }

    /** The same rules tried the other way round. */
    function ClassifyDevelopmentFirst(raw: string, platform: Platform): DestinationClass {
      var host := Normalize(raw, platform);
      if AnyMatches(development, host) then Development
      else if AnyMatches(production, host) then Production
      else Default(host, platform)
    }
  }

  function Normalize(raw: string, platform: Platform): string {
    var trimmed := Trim(raw, platform.white);
    Lower(TrimEnd(TrimEnd(TrimStart(trimmed, IsOpening), IsClosing), IsDot))
  }

  /**
    Rules that compile one by one are refused as ambiguous exactly when some host matches both
    lists; so after a success no host does, and the order of the two checks is irrelevant.
   */
  lemma CompileIsUnambiguous(development: seq<string>, production: seq<string>, platform: Platform)
    requires |development| <= MAX_RULES && |production| <= MAX_RULES
    requires CompilePatterns(development, platform).Ok? && CompilePatterns(production, platform).Ok?
    ensures Classifier.Compile(development, production, platform)
         == (var dev, prod := CompilePatterns(development, platform).value, CompilePatterns(production, platform).value;
             if exists host :: AnyMatches(dev, host) && AnyMatches(prod, host) then Err(Ambiguous)
             else Ok(Classifier(dev, prod)))
  {
    var dev, prod := CompilePatterns(development, platform).value, CompilePatterns(production, platform).value;
    if d, p :| d in dev && p in prod && d.Overlaps(p) {
      OverlapIsExact(d, p);
      var host :| d.Matches(host) && p.Matches(host);
      assert AnyMatches(dev, host) && AnyMatches(prod, host);
    }
    if host :| AnyMatches(dev, host) && AnyMatches(prod, host) {
      var d :| d in dev && d.Matches(host);
      var p :| p in prod && p.Matches(host);
      OverlapIsExact(d, p);
    }
  }

  /** The two list checks may be swapped for every host: each verdict stays the same. */
  lemma ListOrderIsIrrelevant(development: seq<string>, production: seq<string>, platform: Platform, raw: string)
    requires Classifier.Compile(development, production, platform).Ok?
    ensures var c := Classifier.Compile(development, production, platform).value;
            c.Classify(raw, platform) == c.ClassifyDevelopmentFirst(raw, platform)
  {
    CompileIsUnambiguous(development, production, platform);
  }
}
