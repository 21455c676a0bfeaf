/**
  Byte search over a recorded body: the failure table, one bounded scan step,
  the store operation around it and the driver that resumes from `nextOffset`.
  Everything is compared with `Leftmost`, the naive left-to-right search.
 */
module Search {
  import opened Bytes

  const SCAN_BYTES: nat := 4 * 1024 * 1024
  const MAX_NEEDLE: nat := 4096
  const U64_MAX: nat := 0xFFFF_FFFF_FFFF_FFFF

  // ----- The naive reference -----

  /** `needle` stands at `at`, wholly below `end`. */
  predicate Occurs(body: seq<byte>, needle: seq<byte>, at: nat, end: nat)
    requires end <= |body|
  {
    at + |needle| <= end && body[at..at + |needle|] == needle
  }

  /** Left-to-right search that tries every offset. */
  function Leftmost(body: seq<byte>, needle: seq<byte>, start: nat, end: nat): (r: Option<nat>)
    requires start <= end <= |body|
    ensures r.Some? ==> start <= r.value && Occurs(body, needle, r.value, end)
    ensures forall at: nat :: start <= at < (if r.Some? then r.value else |body| + 1) ==> !Occurs(body, needle, at, end)
    decreases end - start
  {
    if Occurs(body, needle, start, end) then Some(start)
    else if start == end then None
    else Leftmost(body, needle, start + 1, end)
  }

  lemma LeftmostIs(body: seq<byte>, needle: seq<byte>, start: nat, end: nat, at: nat)
    requires start <= at <= end <= |body|
    requires Occurs(body, needle, at, end)
    requires forall k: nat :: start <= k < at ==> !Occurs(body, needle, k, end)
    ensures Leftmost(body, needle, start, end) == Some(at)
  {
  }

  /** Starting later does not matter while nothing stands in between. */
  lemma LeftmostSkips(body: seq<byte>, needle: seq<byte>, start: nat, next: nat, end: nat)
    requires start <= next <= end <= |body|
    requires forall k: nat :: start <= k < next ==> !Occurs(body, needle, k, end)
    ensures Leftmost(body, needle, start, end) == Leftmost(body, needle, next, end)
  {
    var later := Leftmost(body, needle, next, end);
    if later.Some? {
      LeftmostIs(body, needle, start, end, later.value);
    }
  }

  /** Bytes recorded after the range was frozen cannot change the answer. */
  lemma {:induction false} LeftmostIgnoresGrowth(body: seq<byte>, growth: seq<byte>, needle: seq<byte>,
                                                 start: nat, end: nat)
    requires start <= end <= |body|
    ensures Leftmost(body + growth, needle, start, end) == Leftmost(body, needle, start, end)
    decreases end - start
  {
    if start + |needle| <= end {
      assert (body + growth)[start..start + |needle|] == body[start..start + |needle|];
    }
    if start < end {
      LeftmostIgnoresGrowth(body, growth, needle, start + 1, end);
    }
  }

  /** The hits a reader sees who presses "find next" until nothing is left. */
  function Hits(body: seq<byte>, needle: seq<byte>, start: nat, end: nat): (hits: seq<nat>)
    requires start <= end <= |body|
    requires 0 < |needle|
    decreases end - start
  {
    match Leftmost(body, needle, start, end)
    case None => []
    case Some(at) => [at] + Hits(body, needle, at + 1, end)
  }

  /** Restarting at `found + 1` reports every occurrence, overlapping ones too, once and in order. */
  lemma {:induction false} HitsEnumerateAllOccurrences(body: seq<byte>, needle: seq<byte>, start: nat, end: nat)
    requires start <= end <= |body|
    requires 0 < |needle|
    ensures forall at: nat :: at in Hits(body, needle, start, end) <==> start <= at && Occurs(body, needle, at, end)
    ensures forall i, j :: 0 <= i < j < |Hits(body, needle, start, end)| ==>
                             Hits(body, needle, start, end)[i] < Hits(body, needle, start, end)[j]
    decreases end - start
  {
    match Leftmost(body, needle, start, end)
    case None =>
    case Some(at) =>
      HitsEnumerateAllOccurrences(body, needle, at + 1, end);
      var rest := Hits(body, needle, at + 1, end);
      assert forall i :: 0 <= i < |rest| ==> rest[i] in rest;
  }

  // ----- Borders -----

  /** The first `k` pattern bytes end at `hi` inside `text[lo..hi]`. */
  predicate Ends(p: seq<byte>, text: seq<byte>, lo: nat, hi: nat, k: nat)
    requires lo <= hi <= |text|
  {
    k <= |p| && k <= hi - lo && text[hi - k..hi] == p[..k]
  }

  /** `k` is the longest pattern prefix that ends at `hi`. */
  ghost predicate LongestEnd(p: seq<byte>, text: seq<byte>, lo: nat, hi: nat, k: nat)
    requires lo <= hi <= |text|
  {
    Ends(p, text, lo, hi, k) && forall j: nat :: Ends(p, text, lo, hi, j) ==> j <= k
  }

  /** Entry `i` is the longest proper border of `p[..i + 1]`: a prefix that ends there without being all of it. */
  ghost predicate FailureTable(p: seq<byte>, table: seq<nat>)
  {
    |table| <= |p| && forall i :: 0 <= i < |table| ==> LongestEnd(p, p, 1, i + 1, table[i])
  }

  lemma EndsExtend(p: seq<byte>, text: seq<byte>, lo: nat, hi: nat, j: nat)
    requires lo <= hi < |text|
    requires 0 < j <= |p|
    ensures Ends(p, text, lo, hi + 1, j) <==> Ends(p, text, lo, hi, j - 1) && text[hi] == p[j - 1]
  {
    if j <= hi + 1 - lo {
      assert text[hi + 1 - j..hi + 1] == text[hi - (j - 1)..hi] + [text[hi]];
      assert p[..j] == p[..j - 1] + [p[j - 1]];
    }
  }

  /** A shorter end inside a longer one is a proper border of it, and the other way round. */
  lemma EndsAreBorders(p: seq<byte>, text: seq<byte>, lo: nat, hi: nat, m: nat, j: nat)
    requires lo <= hi <= |text|
    requires Ends(p, text, lo, hi, m) && j < m
    ensures Ends(p, text, lo, hi, j) <==> Ends(p, p, 1, m, j)
  {
    assert text[hi - j..hi] == text[hi - m..hi][m - j..];
    assert p[..m][m - j..] == p[m - j..m];
  }

  /** Every end at `next` extends an end one byte earlier that is at most `m` long. */
  ghost predicate Covers(p: seq<byte>, text: seq<byte>, lo: nat, next: nat, m: nat)
    requires lo <= next <= |text|
  {
    forall j: nat :: Ends(p, text, lo, next, j) ==> j <= m + 1
  }

  lemma FallBack(p: seq<byte>, table: seq<nat>, text: seq<byte>, lo: nat, hi: nat, m: nat)
    requires FailureTable(p, table) && 0 < m <= |table| && m < |p|
    requires lo <= hi < |text|
    requires Ends(p, text, lo, hi, m) && Covers(p, text, lo, hi + 1, m) && text[hi] != p[m]
    ensures Ends(p, text, lo, hi, table[m - 1]) && Covers(p, text, lo, hi + 1, table[m - 1])
  {
    var t := table[m - 1];
    assert LongestEnd(p, p, 1, m, t);
    EndsAreBorders(p, text, lo, hi, m, t);
    var next := hi + 1;
    forall j: nat | Ends(p, text, lo, next, j)
      ensures j <= t + 1
    {
      if 0 < j {
        EndsExtend(p, text, lo, hi, j);
        EndsAreBorders(p, text, lo, hi, m, j - 1);
      }
    }
  }

  /**
    Consume one byte. `work` counts the fallbacks plus the advance; the matched
    length pays for the fallbacks, so `work + m` grows by at most two per byte.
   */
  method Advance(p: seq<byte>, table: seq<nat>, byte: byte, matched: nat,
                 ghost text: seq<byte>, ghost lo: nat, ghost hi: nat)
    returns (m: nat, ghost work: nat)
    requires FailureTable(p, table) && matched <= |table| && matched < |p|
    requires lo <= hi < |text| && text[hi] == byte
    requires LongestEnd(p, text, lo, hi, matched)
    ensures LongestEnd(p, text, lo, hi + 1, m)
    ensures work + m <= matched + 2
  {
    m, work := matched, 0;
    ghost var next := hi + 1;
    forall j: nat | Ends(p, text, lo, next, j)
      ensures j <= m + 1
    {
      if 0 < j {
        EndsExtend(p, text, lo, hi, j);
      }
    }
    while m > 0 && byte != p[m]
      invariant m <= matched
      invariant Ends(p, text, lo, hi, m) && Covers(p, text, lo, hi + 1, m)
      invariant work + m <= matched
    {
      FallBack(p, table, text, lo, hi, m);
      m := table[m - 1];
      work := work + 1;
    }
    EndsExtend(p, text, lo, hi, m + 1);
    if byte == p[m] {
      m := m + 1;
      work := work + 1;
    } else {
      forall j: nat | Ends(p, text, lo, next, j)
        ensures j == 0
      {
        if 0 < j {
          EndsExtend(p, text, lo, hi, j);
        }
      }
    }
  }

  method BuildTable(needle: seq<byte>) returns (table: seq<nat>, ghost work: nat)
    requires 0 < |needle|
    ensures |table| == |needle| && FailureTable(needle, table)
    ensures work <= 2 * (|needle| - 1)
  {
    table := [0];
    work := 0;
    var matched: nat := 0;
    for index := 1 to |needle|
      invariant |table| == index && FailureTable(needle, table)
      invariant matched < index && LongestEnd(needle, needle, 1, index, matched)
      invariant work + matched <= 2 * (index - 1)
    {
      ghost var step;
      matched, step := Advance(needle, table, needle[index], matched, needle, 1, index);
      work := work + step;
      table := table + [matched];
    }
  }

  // ----- One bounded step -----

  datatype SearchStep = SearchStep(found: Option<nat>, nextOffset: nat, scannedTo: nat, done: bool)

  datatype SearchError = BadNeedle | NotRecorded | Busy | InvalidRange | Cleared | Cancelled | ReadFailed

  /** What a step meets at the buffer boundary `position`: a cancelled entry, a failed read. */
  datatype Weather = Weather(cancelled: nat -> bool, readFails: nat -> bool) {
    predicate FairAt(position: nat) {
      !cancelled(position) && !readFails(position)
    }
  }

  function SaturatingAdd(a: nat, b: nat): nat {
    Min(a + b, U64_MAX)
  }

  /** The last offset one step may look at. */
  function WindowEnd(start: nat, end: nat): nat {
    Min(end, SaturatingAdd(start, SCAN_BYTES))
  }

  /** `position` starts a buffer of a step that began at `start`. */
  predicate Boundary(start: nat, position: nat) {
    start <= position && (position - start) % PAGE_SIZE == 0
  }

  /** What a successful step reports, in terms of the naive search. */
  ghost predicate StepCorrect(body: seq<byte>, needle: seq<byte>, start: nat, end: nat, step: SearchStep)
    requires start <= end <= |body| && 0 < |needle|
  {
    var stop := WindowEnd(start, end);
    && (step.found.Some? ==>
          && step.found == Leftmost(body, needle, start, end)
          && step.nextOffset == step.found.value + 1 <= step.scannedTo == step.found.value + |needle| <= stop
          && step.done)
    && (step.found.None? ==>
          && step.scannedTo == stop
          && step.done == (stop == end)
          && stop - |needle| < step.nextOffset <= stop
          && (step.done ==> step.nextOffset == end && Leftmost(body, needle, start, end).None?)
          && (!step.done ==>
                && start <= step.nextOffset
                && Ends(needle, body, start, stop, stop - step.nextOffset)
                && Leftmost(body, needle, start, end) == Leftmost(body, needle, step.nextOffset, end)))
  }

  /** The scanner has read `body[start..position]`, holds `matched` and met no occurrence. */
  ghost predicate Scanned(body: seq<byte>, needle: seq<byte>, start: nat, position: nat, end: nat, matched: nat)
    requires start <= position <= end <= |body|
  {
    && matched < |needle|
    && LongestEnd(needle, body, start, position, matched)
    && forall k: nat :: start <= k && k + |needle| <= position ==> !Occurs(body, needle, k, end)
  }

  /** One more byte was consumed: a complete match is the leftmost occurrence, anything less excludes one here. */
  lemma ByteScanned(body: seq<byte>, needle: seq<byte>, start: nat, position: nat, end: nat, before: nat, matched: nat)
    requires start <= position < end <= |body|
    requires Scanned(body, needle, start, position, end, before)
    requires LongestEnd(needle, body, start, position + 1, matched)
    ensures matched == |needle| ==> start + |needle| <= position + 1
                                    && Leftmost(body, needle, start, end) == Some(position + 1 - |needle|)
    ensures matched < |needle| ==> Scanned(body, needle, start, position + 1, end, matched)
  {
    assert needle[..|needle|] == needle;
    if matched == |needle| {
      LeftmostIs(body, needle, start, end, position + 1 - |needle|);
    } else {
      forall k: nat | start <= k && k + |needle| <= position + 1
        ensures !Occurs(body, needle, k, end)
      {
        if k + |needle| == position + 1 {
          assert Ends(needle, body, start, position + 1, |needle|) <==> Occurs(body, needle, k, end);
        }
      }
    }
  }

  /** An occurrence that reaches beyond `position` shows there as an end. */
  lemma OccurrenceShows(body: seq<byte>, needle: seq<byte>, start: nat, at: nat, position: nat, end: nat)
    requires start <= at <= position <= end <= |body| && position < at + |needle|
    ensures Occurs(body, needle, at, end) ==> Ends(needle, body, start, position, position - at)
  {
    if at + |needle| <= end {
      assert body[at..position] == body[at..at + |needle|][..position - at];
    }
  }

  /** Any occurrence that is not yet excluded must already show as an end. */
  lemma NothingBefore(body: seq<byte>, needle: seq<byte>, start: nat, position: nat, end: nat, matched: nat)
    requires start <= position <= end <= |body|
    requires Scanned(body, needle, start, position, end, matched)
    ensures matched <= position - start
    ensures Leftmost(body, needle, start, end) == Leftmost(body, needle, position - matched, end)
  {
    forall at: nat | start <= at < position - matched
      ensures !Occurs(body, needle, at, end)
    {
      if position < at + |needle| {
        OccurrenceShows(body, needle, start, at, position, end);
      }
    }
    LeftmostSkips(body, needle, start, position - matched, end);
  }

  lemma NothingAtAll(body: seq<byte>, needle: seq<byte>, start: nat, end: nat, matched: nat)
    requires start <= end <= |body|
    requires Scanned(body, needle, start, end, end, matched)
    ensures Leftmost(body, needle, start, end).None?
  {
  }

  /** One byte of the inner loop: a complete match is the leftmost occurrence, anything less goes on. */
  method ScanByte(byte: byte, needle: seq<byte>, prefix: seq<nat>, before: nat,
                  ghost body: seq<byte>, ghost start: nat, ghost position: nat, ghost end: nat)
    returns (matched: nat, ghost work: nat)
    requires |prefix| == |needle| && FailureTable(needle, prefix)
    requires start <= position < end <= |body| && body[position] == byte
    requires Scanned(body, needle, start, position, end, before)
    ensures work + matched <= before + 2 && matched <= |needle|
    ensures matched == |needle| ==> start + |needle| <= position + 1
                                    && Leftmost(body, needle, start, end) == Some(position + 1 - |needle|)
    ensures matched < |needle| ==> Scanned(body, needle, start, position + 1, end, matched)
  {
    matched, work := Advance(needle, prefix, byte, before, body, start, position);
    ByteScanned(body, needle, start, position, end, before, matched);
  }

  /** The inner loop over one filled buffer; `hit` is the position just after a complete match. */
  method ScanBuffer(buffer: seq<byte>, needle: seq<byte>, prefix: seq<nat>, before: nat,
                    ghost body: seq<byte>, ghost start: nat, from: nat, ghost end: nat)
    returns (hit: Option<nat>, matched: nat, ghost work: nat)
    requires |prefix| == |needle| && FailureTable(needle, prefix)
    requires start <= from && from + |buffer| <= end <= |body|
    requires buffer == body[from..from + |buffer|]
    requires Scanned(body, needle, start, from, end, before)
    ensures hit.None? ==> Scanned(body, needle, start, from + |buffer|, end, matched)
    ensures hit.None? ==> work + matched <= before + 2 * |buffer|
    ensures hit.Some? ==> start + |needle| <= hit.value && from < hit.value <= from + |buffer|
    ensures hit.Some? ==> Leftmost(body, needle, start, end) == Some(hit.value - |needle|)
    ensures hit.Some? ==> work <= before + 2 * (hit.value - from)
  {
    matched, work := before, 0;
    for i := 0 to |buffer|
      invariant Scanned(body, needle, start, from + i, end, matched)
      invariant work + matched <= before + 2 * i
    {
      ghost var step;
      assert buffer[i] == body[from + i];
      matched, step := ScanByte(buffer[i], needle, prefix, matched, body, start, from + i, end);
      work := work + step;
      if matched == |needle| {
        return Some(from + i + 1), matched, work;
      }
    }
    hit := None;
  }

  /** The step fails at the buffer that starts at `p`, for the reason found there. */
  ghost predicate FoulAt(body: seq<byte>, needle: seq<byte>, start: nat, end: nat, weather: Weather,
                         error: SearchError, p: nat)
    requires start <= end <= |body|
  {
    && Boundary(start, p) && p < WindowEnd(start, end) && !weather.FairAt(p)
    && error == (if weather.cancelled(p) then Cancelled else ReadFailed)
    && (forall k: nat :: start <= k && k + |needle| <= p ==> !Occurs(body, needle, k, end))
  }

  /** Every buffer that starts before `position` was read in fair weather. */
  ghost predicate FairUpTo(weather: Weather, start: nat, position: nat) {
    forall p: nat :: Boundary(start, p) && p < position ==> weather.FairAt(p)
  }

  /** A buffer read in fair weather, up to the next boundary or the end of the window. */
  lemma FairThrough(weather: Weather, start: nat, position: nat, count: nat, stop: nat)
    requires Boundary(start, position) && position < stop && count == Min(PAGE_SIZE, stop - position)
    requires FairUpTo(weather, start, position) && weather.FairAt(position)
    ensures forall to: nat :: to <= position + count ==> FairUpTo(weather, start, to)
    ensures position + count < stop ==> Boundary(start, position + count)
  {
    NoBoundaryInside(start, position, count);
  }

  /** Where the buffers of one step got to: an error, a complete match, or the end of the window. */
  datatype WindowResult = Foul(error: SearchError) | Hit(position: nat) | Through(matched: nat)

  /** One turn of the outer loop: look at the flag, fill a buffer, scan it. */
  method ScanPage(body: seq<byte>, needle: seq<byte>, prefix: seq<nat>,
                  ghost start: nat, position: nat, stop: nat, ghost end: nat, weather: Weather, before: nat)
    returns (r: WindowResult, ghost work: nat)
    requires |prefix| == |needle| > 0 && FailureTable(needle, prefix)
    requires start <= position < stop <= end <= |body| && stop == WindowEnd(start, end) && Boundary(start, position)
    requires Scanned(body, needle, start, position, end, before) && FairUpTo(weather, start, position)
    ensures r.Hit? ==> && start + |needle| <= r.position <= stop && position < r.position
                       && Leftmost(body, needle, start, end) == Some(r.position - |needle|)
                       && FairUpTo(weather, start, r.position) && work <= before + 2 * (r.position - position)
    ensures r.Through? ==>
              var next := position + Min(PAGE_SIZE, stop - position);
              && Scanned(body, needle, start, next, end, r.matched) && FairUpTo(weather, start, next)
              && (next < stop ==> Boundary(start, next))
              && work + r.matched <= before + 2 * (next - position)
    ensures r.Foul? ==> FoulAt(body, needle, start, end, weather, r.error, position) && work == 0
  {
    work := 0;
    if weather.cancelled(position) {
      return Foul(Cancelled), work;
    }
    var count := Min(PAGE_SIZE, stop - position);
    if weather.readFails(position) {
      return Foul(ReadFailed), work;
    }
    var buffer := body[position..position + count];
    FairThrough(weather, start, position, count, stop);
    var hit, matched;
    hit, matched, work := ScanBuffer(buffer, needle, prefix, before, body, start, position, end);
    r := if hit.Some? then Hit(hit.value) else Through(matched);
  }

  /** The outer loop: one buffer after the other up to `stop`. */
  method ScanWindow(body: seq<byte>, needle: seq<byte>, prefix: seq<nat>,
                    start: nat, stop: nat, end: nat, weather: Weather)
    returns (r: WindowResult, ghost work: nat)
    requires |prefix| == |needle| > 0 && FailureTable(needle, prefix)
    requires start <= stop <= end <= |body| && stop == WindowEnd(start, end)
    ensures r.Hit? ==> start + |needle| <= r.position <= stop
                       && Leftmost(body, needle, start, end) == Some(r.position - |needle|)
                       && FairUpTo(weather, start, r.position)
                       && work <= 2 * (r.position - start)
    ensures r.Through? ==> Scanned(body, needle, start, stop, end, r.matched) && FairUpTo(weather, start, stop)
                           && work <= 2 * (stop - start)
    ensures r.Foul? ==> exists p: nat :: FoulAt(body, needle, start, end, weather, r.error, p)
    ensures r.Foul? ==> work <= 2 * (stop - start)
  {
    work := 0;
    var matched: nat := 0;
    var position: nat := start;
    while position < stop
      invariant start <= position <= stop && (position < stop ==> Boundary(start, position))
      invariant Scanned(body, needle, start, position, end, matched)
      invariant FairUpTo(weather, start, position)
      invariant work + matched <= 2 * (position - start)
    {
      ghost var step;
      r, step := ScanPage(body, needle, prefix, start, position, stop, end, weather, matched);
      work := work + step;
      if !r.Through? {
        return;
      }
      matched := r.matched;
      position := position + Min(PAGE_SIZE, stop - position);
    }
    r := Through(matched);
  }

  /**
    One step: linear matching over 64 KiB buffers in a window of at most 4 MiB.
    It fails exactly when the weather is foul at a buffer boundary it reaches.
   */
  method Scan(body: seq<byte>, needle: seq<byte>, start: nat, end: nat, weather: Weather)
    returns (r: Result<SearchStep, SearchError>, ghost work: nat)
    requires 0 < |needle|
    requires start <= end <= |body| <= U64_MAX
    ensures r.Ok? ==> StepCorrect(body, needle, start, end, r.value)
    ensures r.Ok? && r.value.found.None? ==>
              r.value.scannedTo == if end - start <= 4 * 1024 * 1024 then end else start + 4 * 1024 * 1024
    ensures r.Ok? ==> FairUpTo(weather, start, r.value.scannedTo)
    ensures r.Ok? ==> work <= 2 * |needle| + 2 * (r.value.scannedTo - start)
    ensures r.Err? ==> exists p: nat :: FoulAt(body, needle, start, end, weather, r.error, p)
    ensures r.Err? ==> work <= 2 * |needle| + 2 * (WindowEnd(start, end) - start)
  {
    ghost var tableWork, scanWork;
    var prefix, window;
    prefix, tableWork := BuildTable(needle);
    var stop := WindowEnd(start, end);
    window, scanWork := ScanWindow(body, needle, prefix, start, stop, end, weather);
    work := tableWork + scanWork;
    match window {
      case Foul(error) =>
        r := Err(error);
      case Hit(position) =>
        var found := position - |needle|;
        r := Ok(SearchStep(Some(found), found + 1, position, true));
      case Through(matched) =>
        if stop == end {
          NothingAtAll(body, needle, start, end, matched);
        } else {
          NothingBefore(body, needle, start, stop, end, matched);
        }
        r := Ok(SearchStep(None, if stop == end then end else stop - matched, stop, stop == end));
    }
  }

  lemma NoBoundaryInside(start: nat, position: nat, count: nat)
    requires Boundary(start, position) && count <= PAGE_SIZE
    ensures forall p: nat :: Boundary(start, p) && p < position + count ==> p <= position
  {
    forall p: nat | Boundary(start, p) && position < p
      ensures position + PAGE_SIZE <= p
    {
      assert (p - start) - (position - start) == PAGE_SIZE * ((p - start) / PAGE_SIZE - (position - start) / PAGE_SIZE);
    }
  }

  // ----- The store operation and its driver -----

  /** What a search job finds when it looks up the entry: the open file, if still there, and its published length. */
  datatype View = View(file: Option<seq<byte>>, total: nat) {
    predicate Valid() {
      file.Some? ==> total <= |file.value| <= U64_MAX
    }
  }

  /** The refusals before any byte is read, in the order they are tried. */
  function Refusal(entry: Option<View>, permitFree: bool, needle: seq<byte>, start: nat, end: nat): Option<SearchError>
  {
    if |needle| == 0 || |needle| > MAX_NEEDLE then Some(BadNeedle)
    else if entry.None? then Some(NotRecorded)
    else if !permitFree then Some(Busy)
    else if start > end || end > entry.value.total then Some(InvalidRange)
    else if entry.value.file.None? then Some(Cleared)
    else None
  }

  method SearchStore(entry: Option<View>, permitFree: bool, needle: seq<byte>, start: nat, end: nat, weather: Weather)
    returns (r: Result<SearchStep, SearchError>, ghost work: nat)
    requires entry.Some? ==> entry.value.Valid()
    ensures Refusal(entry, permitFree, needle, start, end).Some? ==>
              r == Err(Refusal(entry, permitFree, needle, start, end).value)
    ensures |needle| == 0 || |needle| > 4096 ==> r == Err(BadNeedle)
    ensures 0 < |needle| <= 4096 && entry.None? ==> r == Err(NotRecorded)
    ensures 0 < |needle| <= 4096 && entry.Some? ==>
              && (!permitFree ==> r == Err(Busy))
              && (permitFree && !(start <= end <= entry.value.total) ==> r == Err(InvalidRange))
              && (permitFree && start <= end <= entry.value.total && entry.value.file.None? ==> r == Err(Cleared))
    ensures Refusal(entry, permitFree, needle, start, end).None? && r.Ok? ==>
              && StepCorrect(entry.value.file.value, needle, start, end, r.value)
              && (!r.value.done ==> start < r.value.nextOffset <= end)
    ensures Refusal(entry, permitFree, needle, start, end).None? && r.Err? ==>
              exists p: nat :: FoulAt(entry.value.file.value, needle, start, end, weather, r.error, p)
    ensures Refusal(entry, permitFree, needle, start, end).Some? ==> work == 0
    ensures Refusal(entry, permitFree, needle, start, end).None? ==>
              work <= 2 * |needle| + 2 * ((if r.Ok? then r.value.scannedTo else WindowEnd(start, end)) - start)
  {
    work := 0;
    if |needle| == 0 || |needle| > MAX_NEEDLE {
      return Err(BadNeedle), work;
    }
    if entry.None? {
      return Err(NotRecorded), work;
    }
    if !permitFree {
      return Err(Busy), work;
    }
    if start > end || end > entry.value.total {
      return Err(InvalidRange), work;
    }
    if entry.value.file.None? {
      return Err(Cleared), work;
    }
    r, work := Scan(entry.value.file.value, needle, start, end, weather);
  }

  /**
    Everything outside the driver, per iteration: the store, a permit, the weather, and whether this run
    is still wanted, before the request and when its reply arrives.
   */
  datatype World = World(
    store: nat -> Option<View>, permitFree: nat -> bool, weather: nat -> Weather,
    wanted: nat -> bool, wantedAfter: nat -> bool) {

    /** The recording may have grown since the range was frozen, but only at its end. */
    ghost predicate Extends(frozen: seq<byte>) {
      forall k: nat :: store(k).Some? ==>
                         && store(k).value.Valid()
                         && |frozen| <= store(k).value.total
                         && (store(k).value.file.Some? ==> frozen <= store(k).value.file.value)
    }

    /** Nothing outside the driver interferes with iteration `k`. */
    ghost predicate Calm(k: nat) {
      && wanted(k) && wantedAfter(k) && permitFree(k) && store(k).Some? && store(k).value.file.Some?
      && forall p: nat :: weather(k).FairAt(p)
    }
  }

  /** Turn `k`, resumed at `cursor`, ends in this error: it was refused, or met foul weather before any occurrence. */
  ghost predicate FailsAt(world: World, frozen: seq<byte>, needle: seq<byte>, k: nat, cursor: nat, error: SearchError)
    requires world.Extends(frozen)
  {
    var refusal := Refusal(world.store(k), world.permitFree(k), needle, cursor, |frozen|);
    && world.wanted(k) && world.wantedAfter(k)
    && if refusal.Some? then refusal == Some(error)
       else exists p: nat ::
              FoulAt(world.store(k).value.file.value, needle, cursor, |frozen|, world.weather(k), error, p)
  }

  datatype Outcome = Match(at: nat) | NoMatch | Stopped | Failed(error: SearchError)

  /** What a step over a recording that has grown says about the frozen range. */
  lemma FrozenStep(frozen: seq<byte>, body: seq<byte>, needle: seq<byte>, cursor: nat, step: SearchStep)
    requires frozen <= body && cursor <= |frozen| && |body| <= U64_MAX && 0 < |needle|
    requires StepCorrect(body, needle, cursor, |frozen|, step)
    ensures step.found.Some? ==> step.found == Leftmost(frozen, needle, cursor, |frozen|)
    ensures step.found.None? && step.done ==> Leftmost(frozen, needle, cursor, |frozen|).None?
    ensures !step.done ==> cursor <= step.nextOffset <= |frozen|
    ensures !step.done ==>
              Leftmost(frozen, needle, cursor, |frozen|) == Leftmost(frozen, needle, step.nextOffset, |frozen|)
  {
    assert body == frozen + body[|frozen|..];
    LeftmostIgnoresGrowth(frozen, body[|frozen|..], needle, cursor, |frozen|);
    if !step.done {
      LeftmostIgnoresGrowth(frozen, body[|frozen|..], needle, step.nextOffset, |frozen|);
    }
  }

  /** A turn that is not the last one pays for its matcher moves with the bytes it advances by. */
  lemma TurnIsPaidFor(body: seq<byte>, needle: seq<byte>, cursor: nat, end: nat, step: SearchStep, work: nat)
    requires cursor <= end <= |body| <= U64_MAX && 0 < |needle| <= MAX_NEEDLE
    requires StepCorrect(body, needle, cursor, end, step) && !step.done
    requires work <= 2 * |needle| + 2 * (step.scannedTo - cursor)
    ensures work <= 3 * (step.nextOffset - cursor)
    ensures SCAN_BYTES - |needle| < step.nextOffset - cursor
  {
  }

  /** What one turn reports, if it does not fail: the answer over the frozen range, or where to go on. */
  datatype Turn = Answers(found: Option<nat>) | GoesOn(next: nat) | Fails(error: SearchError)

  method TakeTurn(ghost frozen: seq<byte>, end: nat, needle: seq<byte>, cursor: nat, world: World, k: nat)
    returns (turn: Turn, ghost work: nat)
    requires world.Extends(frozen) && end == |frozen|
    ensures !turn.Fails? ==> cursor <= end
    ensures turn.Answers? ==> turn.found == Leftmost(frozen, needle, cursor, end)
    ensures turn.GoesOn? ==> && cursor < turn.next <= end && work <= 3 * (turn.next - cursor)
                             && Leftmost(frozen, needle, cursor, end) == Leftmost(frozen, needle, turn.next, end)
    ensures work <= 2 * |needle| + 2 * if cursor <= end then end - cursor else 0
    ensures turn.Fails? && world.wanted(k) && world.wantedAfter(k) ==>
              FailsAt(world, frozen, needle, k, cursor, turn.error)
    ensures turn.Fails? && world.Calm(k) ==> |needle| == 0 || |needle| > MAX_NEEDLE || cursor > end
  {
    var entry := world.store(k);
    var result;
    result, work := SearchStore(entry, world.permitFree(k), needle, cursor, end, world.weather(k));
    match result
    case Err(error) =>
      turn := Fails(error);
    case Ok(step) =>
      FrozenStep(frozen, entry.value.file.value, needle, cursor, step);
      if step.found.Some? {
        turn := Answers(step.found);
      } else if step.done {
        turn := Answers(None);
      } else {
        TurnIsPaidFor(entry.value.file.value, needle, cursor, end, step, work);
        turn := GoesOn(step.nextOffset);
      }
  }

  /**
    The user interface's loop: a range frozen at the click, resumed from `nextOffset` until a step is done.
    A reply, or an error, that arrives when another run has begun is dropped. All turns together take at
    most three matcher moves for each byte of the range, and two for each byte of the needle.
   */
  method Find(frozen: seq<byte>, needle: seq<byte>, start: nat, world: World) returns (r: Outcome, ghost work: nat)
    requires world.Extends(frozen)
    ensures r.Match? ==> start <= |frozen| && Leftmost(frozen, needle, start, |frozen|) == Some(r.at)
    ensures r.NoMatch? ==> start <= |frozen| && Leftmost(frozen, needle, start, |frozen|) == None
    ensures r.Stopped? ==> exists k: nat :: !world.wanted(k) || !world.wantedAfter(k)
    ensures r.Failed? ==> exists k: nat, cursor: nat ::
                            && start <= cursor && (k == 0 ==> cursor == start)
                            && FailsAt(world, frozen, needle, k, cursor, r.error)
    ensures (forall k: nat :: world.Calm(k)) && 0 < |needle| <= 4096 && start <= |frozen| ==>
              r.Match? || r.NoMatch?
    ensures work <= 2 * |needle| + 3 * if start <= |frozen| then |frozen| - start else 0
  {
    var cursor: nat := start;
    var turn: nat := 0;
    work := 0;
    while world.wanted(turn)
      invariant start <= cursor && (cursor == start || cursor <= |frozen|)
      invariant turn == 0 ==> cursor == start
      invariant start <= |frozen| ==>
                  Leftmost(frozen, needle, start, |frozen|) == Leftmost(frozen, needle, cursor, |frozen|)
      invariant work <= 3 * (cursor - start)
      decreases |frozen| - cursor
    {
      ghost var moves;
      var reply;
      reply, moves := TakeTurn(frozen, |frozen|, needle, cursor, world, turn);
      if !world.wantedAfter(turn) {
        assert !world.Calm(turn);
        return Stopped, work + moves;
      }
      match reply {
        case Fails(error) =>
          assert FailsAt(world, frozen, needle, turn, cursor, error);
          assert world.Calm(turn) ==> |needle| == 0 || |needle| > MAX_NEEDLE || start > |frozen|;
          return Failed(error), work + moves;
        case Answers(found) =>
          return if found.Some? then Match(found.value) else NoMatch, work + moves;
        case GoesOn(next) =>
          work := work + moves;
          cursor := next;
          turn := turn + 1;
      }
    }
    assert !world.Calm(turn);
    r := Stopped;
  }
}
