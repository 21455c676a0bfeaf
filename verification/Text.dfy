/** Trimming, shared by host rules and redaction paths. */
module Text {

  function TrimStart(text: string, drop: char -> bool): string {
    if text != "" && drop(text[0]) then TrimStart(text[1..], drop) else text
  }

  function TrimEnd(text: string, drop: char -> bool): string {
    if text != "" && drop(text[|text| - 1]) then TrimEnd(text[..|text| - 1], drop) else text
  }

  function Trim(text: string, drop: char -> bool): string {
    TrimEnd(TrimStart(text, drop), drop)
  }

  /** Every character is one to drop. */
  ghost predicate Dropped(text: string, drop: char -> bool) {
    forall c :: c in text ==> drop(c)
  }

  /** Nothing to drop at either end. */
  predicate Trimmed(text: string, drop: char -> bool) {
    text == "" || (!drop(text[0]) && !drop(text[|text| - 1]))
  }

  lemma {:induction false} TrimStartDrops(lead: string, rest: string, drop: char -> bool)
    requires Dropped(lead, drop) && (rest == "" || !drop(rest[0]))
    ensures TrimStart(lead + rest, drop) == rest
    decreases |lead|
  {
    if lead == "" {
      assert lead + rest == rest;
    } else {
      assert lead[0] in lead;
      TrimStartDrops(lead[1..], rest, drop);
      assert (lead + rest)[1..] == lead[1..] + rest;
    }
  }

  lemma {:induction false} TrimEndDrops(rest: string, tail: string, drop: char -> bool)
    requires Dropped(tail, drop) && (rest == "" || !drop(rest[|rest| - 1]))
    ensures TrimEnd(rest + tail, drop) == rest
    decreases |tail|
  {
    if tail == "" {
      assert rest + tail == rest;
    } else {
      var front := tail[..|tail| - 1];
      assert tail[|tail| - 1] in tail;
      TrimEndDrops(rest, front, drop);
      assert (rest + tail)[..|rest + tail| - 1] == rest + front;
    }
  }

  /** What stands between the dropped characters, and only that, is left. */
  lemma TrimDrops(lead: string, core: string, tail: string, drop: char -> bool)
    requires Dropped(lead, drop) && Dropped(tail, drop) && Trimmed(core, drop)
    ensures Trim(lead + core + tail, drop) == core
  {
    if core == "" {
      assert lead + core + tail == (lead + tail) + "";
      TrimStartDrops(lead + tail, "", drop);
    } else {
      assert lead + core + tail == lead + (core + tail);
      TrimStartDrops(lead, core + tail, drop);
      TrimEndDrops(core, tail, drop);
    }
  }

  lemma OneInFront(c: char, text: string, lead: string, rest: string)
    requires text == lead + rest
    ensures [c] + text == [c] + lead + rest
  {
  }

  lemma OneBehind(c: char, text: string, rest: string, tail: string)
    requires text == rest + tail
    ensures text + [c] == rest + (tail + [c])
  {
  }

  lemma {:induction false} TrimStartSplits(text: string, drop: char -> bool) returns (lead: string)
    ensures text == lead + TrimStart(text, drop) && Dropped(lead, drop)
    ensures var rest := TrimStart(text, drop); rest == "" || !drop(rest[0])
    decreases |text|
  {
    if text != "" && drop(text[0]) {
      var more := TrimStartSplits(text[1..], drop);
      OneInFront(text[0], text[1..], more, TrimStart(text[1..], drop));
      assert text == [text[0]] + text[1..];
      lead := [text[0]] + more;
    } else {
      lead := "";
      assert text == "" + text;
    }
  }

  lemma {:induction false} TrimEndSplits(text: string, drop: char -> bool) returns (tail: string)
    ensures text == TrimEnd(text, drop) + tail && Dropped(tail, drop)
    ensures var rest := TrimEnd(text, drop); rest == "" || !drop(rest[|rest| - 1])
    decreases |text|
  {
    if text != "" && drop(text[|text| - 1]) {
      var front, last := text[..|text| - 1], text[|text| - 1];
      var more := TrimEndSplits(front, drop);
      OneBehind(last, front, TrimEnd(front, drop), more);
      assert text == front + [last];
      tail := more + [last];
    } else {
      tail := "";
      assert text == text + "";
    }
  }

  /** Trimming leaves exactly the core: all that is cut off is to be dropped, and nothing at the ends of the rest is. */
  lemma TrimIsExact(text: string, core: string, drop: char -> bool)
    ensures Trim(text, drop) == core
       <==> Trimmed(core, drop)
            && exists lead, tail :: text == lead + core + tail && Dropped(lead, drop) && Dropped(tail, drop)
  {
    if lead, tail :| text == lead + core + tail && Dropped(lead, drop) && Dropped(tail, drop) {
      if Trimmed(core, drop) {
        TrimDrops(lead, core, tail, drop);
      }
    }
    var lead := TrimStartSplits(text, drop);
    var tail := TrimEndSplits(TrimStart(text, drop), drop);
    if Trim(text, drop) == core {
      assert text == lead + core + tail;
      assert core != "" ==> core[0] == TrimStart(text, drop)[0];
    }
  }
}
