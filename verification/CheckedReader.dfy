/**
  The reader in front of the JSON parser and formatter. It validates UTF-8 and
  bracket depth read by read; what it accepts does not depend on how the reads
  split the stream.
 */
module CheckedReader {
  import opened Bytes
  import opened Utf8

  const QUOTE: byte := 34
  const BACKSLASH: byte := 92
  const MAX_DEPTH: nat := 128

  predicate Opens(b: byte) { b == 123 || b == 91 }

  predicate Closes(b: byte) { b == 125 || b == 93 }

  /** Where a byte stands: inside a string, just after a backslash there, and how many brackets are open. */
  datatype Place = Place(inString: bool, escaped: bool, depth: nat) {

    function After(b: byte): Place {
      if inString then
        if escaped then this.(escaped := false)
        else if b == BACKSLASH then this.(escaped := true)
        else if b == QUOTE then this.(inString := false)
        else this
      else if b == QUOTE then this.(inString := true)
      else if Opens(b) then this.(depth := depth + 1)
      else if Closes(b) then this.(depth := if depth == 0 then 0 else depth - 1)
      else this
    }
  }

  const START := Place(false, false, 0)

  /** The place reached after all of `s`. */
  function PlaceAfter(s: seq<byte>): Place {
    if s == [] then START else PlaceAfter(s[..|s| - 1]).After(s[|s| - 1])
  }

  lemma PlaceStep(s: seq<byte>, b: byte)
    ensures PlaceAfter(s + [b]) == PlaceAfter(s).After(b)
  {
    assert (s + [b])[..|s|] == s;
  }

  /** Nowhere in `s` are more than 128 brackets open. */
  ghost predicate Shallow(s: seq<byte>) {
    forall n: nat :: n <= |s| ==> PlaceAfter(s[..n]).depth <= 128
  }

  lemma ShallowStep(s: seq<byte>, b: byte)
    ensures Shallow(s + [b]) <==> Shallow(s) && PlaceAfter(s + [b]).depth <= MAX_DEPTH
  {
    var t := s + [b];
    assert forall n: nat :: n <= |s| ==> t[..n] == s[..n];
    assert t[..|t|] == t;
    if Shallow(t) {
      assert forall n: nat :: n <= |s| ==> PlaceAfter(t[..n]).depth <= MAX_DEPTH;
    }
  }

  lemma {:induction false} ShallowPrefix(s: seq<byte>, more: seq<byte>)
    ensures Shallow(s + more) ==> Shallow(s)
  {
    assert forall n: nat :: n <= |s| ==> (s + more)[..n] == s[..n];
  }

  /** One byte more of a read: where it leads, and what it says about the whole. */
  lemma OneByteFurther(seen: seq<byte>, bytes: seq<byte>, i: nat)
    requires i < |bytes| && Shallow(seen + bytes[..i])
    ensures var place := PlaceAfter(seen + bytes[..i]).After(bytes[i]);
            && PlaceAfter(seen + bytes[..i + 1]) == place
            && (place.depth <= MAX_DEPTH ==> Shallow(seen + bytes[..i + 1]))
            && (place.depth > MAX_DEPTH ==> !Shallow(seen + bytes))
  {
    var done := seen + bytes[..i];
    assert seen + bytes[..i + 1] == done + [bytes[i]];
    PlaceStep(done, bytes[i]);
    ShallowStep(done, bytes[i]);
    assert seen + bytes == done + [bytes[i]] + bytes[i + 1..];
    ShallowPrefix(done + [bytes[i]], bytes[i + 1..]);
  }

  datatype ReadError = LayoutCancelled | FileFailed | NotUtf8 | TooDeep

  class Reader {
    var depth: nat
    var inString: bool
    var escaped: bool
    var utf8Tail: seq<byte>
    /** Every byte handed out so far. */
    ghost var seen: seq<byte>

    /** The fields are what the bytes seen so far determine, and nothing was wrong with them. */
    ghost predicate Valid()
      reads this
    {
      && Place(inString, escaped, depth) == PlaceAfter(seen)
      && Shallow(seen)
      && Repairable(seen) && utf8Tail == Tail(seen)
    }

    constructor ()
      ensures Valid() && seen == []
    {
      depth, inString, escaped, utf8Tail, seen := 0, false, false, [], [];
    }

    /** The UTF-8 half of a read: keep a character cut off by the read, unless nothing more will come. */
    method TakeUtf8(bytes: seq<byte>) returns (fine: bool)
      requires Repairable(seen) && utf8Tail == Tail(seen)
      modifies this`utf8Tail
      ensures fine <==> Repairable(seen + bytes) && (bytes == [] ==> Tail(seen) == [])
      ensures fine ==> utf8Tail == Tail(seen + bytes)
      ensures |utf8Tail| <= 3
    {
      var utf8 := utf8Tail + bytes;
      ResumeFromTail(seen, bytes);
      assert bytes == [] ==> seen + bytes == seen && utf8 == Tail(seen);
      utf8Tail := [];
      var verdict := FromUtf8(utf8);
      if verdict.Invalid? {
        if verdict.errorLength.Some? || |bytes| == 0 {
          return false;
        }
        utf8Tail := utf8[verdict.validUpTo..];
      }
      fine := true;
    }

    /** Where one byte leads. */
    method Advance(byte: byte)
      modifies this`depth, this`inString, this`escaped
      ensures Place(inString, escaped, depth) == old(Place(inString, escaped, depth)).After(byte)
    {
      if inString {
        if escaped {
          escaped := false;
        } else if byte == BACKSLASH {
          escaped := true;
        } else if byte == QUOTE {
          inString := false;
        }
      } else if byte == QUOTE {
        inString := true;
      } else if Opens(byte) {
        depth := depth + 1;
      } else if Closes(byte) {
        depth := if depth == 0 then 0 else depth - 1;
      }
    }

    /** The bracket half of a read; it stops at the first byte that opens too many. */
    method TakePlaces(bytes: seq<byte>) returns (shallow: bool)
      requires Place(inString, escaped, depth) == PlaceAfter(seen) && Shallow(seen)
      modifies this`depth, this`inString, this`escaped
      ensures shallow <==> Shallow(seen + bytes)
      ensures shallow ==> Place(inString, escaped, depth) == PlaceAfter(seen + bytes)
    {
      assert seen + bytes[..0] == seen;
      for i := 0 to |bytes|
        invariant Place(inString, escaped, depth) == PlaceAfter(seen + bytes[..i])
        invariant Shallow(seen + bytes[..i])
      {
        OneByteFurther(seen, bytes, i);
        Advance(bytes[i]);
        if depth > MAX_DEPTH {
          return false;
        }
      }
      assert bytes[..|bytes|] == bytes;
      shallow := true;
    }

    /** One read: `got` is what the file delivered, nothing at its end. */
    method Read(got: Result<seq<byte>, ()>, cancelled: bool) returns (r: Result<nat, ReadError>)
      requires Valid()
      modifies this
      ensures r.Ok? ==> Valid() && got.Ok? && seen == old(seen) + got.value && r.value == |got.value|
      ensures |utf8Tail| <= 3
      ensures r.Ok? <==> !cancelled && got.Ok? && Utf8Fits(old(seen), got.value) && Shallow(old(seen) + got.value)
      ensures r.Err? ==> r.error == if cancelled then LayoutCancelled
                                    else if got.Err? then FileFailed
                                    else if !Utf8Fits(old(seen), got.value) then NotUtf8
                                    else TooDeep
    {
      if cancelled {
        return Err(LayoutCancelled);
      }
      if got.Err? {
        return Err(FileFailed);
      }
      var fine := TakeUtf8(got.value);
      if !fine {
        return Err(NotUtf8);
      }
      var shallow := TakePlaces(got.value);
      if !shallow {
        return Err(TooDeep);
      }
      seen := seen + got.value;
      r := Ok(|got.value|);
    }
  }

  /** The bytes may follow what was seen: nothing beyond repair, and no character cut off at the end of the file. */
  predicate Utf8Fits(seen: seq<byte>, bytes: seq<byte>)
    requires Repairable(seen)
  {
    Repairable(seen + bytes) && (bytes == [] ==> Tail(seen) == [])
  }

  function Concat(chunks: seq<seq<byte>>): seq<byte> {
    if chunks == [] then [] else Concat(chunks[..|chunks| - 1]) + chunks[|chunks| - 1]
  }

  lemma ConcatStep(chunks: seq<seq<byte>>, n: nat)
    requires n < |chunks|
    ensures Concat(chunks[..n + 1]) == Concat(chunks[..n]) + chunks[n]
  {
    assert chunks[..n + 1][..n] == chunks[..n];
  }

  lemma {:induction false} ConcatContinues(chunks: seq<seq<byte>>, n: nat)
    requires n <= |chunks|
    ensures exists rest :: Concat(chunks) == Concat(chunks[..n]) + rest
    decreases |chunks| - n
  {
    if n == |chunks| {
      assert chunks[..n] == chunks;
      assert Concat(chunks) == Concat(chunks[..n]) + [];
    } else {
      ConcatContinues(chunks, n + 1);
      var rest :| Concat(chunks) == Concat(chunks[..n + 1]) + rest;
      ConcatStep(chunks, n);
      assert Concat(chunks) == Concat(chunks[..n]) + (chunks[n] + rest);
    }
  }

  lemma RejectionIsFinal(chunks: seq<seq<byte>>, n: nat)
    requires n <= |chunks|
    requires !Repairable(Concat(chunks[..n])) || !Shallow(Concat(chunks[..n]))
    ensures !(WellFormed(Concat(chunks)) && Shallow(Concat(chunks)))
  {
    ConcatContinues(chunks, n);
    var rest :| Concat(chunks) == Concat(chunks[..n]) + rest;
    ResumeFromTail(Concat(chunks[..n]), rest);
    ShallowPrefix(Concat(chunks[..n]), rest);
    ValidatorIsExact(Concat(chunks));
  }

  /** Nothing outside interferes with the first `n` reads. */
  ghost predicate FairReads(cancelled: nat -> bool, fails: nat -> bool, n: nat) {
    forall k: nat :: k < n ==> !cancelled(k) && !fails(k)
  }

  /** One more read, which is fine only if nothing interferes with it. */
  lemma FairStep(cancelled: nat -> bool, fails: nat -> bool, n: nat)
    ensures FairReads(cancelled, fails, n + 1) <==> FairReads(cancelled, fails, n) && !cancelled(n) && !fails(n)
  {
  }

  /** What a read delivers, unless the file fails. */
  function Delivered(bytes: seq<byte>, fails: bool): Result<seq<byte>, ()> {
    if fails then Err(()) else Ok(bytes)
  }

  /**
    Reading a whole file in any chunks, none of them empty before the end, and then asking `ends` more
    times; `cancelled` and `fails` say what happens to each read. It succeeds exactly when the bytes are
    well-formed UTF-8, are nowhere nested too deeply, and no read was cancelled or failed.
   */
  method ReadToEnd(chunks: seq<seq<byte>>, ends: nat, cancelled: nat -> bool, fails: nat -> bool)
    returns (accepted: bool)
    requires forall c :: c in chunks ==> c != []
    requires ends > 0
    ensures accepted <==> && WellFormed(Concat(chunks)) && Shallow(Concat(chunks))
                          && FairReads(cancelled, fails, |chunks| + ends)
  {
    var reader := new Reader();
    for i := 0 to |chunks|
      invariant reader.Valid() && reader.seen == Concat(chunks[..i])
      invariant FairReads(cancelled, fails, i)
    {
      ConcatStep(chunks, i);
      assert chunks[i] in chunks;
      FairStep(cancelled, fails, i);
      var r := reader.Read(Delivered(chunks[i], fails(i)), cancelled(i));
      if r.Err? {
        if !cancelled(i) && !fails(i) {
          RejectionIsFinal(chunks, i + 1);
        }
        return false;
      }
    }
    assert chunks[..|chunks|] == chunks;
    assert Concat(chunks) + [] == Concat(chunks);
    ValidatorIsExact(Concat(chunks));
    for i := |chunks| to |chunks| + ends
      invariant reader.Valid() && reader.seen == Concat(chunks)
      invariant FairReads(cancelled, fails, i)
      invariant i > |chunks| ==> Tail(Concat(chunks)) == []
    {
      FairStep(cancelled, fails, i);
      var r := reader.Read(Delivered([], fails(i)), cancelled(i));
      if r.Err? {
        return false;
      }
    }
    accepted := true;
  }
}
