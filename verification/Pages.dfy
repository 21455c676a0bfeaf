/** Reading a recorded body page by page: one page, the walk with "next", and where "last" leads. */
module Pages {
  import opened Bytes

  datatype PageError = BadLength | BeyondEnd | Gone

  datatype Page = Page(offset: nat, total: nat, bytes: seq<byte>)

  /** One page of a body whose file holds at least the published `total` bytes. */
  function ReadPage(file: Option<seq<byte>>, total: nat, offset: nat, length: nat): Result<Page, PageError>
    requires file.Some? ==> total <= |file.value|
  {
    if length == 0 || length > PAGE_SIZE then Err(BadLength)
    else if offset > total then Err(BeyondEnd)
    else if file.None? then Err(Gone)
    else Ok(Page(offset, total, file.value[offset..offset + Min(length, total - offset)]))
  }

  /**
    A page is refused for its length first, then for lying beyond the end, then for a removed file. Otherwise it
    shows the recorded bytes from its offset on, as many as were asked for unless the body ends before.
   */
  lemma PageIsExact(file: Option<seq<byte>>, total: nat, offset: nat, length: nat)
    requires file.Some? ==> total <= |file.value|
    ensures var page := ReadPage(file, total, offset, length);
            && (page == Err(BadLength) <==> !(1 <= length <= 64 * 1024))
            && (page == Err(BeyondEnd) <==> 1 <= length <= 64 * 1024 && total < offset)
            && (page == Err(Gone) <==> 1 <= length <= 64 * 1024 && offset <= total && file.None?)
            && (page.Ok? ==>
                  && page.value.offset == offset && page.value.total == total
                  && page.value.bytes <= file.value[offset..total] && |page.value.bytes| <= length
                  && (|page.value.bytes| < length ==> page.value.bytes == file.value[offset..total]))
  {
  }

  /** All the bytes shown by pressing "next" from `offset` until it is disabled, and the offset it stops at. */
  function Walk(file: seq<byte>, total: nat, offset: nat): (seq<byte>, nat)
    requires offset <= total <= |file|
    decreases total - offset
  {
    var bytes := ReadPage(Some(file), total, offset, PAGE_SIZE).value.bytes;
    if offset + PAGE_SIZE >= total then (bytes, offset)
    else
      var (rest, end) := Walk(file, total, offset + PAGE_SIZE);
      (bytes + rest, end)
  }

  /** The offset the "last" button goes to. */
  function LastOffset(total: nat): nat {
    if total == 0 then 0 else (total - 1) / PAGE_SIZE * PAGE_SIZE
  }

  /** From any offset, aligned or not, the pages tile the rest of the body exactly. */
  lemma {:induction false} PagesTile(file: seq<byte>, total: nat, offset: nat)
    requires offset <= total <= |file|
    ensures Walk(file, total, offset).0 == file[offset..total]
    decreases total - offset
  {
    if offset + PAGE_SIZE < total {
      PagesTile(file, total, offset + PAGE_SIZE);
      assert file[offset..total] == file[offset..offset + PAGE_SIZE] + file[offset + PAGE_SIZE..total];
    }
  }

  /** "Next" keeps the distance to a page boundary and stops within a page of the end. */
  lemma {:induction false} WalkStops(file: seq<byte>, total: nat, offset: nat)
    requires offset <= total <= |file|
    ensures var end := Walk(file, total, offset).1;
            && offset <= end <= total <= end + PAGE_SIZE && end % PAGE_SIZE == offset % PAGE_SIZE
            && (offset < total ==> end < total)
    decreases total - offset
  {
    if offset + PAGE_SIZE < total {
      WalkStops(file, total, offset + PAGE_SIZE);
    }
  }

  lemma LastOffsetIs(total: nat)
    ensures LastOffset(total) % PAGE_SIZE == 0 && LastOffset(total) <= total <= LastOffset(total) + PAGE_SIZE
    ensures 0 < total ==> LastOffset(total) < total
  {
    if total != 0 {
      var k := (total - 1) / PAGE_SIZE;
      assert LastOffset(total) == PAGE_SIZE * k;
    }
  }

  /** Two boundaries within a page of each other and before the end are the same. */
  lemma SameBoundary(a: nat, b: nat)
    requires a % PAGE_SIZE == b % PAGE_SIZE && a < b + PAGE_SIZE && b < a + PAGE_SIZE
    ensures a == b
  {
    assert a == PAGE_SIZE * (a / PAGE_SIZE) + a % PAGE_SIZE;
    assert b == PAGE_SIZE * (b / PAGE_SIZE) + b % PAGE_SIZE;
  }

  /** "Next" ends where "last" leads exactly when it began at a page boundary before the end, or there is nothing. */
  lemma NextEndsAtLast(file: seq<byte>, total: nat, offset: nat)
    requires offset <= total <= |file|
    ensures Walk(file, total, offset).1 == LastOffset(total)
       <==> offset % PAGE_SIZE == 0 && (offset < total || total == 0)
  {
    WalkStops(file, total, offset);
    LastOffsetIs(total);
    if offset % PAGE_SIZE == 0 && offset < total {
      SameBoundary(Walk(file, total, offset).1, LastOffset(total));
    }
  }
}
