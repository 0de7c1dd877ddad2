/**
 Paged reads of a board (agentboard/inmemory.go, agentboard/local.go): opaque cursors,
 effective limits and the one-item lookahead; and the bounded slices of one post.
 The results hold for any limits, so also for those shrunk by a budgeted retry.
 */
module Paging {
  import opened Common

  const DEFAULT_PAGE_LIMIT: int := 20
  const MAX_PAGE_LIMIT: int := 50
  const MAX_READ_POST_CHARS: int := 20000
  const CURSOR_OFFSETS: int := 0x1_0000_0000

  datatype PageError = InvalidCursor | CursorOverflow

  datatype PageRequest = PageRequest(cursor: Option<string>, limit: int)

  datatype Page<+T> = Page(results: seq<T>, nextCursor: Option<string>)

  // Cursors: four big-endian bytes in unpadded base64url (section 5 of RFC 4648).

  function Symbol(v: nat): char
    requires v < 64
  {
    if v < 26 then ('A' as int + v) as char
    else if v < 52 then ('a' as int + (v - 26)) as char
    else if v < 62 then ('0' as int + (v - 52)) as char
    else if v == 62 then '-' else '_'
  }

  function SymbolValue(c: char): Option<nat> {
    if 'A' <= c <= 'Z' then Some(c as int - 'A' as int)
    else if 'a' <= c <= 'z' then Some(c as int - 'a' as int + 26)
    else if '0' <= c <= '9' then Some(c as int - '0' as int + 52)
    else if c == '-' then Some(62) else if c == '_' then Some(63)
    else None
  }

  function ToBytes(offset: nat): seq<nat>
    requires offset < CURSOR_OFFSETS
  {
    [offset / 0x1000000, offset / 0x10000 % 256, offset / 256 % 256, offset % 256]
  }

  function FromBytes(b: seq<nat>): nat
    requires |b| == 4
  {
    b[0] * 0x1000000 + b[1] * 0x10000 + b[2] * 256 + b[3]
  }

  /** Four bytes as six 6-bit groups, the last padded with zero bits. */
  function ToSextets(b: seq<nat>): (v: seq<nat>)
    requires |b| == 4 && forall i :: 0 <= i < 4 ==> b[i] < 256
    ensures |v| == 6 && forall i :: 0 <= i < 6 ==> v[i] < 64
  {
    [b[0] / 4, b[0] % 4 * 16 + b[1] / 16, b[1] % 16 * 4 + b[2] / 64, b[2] % 64, b[3] / 4, b[3] % 4 * 16]
  }

  /** The library decoder drops the padding bits of the last group without checking them. */
  function FromSextets(v: seq<nat>): (b: seq<nat>)
    requires |v| == 6 && forall i :: 0 <= i < 6 ==> v[i] < 64
    ensures |b| == 4 && forall i :: 0 <= i < 4 ==> b[i] < 256
  {
    [v[0] * 4 + v[1] / 16, v[1] % 16 * 16 + v[2] / 4, v[2] % 4 * 64 + v[3], v[4] * 4 + v[5] / 16]
  }

  function EncodeCursor(offset: nat): (cursor: string)
    requires offset < CURSOR_OFFSETS
    ensures |cursor| == 6
  {
    var v := ToSextets(ToBytes(offset));
    seq(6, i requires 0 <= i < 6 => Symbol(v[i]))
  }

  /** The library decoder skips line breaks. */
  function DropLineBreaks(s: string): string {
    if s == [] then []
    else if s[0] == '\r' || s[0] == '\n' then DropLineBreaks(s[1..])
    else [s[0]] + DropLineBreaks(s[1..])
  }

  function DecodeCursor(cursor: Option<string>): (r: Result<nat, PageError>)
    ensures r.Ok? ==> r.value < CURSOR_OFFSETS
  {
    if cursor.None? then Ok(0)
    else
      var s := DropLineBreaks(TrimSpace(cursor.value));
      if |s| == 6 && forall i :: 0 <= i < 6 ==> SymbolValue(s[i]).Some? then
        Ok(FromBytes(FromSextets(seq(6, i requires 0 <= i < 6 => SymbolValue(s[i]).value))))
      else Err(InvalidCursor)
  }

  lemma SymbolRoundTrip(v: nat)
    requires v < 64
    ensures SymbolValue(Symbol(v)) == Some(v) && !IsSpace(Symbol(v))
  {
  }

  lemma BytesRoundTrip(offset: nat)
    requires offset < CURSOR_OFFSETS
    ensures FromBytes(ToBytes(offset)) == offset && forall i :: 0 <= i < 4 ==> ToBytes(offset)[i] < 256
  {
  }

  lemma SextetsRoundTrip(b: seq<nat>)
    requires |b| == 4 && forall i :: 0 <= i < 4 ==> b[i] < 256
    ensures FromSextets(ToSextets(b)) == b
  {
  }

  lemma {:induction false} NothingToDrop(s: string)
    requires forall i :: 0 <= i < |s| ==> !IsSpace(s[i])
    ensures DropLineBreaks(s) == s
  {
    if s != [] {
      NothingToDrop(s[1..]);
    }
  }

  /** Every offset below 2^32 survives the trip through its cursor. */
  lemma CursorRoundTrip(offset: nat)
    requires offset < CURSOR_OFFSETS
    ensures DecodeCursor(Some(EncodeCursor(offset))) == Ok(offset)
  {
    var v, s := ToSextets(ToBytes(offset)), EncodeCursor(offset);
    forall i | 0 <= i < 6 ensures SymbolValue(s[i]) == Some(v[i]) && !IsSpace(s[i]) {
      SymbolRoundTrip(v[i]);
    }
    NothingToDrop(s);
    assert TrimSpace(s) == s;
    assert seq(6, i requires 0 <= i < 6 => SymbolValue(s[i]).value) == v;
    SextetsRoundTrip(ToBytes(offset));
    BytesRoundTrip(offset);
  }

  /** The alphabet of section 5 of RFC 4648: letters, digits, minus and underscore, each run in order. */
  lemma Alphabet(v: nat)
    requires v < 63
    ensures Symbol(0) == 'A' && Symbol(25) == 'Z' && Symbol(26) == 'a' && Symbol(51) == 'z'
    ensures Symbol(52) == '0' && Symbol(61) == '9' && Symbol(62) == '-' && Symbol(63) == '_'
    ensures v !in {25, 51, 61, 62} ==> Symbol(v + 1) as int == Symbol(v) as int + 1
  {
  }

  lemma ValueOfSymbol(c: char, v: nat)
    ensures SymbolValue(c) == Some(v) <==> v < 64 && c == Symbol(v)
  {
    if v < 64 { SymbolRoundTrip(v); }
  }

  /** Six digits to base 64 in this alphabet. */
  predicate IsDigits(s: string, d: seq<nat>) {
    |s| == 6 && |d| == 6 && forall i :: 0 <= i < 6 ==> d[i] < 64 && s[i] == Symbol(d[i])
  }

  function Number(d: seq<nat>): nat
    requires |d| == 6
  {
    ((((d[0] * 64 + d[1]) * 64 + d[2]) * 64 + d[3]) * 64 + d[4]) * 64 + d[5]
  }

  /** A cursor is the offset followed by four zero bits, written in six digits. */
  lemma CursorDigits(offset: nat)
    requires offset < CURSOR_OFFSETS
    ensures exists d :: IsDigits(EncodeCursor(offset), d) && Number(d) == 16 * offset
  {
    var b := ToBytes(offset);
    var v := ToSextets(b);
    assert IsDigits(EncodeCursor(offset), v);
    BytesRoundTrip(offset);
    assert Number(v) == 16 * FromBytes(b);
  }

  /** A string decodes iff six digits of the alphabet are left of it, to their number without the last four bits. */
  lemma DecodesDigits(cursor: string, n: nat)
    ensures DecodeCursor(Some(cursor)) == Ok(n) <==>
      exists d :: IsDigits(DropLineBreaks(TrimSpace(cursor)), d) && n == Number(d) / 16
  {
    hide SymbolValue, Symbol, FromBytes, FromSextets, Number, DropLineBreaks;
    var s := DropLineBreaks(TrimSpace(cursor));
    if |s| == 6 && forall i :: 0 <= i < 6 ==> SymbolValue(s[i]).Some? {
      var v := seq(6, i requires 0 <= i < 6 => SymbolValue(s[i]).value);
      forall i | 0 <= i < 6 ensures v[i] < 64 && s[i] == Symbol(v[i]) { ValueOfSymbol(s[i], v[i]); }
      SextetsNumber(v);
      assert IsDigits(s, v);
      forall d | IsDigits(s, d) ensures d == v {
        forall i | 0 <= i < 6 ensures d[i] == v[i] { ValueOfSymbol(s[i], d[i]); }
      }
    } else if d :| IsDigits(s, d) {
      forall i | 0 <= i < 6 ensures SymbolValue(s[i]).Some? { ValueOfSymbol(s[i], d[i]); }
    }
  }

  lemma SextetsNumber(v: seq<nat>)
    requires |v| == 6 && forall i :: 0 <= i < 6 ==> v[i] < 64
    ensures FromBytes(FromSextets(v)) == Number(v) / 16
  {
  }

  // Pages

  /** `NormalizedLimit` and the hard cap. */
  function EffectiveLimit(limit: int): (n: nat)
    ensures 1 <= n <= MAX_PAGE_LIMIT
    ensures 1 <= limit <= MAX_PAGE_LIMIT ==> n == limit
  {
    if limit <= 0 then DEFAULT_PAGE_LIMIT else Min(limit, MAX_PAGE_LIMIT)
  }

  /** `finishBoardPage`: `rows` starts at `offset`; one row past the limit means there is more. */
  function FinishPage<T>(offset: nat, limit: nat, rows: seq<T>): Result<Page<T>, PageError> {
    if |rows| > limit then
      var next := offset + limit;
      if next >= CURSOR_OFFSETS then Err(CursorOverflow)
      else Ok(Page(rows[..limit], Some(EncodeCursor(next))))
    else Ok(Page(rows, None))
  }

  /** `pageItems`: the page of a listing held in memory. */
  function PageItems<T>(request: PageRequest, items: seq<T>): Result<Page<T>, PageError> {
    var decoded := DecodeCursor(request.cursor);
    if decoded.Err? then Err(decoded.error)
    else
      var offset := Min(decoded.value, |items|);
      FinishPage(offset, EffectiveLimit(request.limit), items[offset..])
  }

  /** LIMIT and OFFSET of a query. */
  function Window<T>(items: seq<T>, offset: nat, limit: nat): seq<T> {
    if offset >= |items| then [] else items[offset..Min(offset + limit, |items|)]
  }

  /** The page of a query: the rows fetched with one row of lookahead. */
  function QueryPage<T>(request: PageRequest, items: seq<T>): Result<Page<T>, PageError> {
    var decoded := DecodeCursor(request.cursor);
    if decoded.Err? then Err(decoded.error)
    else
      var limit := EffectiveLimit(request.limit);
      FinishPage(decoded.value, limit, Window(items, decoded.value, limit + 1))
  }

  /** Both backends cut the same page out of the same listing, errors included. */
  lemma QueryPageIsPageItems<T>(request: PageRequest, items: seq<T>)
    ensures QueryPage(request, items) == PageItems(request, items)
  {
    var decoded := DecodeCursor(request.cursor);
    if decoded.Ok? {
      SamePage(items, decoded.value, EffectiveLimit(request.limit));
    }
  }

  /**
   The page of a request, written out: from the offset of its cursor as many items as the
   limit says (20 by default, at most 50) or as are left, and the cursor of the next item
   if there is one.
   */
  lemma PageExact<T>(request: PageRequest, items: seq<T>)
    ensures var page, decoded := PageItems(request, items), DecodeCursor(request.cursor);
      var limit := if request.limit <= 0 then 20 else if request.limit > 50 then 50 else request.limit;
      if decoded.Err? then page == Err(InvalidCursor)
      else
        var start := if decoded.value < |items| then decoded.value else |items|;
        var end := if start + limit < |items| then start + limit else |items|;
        if end < |items| && end >= 0x1_0000_0000 then page == Err(CursorOverflow)
        else
          && page.Ok? && page.value.results == items[start..end]
          && (page.value.nextCursor == None <==> end == |items|)
          && (end < |items| ==> DecodeCursor(page.value.nextCursor) == Ok(end))
  {
    hide DecodeCursor, EncodeCursor;
    CursorFaults(request.cursor);
    var decoded := DecodeCursor(request.cursor);
    if decoded.Ok? {
      var end := Min(decoded.value, |items|) + EffectiveLimit(request.limit);
      if end < |items| && end < CURSOR_OFFSETS { CursorRoundTrip(end); }
    }
  }

  lemma CursorFaults(cursor: Option<string>)
    ensures DecodeCursor(cursor).Err? ==> DecodeCursor(cursor).error == InvalidCursor
  {
  }

  lemma SamePage<T>(items: seq<T>, offset: nat, limit: nat)
    ensures FinishPage(offset, limit, Window(items, offset, limit + 1))
      == FinishPage(Min(offset, |items|), limit, items[Min(offset, |items|)..])
  {
    if offset < |items| {
      var rows, window := items[offset..], Window(items, offset, limit + 1);
      if |rows| > limit {
        assert rows[..limit] == window[..limit];
      } else {
        assert rows == window;
      }
    }
  }

  // Following cursors

  /** A page read at a cursor with some limit. */
  ghost predicate PageAt<T>(items: seq<T>, cursor: Option<string>, page: Page<T>) {
    exists limit: int :: PageItems(PageRequest(cursor, limit), items) == Ok(page)
  }

  /** Pages read one after the other, each at the cursor of the one before. */
  ghost predicate Reading<T>(items: seq<T>, pages: seq<Page<T>>)
    decreases |pages|
  {
    if |pages| <= 1 then pages != [] && PageAt(items, None, pages[0])
    else
      var front := pages[..|pages| - 1];
      var cursor := front[|front| - 1].nextCursor;
      Reading(items, front) && cursor.Some? && PageAt(items, cursor, pages[|pages| - 1])
  }

  function AllResults<T>(pages: seq<Page<T>>): seq<T> {
    if pages == [] then [] else AllResults(pages[..|pages| - 1]) + pages[|pages| - 1].results
  }

  lemma NoCursorIsStart()
    ensures DecodeCursor(None) == Ok(0)
  {
  }

  /** A listing has been read up to position `n`, where this cursor continues. */
  ghost predicate ReadTo<T>(items: seq<T>, n: nat, cursor: Option<string>) {
    && n <= |items| && (cursor == None <==> n == |items|)
    && (cursor.Some? ==> DecodeCursor(cursor) == Ok(n))
  }

  lemma FinishPageShape<T>(items: seq<T>, offset: nat, limit: nat, page: Page<T>)
    requires |items| <= CURSOR_OFFSETS && offset <= |items| && limit >= 1
    requires FinishPage(offset, limit, items[offset..]) == Ok(page)
    ensures offset + |page.results| <= |items| && page.results == items[offset..offset + |page.results|]
    ensures ReadTo(items, offset + |page.results|, page.nextCursor)
    ensures page.nextCursor.Some? ==> |page.results| > 0
  {
    hide DecodeCursor, EncodeCursor;
    if |items| - offset > limit {
      CursorRoundTrip(offset + limit);
    }
  }

  lemma PageAdvances<T>(items: seq<T>, cursor: Option<string>, offset: nat, page: Page<T>)
    requires |items| <= CURSOR_OFFSETS && offset <= |items|
    requires DecodeCursor(cursor) == Ok(offset) && PageAt(items, cursor, page)
    ensures offset + |page.results| <= |items| && page.results == items[offset..offset + |page.results|]
    ensures ReadTo(items, offset + |page.results|, page.nextCursor)
    ensures page.nextCursor.Some? ==> |page.results| > 0
  {
    var limit: int :| PageItems(PageRequest(cursor, limit), items) == Ok(page);
    FinishPageShape(items, offset, EffectiveLimit(limit), page);
  }

  /**
   Following cursors from the start, with any limits, reads a prefix of the listing with
   nothing skipped or repeated; the last page has no cursor iff everything was read.
   */
  lemma {:induction false} ReadingIsExact<T>(items: seq<T>, pages: seq<Page<T>>)
    requires |items| <= CURSOR_OFFSETS && Reading(items, pages)
    ensures |AllResults(pages)| <= |items| && AllResults(pages) == items[..|AllResults(pages)|]
    ensures ReadTo(items, |AllResults(pages)|, pages[|pages| - 1].nextCursor)
    ensures |pages| <= |AllResults(pages)| + 1
    ensures pages[|pages| - 1].nextCursor.Some? ==> |pages| <= |AllResults(pages)|
    decreases |pages|
  {
    hide DecodeCursor, PageAt;
    NoCursorIsStart();
    var last, front := pages[|pages| - 1], pages[..|pages| - 1];
    if front == [] {
      PageAdvances(items, None, 0, last);
      assert AllResults(pages) == last.results;
    } else {
      ReadingIsExact(items, front);
      PageAdvances(items, front[|front| - 1].nextCursor, |AllResults(front)|, last);
      SlicesJoin(items, AllResults(front), last.results);
    }
  }

  lemma SlicesJoin<T>(items: seq<T>, a: seq<T>, b: seq<T>)
    requires |a| + |b| <= |items| && a == items[..|a|] && b == items[|a|..|a| + |b|]
    ensures a + b == items[..|a + b|]
  {
  }

  /** A reading can start with any limit. */
  lemma ReadingStarts<T>(items: seq<T>, limit: int)
    requires |items| <= CURSOR_OFFSETS
    ensures var first := PageItems(PageRequest(None, limit), items); first.Ok? && Reading(items, [first.value])
  {
    NoCursorIsStart();
    PageExists(items, None, 0, limit);
  }

  /** A further page can be read at any cursor, for any limit, so every listing is read to its end. */
  lemma ReadingContinues<T>(items: seq<T>, pages: seq<Page<T>>, limit: int)
    requires |items| <= CURSOR_OFFSETS && pages != [] && Reading(items, pages)
    requires pages[|pages| - 1].nextCursor.Some?
    ensures var next := PageItems(PageRequest(pages[|pages| - 1].nextCursor, limit), items);
      next.Ok? && Reading(items, pages + [next.value])
  {
    hide DecodeCursor, PageItems, PageAt, AllResults, Reading;
    var cursor := pages[|pages| - 1].nextCursor;
    ReadingIsExact(items, pages);
    PageExists(items, cursor, |AllResults(pages)|, limit);
    ReadingExtends(items, pages, PageItems(PageRequest(cursor, limit), items).value);
  }

  lemma ReadingExtends<T>(items: seq<T>, pages: seq<Page<T>>, page: Page<T>)
    requires pages != [] && Reading(items, pages) && pages[|pages| - 1].nextCursor.Some?
    requires PageAt(items, pages[|pages| - 1].nextCursor, page)
    ensures Reading(items, pages + [page])
  {
    hide PageAt;
    assert (pages + [page])[..|pages|] == pages;
  }

  lemma PageExists<T>(items: seq<T>, cursor: Option<string>, offset: nat, limit: int)
    requires |items| <= CURSOR_OFFSETS && offset <= |items| && DecodeCursor(cursor) == Ok(offset)
    ensures var page := PageItems(PageRequest(cursor, limit), items); page.Ok? && PageAt(items, cursor, page.value)
  {
    hide DecodeCursor, EncodeCursor;
  }

  // Slices of one post

  datatype Slice = Slice(text: string, nChars: nat, nextOffset: nat)

  /** `ReadPost`: characters are counted, out-of-range requests are clamped. */
  function ReadSlice(text: string, offsetChars: int, limitChars: int): Slice {
    var offset := if offsetChars > |text| then |text| else if offsetChars < 0 then 0 else offsetChars;
    var limit := if limitChars <= 0 || limitChars > MAX_READ_POST_CHARS then MAX_READ_POST_CHARS else limitChars;
    var end := Min(offset + limit, |text|);
    Slice(text[offset..end], |text|, offset + |text[offset..end]|)
  }

  /** The clamping of `ReadPost`, step by step. */
  method SliceText(text: string, nChars: nat, offsetChars: int, limitChars: int) returns (slice: Slice)
    requires nChars == |text|
    ensures slice == ReadSlice(text, offsetChars, limitChars)
  {
    var offset := offsetChars;
    if offset > nChars {
      offset := nChars;
    }
    if offset < 0 {
      offset := 0;
    }
    var limit := limitChars;
    if limit <= 0 || limit > MAX_READ_POST_CHARS {
      limit := MAX_READ_POST_CHARS;
    }
    var end := offset + limit;
    if end > |text| {
      end := |text|;
    }
    return Slice(text[offset..end], nChars, offset + |text[offset..end]|);
  }

  /** Slices read one after the other from `offset`, with the given limits. */
  function ReadOn(text: string, offset: int, limits: seq<int>): (string, int)
    decreases limits
  {
    if limits == [] then ("", offset)
    else
      var slice := ReadSlice(text, offset, limits[0]);
      var rest := ReadOn(text, slice.nextOffset, limits[1..]);
      (slice.text + rest.0, rest.1)
  }

  /**
   A slice starts at the offset, brought into the text, and has as many characters as
   asked for (20000 if that is not within 1 to 20000) or as are left.
   */
  lemma SliceExact(text: string, offsetChars: int, limitChars: int)
    ensures var slice := ReadSlice(text, offsetChars, limitChars);
      var start := if offsetChars < 0 then 0 else if offsetChars > |text| then |text| else offsetChars;
      var limit := if 1 <= limitChars <= 20000 then limitChars else 20000;
      && slice.text <= text[start..] && (|slice.text| == limit || (|slice.text| < limit && slice.text == text[start..]))
      && slice.nextOffset == start + |slice.text| && slice.nChars == |text|
  {
  }

  lemma SliceAdvances(text: string, offset: nat, limit: int)
    requires offset <= |text|
    ensures var slice := ReadSlice(text, offset, limit);
      && offset <= slice.nextOffset <= |text| && slice.text == text[offset..slice.nextOffset]
      && (offset < |text| ==> slice.nextOffset > offset)
  {
  }

  /**
   Reading on from `next_offset_chars` reassembles the text with nothing skipped or
   repeated, and reaches its end after at most as many reads as there are characters.
   */
  lemma {:induction false} ReadOnReassembles(text: string, offset: nat, limits: seq<int>)
    requires offset <= |text|
    ensures var (read, next) := ReadOn(text, offset, limits);
      offset <= next <= |text| && read == text[offset..next] && next >= Min(offset + |limits|, |text|)
    decreases |limits|
  {
    if limits != [] {
      var slice := ReadSlice(text, offset, limits[0]);
      SliceAdvances(text, offset, limits[0]);
      hide ReadSlice;
      ReadOnReassembles(text, slice.nextOffset, limits[1..]);
      var next := ReadOn(text, slice.nextOffset, limits[1..]).1;
      assert text[offset..slice.nextOffset] + text[slice.nextOffset..next] == text[offset..next];
    }
  }
}
