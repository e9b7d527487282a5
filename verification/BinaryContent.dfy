/**
  Posted content and its way back: Base64 text cut into pages behind a `data:` header, stored
  page by page, and served by decoding the pages one after the other.
 */
module BinaryContent {
  import opened Base64
  import opened ByteStrings
  import opened Sequences

  function Flatten(parts: seq<Bytes>): Bytes {
    if parts == [] then [] else Flatten(parts[..|parts| - 1]) + parts[|parts| - 1]
  }

  lemma FlattenPush(parts: seq<Bytes>, part: Bytes)
    ensures Flatten(parts + [part]) == Flatten(parts) + part
  {
    assert (parts + [part])[..|parts|] == parts;
  }

  /** "data:" */
  const DATA: Bytes := [100, 97, 116, 97, 58]

  /** ";base64," */
  const BASE64: Bytes := [59, 98, 97, 115, 101, 54, 52, 44]

  const COMMA: Byte := 44

  /** The position of the first comma, or the length when there is none. */
  function FindComma(s: Bytes): (i: nat)
    ensures i <= |s| && COMMA !in s[..i] && (i < |s| ==> s[i] == COMMA)
  {
    if s == [] then 0
    else if s[0] == COMMA then 0
    else
      var i := FindComma(s[1..]);
      assert s[..1 + i] == [s[0]] + s[1..][..i];
      1 + i
  }

  predicate IsData(s: Bytes) {
    DATA <= s && COMMA in s
  }

  function Header(contentType: Bytes): Bytes {
    DATA + contentType + BASE64
  }

  /** What the fixed bytes spell. */
  lemma Spelled()
    ensures |DATA| == 5 && forall i :: 0 <= i < 5 ==> DATA[i] as int == "data:"[i] as int
    ensures |BASE64| == 8 && forall i :: 0 <= i < 8 ==> BASE64[i] as int == ";base64,"[i] as int
    ensures COMMA as int == ',' as int
  {
  }

  /** What is stored for the Base64 pages of a post: the first one carries the header. */
  function Stored(contentType: Bytes, pages: seq<Bytes>): seq<Bytes> {
    if pages == [] then [] else [Header(contentType) + pages[0]] + pages[1..]
  }

  /** The string stored at the content path: its pages in order, and whether they are indexed. */
  class StringContent {
    var isString: bool
    var pages: seq<Bytes>
    var indexed: bool

    ghost predicate Valid()
      reads this
    {
      !isString ==> pages == []
    }

    constructor (isString: bool, pages: seq<Bytes>, indexed: bool)
      requires !isString ==> pages == []
      ensures Valid() && this.isString == isString && this.pages == pages && this.indexed == indexed
    {
      this.isString, this.pages, this.indexed := isString, pages, indexed;
    }

    method SetTypeString()
      requires Valid()
      modifies this
      ensures Valid() && isString && pages == old(pages) && indexed == (old(indexed) && old(isString))
    {
      if !isString {
        isString, pages, indexed := true, [], false;
      }
    }

    /** Writes one page over what is there; a changed page of an indexed string drops the pages
        from it on first. */
    method SetString(value: Bytes, pageIndex: nat)
      requires Valid() && pageIndex <= |pages| && (pageIndex > 0 ==> isString)
      modifies this
      ensures Valid() && isString && pageIndex < |pages|
      ensures pages[..pageIndex] == old(pages)[..pageIndex] && pages[pageIndex] == value
      ensures pages[pageIndex + 1..] == if pageIndex < |old(pages)| && (old(pages)[pageIndex] == value || !(old(indexed) && old(isString)))
                                        then old(pages)[pageIndex + 1..] else []
      ensures indexed == (old(indexed) && old(isString))
    {
      if pageIndex == 0 {
        SetTypeString();
      }
      if pageIndex < |pages| {
        if pages[pageIndex] != value && indexed {
          pages := pages[..pageIndex];
        }
      }
      pages := if pageIndex < |pages| then pages[pageIndex := value] else pages + [value];
    }

    /** Drops the pages from `pageCount` on. */
    method EndString(pageCount: nat, indexData: bool)
      requires Valid() && pageCount <= |pages|
      modifies this
      ensures Valid() && isString && pages == old(pages)[..pageCount] && indexed == indexData
    {
      SetTypeString();
      pages := pages[..pageCount];
      indexed := indexData;
    }
  }

  lemma RunFilled(sofar: Bytes, held: Bytes, before: Bytes, s: Bytes, from: nat, to: nat)
    requires from <= to <= |s| && sofar + held == before + s[..from]
    ensures sofar + (held + s[from..to]) == before + s[..to]
  {
    Associative(sofar, held, s[from..to]);
    Associative(before, s[..from], s[from..to]);
    TakeRange(s, from, to);
  }

  /** The stream that cuts text into pages and stores them. */
  class PagedStreamBuffer {
    const pageSize: nat
    const contentType: Bytes
    const content: StringContent
    var inBuffer: Bytes
    var pageIndex: nat
    ghost var paged: seq<Bytes>

    ghost predicate Valid()
      reads this, content
    {
      |inBuffer| < pageSize && PagesStored() && AllFull()
    }

    /** All pages sent on so far are full. */
    ghost predicate AllFull()
      reads this
    {
      forall i :: 0 <= i < |paged| ==> |paged[i]| == pageSize
    }

    /** All but the last are, and that is not empty. */
    ghost predicate AllButLastFull()
      reads this
    {
      && (forall i :: 0 <= i < |paged| - 1 ==> |paged[i]| == pageSize)
      && (paged != [] ==> 0 < |paged[|paged| - 1]| <= pageSize)
    }

    /** The pages sent on so far are what is stored. */
    ghost predicate PagesStored()
      reads this, content
    {
      && content.Valid() && pageIndex == |paged| && pageIndex <= |content.pages| && (pageIndex > 0 ==> content.isString)
      && content.pages[..pageIndex] == Stored(contentType, paged)
      && forall p :: p in paged ==> p != []
    }

    constructor (pageSize: nat, contentType: Bytes, content: StringContent)
      requires pageSize > 0 && content.Valid()
      ensures Valid() && paged == [] && inBuffer == [] && pageIndex == 0
      ensures this.content == content && this.contentType == contentType && this.pageSize == pageSize
    {
      this.pageSize, this.contentType, this.content := pageSize, contentType, content;
      inBuffer, pageIndex, paged := [], 0, [];
    }

    method OnPage(encoded: Bytes)
      requires PagesStored() && encoded != []
      modifies this, content
      ensures PagesStored() && paged == old(paged) + [encoded] && inBuffer == old(inBuffer)
    {
      if pageIndex == 0 {
        content.SetString(DATA + contentType + BASE64 + encoded, pageIndex);
        assert content.pages[..1] == [content.pages[0]];
      } else {
        ghost var before := content.pages[..pageIndex];
        content.SetString(encoded, pageIndex);
        assert content.pages[..pageIndex + 1] == before + [encoded];
        assert (paged + [encoded])[1..] == paged[1..] + [encoded];
      }
      paged := paged + [encoded];
      pageIndex := pageIndex + 1;
    }

    /** Fills the page up from the run. */
    method Fill(s: Bytes, from: nat) returns (processed: nat)
      requires |inBuffer| < pageSize && from < |s|
      modifies `inBuffer
      ensures from < processed <= |s| && inBuffer == old(inBuffer) + s[from..processed]
      ensures |inBuffer| <= pageSize && (|inBuffer| == pageSize || processed == |s|)
    {
      processed := from;
      while |inBuffer| < pageSize && processed < |s|
        invariant from <= processed <= |s| && inBuffer == old(inBuffer) + s[from..processed]
        invariant |inBuffer| <= pageSize && (from == processed ==> |inBuffer| < pageSize)
      {
        inBuffer := inBuffer + [s[processed]];
        processed := processed + 1;
      }
    }

    /** Takes a run of characters, sending a page on whenever one is full. */
    method Xsputn(s: Bytes)
      requires Valid()
      modifies this, content
      ensures Valid()
      ensures Flatten(paged) + inBuffer == Flatten(old(paged)) + old(inBuffer) + s
    {
      var processed := 0;
      while processed < |s|
        invariant Valid() && processed <= |s|
        invariant Flatten(paged) + inBuffer == Flatten(old(paged)) + old(inBuffer) + s[..processed]
      {
        ghost var from, held, sofar := processed, inBuffer, Flatten(paged);
        processed := Fill(s, processed);
        RunFilled(sofar, held, Flatten(old(paged)) + old(inBuffer), s, from, processed);
        if |inBuffer| == pageSize {
          SendPage();
        }
      }
      Whole(s);
    }

    /** Sends the buffered page on. */
    method SendPage()
      requires 0 < pageSize && |inBuffer| > 0 && PagesStored()
      modifies this, content
      ensures PagesStored() && inBuffer == [] && Flatten(paged) == Flatten(old(paged)) + old(inBuffer)
      ensures paged == old(paged) + [old(inBuffer)]
    {
      var page := inBuffer;
      inBuffer := [];
      FlattenPush(paged, page);
      OnPage(page);
      Unit(Flatten(paged));
    }

    method Sync()
      requires Valid()
      modifies this, content
      ensures PagesStored() && inBuffer == [] && Flatten(paged) == Flatten(old(paged)) + old(inBuffer)
      ensures paged == (old(paged) + if old(inBuffer) == [] then [] else [old(inBuffer)]) && AllButLastFull()
    {
      if |inBuffer| > 0 {
        SendPage();
      } else {
        Unit(Flatten(paged));
      }
    }
  }

  // ----- posting

  /** Posts bytes of an image or audio type: Base64, paged, headed, stored. */
  method PostEncoded(content: StringContent, contentType: Bytes, pageSize: nat, chunks: seq<Bytes>)
    returns (ghost paged: seq<Bytes>)
    requires content.Valid() && pageSize > 0
    modifies content
    ensures content.Valid() && content.isString && !content.indexed
    ensures content.pages == Stored(contentType, paged) && Flatten(paged) == Base64Text(Flatten(chunks))
    ensures forall p :: p in paged ==> p != []
    ensures forall i :: 0 <= i < |paged| - 1 ==> |paged[i]| == pageSize
    ensures paged != [] ==> |paged[|paged| - 1]| <= pageSize
  {
    var pager := new PagedStreamBuffer(pageSize, contentType, content);
    var encoder := new Base64Streambuf();
    ghost var whole: Bytes := [];
    for i := 0 to |chunks|
      invariant pager.Valid() && encoder.Valid() && fresh(pager) && fresh(encoder) && pager.content == content
      invariant pager.contentType == contentType && pager.pageSize == pageSize
      invariant |whole| % 3 == 0 && whole + encoder.buffer == Flatten(chunks[..i])
      invariant Flatten(pager.paged) + pager.inBuffer == Base64Text(whole)
    {
      assert chunks[..i + 1][..i] == chunks[..i];
      ghost var more := PostChunk(pager, encoder, chunks[i], whole);
      whole := more;
    }
    Whole(chunks);
    TextConcat(whole, encoder.buffer);
    var tail := encoder.Sync();
    pager.Xsputn(tail);
    pager.Sync();
    paged := pager.paged;
    content.EndString(pager.pageIndex, false);
  }

  /** One data callback: every byte goes through the encoder, and its output to the pages. */
  method PostChunk(pager: PagedStreamBuffer, encoder: Base64Streambuf, data: Bytes, ghost whole0: Bytes)
    returns (ghost whole: Bytes)
    requires pager.Valid() && encoder.Valid() && |whole0| % 3 == 0
    requires Flatten(pager.paged) + pager.inBuffer == Base64Text(whole0)
    modifies pager, encoder, pager.content
    ensures pager.Valid() && encoder.Valid() && |whole| % 3 == 0
    ensures whole + encoder.buffer == whole0 + old(encoder.buffer) + data
    ensures Flatten(pager.paged) + pager.inBuffer == Base64Text(whole)
  {
    whole := whole0;
    for i := 0 to |data|
      invariant pager.Valid() && encoder.Valid() && |whole| % 3 == 0
      invariant whole + encoder.buffer == whole0 + old(encoder.buffer) + data[..i]
      invariant Flatten(pager.paged) + pager.inBuffer == Base64Text(whole)
    {
      TakeNext(data, i);
      whole := PostByte(pager, encoder, data[i], whole);
    }
    Whole(data);
  }

  /** One byte through the encoder, and its output to the pages. */
  method PostByte(pager: PagedStreamBuffer, encoder: Base64Streambuf, c: Byte, ghost whole0: Bytes)
    returns (ghost whole: Bytes)
    requires pager.Valid() && encoder.Valid() && |whole0| % 3 == 0
    requires Flatten(pager.paged) + pager.inBuffer == Base64Text(whole0)
    modifies pager, encoder, pager.content
    ensures pager.Valid() && encoder.Valid() && |whole| % 3 == 0
    ensures whole + encoder.buffer == whole0 + old(encoder.buffer) + [c]
    ensures Flatten(pager.paged) + pager.inBuffer == Base64Text(whole)
  {
    ghost var before := encoder.buffer;
    var out := encoder.Overflow(c);
    whole := ByteThrough(whole0, before, c, encoder.buffer, out);
    pager.Xsputn(out);
  }

  /** What one byte adds to the whole chunks, and to their text. */
  lemma ByteThrough(whole0: Bytes, before: Bytes, c: Byte, held: Bytes, out: Bytes) returns (whole: Bytes)
    requires |whole0| % 3 == 0
    requires if out == [] then held == before + [c] else held == [] && |before + [c]| == 3 && out == EncodedChunk(before + [c])
    ensures |whole| % 3 == 0 && whole + held == whole0 + before + [c]
    ensures Base64Text(whole) == Base64Text(whole0) + out
  {
    var chunk := before + [c];
    Associative(whole0, before, [c]);
    if out == [] {
      whole := whole0;
      Unit(Base64Text(whole0));
    } else {
      whole := whole0 + chunk;
      Unit(whole);
      TextConcat(whole0, chunk);
    }
  }

  /** Posts bytes of any other type: each chunk is stored as a page, as it is. */
  method PostRaw(content: StringContent, chunks: seq<Bytes>)
    requires content.Valid()
    modifies content
    ensures content.Valid() && content.isString && content.indexed && content.pages == chunks
  {
    for pageIndex := 0 to |chunks|
      invariant content.Valid() && pageIndex <= |content.pages| && (pageIndex > 0 ==> content.isString)
      invariant content.pages[..pageIndex] == chunks[..pageIndex]
    {
      content.SetString(chunks[pageIndex], pageIndex);
      assert content.pages[..pageIndex + 1] == content.pages[..pageIndex] + [chunks[pageIndex]];
    }
    content.EndString(|chunks|, true);
  }

  /** "image" or "audio" first. */
  predicate IsEncodedType(contentType: Bytes) {
    [105, 109, 97, 103, 101] <= contentType || [97, 117, 100, 105, 111] <= contentType
  }

  /** What the types of encoded content begin with. */
  lemma EncodedTypes(contentType: Bytes)
    ensures IsEncodedType(contentType) <==>
              |contentType| >= 5 && ((forall i :: 0 <= i < 5 ==> contentType[i] as int == "image"[i] as int)
                                     || (forall i :: 0 <= i < 5 ==> contentType[i] as int == "audio"[i] as int))
  {
  }

  // ----- serving

  datatype Served = Served(bytes: Bytes) | Failed

  /** What serving the pages gives: behind a data header the Base64 text of all the pages is
      decoded, other pages go out as they are. */
  function ServedPages(pages: seq<Bytes>): Served {
    if pages != [] && IsData(pages[0]) then
      FlattenHead(pages);
      var d := FedAll(Decoding([], []), Flatten(pages)[FindComma(pages[0]) + 1..]);
      if d.Decoding? then Served(d.output) else Failed
    else Served(Flatten(pages))
  }

  lemma {:induction false} FlattenHead(pages: seq<Bytes>)
    requires pages != []
    ensures pages[0] <= Flatten(pages) && FindComma(pages[0]) <= |pages[0]|
    ensures COMMA in pages[0] ==> FindComma(pages[0]) < |pages[0]|
  {
    assert pages[0][..|pages[0]|] == pages[0];
    if |pages| == 1 {
      FlattenPush([], pages[0]);
      assert [] + [pages[0]] == pages;
    } else {
      FlattenHead(pages[..|pages| - 1]);
    }
  }

  /** Serves the stored pages one after the other, carrying the decoder from page to page. */
  method Serve(content: StringContent) returns (result: Served)
    ensures result == if content.isString then ServedPages(content.pages) else Served([])
  {
    if !content.isString {
      return Served([]);
    }
    var pages := content.pages;
    var decoder := new Base64DecodeStream();
    var out: Bytes := [];
    var isData := false;
    Unserved(pages);
    for index := 0 to |pages|
      invariant fresh(decoder) && decoder.Valid() && Serving(pages, index, isData, decoder.State(), out)
    {
      var data := pages[index];
      ServingStep(pages, index, isData, decoder.State(), out);
      if index == 0 && IsData(data) {
        data := data[FindComma(data) + 1..];
        isData := true;
      }
      if isData {
        var ok := decoder.Write(data);
        if !ok {
          return Failed;
        }
      } else {
        out := out + data;
      }
    }
    Whole(pages);
    result := Served(if isData then decoder.output else out);
  }

  /** The text behind the header in the pages before `index`. */
  ghost predicate TextBefore(pages: seq<Bytes>, index: nat) {
    0 < index <= |pages| && FindComma(pages[0]) + 1 <= |Flatten(pages[..index])|
  }

  ghost function Text(pages: seq<Bytes>, index: nat): Bytes
    requires TextBefore(pages, index)
  {
    Flatten(pages[..index])[FindComma(pages[0]) + 1..]
  }

  /** What has been made of the pages before `index`: behind a data header their text has been fed to the decoder, and
      otherwise they have gone out. */
  ghost predicate Serving(pages: seq<Bytes>, index: nat, isData: bool, d: Decoding, out: Bytes) {
    && index <= |pages| && isData == (index > 0 && IsData(pages[0]))
    && (isData ==> TextBefore(pages, index) && d == FedAll(Decoding([], []), Text(pages, index)))
    && (!isData ==> d == Decoding([], []) && out == Flatten(pages[..index]))
  }

  lemma Unserved(pages: seq<Bytes>)
    ensures Serving(pages, 0, false, Decoding([], []), [])
  {
    assert pages[..0] == [];
  }

  /** What the next page adds: behind the header its bytes are fed, and when they are no text of Base64 all of it fails. */
  lemma ServingStep(pages: seq<Bytes>, index: nat, isData: bool, d: Decoding, out: Bytes)
    requires index < |pages| && Serving(pages, index, isData, d, out)
    ensures var first := index == 0 && IsData(pages[0]);
            var data := if first then pages[0][FindComma(pages[0]) + 1..] else pages[index];
            if isData || first then
              && (FedAll(d, data).Decoding? ==> Serving(pages, index + 1, true, FedAll(d, data), out))
              && (FedAll(d, data).Invalid? ==> ServedPages(pages) == Failed)
            else Serving(pages, index + 1, false, d, out + data)
  {
    TextPush(pages, index);
    if index == 0 && IsData(pages[0]) {
      HeadServed(pages, d, out);
    } else if isData {
      MoreServed(pages, index, d, out);
    }
  }

  lemma HeadServed(pages: seq<Bytes>, d: Decoding, out: Bytes)
    requires pages != [] && IsData(pages[0]) && d == Decoding([], [])
    ensures var fed := FedAll(d, pages[0][FindComma(pages[0]) + 1..]);
            && (fed.Decoding? ==> Serving(pages, 1, true, fed, out))
            && (fed.Invalid? ==> ServedPages(pages) == Failed)
  {
    TextPush(pages, 0);
    var data := pages[0][FindComma(pages[0]) + 1..];
    Unit(data);
    if FedAll(d, data).Invalid? {
      StaysInvalid(pages, 1);
    }
  }

  lemma MoreServed(pages: seq<Bytes>, index: nat, d: Decoding, out: Bytes)
    requires index < |pages| && Serving(pages, index, true, d, out)
    ensures var fed := FedAll(d, pages[index]);
            && (fed.Decoding? ==> Serving(pages, index + 1, true, fed, out))
            && (fed.Invalid? ==> ServedPages(pages) == Failed)
  {
    TextPush(pages, index);
    FedConcat(Decoding([], []), Text(pages, index), pages[index]);
    if FedAll(d, pages[index]).Invalid? {
      StaysInvalid(pages, index + 1);
    }
  }

  lemma TextPush(pages: seq<Bytes>, index: nat)
    requires index < |pages|
    ensures Flatten(pages[..index + 1]) == Flatten(pages[..index]) + pages[index]
    ensures IsData(pages[0]) ==>
              && TextBefore(pages, index + 1)
              && (index > 0 ==> TextBefore(pages, index) && Text(pages, index + 1) == Text(pages, index) + pages[index])
              && (index == 0 ==> Text(pages, 1) == [] + pages[0][FindComma(pages[0]) + 1..])
  {
    TakeNext(pages, index);
    FlattenPush(pages[..index], pages[index]);
    FlattenHead(pages[..index + 1]);
    if index > 0 { FlattenHead(pages[..index]); }
    if index == 0 { assert Flatten(pages[..0]) == []; }
  }

  lemma StaysInvalid(pages: seq<Bytes>, index: nat)
    requires 0 < index <= |pages| && IsData(pages[0]) && TextBefore(pages, index)
    requires FedAll(Decoding([], []), Text(pages, index)) == Invalid
    ensures ServedPages(pages) == Failed
  {
    FlattenConcat(pages[..index], pages[index..]);
    assert pages[..index] + pages[index..] == pages;
    var rest := Flatten(pages[index..]);
    FedConcat(Decoding([], []), Text(pages, index), rest);
    FedInvalid(rest);
    FlattenHead(pages);
    assert Text(pages, index) + rest == Flatten(pages)[FindComma(pages[0]) + 1..];
  }

  lemma {:induction false} FlattenConcat(u: seq<Bytes>, v: seq<Bytes>)
    ensures Flatten(u + v) == Flatten(u) + Flatten(v)
  {
    if v == [] {
      Unit(u);
      Unit(Flatten(u));
    } else {
      FlattenConcat(u, v[..|v| - 1]);
      ConcatFront(u, v);
      Associative(Flatten(u), Flatten(v[..|v| - 1]), v[|v| - 1]);
    }
  }

  // ----- the way back

  lemma {:induction false} FindFirstComma(head: Bytes, tail: Bytes)
    requires COMMA !in head
    ensures FindComma(head + [COMMA] + tail) == |head|
  {
    var s := head + [COMMA] + tail;
    if head != [] {
      assert s[1..] == head[1..] + [COMMA] + tail;
      FindFirstComma(head[1..], tail);
    }
  }

  /** The stored pages in one piece: the header, then the Base64 text. */
  lemma FlattenStored(contentType: Bytes, paged: seq<Bytes>)
    requires paged != []
    ensures Flatten(Stored(contentType, paged)) == Header(contentType) + Flatten(paged)
  {
    var first, rest := Header(contentType) + paged[0], paged[1..];
    FlattenConcat([first], rest);
    FlattenConcat([paged[0]], rest);
    FlattenPush([], first);
    FlattenPush([], paged[0]);
    assert [] + [first] == [first] && [] + [paged[0]] == [paged[0]];
    assert paged == [paged[0]] + rest;
    Associative(Header(contentType), paged[0], Flatten(rest));
  }

  /** Encoded content is served back byte for byte, whatever the pages. */
  lemma EncodedServedBack(contentType: Bytes, paged: seq<Bytes>, data: Bytes)
    requires Flatten(paged) == Base64Text(data) && COMMA !in contentType
    ensures ServedPages(Stored(contentType, paged)) == Served(data)
  {
    RoundTrip(Decoding([], []), data);
    assert [] + data == data;
    if paged == [] {
      assert |Base64Text(data)| == 0;
    } else {
      var head := DATA + contentType + BASE64[..7];
      assert Header(contentType) == head + [COMMA];
      FindFirstComma(head, paged[0]);
      FlattenStored(contentType, paged);
      HeaderIsData(contentType, paged[0]);
      DropHead(head, COMMA, Flatten(paged));
    }
  }

  lemma HeaderIsData(contentType: Bytes, page: Bytes)
    ensures IsData(Header(contentType) + page)
  {
    var s := Header(contentType) + page;
    assert s[|DATA| + |contentType| + 7] == COMMA;
    assert s[..5] == DATA;
  }

  lemma Regrouped(a: Bytes, b: Bytes, c: Byte, r: Bytes, d: Bytes, p: Bytes)
    ensures a + (b + [c] + r) + d + p == (a + b) + [c] + (r + d + p)
  {
  }

  lemma DropHead(head: Bytes, c: Byte, tail: Bytes)
    ensures (head + [c] + tail)[|head| + 1..] == tail
  {
  }

  lemma HeaderSplits(contentType: Bytes, j: nat, page: Bytes)
    requires j < |contentType| && contentType[j] == COMMA
    ensures Header(contentType) + page == (DATA + contentType[..j]) + [COMMA] + (contentType[j + 1..] + BASE64 + page)
  {
    assert contentType == contentType[..j] + [COMMA] + contentType[j + 1..];
    Regrouped(DATA, contentType[..j], COMMA, contentType[j + 1..], BASE64, page);
  }

  /** What follows the first comma of such a header does not decode. */
  lemma CutHeaderFails(rest: Bytes, text: Bytes)
    ensures FedAll(Decoding([], []), rest + BASE64 + text) == Invalid
  {
    var s := rest + BASE64 + text;
    assert s[|rest|] == 59;
    BadCharacter(Decoding([], []), s, |rest|);
  }

  /** With a comma in the content type the header is cut short, and serving fails. */
  lemma CommaFails(contentType: Bytes, paged: seq<Bytes>)
    requires COMMA in contentType && paged != []
    ensures ServedPages(Stored(contentType, paged)) == Failed
  {
    var j := FindComma(contentType);
    Whole(contentType);
    var head, rest := DATA + contentType[..j], contentType[j + 1..];
    HeaderSplits(contentType, j, paged[0]);
    FindFirstComma(head, rest + BASE64 + paged[0]);
    FlattenStored(contentType, paged);
    HeaderIsData(contentType, paged[0]);
    HeaderSplits(contentType, j, Flatten(paged));
    DropHead(head, COMMA, rest + BASE64 + Flatten(paged));
    CutHeaderFails(rest, Flatten(paged));
  }

  lemma {:induction false} BadCharacter(d: Decoding, text: Bytes, i: nat)
    requires i < |text| && DecodeChar(text[i]) < 0
    ensures FedAll(d, text) == Invalid
  {
    if i < |text| - 1 {
      BadCharacter(d, text[..|text| - 1], i);
    }
  }

  /** Encoded content comes back exactly when there is none or the type has no comma. */
  lemma EncodedServedExactly(contentType: Bytes, paged: seq<Bytes>, data: Bytes)
    requires Flatten(paged) == Base64Text(data) && (forall p :: p in paged ==> p != [])
    ensures ServedPages(Stored(contentType, paged)) == Served(data) <==> data == [] || COMMA !in contentType
  {
    if COMMA !in contentType {
      EncodedServedBack(contentType, paged, data);
    } else if paged != [] {
      CommaFails(contentType, paged);
      assert paged[|paged| - 1] in paged;
      assert Flatten(paged) != [];
    } else {
      assert |Base64Text(data)| == 0;
    }
  }

  /** Chunks stored as they are come back exactly when the first does not look like a data header. */
  lemma RawServedExactly(chunks: seq<Bytes>)
    ensures ServedPages(chunks) == Served(Flatten(chunks)) <==> chunks == [] || !IsData(chunks[0])
  {
    if chunks != [] && IsData(chunks[0]) {
      FlattenHead(chunks);
      DecodedIsShorter(Decoding([], []), Flatten(chunks)[FindComma(chunks[0]) + 1..]);
    }
  }

  /** Posting and then serving: the whole way. */
  method PostThenServe(content: StringContent, contentType: Bytes, pageSize: nat, chunks: seq<Bytes>)
    returns (result: Served)
    requires content.Valid() && pageSize > 0
    modifies content
    ensures result == Served(Flatten(chunks)) <==>
            if IsEncodedType(contentType) then Flatten(chunks) == [] || COMMA !in contentType
            else chunks == [] || !IsData(chunks[0])
  {
    if IsEncodedType(contentType) {
      ghost var paged := PostEncoded(content, contentType, pageSize, chunks);
      EncodedServedExactly(contentType, paged, Flatten(chunks));
    } else {
      PostRaw(content, chunks);
      RawServedExactly(chunks);
    }
    result := Serve(content);
  }
}
