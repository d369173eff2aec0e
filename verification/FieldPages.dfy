/** Byte paging of a proposal text field (cli/commands/evolve.ts). */
module FieldPages {
  import opened Utf8
  import opened Wrappers

  datatype FieldPage = FieldPage(
    text: JsString, offsetBytes: nat, returnedBytes: nat, totalBytes: nat, nextOffset: Option<nat>)

  predicate AcceptedOffset(bytes: seq<Byte>, offset: int) {
    0 <= offset <= |bytes| && ByteBoundary(bytes, offset)
  }

  /** The first byte boundary at or after `i`. */
  function NextBoundary(bytes: seq<Byte>, i: nat): (end: nat)
    requires i <= |bytes|
    ensures i <= end <= |bytes| && ByteBoundary(bytes, end)
    ensures forall j :: i <= j < end ==> !ByteBoundary(bytes, j)
    decreases |bytes| - i
  {
    if i < |bytes| && IsContinuation(bytes[i]) then NextBoundary(bytes, i + 1) else i
  }

  function Min(a: nat, b: nat): nat {
    if a <= b then a else b
  }

  function PageEnd(bytes: seq<Byte>, offset: nat, maximumBytes: nat): (end: nat)
    requires offset <= |bytes|
    ensures Min(|bytes|, offset + maximumBytes) <= end <= |bytes| && ByteBoundary(bytes, end)
  {
    NextBoundary(bytes, Min(|bytes|, offset + maximumBytes))
  }

  /** Every encoded string is well formed, so a slice between boundaries decodes. */
  lemma {:induction false} SliceDecodes(bytes: seq<Byte>, offset: nat, end: nat)
    requires WellFormed(bytes) && offset <= end <= |bytes|
    requires ByteBoundary(bytes, offset) && ByteBoundary(bytes, end)
    ensures WellFormed(bytes[offset..end]) && WellFormed(bytes[end..])
    ensures Decode(bytes[offset..]) == Some(Decode(bytes[offset..end]).value + Decode(bytes[end..]).value)
  {
    RestWellFormed(bytes, offset);
    SliceOfRest(bytes, offset, end);
    CutDecodes(bytes[offset..], end - offset);
  }

  lemma {:induction false} RestWellFormed(bytes: seq<Byte>, i: nat)
    requires WellFormed(bytes) && i <= |bytes| && ByteBoundary(bytes, i)
    ensures WellFormed(bytes[i..])
  {
    WellFormedCut(bytes, i);
  }

  lemma {:induction false} SliceOfRest(bytes: seq<Byte>, offset: nat, end: nat)
    requires offset <= end <= |bytes|
    ensures bytes[offset..][..end - offset] == bytes[offset..end]
    ensures bytes[offset..][end - offset..] == bytes[end..]
    ensures ByteBoundary(bytes[offset..], end - offset) == ByteBoundary(bytes, end)
  {
  }

  lemma {:induction false} CutDecodes(bytes: seq<Byte>, i: nat)
    requires WellFormed(bytes) && i <= |bytes| && ByteBoundary(bytes, i)
    ensures WellFormed(bytes[..i]) && WellFormed(bytes[i..])
    ensures Decode(bytes) == Some(Decode(bytes[..i]).value + Decode(bytes[i..]).value)
  {
    WellFormedCut(bytes, i);
    PartsDecode(bytes, bytes[..i], bytes[i..]);
  }

  lemma {:induction false} PartsDecode(bytes: seq<Byte>, front: seq<Byte>, back: seq<Byte>)
    requires bytes == front + back && WellFormed(front) && WellFormed(back)
    ensures Decode(bytes) == Some(Decode(front).value + Decode(back).value)
  {
    WellFormedAppend(front, back);
  }

  /** The page of the encoded field that starts at `offset`. */
  function PageAt(bytes: seq<Byte>, offset: nat, maximumBytes: nat): FieldPage
    requires WellFormed(bytes) && AcceptedOffset(bytes, offset)
  {
    var end := PageEnd(bytes, offset, maximumBytes);
    SliceDecodes(bytes, offset, end);
    FieldPage(Decode(bytes[offset..end]).value, offset, end - offset, |bytes|, if end < |bytes| then Some(end) else None)
  }

  /** None stands for the thrown "must be a UTF-8 byte boundary". */
  function Page(value: JsString, offset: int, maximumBytes: nat): (page: Option<FieldPage>)
    ensures page.Some? <==> AcceptedOffset(Encode(value), offset)
  {
    EncodedIsWellFormed(value);
    if AcceptedOffset(Encode(value), offset) then Some(PageAt(Encode(value), offset, maximumBytes)) else None
  }

  lemma {:induction false} EncodedIsWellFormed(value: JsString)
    ensures WellFormed(Encode(value))
  {
    DecodeEncode(value);
  }

  method ProposalFieldPage(value: JsString, offset: int, maximumBytes: nat) returns (page: Option<FieldPage>)
    ensures page == Page(value, offset, maximumBytes)
  {
    var bytes := Encode(value);
    EncodedIsWellFormed(value);
    if offset < 0 || offset > |bytes| || (offset < |bytes| && IsContinuation(bytes[offset])) {
      return None;
    }
    var cut := CutPage(bytes, offset, maximumBytes);
    return Some(cut);
  }

  /** The loop that moves the end to the next boundary. */
  method CutPage(bytes: seq<Byte>, offset: nat, maximumBytes: nat) returns (page: FieldPage)
    requires WellFormed(bytes) && AcceptedOffset(bytes, offset)
    ensures page == PageAt(bytes, offset, maximumBytes)
  {
    var end := Min(|bytes|, offset + maximumBytes);
    while end < |bytes| && IsContinuation(bytes[end])
      invariant offset <= end <= |bytes|
      invariant NextBoundary(bytes, end) == PageEnd(bytes, offset, maximumBytes)
      decreases |bytes| - end
    {
      end := end + 1;
    }
    var next := if end < |bytes| then Some(end) else None;
    SliceDecodes(bytes, offset, end);
    return FieldPage(Decode(bytes[offset..end]).value, offset, end - offset, |bytes|, next);
  }

  /** A page asked for with at least one byte moves forward, stays within three bytes
      of the size asked for, and names an offset the next call accepts. */
  lemma {:induction false} PageAdvances(bytes: seq<Byte>, offset: nat, maximumBytes: nat)
    requires WellFormed(bytes) && AcceptedOffset(bytes, offset) && maximumBytes >= 1
    ensures var page := PageAt(bytes, offset, maximumBytes);
            && page.offsetBytes == offset && page.totalBytes == |bytes|
            && Min(maximumBytes, |bytes| - offset) <= page.returnedBytes <= maximumBytes + 3
            && (page.nextOffset == None <==> offset + page.returnedBytes == |bytes|)
            && (page.nextOffset.Some? ==>
                  page.nextOffset.value == offset + page.returnedBytes > offset && AcceptedOffset(bytes, page.nextOffset.value))
  {
    PageEndNear(bytes, offset, maximumBytes);
  }

  lemma {:induction false} PageEndNear(bytes: seq<Byte>, offset: nat, maximumBytes: nat)
    requires WellFormed(bytes) && offset <= |bytes|
    ensures PageEnd(bytes, offset, maximumBytes) <= offset + maximumBytes + 3
  {
    var near := BoundaryNear(bytes, Min(|bytes|, offset + maximumBytes));
  }

  /** A page decodes the head of the rest and leaves what comes after it. */
  lemma {:induction false} PageDecodesHead(bytes: seq<Byte>, offset: nat, maximumBytes: nat)
    requires WellFormed(bytes) && AcceptedOffset(bytes, offset)
    ensures var page := PageAt(bytes, offset, maximumBytes);
            var end := offset + page.returnedBytes;
            && end <= |bytes| && WellFormed(bytes[end..])
            && Decode(bytes[offset..]) == Some(page.text + Decode(bytes[end..]).value)
  {
    SliceDecodes(bytes, offset, PageEnd(bytes, offset, maximumBytes));
  }

  /** What a reader collects who starts at `offset`, follows the next offsets to the end,
      and asks for `sizes(k)` bytes on the k-th call. */
  function ReadBytes(bytes: seq<Byte>, offset: nat, sizes: nat -> nat, k: nat): (text: JsString)
    requires WellFormed(bytes) && AcceptedOffset(bytes, offset) && forall i :: sizes(i) >= 1
    decreases |bytes| - offset
  {
    PageAdvances(bytes, offset, sizes(k));
    var page := PageAt(bytes, offset, sizes(k));
    page.text + match page.nextOffset
                case None => []
                case Some(next) => ReadBytes(bytes, next, sizes, k + 1)
  }

  lemma {:induction false} ReadUnfolds(bytes: seq<Byte>, offset: nat, sizes: nat -> nat, k: nat)
    requires WellFormed(bytes) && AcceptedOffset(bytes, offset) && forall i :: sizes(i) >= 1
    ensures var page := PageAt(bytes, offset, sizes(k));
            && (page.nextOffset.Some? ==> AcceptedOffset(bytes, page.nextOffset.value) && offset < page.nextOffset.value)
            && ReadBytes(bytes, offset, sizes, k)
               == page.text + if page.nextOffset.Some? then ReadBytes(bytes, page.nextOffset.value, sizes, k + 1) else []
  {
    PageAdvances(bytes, offset, sizes(k));
  }

  /** The text of a page in front of what the rest decodes to. */
  lemma {:induction false} PageInFront(bytes: seq<Byte>, offset: nat, maximumBytes: nat, rest: JsString)
    requires WellFormed(bytes) && AcceptedOffset(bytes, offset) && maximumBytes >= 1
    requires match PageAt(bytes, offset, maximumBytes).nextOffset
             case Some(next) => 0 <= next <= |bytes| && Decode(bytes[next..]) == Some(rest)
             case None => rest == []
    ensures Decode(bytes[offset..]) == Some(PageAt(bytes, offset, maximumBytes).text + rest)
  {
    PageDecodesHead(bytes, offset, maximumBytes);
    var end := offset + PageAt(bytes, offset, maximumBytes).returnedBytes;
    if end == |bytes| { assert bytes[end..] == []; }
  }

  lemma {:induction false} ReadDecodesRest(bytes: seq<Byte>, offset: nat, sizes: nat -> nat, k: nat)
    requires WellFormed(bytes) && AcceptedOffset(bytes, offset) && forall i :: sizes(i) >= 1
    ensures Decode(bytes[offset..]) == Some(ReadBytes(bytes, offset, sizes, k))
    decreases |bytes| - offset
  {
    var next := PageAt(bytes, offset, sizes(k)).nextOffset;
    ReadUnfolds(bytes, offset, sizes, k);
    if next.Some? {
      ReadDecodesRest(bytes, next.value, sizes, k + 1);
      PageInFront(bytes, offset, sizes(k), ReadBytes(bytes, next.value, sizes, k + 1));
    } else {
      PageInFront(bytes, offset, sizes(k), []);
    }
  }

  function ReadAll(value: JsString, sizes: nat -> nat): JsString
    requires forall i :: sizes(i) >= 1
  {
    EncodedIsWellFormed(value);
    StartIsAccepted(Encode(value));
    ReadBytes(Encode(value), 0, sizes, 0)
  }

  lemma {:induction false} StartIsAccepted(bytes: seq<Byte>)
    requires WellFormed(bytes)
    ensures AcceptedOffset(bytes, 0)
  {
    if bytes != [] {
      var c, rest := Uncons(bytes);
      HeadBytes(c, rest);
    }
  }

  /** Reading page after page gives the field back, whatever the page sizes, exactly
      when the field has no lone surrogate; otherwise each one comes back as U+FFFD. */
  lemma {:induction false} PagingLossless(value: JsString, sizes: nat -> nat)
    requires forall i :: sizes(i) >= 1
    ensures Page(value, 0, sizes(0)).Some?
    ensures ReadAll(value, sizes) == Scrub(value)
    ensures ReadAll(value, sizes) == value <==> Paired(value)
  {
    var bytes := Encode(value);
    EncodedIsWellFormed(value);
    StartIsAccepted(bytes);
    ReadDecodesRest(bytes, 0, sizes, 0);
    assert bytes[0..] == bytes;
    DecodeEncode(value);
    ScrubIdentityIff(value);
  }

  /** A concrete field that paging does not give back: one lone high surrogate. */
  lemma {:induction false} LoneSurrogateIsLost(sizes: nat -> nat)
    requires forall i :: sizes(i) >= 1
    ensures ReadAll([0xD800], sizes) == [REPLACEMENT]
  {
    PagingLossless([0xD800], sizes);
  }
}
