/** The audit of reachable blobs (scripts/audit-public-content.ts): the size budget and
    the parser of the framed `git cat-file --batch` stream. */
module BatchStream {
  import opened Wrappers
  import opened Utf8

  type Bytes = seq<Byte>

  const LF: Byte := 10
  const SP: Byte := 32
  const BLOB: Bytes := [98, 108, 111, 98]
  const MAX_SAFE_INTEGER: int := 0x1F_FFFF_FFFF_FFFF
  const MAX_FILE_BYTES: int := 10 * 1024 * 1024
  const MAX_REACHABLE_BLOB_BYTES: int := 256 * 1024 * 1024

  /** `buffer.indexOf(b)`, with |s| for the -1 of a missing byte. */
  function IndexOf(s: Bytes, b: Byte): (i: nat)
    ensures i <= |s| && b !in s[..i] && (i < |s| ==> s[i] == b)
  {
    if s == [] || s[0] == b then 0
    else
      var i := 1 + IndexOf(s[1..], b);
      assert s[..i] == [s[0]] + s[1..][..i - 1];
      i
  }

  /** The text before the first space and the one after it. */
  function NextField(s: Bytes): (Bytes, Option<Bytes>) {
    var i := IndexOf(s, SP);
    if i == |s| then (s, None) else (s[..i], Some(s[i + 1..]))
  }

  predicate IsDigit(b: Byte) {
    48 <= b < 58
  }

  predicate AllDigits(s: Bytes) {
    s != [] && forall i :: 0 <= i < |s| ==> IsDigit(s[i])
  }

  function DigitsValue(s: Bytes): (n: int)
    requires forall i :: 0 <= i < |s| ==> IsDigit(s[i])
    ensures n >= 0
  {
    if s == [] then 0
    else
      assert IsDigit(s[|s| - 1]);
      DigitsValue(s[..|s| - 1]) * 10 + (s[|s| - 1] as int - 48)
  }

  function Decimal(n: nat): (s: Bytes)
    ensures AllDigits(s) && DigitsValue(s) == n
    ensures SP !in s && LF !in s
  {
    if n < 10 then
      var s := [(48 + n) as Byte];
      assert s[..0] == [];
      s
    else
      var s := Decimal(n / 10) + [(48 + n % 10) as Byte];
      assert s[..|s| - 1] == Decimal(n / 10);
      s
  }

  /** JavaScript's `Number(text)`: decimal digits by their value, any other text as `odd`
      says (the empty text is 0, "0x10" is 16, most are NaN). None stands for NaN and for
      every value that is no integer. */
  function NumberOf(text: Bytes, odd: Bytes -> Option<int>): Option<int> {
    if AllDigits(text) then Some(DigitsValue(text)) else odd(text)
  }

  predicate IsSafe(n: Option<int>) {
    n.Some? && 0 <= n.value <= MAX_SAFE_INTEGER
  }

  /** The size a header line announces when it is `id blob size` for this id; further
      fields are ignored. */
  function HeaderSize(header: Bytes, id: Bytes, odd: Bytes -> Option<int>): Option<nat> {
    var (reportedId, afterId) := NextField(header);
    if reportedId != id || afterId == None then None
    else
      var (kind, afterKind) := NextField(afterId.value);
      if kind != BLOB || afterKind == None then None
      else
        var size := NumberOf(NextField(afterKind.value).0, odd);
        if IsSafe(size) then Some(size.value) else None
  }

  /** The content of the frame of `id` at the head of `rest`, and what follows the frame. */
  function Frame(rest: Bytes, id: Bytes, odd: Bytes -> Option<int>): (r: Option<(Bytes, Bytes)>)
    ensures r.Some? ==> |r.value.1| < |rest|
  {
    var headerEnd := IndexOf(rest, LF);
    if headerEnd == |rest| then None
    else
      var size := HeaderSize(rest[..headerEnd], id, odd);
      if size == None then None else Content(rest, headerEnd + 1, size.value)
  }

  /** The `size` bytes from `start` on when a line feed ends them, and what follows it. */
  function Content(s: Bytes, start: nat, size: nat): (r: Option<(Bytes, Bytes)>)
    requires start <= |s|
    ensures r.Some? ==> |r.value.1| < |s|
  {
    var end := start + size;
    if end >= |s| || s[end] != LF then None else Some((s[start..end], s[end + 1..]))
  }

  lemma {:induction false} ContentShift(s: Bytes, offset: nat, start: nat, size: nat)
    requires offset <= start <= |s|
    ensures Content(s[offset..], start - offset, size) == Content(s, start, size)
  {
    var end := start + size;
    if end < |s| {
      assert s[offset..][start - offset..end - offset] == s[start..end];
      assert s[offset..][end - offset + 1..] == s[end + 1..];
    }
  }

  /** What the loop does with the rest of the stream: the contents audited in order,
      whether a finding is reported, and the bytes left over. */
  datatype Audit = Audit(audited: seq<Bytes>, finding: bool, left: Bytes)

  function AuditRest(rest: Bytes, ids: seq<Bytes>, odd: Bytes -> Option<int>): Audit {
    if ids == [] then Audit([], false, rest)
    else match Frame(rest, ids[0], odd)
      case None => Audit([], true, rest)
      case Some((content, next)) =>
        Prepend([content], AuditRest(next, ids[1..], odd))
  }

  /** Reads the header line at `offset`: where the content starts and its announced size. */
  method ReadHeader(contents: Bytes, offset: nat, id: Bytes, odd: Bytes -> Option<int>) returns (start: nat, size: Option<nat>)
    requires offset <= |contents|
    ensures offset <= start <= |contents|
    ensures Frame(contents[offset..], id, odd)
         == if size == None then None else Content(contents[offset..], start - offset, size.value)
  {
    start := offset + IndexOf(contents[offset..], LF);
    if start == |contents| {
      return start, None;
    }
    HeaderShift(contents, offset, start);
    size := HeaderSize(contents[offset..start], id, odd);
    start := start + 1;
  }

  /** One round of the loop at `offset`: the content and where the next frame starts. */
  method ReadFrame(contents: Bytes, offset: nat, id: Bytes, odd: Bytes -> Option<int>)
    returns (found: bool, content: Bytes, next: nat)
    requires offset <= |contents|
    ensures !found ==> Frame(contents[offset..], id, odd) == None
    ensures found ==> next <= |contents| && Frame(contents[offset..], id, odd) == Some((content, contents[next..]))
  {
    var contentStart, size := ReadHeader(contents, offset, id, odd);
    if size == None {
      return false, [], offset;
    }
    var contentEnd := contentStart + size.value;
    ContentShift(contents, offset, contentStart, size.value);
    if contentEnd >= |contents| || contents[contentEnd] != LF {
      return false, [], offset;
    }
    return true, contents[contentStart..contentEnd], contentEnd + 1;
  }

  lemma {:induction false} HeaderShift(s: Bytes, offset: nat, end: nat)
    requires offset <= end <= |s|
    ensures s[offset..][..end - offset] == s[offset..end]
  {
  }

  method AuditStream(contents: Bytes, ids: seq<Bytes>, odd: Bytes -> Option<int>)
    returns (audited: seq<Bytes>, finding: bool, offset: nat)
    ensures offset <= |contents|
    ensures Audit(audited, finding, contents[offset..]) == AuditRest(contents, ids, odd)
  {
    audited, finding, offset := [], false, 0;
    ghost var final := AuditRest(contents, ids, odd);
    assert contents[0..] == contents && ids[0..] == ids;
    Append([], final.audited);
    for k := 0 to |ids|
      invariant offset <= |contents|
      invariant Prepend(audited, AuditRest(contents[offset..], ids[k..], odd)) == final
    {
      assert ids[k..][1..] == ids[k + 1..];
      var found, content, next := ReadFrame(contents, offset, ids[k], odd);
      Append(audited, []);
      if !found {
        return audited, true, offset;
      }
      PrependOne(audited, content, AuditRest(contents[next..], ids[k + 1..], odd));
      audited := audited + [content];
      offset := next;
    }
    Append(audited, []);
  }

  function Prepend(front: seq<Bytes>, tail: Audit): Audit {
    tail.(audited := front + tail.audited)
  }

  lemma {:induction false} PrependOne(front: seq<Bytes>, content: Bytes, tail: Audit)
    ensures Prepend(front, Prepend([content], tail)) == Prepend(front + [content], tail)
  {
    assert front + ([content] + tail.audited) == (front + [content]) + tail.audited;
  }

  lemma {:induction false} Append<T>(a: seq<T>, b: seq<T>)
    ensures b == [] ==> a + b == a
    ensures a == [] ==> a + b == b
  {
  }

  datatype Blob = Blob(id: Bytes, content: Bytes)

  /** An object id holds no separator, and a buffer no more bytes than a safe integer counts. */
  predicate Printable(blob: Blob) {
    SP !in blob.id && LF !in blob.id && |blob.content| <= MAX_SAFE_INTEGER
  }

  function Header(blob: Blob): Bytes {
    blob.id + ([SP] + (BLOB + ([SP] + Decimal(|blob.content|))))
  }

  /** `id blob size LF content LF` for each blob in order. */
  function Print(blobs: seq<Blob>): Bytes {
    if blobs == [] then [] else Framed(Header(blobs[0]), blobs[0].content, Print(blobs[1..]))
  }

  function Ids(blobs: seq<Blob>): (ids: seq<Bytes>)
    ensures |ids| == |blobs| && forall i :: 0 <= i < |blobs| ==> ids[i] == blobs[i].id
  {
    if blobs == [] then [] else [blobs[0].id] + Ids(blobs[1..])
  }

  function Contents(blobs: seq<Blob>): (contents: seq<Bytes>)
    ensures |contents| == |blobs| && forall i :: 0 <= i < |blobs| ==> contents[i] == blobs[i].content
  {
    if blobs == [] then [] else [blobs[0].content] + Contents(blobs[1..])
  }

  lemma {:induction false} IndexOfFirst(before: Bytes, b: Byte, after: Bytes)
    requires b !in before
    ensures IndexOf(before + ([b] + after), b) == |before|
    ensures (before + ([b] + after))[..|before|] == before
    ensures (before + ([b] + after))[|before| + 1..] == after
  {
    var s := before + ([b] + after);
    assert s[..|before|] == before && s[|before|] == b;
  }

  lemma {:induction false} NoIndex(s: Bytes, b: Byte)
    requires b !in s
    ensures IndexOf(s, b) == |s|
  {
  }

  lemma {:induction false} HeaderReads(blob: Blob, odd: Bytes -> Option<int>)
    requires Printable(blob)
    ensures HeaderSize(Header(blob), blob.id, odd) == Some(|blob.content|) && LF !in Header(blob)
  {
    var digits := Decimal(|blob.content|);
    IndexOfFirst(blob.id, SP, BLOB + ([SP] + digits));
    IndexOfFirst(BLOB, SP, digits);
    NoIndex(digits, SP);
  }

  /** Header, line feed, content, line feed and what follows. */
  function Framed(header: Bytes, content: Bytes, next: Bytes): Bytes {
    header + ([LF] + (content + ([LF] + next)))
  }

  lemma {:induction false} FramedParts(header: Bytes, content: Bytes, next: Bytes)
    requires LF !in header
    ensures var s, end := Framed(header, content, next), |header| + 1 + |content|;
            && IndexOf(s, LF) == |header| && s[..|header|] == header
            && end < |s| && s[|header| + 1..end] == content && s[end] == LF && s[end + 1..] == next
  {
    IndexOfFirst(header, LF, content + ([LF] + next));
  }

  lemma {:induction false} FramedReads(header: Bytes, content: Bytes, next: Bytes, id: Bytes, odd: Bytes -> Option<int>)
    requires LF !in header && HeaderSize(header, id, odd) == Some(|content|)
    ensures Frame(Framed(header, content, next), id, odd) == Some((content, next))
  {
    FramedParts(header, content, next);
  }

  lemma {:induction false} FrameReads(blob: Blob, rest: Bytes, odd: Bytes -> Option<int>)
    requires Printable(blob)
    ensures Frame(Framed(Header(blob), blob.content, rest), blob.id, odd) == Some((blob.content, rest))
  {
    HeaderReads(blob, odd);
    FramedReads(Header(blob), blob.content, rest, blob.id, odd);
  }

  /** The loop undoes the framing, whatever bytes follow and whatever the blobs hold:
      every blob's content in order, no finding, and just the following bytes left. */
  lemma {:induction false} AuditUndoesPrint(blobs: seq<Blob>, tail: Bytes, more: seq<Bytes>, odd: Bytes -> Option<int>)
    requires forall i :: 0 <= i < |blobs| ==> Printable(blobs[i])
    ensures AuditRest(Print(blobs) + tail, Ids(blobs) + more, odd) ==
            Prepend(Contents(blobs), AuditRest(tail, more, odd))
    decreases |blobs|
  {
    if blobs == [] {
      Append(Print(blobs), tail);
      Append(Ids(blobs), more);
      Append(Contents(blobs), AuditRest(tail, more, odd).audited);
    } else {
      var rest := Print(blobs[1..]) + tail;
      PrintHead(blobs, tail);
      FrameReads(blobs[0], rest, odd);
      AuditUndoesPrint(blobs[1..], tail, more, odd);
      IdsHead(blobs, more);
      PrependPrepend(blobs[0].content, Contents(blobs[1..]), AuditRest(tail, more, odd));
    }
  }

  lemma {:induction false} PrependPrepend(content: Bytes, contents: seq<Bytes>, tail: Audit)
    ensures Prepend([content], Prepend(contents, tail)) == Prepend([content] + contents, tail)
  {
    assert [content] + (contents + tail.audited) == ([content] + contents) + tail.audited;
  }

  lemma {:induction false} IdsHead(blobs: seq<Blob>, more: seq<Bytes>)
    requires blobs != []
    ensures var ids := Ids(blobs) + more; ids != [] && ids[0] == blobs[0].id && ids[1..] == Ids(blobs[1..]) + more
  {
  }

  lemma {:induction false} PrintHead(blobs: seq<Blob>, tail: Bytes)
    requires blobs != []
    ensures Print(blobs) + tail == Framed(Header(blobs[0]), blobs[0].content, Print(blobs[1..]) + tail)
  {
  }

  /** A stream of exactly these frames is consumed to its end. */
  lemma {:induction false} WholeStream(blobs: seq<Blob>, odd: Bytes -> Option<int>)
    requires forall i :: 0 <= i < |blobs| ==> Printable(blobs[i])
    ensures AuditRest(Print(blobs), Ids(blobs), odd) == Audit(Contents(blobs), false, [])
  {
    AuditUndoesPrint(blobs, [], [], odd);
    Append(Print(blobs), []);
    Append(Ids(blobs), []);
    Append(Contents(blobs), []);
  }

  /** At the first place where the next id's frame is missing the loop stops with a
      finding, having audited exactly the earlier blobs. */
  lemma {:induction false} StopsAtMismatch(blobs: seq<Blob>, bad: Bytes, id: Bytes, more: seq<Bytes>, odd: Bytes -> Option<int>)
    requires forall i :: 0 <= i < |blobs| ==> Printable(blobs[i])
    requires Frame(bad, id, odd) == None
    ensures AuditRest(Print(blobs) + bad, Ids(blobs) + ([id] + more), odd) == Audit(Contents(blobs), true, bad)
  {
    AuditUndoesPrint(blobs, bad, [id] + more, odd);
    assert ([id] + more)[0] == id;
    Append(Contents(blobs), []);
  }

  /** Two different lists of contents never print alike under the same ids. */
  lemma {:induction false} PrintInjective(blobs: seq<Blob>, other: seq<Blob>)
    requires forall i :: 0 <= i < |blobs| ==> Printable(blobs[i])
    requires forall i :: 0 <= i < |other| ==> Printable(other[i])
    requires Ids(blobs) == Ids(other) && Print(blobs) == Print(other)
    ensures blobs == other
  {
    WholeStream(blobs, _ => None);
    WholeStream(other, _ => None);
    forall i | 0 <= i < |blobs| ensures blobs[i] == other[i] {
      assert Ids(blobs)[i] == Ids(other)[i] && Contents(blobs)[i] == Contents(other)[i];
    }
  }

  /** A frame is accepted exactly when a line that announces the size of the content for
      this id stands in front of the content and a line feed behind it. */
  lemma {:induction false} FrameIff(rest: Bytes, id: Bytes, content: Bytes, next: Bytes, odd: Bytes -> Option<int>)
    ensures Frame(rest, id, odd) == Some((content, next)) <==>
            exists header :: LF !in header && rest == Framed(header, content, next) &&
                             HeaderSize(header, id, odd) == Some(|content|)
  {
    if Frame(rest, id, odd) == Some((content, next)) {
      FrameParts(rest, id, content, next, odd);
    }
    forall header | LF !in header && rest == Framed(header, content, next) &&
                    HeaderSize(header, id, odd) == Some(|content|)
      ensures Frame(rest, id, odd) == Some((content, next))
    {
      FramedReads(header, content, next, id, odd);
    }
  }

  lemma {:induction false} FrameParts(rest: Bytes, id: Bytes, content: Bytes, next: Bytes, odd: Bytes -> Option<int>)
    requires Frame(rest, id, odd) == Some((content, next))
    ensures var header := rest[..IndexOf(rest, LF)];
            LF !in header && rest == Framed(header, content, next) && HeaderSize(header, id, odd) == Some(|content|)
  {
    Reframe(rest, IndexOf(rest, LF), |content|, content, next);
  }

  lemma {:induction false} Reframe(s: Bytes, h: nat, size: nat, content: Bytes, next: Bytes)
    requires h < |s| && s[h] == LF && Content(s, h + 1, size) == Some((content, next))
    ensures s == Framed(s[..h], content, next)
  {
  }

  // ----- The header line

  /** A space and what stands behind it, or nothing. */
  function Behind(more: Option<Bytes>): Bytes {
    match more case None => [] case Some(text) => [SP] + text
  }

  lemma {:induction false} FieldIs(field: Bytes, more: Option<Bytes>)
    requires SP !in field
    ensures NextField(field + Behind(more)) == (field, more)
  {
    match more
    case None =>
      assert field + Behind(None) == field;
      NoIndex(field, SP);
    case Some(text) => IndexOfFirst(field, SP, text);
  }

  lemma {:induction false} FieldsJoin(s: Bytes)
    ensures var (field, more) := NextField(s); SP !in field && s == field + Behind(more)
  {
    var i := IndexOf(s, SP);
    if i < |s| { assert s == s[..i] + ([SP] + s[i + 1..]); }
  }

  /** The line announces `n` bytes for the object: its id, `blob` and a number that is a safe
      integer, with single spaces between; further fields may follow. */
  predicate Announces(header: Bytes, id: Bytes, text: Bytes, more: Option<Bytes>, n: nat, odd: Bytes -> Option<int>) {
    && SP !in id && SP !in text
    && header == id + ([SP] + ([98, 108, 111, 98] + ([SP] + (text + Behind(more)))))
    && n <= 9007199254740991
    && Some(n as int) == if AllDigits(text) then Some(DigitsValue(text)) else odd(text)
  }

  lemma {:induction false} HeaderIff(header: Bytes, id: Bytes, n: nat, odd: Bytes -> Option<int>)
    ensures HeaderSize(header, id, odd) == Some(n) <==> exists text, more :: Announces(header, id, text, more, n, odd)
  {
    forall text, more | Announces(header, id, text, more, n, odd) ensures HeaderSize(header, id, odd) == Some(n) {
      AnnouncedReads(header, id, text, more, n, odd);
    }
    if HeaderSize(header, id, odd) == Some(n) {
      HeaderAnnounces(header, id, n, odd);
    }
  }

  lemma {:induction false} AnnouncedReads(header: Bytes, id: Bytes, text: Bytes, more: Option<Bytes>, n: nat, odd: Bytes -> Option<int>)
    requires Announces(header, id, text, more, n, odd)
    ensures HeaderSize(header, id, odd) == Some(n)
  {
    var afterKind := text + Behind(more);
    FieldIs(id, Some(BLOB + Behind(Some(afterKind))));
    FieldIs(BLOB, Some(afterKind));
    FieldIs(text, more);
    FieldsMakeSize(header, id, BLOB + Behind(Some(afterKind)), afterKind, text, odd);
  }

  lemma {:induction false} FieldsMakeSize(header: Bytes, id: Bytes, afterId: Bytes, afterKind: Bytes, text: Bytes, odd: Bytes -> Option<int>)
    requires NextField(header) == (id, Some(afterId)) && NextField(afterId) == (BLOB, Some(afterKind)) && NextField(afterKind).0 == text
    ensures HeaderSize(header, id, odd) == var size := NumberOf(text, odd); if IsSafe(size) then Some(size.value) else None
  {
  }

  lemma {:induction false} HeaderAnnounces(header: Bytes, id: Bytes, n: nat, odd: Bytes -> Option<int>)
    requires HeaderSize(header, id, odd) == Some(n)
    ensures exists text, more :: Announces(header, id, text, more, n, odd)
  {
    var afterId := NextField(header).1.value;
    var afterKind := NextField(afterId).1.value;
    var (text, more) := NextField(afterKind);
    FieldsJoin(header);
    FieldsJoin(afterId);
    FieldsJoin(afterKind);
    assert Announces(header, id, text, more, n, odd);
  }

  /** One line of the metadata listing: not a blob of the listing, or a blob and its size. */
  datatype Listed = Other | Sized(id: Bytes, size: Option<int>)

  /** The blobs whose bytes the second call asks for; None when the total is over budget. */
  function Select(lines: seq<Listed>, total: int): (r: Option<seq<(Bytes, int)>>)
    decreases |lines|
  {
    if lines == [] then Some([])
    else if lines[0].Other? || !IsSafe(lines[0].size) || lines[0].size.value > MAX_FILE_BYTES then Select(lines[1..], total)
    else if total + lines[0].size.value > MAX_REACHABLE_BLOB_BYTES then None
    else match Select(lines[1..], total + lines[0].size.value)
      case None => None
      case Some(rest) => Some([(lines[0].id, lines[0].size.value)] + rest)
  }

  function TotalSize(chosen: seq<(Bytes, int)>): int {
    if chosen == [] then 0 else chosen[0].1 + TotalSize(chosen[1..])
  }

  /** One finding for each unreadable or oversized blob up to the end or up to the line
      that breaks the total, and one for that line. */
  function SizeFindings(lines: seq<Listed>, total: int): nat
    decreases |lines|
  {
    if lines == [] then 0
    else if lines[0].Other? then SizeFindings(lines[1..], total)
    else if !IsSafe(lines[0].size) || lines[0].size.value > MAX_FILE_BYTES then 1 + SizeFindings(lines[1..], total)
    else if total + lines[0].size.value > MAX_REACHABLE_BLOB_BYTES then 1
    else SizeFindings(lines[1..], total + lines[0].size.value)
  }

  method SelectBlobs(lines: seq<Listed>) returns (chosen: Option<seq<(Bytes, int)>>, findings: nat)
    ensures chosen == Select(lines, 0) && findings == SizeFindings(lines, 0)
  {
    var blobs: seq<(Bytes, int)> := [];
    var totalBlobBytes := 0;
    findings := 0;
    assert lines[0..] == lines;
    if Select(lines, 0).Some? {
      Append([], Select(lines, 0).value);
    }
    for i := 0 to |lines|
      invariant Select(lines, 0) == PrependChosen(blobs, Select(lines[i..], totalBlobBytes))
      invariant SizeFindings(lines, 0) == findings + SizeFindings(lines[i..], totalBlobBytes)
    {
      assert lines[i..][1..] == lines[i + 1..];
      if lines[i].Other? {
        continue;
      }
      var size := lines[i].size;
      if !IsSafe(size) {
        findings := findings + 1;
        continue;
      }
      if size.value > MAX_FILE_BYTES {
        findings := findings + 1;
        continue;
      }
      totalBlobBytes := totalBlobBytes + size.value;
      if totalBlobBytes > MAX_REACHABLE_BLOB_BYTES {
        return None, findings + 1;
      }
      ghost var rest := Select(lines[i + 1..], totalBlobBytes);
      if rest.Some? {
        assert blobs + ([(lines[i].id, size.value)] + rest.value) == (blobs + [(lines[i].id, size.value)]) + rest.value;
      }
      blobs := blobs + [(lines[i].id, size.value)];
    }
    assert blobs + [] == blobs;
    return Some(blobs), findings;
  }

  function PrependChosen(front: seq<(Bytes, int)>, rest: Option<seq<(Bytes, int)>>): Option<seq<(Bytes, int)>> {
    if rest == None then None else Some(front + rest.value)
  }

  /** The sum of all sizes that count against the budget. */
  function BudgetedSize(lines: seq<Listed>): (n: int)
    ensures n >= 0
    decreases |lines|
  {
    if lines == [] then 0
    else if lines[0].Other? || !IsSafe(lines[0].size) || lines[0].size.value > MAX_FILE_BYTES then BudgetedSize(lines[1..])
    else lines[0].size.value + BudgetedSize(lines[1..])
  }

  /** Bytes are asked for exactly when the budgeted sizes fit the total, and then no blob
      is over the file limit and their sum is the budgeted size. */
  lemma {:induction false} SelectWithinBudget(lines: seq<Listed>, total: int)
    requires 0 <= total <= MAX_REACHABLE_BLOB_BYTES
    ensures Select(lines, total).Some? <==> total + BudgetedSize(lines) <= MAX_REACHABLE_BLOB_BYTES
    ensures Select(lines, total).Some? ==>
              && TotalSize(Select(lines, total).value) == BudgetedSize(lines)
              && forall i :: 0 <= i < |Select(lines, total).value| ==>
                   0 <= Select(lines, total).value[i].1 <= MAX_FILE_BYTES
    decreases |lines|
  {
    if lines != [] {
      if lines[0].Other? || !IsSafe(lines[0].size) || lines[0].size.value > MAX_FILE_BYTES {
        SelectWithinBudget(lines[1..], total);
      } else if total + lines[0].size.value <= MAX_REACHABLE_BLOB_BYTES {
        SelectWithinBudget(lines[1..], total + lines[0].size.value);
        var rest := Select(lines[1..], total + lines[0].size.value);
        if rest.Some? {
          assert Select(lines, total).value[1..] == rest.value;
        }
      }
    }
  }

  // ----- The selection, line by line

  /** The line counts against the budget: a blob with a safe size of at most 10 MiB. */
  predicate Counts(line: Listed) {
    line.Sized? && line.size.Some? && 0 <= line.size.value <= 10485760
  }

  /** The budgeted bytes of the first `n` lines. */
  function Budgeted(lines: seq<Listed>, n: nat): (total: int)
    requires n <= |lines|
    ensures total >= 0
  {
    if n == 0 then 0 else Budgeted(lines, n - 1) + if Counts(lines[n - 1]) then lines[n - 1].size.value else 0
  }

  /** How many of the first `n` lines count. */
  function Counted(lines: seq<Listed>, n: nat): nat
    requires n <= |lines|
  {
    if n == 0 then 0 else Counted(lines, n - 1) + if Counts(lines[n - 1]) then 1 else 0
  }

  /** How many of the first `n` lines are blobs that do not count. */
  function Refused(lines: seq<Listed>, n: nat): nat
    requires n <= |lines|
  {
    if n == 0 then 0 else Refused(lines, n - 1) + if lines[n - 1].Sized? && !Counts(lines[n - 1]) then 1 else 0
  }

  lemma {:induction false} HeadApart(lines: seq<Listed>, n: nat)
    requires 0 < n <= |lines|
    ensures Budgeted(lines, n) == (if Counts(lines[0]) then lines[0].size.value else 0) + Budgeted(lines[1..], n - 1)
    ensures Counted(lines, n) == (if Counts(lines[0]) then 1 else 0) + Counted(lines[1..], n - 1)
    ensures Refused(lines, n) == (if lines[0].Sized? && !Counts(lines[0]) then 1 else 0) + Refused(lines[1..], n - 1)
    decreases n
  {
    if n > 1 {
      HeadApart(lines, n - 1);
      assert lines[1..][n - 2] == lines[n - 1];
    }
  }

  /** The line at which the total goes over 256 MiB, or the end. */
  predicate BreaksAt(lines: seq<Listed>, total: int, k: nat)
    requires k <= |lines|
  {
    && (forall n :: 0 <= n <= k ==> total + Budgeted(lines, n) <= 268435456)
    && (k < |lines| ==> total + Budgeted(lines, k + 1) > 268435456)
  }

  lemma {:induction false} BreaksTail(lines: seq<Listed>, total: int, k: nat)
    requires lines != [] && k <= |lines| && BreaksAt(lines, total, k) && total <= 268435456
    ensures k > 0 ==> BreaksAt(lines[1..], total + if Counts(lines[0]) then lines[0].size.value else 0, k - 1)
    ensures k == 0 <==> total + (if Counts(lines[0]) then lines[0].size.value else 0) > 268435456
  {
    assert Budgeted(lines, 1) == Budgeted(lines, 0) + if Counts(lines[0]) then lines[0].size.value else 0;
    if k > 0 {
      forall n | 0 <= n <= k - 1
        ensures total + (if Counts(lines[0]) then lines[0].size.value else 0) + Budgeted(lines[1..], n) <= 268435456
      {
        HeadApart(lines, n + 1);
      }
      if k < |lines| { HeadApart(lines, k + 1); }
    }
  }

  /** Nothing is asked for exactly when some line breaks the total. Otherwise the answer holds,
      in order, the ids and sizes of the lines that count. There is one finding for each blob
      that does not count up to there, and one for the line that breaks the total. */
  lemma {:induction false} SelectedAre(lines: seq<Listed>, total: int, k: nat)
    requires k <= |lines| && 0 <= total <= 268435456 && BreaksAt(lines, total, k)
    ensures Select(lines, total).Some? <==> k == |lines|
    ensures k == |lines| ==>
              var chosen := Select(lines, total).value;
              && |chosen| == Counted(lines, |lines|)
              && forall i :: 0 <= i < |lines| && Counts(lines[i]) ==>
                   Counted(lines, i) < |chosen| && chosen[Counted(lines, i)] == (lines[i].id, lines[i].size.value)
    ensures SizeFindings(lines, total) == Refused(lines, k) + if k < |lines| then 1 else 0
    decreases |lines|
  {
    if lines != [] {
      BreaksTail(lines, total, k);
      var now := total + if Counts(lines[0]) then lines[0].size.value else 0;
      if k > 0 {
        HeadApart(lines, k);
        SelectedAre(lines[1..], now, k - 1);
        if k == |lines| { SelectedHead(lines, total, now); }
      }
    }
  }

  lemma {:induction false} SelectedHead(lines: seq<Listed>, total: int, now: int)
    requires lines != [] && now == total + (if Counts(lines[0]) then lines[0].size.value else 0) <= 268435456
    requires Select(lines[1..], now).Some?
    requires var rest := Select(lines[1..], now).value;
             && |rest| == Counted(lines[1..], |lines| - 1)
             && forall i :: 0 <= i < |lines| - 1 && Counts(lines[1..][i]) ==>
                  Counted(lines[1..], i) < |rest| && rest[Counted(lines[1..], i)] == (lines[1..][i].id, lines[1..][i].size.value)
    ensures Select(lines, total).Some?
    ensures var chosen := Select(lines, total).value;
            && |chosen| == Counted(lines, |lines|)
            && forall i :: 0 <= i < |lines| && Counts(lines[i]) ==>
                 Counted(lines, i) < |chosen| && chosen[Counted(lines, i)] == (lines[i].id, lines[i].size.value)
  {
    var chosen, rest := Select(lines, total).value, Select(lines[1..], now).value;
    HeadApart(lines, |lines|);
    assert chosen == if Counts(lines[0]) then [(lines[0].id, lines[0].size.value)] + rest else rest;
    forall i | 0 <= i < |lines| && Counts(lines[i])
      ensures Counted(lines, i) < |chosen| && chosen[Counted(lines, i)] == (lines[i].id, lines[i].size.value)
    {
      if i > 0 {
        HeadApart(lines, i);
        assert lines[1..][i - 1] == lines[i];
      }
    }
  }
}
