/** The three loops that cut a text to a byte limit (cli/commands/evolve.ts,
    cli/commands/ux.ts, cli/commands/workbench.ts) and the one function they compute. */
module BoundedText {
  import opened Utf8

  const DOTS: JsString := [46, 46, 46]
  const DONE_DIAGNOSTIC_MAX_BYTES: nat := 512

  /** The length in code units of the longest prefix of whole code points whose
      UTF-8 form takes at most `budget` bytes. */
  function Fit(s: JsString, budget: int): (k: nat)
    ensures k <= |s| && CodePointBoundary(s, k)
    decreases |s|, 1
  {
    if s == [] || CodePointBytes(s) > budget then 0 else FitOn(s, budget)
  }

  /** The first code point fits. */
  function FitOn(s: JsString, budget: int): (k: nat)
    requires s != [] && CodePointBytes(s) <= budget
    ensures k <= |s| && CodePointBoundary(s, k)
    decreases |s|, 0
  {
    var w := Width(s);
    var k := Fit(s[w..], budget - CodePointBytes(s));
    assert CodePointBoundary(s, w + k) by {
      if k > 0 && w + k < |s| { assert s[w..][k - 1] == s[w + k - 1] && s[w..][k] == s[w + k]; }
    }
    w + k
  }

  function Truncate(s: JsString, maxBytes: int): JsString {
    if ByteLength(s) <= maxBytes then s else s[..Fit(s, maxBytes - 3)] + DOTS
  }

  lemma DotsBytes()
    ensures ByteLength(DOTS) == 3
  {
    assert DOTS[1..][1..] == DOTS[2..] && DOTS[2..][1..] == [];
    assert ByteLength(DOTS[2..]) == 1;
    assert ByteLength(DOTS[1..]) == 2;
  }

  lemma {:induction false} AppendDots(s: JsString)
    ensures ByteLength(s + DOTS) == ByteLength(s) + 3
  {
    var t := s + DOTS;
    ByteLengthSplit(t, |s|);
    assert t[..|s|] == s && t[|s|..] == DOTS;
    DotsBytes();
  }

  lemma {:induction false} FitByLength(s: JsString, budget: int)
    ensures budget >= 0 ==> ByteLength(s[..Fit(s, budget)]) <= budget
    ensures forall k :: 0 <= k <= |s| && CodePointBoundary(s, k) && ByteLength(s[..k]) <= budget ==>
              k <= Fit(s, budget)
    decreases |s|
  {
    if s != [] {
      var w, size := Width(s), CodePointBytes(s);
      var t := s[w..];
      if size <= budget {
        FitByLength(t, budget - size);
        FitGoesOn(s, budget);
        ByteLengthPrefix(s, Fit(s, budget));
        assert s[w..][..Fit(s, budget) - w] == t[..Fit(t, budget - size)];
      }
      forall k | 0 <= k <= |s| && CodePointBoundary(s, k) && ByteLength(s[..k]) <= budget
        ensures k <= Fit(s, budget)
      {
        if k > 0 {
          BoundaryInRest(s, k);
          ByteLengthPrefix(s, k);
        }
      }
    }
  }

  /** The encoded prefix found fits the budget, and that of every longer prefix of whole code
      points does not. */
  lemma {:induction false} FitIsLongest(s: JsString, budget: int)
    ensures budget >= 0 ==> |Encode(s[..Fit(s, budget)])| <= budget
    ensures forall k :: Fit(s, budget) < k <= |s| && CodePointBoundary(s, k) ==> |Encode(s[..k])| > budget
  {
    FitByLength(s, budget);
    ByteLengthIsEncoded(s[..Fit(s, budget)]);
    forall k | Fit(s, budget) < k <= |s| && CodePointBoundary(s, k) ensures |Encode(s[..k])| > budget {
      ByteLengthIsEncoded(s[..k]);
    }
  }

  /** The encoded result respects the limit exactly when the encoded text already did or the
      limit leaves room for the dots. */
  lemma {:induction false} TruncateWithinLimitIff(s: JsString, maxBytes: int)
    ensures |Encode(Truncate(s, maxBytes))| <= maxBytes <==> (|Encode(s)| <= maxBytes || maxBytes >= 3)
  {
    ByteLengthIsEncoded(s);
    ByteLengthIsEncoded(Truncate(s, maxBytes));
    if ByteLength(s) > maxBytes {
      FitByLength(s, maxBytes - 3);
      AppendDots(s[..Fit(s, maxBytes - 3)]);
    }
  }

  /** A text that fits is left alone; any other becomes the longest prefix of whole code points
      that leaves room for three dots, or nothing, and the dots. */
  lemma {:induction false} TruncateMeans(s: JsString, maxBytes: int) returns (k: nat)
    ensures |Encode(s)| <= maxBytes ==> Truncate(s, maxBytes) == s
    ensures |Encode(s)| > maxBytes ==>
              && k <= |s| && CodePointBoundary(s, k) && Truncate(s, maxBytes) == s[..k] + [46, 46, 46]
              && (k == 0 || |Encode(s[..k])| <= maxBytes - 3)
              && forall j :: k < j <= |s| && CodePointBoundary(s, j) ==> |Encode(s[..j])| > maxBytes - 3
  {
    ByteLengthIsEncoded(s);
    k := Fit(s, maxBytes - 3);
    FitIsLongest(s, maxBytes - 3);
    if maxBytes < 3 { FitIsNothing(s, maxBytes - 3); }
  }

  /** Cutting again changes nothing; below three bytes this holds only because the dots are kept. */
  lemma {:induction false} TruncateIdempotent(s: JsString, maxBytes: int)
    ensures Truncate(Truncate(s, maxBytes), maxBytes) == Truncate(s, maxBytes)
  {
    TruncateWithinLimitIff(s, maxBytes);
    ByteLengthIsEncoded(s);
    ByteLengthIsEncoded(Truncate(s, maxBytes));
    if ByteLength(s) > maxBytes && maxBytes < 3 {
      FitIsNothing(s, maxBytes - 3);
      FitIsNothing(DOTS, maxBytes - 3);
      assert s[..0] + DOTS == DOTS && DOTS[..0] + DOTS == DOTS;
    }
  }

  lemma FitIsNothing(s: JsString, budget: int)
    requires budget < 1
    ensures Fit(s, budget) == 0
  {
  }

  /** The next code point of the loop, in front of what is still to come. */
  lemma NextCodePoint(s: JsString, i: nat)
    requires i < |s| && CodePointBoundary(s, i)
    ensures var w := Width(s[i..]);
            && CodePointBoundary(s, i + w)
            && ByteLength(s[i..i + w]) == CodePointBytes(s[i..])
            && ByteLength(s[..i + w]) == ByteLength(s[..i]) + ByteLength(s[i..i + w])
  {
    var rest := s[i..];
    var w := Width(rest);
    var part := s[..i + w];
    assert CodePointBoundary(s, i + w) by {
      if i + w < |s| { assert rest[w - 1] == s[i + w - 1] && rest[w] == s[i + w]; }
    }
    assert CodePointBoundary(part, i);
    ByteLengthSplit(part, i);
    assert part[..i] == s[..i] && part[i..] == s[i..i + w] == rest[..w];
    ByteLengthPrefix(rest, w);
    assert rest[w..][..0] == [];
  }

  /** The state of a cutting loop that has kept `s[..i]`. */
  ghost predicate Keeping(s: JsString, i: nat, budget: int) {
    && i <= |s| && CodePointBoundary(s, i)
    && (i == 0 || ByteLength(s[..i]) <= budget)
    && Fit(s, budget) == i + Fit(s[i..], budget - ByteLength(s[..i]))
  }

  lemma {:induction false} KeepOneMore(s: JsString, i: nat, budget: int)
    requires Keeping(s, i, budget) && i < |s|
    requires ByteLength(s[..i]) + ByteLength(s[i..i + Width(s[i..])]) <= budget
    ensures Keeping(s, i + Width(s[i..]), budget)
  {
    var w, left := Width(s[i..]), budget - ByteLength(s[..i]);
    NextCodePoint(s, i);
    RestFits(s, i, left);
    assert left - CodePointBytes(s[i..]) == budget - ByteLength(s[..i + w]);
  }

  lemma {:induction false} RestFits(s: JsString, i: nat, budget: int)
    requires i < |s| && CodePointBytes(s[i..]) <= budget
    ensures Fit(s[i..], budget) == Width(s[i..]) + Fit(s[i + Width(s[i..])..], budget - CodePointBytes(s[i..]))
  {
    FitGoesOn(s[i..], budget);
    assert s[i..][Width(s[i..])..] == s[i + Width(s[i..])..];
  }

  lemma {:induction false} FitGoesOn(s: JsString, budget: int)
    requires s != [] && CodePointBytes(s) <= budget
    ensures Fit(s, budget) == Width(s) + Fit(s[Width(s)..], budget - CodePointBytes(s))
  {
  }

  lemma {:induction false} StopHere(s: JsString, i: nat, budget: int)
    requires Keeping(s, i, budget)
    requires i == |s| || ByteLength(s[..i]) + ByteLength(s[i..i + Width(s[i..])]) > budget
    ensures Fit(s, budget) == i
  {
    if i < |s| {
      NextCodePoint(s, i);
    }
  }

  /** One round of any of the loops: keep the next code point or stop for good. */
  lemma {:induction false} Round(s: JsString, i: nat, budget: int)
    requires Keeping(s, i, budget) && i < |s|
    ensures var w := Width(s[i..]);
            && s[..i] + s[i..i + w] == s[..i + w]
            && ByteLength(s[..i + w]) == ByteLength(s[..i]) + ByteLength(s[i..i + w])
            && (if ByteLength(s[..i + w]) <= budget then Keeping(s, i + w, budget) else Fit(s, budget) == i)
  {
    var w := Width(s[i..]);
    var kept, next := ByteLength(s[..i]), ByteLength(s[i..i + w]);
    NextCodePoint(s, i);
    Glue(s, i, w);
    if kept + next <= budget {
      KeepOneMore(s, i, budget);
    } else {
      StopHere(s, i, budget);
    }
  }

  /** The same round where the dots are counted with the text. */
  lemma {:induction false} DottedRound(s: JsString, i: nat, maxBytes: int)
    requires Keeping(s, i, maxBytes - 3) && i < |s|
    ensures var w := Width(s[i..]);
            && s[..i] + s[i..i + w] == s[..i + w]
            && (if ByteLength(s[..i] + s[i..i + w] + DOTS) <= maxBytes then Keeping(s, i + w, maxBytes - 3)
                else Fit(s, maxBytes - 3) == i)
  {
    Round(s, i, maxBytes - 3);
    AppendDots(s[..i + Width(s[i..])]);
  }

  lemma Glue<T>(s: seq<T>, i: nat, w: nat)
    requires i + w <= |s|
    ensures s[..i] + s[i..i + w] == s[..i + w]
  {
  }

  lemma KeptAll(s: JsString, budget: int)
    requires Keeping(s, |s|, budget)
    ensures Fit(s, budget) == |s|
  {
    StopHere(s, |s|, budget);
  }

  lemma KeptNothing(s: JsString, budget: int)
    ensures Keeping(s, 0, budget) && s[..0] == [] && ByteLength(s[..0]) == 0
  {
    assert s[0..] == s && s[..0] == [];
  }

  /** `Math.max(0, maxBytes - Buffer.byteLength("...", "utf8"))` */
  function ContentBudget(maxBytes: int): nat {
    if maxBytes - ByteLength(DOTS) < 0 then 0 else maxBytes - ByteLength(DOTS)
  }

  /** A negative budget keeps as little as a budget of nothing. */
  lemma ClampedBudget(s: JsString, maxBytes: int)
    ensures Fit(s, ContentBudget(maxBytes)) == Fit(s, maxBytes - 3)
  {
    DotsBytes();
  }

  /** cli/commands/evolve.ts: the loop counts bytes as it goes. */
  method CountingPrefix(value: JsString, contentBudget: nat) returns (result: JsString)
    ensures result == value[..Fit(value, contentBudget)]
  {
    result := [];
    var bytes := 0;
    var index := 0;
    KeptNothing(value, contentBudget);
    while index < |value|
      invariant index <= |value| && result == value[..index] && bytes == ByteLength(value[..index])
      invariant Keeping(value, index, contentBudget)
    {
      var width := Width(value[index..]);
      var codePoint := value[index..index + width];
      Round(value, index, contentBudget);
      var codePointBytes := ByteLength(codePoint);
      if bytes + codePointBytes > contentBudget {
        return;
      }
      result := result + codePoint;
      bytes := bytes + codePointBytes;
      index := index + width;
    }
    KeptAll(value, contentBudget);
  }

  method TruncateCounting(value: JsString, maxBytes: int) returns (r: JsString)
    ensures r == Truncate(value, maxBytes)
  {
    if ByteLength(value) <= maxBytes {
      return value;
    }
    var result := CountingPrefix(value, ContentBudget(maxBytes));
    ClampedBudget(value, maxBytes);
    r := result + DOTS;
  }

  /** cli/commands/ux.ts: encodes every candidate, dots included, afresh. */
  method TruncateReencoding(value: JsString, maxBytes: int) returns (r: JsString)
    ensures r == Truncate(value, maxBytes)
  {
    if ByteLength(value) <= maxBytes {
      return value;
    }
    var result: JsString := [];
    var index := 0;
    KeptNothing(value, maxBytes - 3);
    while index < |value|
      invariant index <= |value| && result == value[..index]
      invariant Keeping(value, index, maxBytes - 3)
    {
      var width := Width(value[index..]);
      var character := value[index..index + width];
      DottedRound(value, index, maxBytes);
      if ByteLength(result + character + DOTS) > maxBytes {
        return result + DOTS;
      }
      result := result + character;
      index := index + width;
    }
    KeptAll(value, maxBytes - 3);
    r := result + DOTS;
  }

  /** cli/commands/workbench.ts: encodes every candidate without the dots, against a
      fixed limit; `sanitized` is the diagnostic after redaction, `fallback` the text
      used for an empty one. */
  method BoundDoneDiagnostic(sanitized: JsString, fallback: JsString) returns (r: JsString)
    ensures r == if sanitized == [] then fallback else Truncate(sanitized, 512)
  {
    if ByteLength(sanitized) <= DONE_DIAGNOSTIC_MAX_BYTES {
      return if sanitized == [] then fallback else sanitized;
    }
    var bounded: JsString := [];
    var index := 0;
    KeptNothing(sanitized, DONE_DIAGNOSTIC_MAX_BYTES - 3);
    while index < |sanitized|
      invariant index <= |sanitized| && bounded == sanitized[..index]
      invariant Keeping(sanitized, index, DONE_DIAGNOSTIC_MAX_BYTES - 3)
    {
      var width := Width(sanitized[index..]);
      Round(sanitized, index, DONE_DIAGNOSTIC_MAX_BYTES - 3);
      var candidate := bounded + sanitized[index..index + width];
      if ByteLength(candidate) > DONE_DIAGNOSTIC_MAX_BYTES - 3 {
        return bounded + DOTS;
      }
      bounded := candidate;
      index := index + width;
    }
    KeptAll(sanitized, DONE_DIAGNOSTIC_MAX_BYTES - 3);
    r := bounded + DOTS;
  }
}
