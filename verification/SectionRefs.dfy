/** Section references `domain:path#section@anchor` (cli/core/section-ref.ts). */
module SectionRefs {
  import opened Wrappers

  const DOMAINS: seq<string> := ["adm", "pstr", "wb", "memory", "library", "spec", "adr"]

  datatype SectionRef = SectionRef(domain: string, path: string, section: Option<string>, anchor: Option<string>)

  /** `s.indexOf(c)`, with |s| for the -1 of a missing character. */
  function IndexOf(s: string, c: char): (i: nat)
    ensures i <= |s| && c !in s[..i] && (i < |s| ==> s[i] == c)
    ensures c in s <==> i < |s|
  {
    if s == [] || s[0] == c then 0
    else
      var i := 1 + IndexOf(s[1..], c);
      assert s[..i] == [s[0]] + s[1..][..i - 1];
      i
  }

  /** A mark and the part after it, or nothing. */
  function Tail(mark: char, part: Option<string>): string {
    match part case None => "" case Some(after) => [mark] + after
  }

  /** The part before the first `c`, and the part after it when there is a `c`. */
  function CutAt(s: string, c: char): (r: (string, Option<string>))
    ensures c !in r.0
    ensures s == r.0 + Tail(c, r.1)
  {
    var i := IndexOf(s, c);
    if i == |s| then (s, None) else (s[..i], Some(s[i + 1..]))
  }

  /** A present but empty part is dropped. */
  function NonEmpty(part: Option<string>): Option<string> {
    if part == Some("") then None else part
  }

  function Parse(ref: string): Option<SectionRef> {
    var (domain, afterColon) := CutAt(ref, ':');
    if afterColon == None || domain == "" || domain !in DOMAINS then None
    else
      var (beforeAt, anchor) := CutAt(afterColon.value, '@');
      var (path, section) := CutAt(beforeAt, '#');
      if path == "" then None else Some(SectionRef(domain, path, NonEmpty(section), NonEmpty(anchor)))
  }

  /** JavaScript's test of an optional string: undefined and "" both fail. */
  function Marked(mark: char, part: Option<string>): string {
    Tail(mark, NonEmpty(part))
  }

  function Format(ref: SectionRef): string {
    ref.domain + ":" + ref.path + Marked('#', ref.section) + Marked('@', ref.anchor)
  }

  /** The references a text can denote. */
  predicate Canonical(ref: SectionRef) {
    && ref.domain in DOMAINS
    && ref.path != "" && '#' !in ref.path && '@' !in ref.path
    && (ref.section.Some? ==> ref.section.value != "" && '@' !in ref.section.value)
    && (ref.anchor.Some? ==> ref.anchor.value != "")
  }

  lemma {:induction false} IndexUnique(s: string, c: char, i: nat)
    requires i <= |s| && c !in s[..i] && (i < |s| ==> s[i] == c)
    ensures IndexOf(s, c) == i
  {
    if i > 0 {
      assert s[..i] == [s[0]] + s[1..][..i - 1];
      IndexUnique(s[1..], c, i - 1);
    }
  }

  /** Only the first occurrence matters. */
  lemma {:induction false} CutUnique(before: string, c: char, after: Option<string>)
    requires c !in before
    ensures CutAt(before + Tail(c, after), c) == (before, after)
  {
    var s := before + Tail(c, after);
    match after
    case None => assert s == before == s[..|before|];
    case Some(rest) => Parts(before, c, rest);
    IndexUnique(s, c, |before|);
  }

  lemma {:induction false} Parts(before: string, c: char, rest: string)
    ensures var s := before + ([c] + rest);
            s[..|before|] == before && s[|before|] == c && s[|before| + 1..] == rest
  {
  }

  lemma {:induction false} DomainHasNoColon(domain: string)
    requires domain in DOMAINS
    ensures domain != "" && ':' !in domain
  {
  }

  lemma FormatShape(ref: SectionRef)
    ensures Format(ref) ==
            ref.domain + Tail(':', Some(ref.path + Marked('#', ref.section) + Marked('@', ref.anchor)))
  {
  }

  lemma {:induction false} CutsOfFormat(ref: SectionRef)
    requires '#' !in ref.path && '@' !in ref.path && ':' !in ref.domain
    requires ref.section.Some? ==> '@' !in ref.section.value
    ensures var rest := ref.path + Marked('#', ref.section) + Marked('@', ref.anchor);
            var beforeAt := ref.path + Marked('#', ref.section);
            && CutAt(Format(ref), ':') == (ref.domain, Some(rest))
            && CutAt(rest, '@') == (beforeAt, NonEmpty(ref.anchor))
            && CutAt(beforeAt, '#') == (ref.path, NonEmpty(ref.section))
  {
    var beforeAt := ref.path + Marked('#', ref.section);
    FormatShape(ref);
    CutUnique(ref.domain, ':', Some(beforeAt + Marked('@', ref.anchor)));
    CutUnique(beforeAt, '@', NonEmpty(ref.anchor));
    CutUnique(ref.path, '#', NonEmpty(ref.section));
  }

  lemma {:induction false} ParseOfCuts(text: string, rest: string, beforeAt: string, ref: SectionRef)
    requires CutAt(text, ':') == (ref.domain, Some(rest)) && ref.domain != "" && ref.domain in DOMAINS
    requires CutAt(rest, '@') == (beforeAt, ref.anchor) && CutAt(beforeAt, '#') == (ref.path, ref.section)
    requires ref.path != "" && NonEmpty(ref.section) == ref.section && NonEmpty(ref.anchor) == ref.anchor
    ensures Parse(text) == Some(ref)
  {
  }

  /** Parsing undoes formatting on canonical references. */
  lemma {:induction false} ParseFormat(ref: SectionRef)
    requires Canonical(ref)
    ensures Parse(Format(ref)) == Some(ref)
  {
    var beforeAt := ref.path + Marked('#', ref.section);
    DomainHasNoColon(ref.domain);
    CutsOfFormat(ref);
    ParseOfCuts(Format(ref), beforeAt + Marked('@', ref.anchor), beforeAt, ref);
  }

  /** Everything the parser accepts is canonical. */
  lemma ParsedIsCanonical(text: string)
    requires Parse(text).Some?
    ensures Canonical(Parse(text).value)
  {
    var rest := CutAt(text, ':').1.value;
    var (beforeAt, _) := CutAt(rest, '@');
    var (path, section) := CutAt(beforeAt, '#');
    assert beforeAt == path + Tail('#', section);
  }

  /** Parse undoes Format for the canonical references and for no other. */
  lemma ParseFormatIff(ref: SectionRef)
    ensures Parse(Format(ref)) == Some(ref) <==> Canonical(ref)
  {
    if Canonical(ref) {
      ParseFormat(ref);
    }
    if Parse(Format(ref)) == Some(ref) {
      ParsedIsCanonical(Format(ref));
    }
  }

  /** Formatting what was parsed and parsing again gives the same reference. */
  lemma ReparseStable(text: string)
    requires Parse(text).Some?
    ensures Parse(Format(Parse(text).value)) == Parse(text)
  {
    ParsedIsCanonical(text);
    ParseFormat(Parse(text).value);
  }

  lemma FormatInjective(ref: SectionRef, other: SectionRef)
    requires Canonical(ref) && Canonical(other) && Format(ref) == Format(other)
    ensures ref == other
  {
    ParseFormat(ref);
    ParseFormat(other);
  }

  /** A `#` with nothing before the `@` or the end, or an `@` with nothing after it. */
  predicate HasDanglingMark(text: string)
    requires Parse(text).Some?
  {
    var (beforeAt, anchor) := CutAt(CutAt(text, ':').1.value, '@');
    CutAt(beforeAt, '#').1 == Some("") || anchor == Some("")
  }

  /** Formatting gives the very text back exactly when no mark dangles. */
  lemma FormatParseIff(text: string)
    requires Parse(text).Some?
    ensures Format(Parse(text).value) == text <==> !HasDanglingMark(text)
  {
    var rest := CutAt(text, ':').1.value;
    var (beforeAt, anchor) := CutAt(rest, '@');
    var (path, section) := CutAt(beforeAt, '#');
    var ref := Parse(text).value;
    FormatShape(ref);
    assert text == ref.domain + Tail(':', Some(path + Tail('#', section) + Tail('@', anchor)));
    assert |Format(ref)| == |text| - (if section == Some("") then 1 else 0) - (if anchor == Some("") then 1 else 0);
  }

  /** The text is one of the seven domains, a colon, a path with neither mark, and then, if they
      are there, a `#` with a section and an `@` with an anchor. */
  predicate Denotes(text: string, ref: SectionRef, section: Option<string>, anchor: Option<string>) {
    && (ref.domain == "adm" || ref.domain == "pstr" || ref.domain == "wb" || ref.domain == "memory" || ref.domain == "library"
        || ref.domain == "spec" || ref.domain == "adr")
    && ref.path != "" && '#' !in ref.path && '@' !in ref.path
    && (section.Some? ==> '@' !in section.value)
    && text == ref.domain + ":" + ref.path + (if section.Some? then "#" + section.value else "")
                                           + (if anchor.Some? then "@" + anchor.value else "")
    && ref.section == (if section == Some("") then None else section)
    && ref.anchor == (if anchor == Some("") then None else anchor)
  }

  lemma {:induction false} DenotedCuts(text: string, ref: SectionRef, section: Option<string>, anchor: Option<string>)
    requires Denotes(text, ref, section, anchor)
    ensures var rest, beforeAt := ref.path + Tail('#', section) + Tail('@', anchor), ref.path + Tail('#', section);
            && CutAt(text, ':') == (ref.domain, Some(rest))
            && CutAt(rest, '@') == (beforeAt, anchor) && CutAt(beforeAt, '#') == (ref.path, section)
  {
    DenotedText(text, ref, section, anchor);
    CutUnique(ref.domain, ':', Some(ref.path + Tail('#', section) + Tail('@', anchor)));
    CutUnique(ref.path + Tail('#', section), '@', anchor);
    CutUnique(ref.path, '#', section);
  }

  lemma {:induction false} DenotedText(text: string, ref: SectionRef, section: Option<string>, anchor: Option<string>)
    requires Denotes(text, ref, section, anchor)
    ensures text == ref.domain + Tail(':', Some(ref.path + Tail('#', section) + Tail('@', anchor)))
    ensures ':' !in ref.domain && '@' !in ref.path + Tail('#', section)
  {
    Regrouped(ref.domain, ref.path, Tail('#', section), Tail('@', anchor));
  }

  /** Exactly these texts are accepted, and a mark with nothing behind it is dropped. */
  lemma {:induction false} ParseIff(text: string, ref: SectionRef)
    ensures Parse(text) == Some(ref) <==> exists section, anchor :: Denotes(text, ref, section, anchor)
  {
    forall section, anchor | Denotes(text, ref, section, anchor) ensures Parse(text) == Some(ref) {
      DenotedCuts(text, ref, section, anchor);
    }
    if Parse(text) == Some(ref) {
      var rest := CutAt(text, ':').1.value;
      var (beforeAt, anchor) := CutAt(rest, '@');
      var (path, section) := CutAt(beforeAt, '#');
      ParsedDenotes(text, ref, rest, beforeAt, section, anchor);
    }
  }

  lemma {:induction false} ParsedDenotes(text: string, ref: SectionRef, rest: string, beforeAt: string, section: Option<string>, anchor: Option<string>)
    requires Parse(text) == Some(ref) && CutAt(text, ':').1 == Some(rest)
    requires CutAt(rest, '@') == (beforeAt, anchor) && CutAt(beforeAt, '#').1 == section
    ensures Denotes(text, ref, section, anchor)
  {
    DomainIsListed(ref.domain);
    Regrouped(ref.domain, ref.path, Tail('#', section), Tail('@', anchor));
  }

  lemma {:induction false} DomainIsListed(domain: string)
    requires domain in DOMAINS
    ensures domain == "adm" || domain == "pstr" || domain == "wb" || domain == "memory" || domain == "library" || domain == "spec" || domain == "adr"
  {
  }

  lemma {:induction false} Regrouped(domain: string, path: string, section: string, anchor: string)
    ensures domain + ([':'] + ((path + section) + anchor)) == domain + ":" + path + section + anchor
  {
  }
}
