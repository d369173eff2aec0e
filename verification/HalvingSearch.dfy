/** The search for a JSON payload that fits the output limit (cli/commands/ux.ts). */
module HalvingSearch {
  import opened Wrappers

  const LIST_LIMIT: nat := 48

  /** One list of the payload: what is shown of it and how many items are not. */
  datatype Listed<T> = Listed(shown: seq<T>, omitted: nat)

  /** The payloads the search can return: the original data, the compacted data with
      both lists cut, or the minimal payload. A list the data does not have stays absent. */
  datatype Payload<T> =
    | Full
    | Compacted(entries: Option<Listed<T>>, issues: Option<Listed<T>>)
    | Minimal

  /** The two lists of the data, absent when the data has none. */
  datatype Data<T> = Data(entries: Option<seq<T>>, issues: Option<seq<T>>)

  function Items<T>(list: Option<seq<T>>): seq<T> {
    if list.Some? then list.value else []
  }

  function FirstLimit<T>(list: Option<seq<T>>): (n: nat)
    ensures n <= |Items(list)| && n <= LIST_LIMIT
  {
    if |Items(list)| <= LIST_LIMIT then |Items(list)| else LIST_LIMIT
  }

  /** The cut of one list at `limit`, items compacted by `compact`. */
  function Cut<T>(list: Option<seq<T>>, compact: T -> T, limit: nat): Option<Listed<T>>
    requires limit <= FirstLimit(list)
  {
    if list == None then None
    else Some(Listed(seq(limit, i requires 0 <= i < limit => compact(list.value[i])), |list.value| - limit))
  }

  /** The fixed parts of one call: the data, the item compactions, the size of a
      compacted list, and whether a payload fits. */
  datatype Search<!T> = Search(data: Data<T>, compactEntry: T -> T, compactIssue: T -> T,
                               bytes: seq<T> -> nat, fits: Payload<T> -> bool)
  {
    predicate InRange(entryLimit: nat, issueLimit: nat) {
      entryLimit <= FirstLimit(data.entries) && issueLimit <= FirstLimit(data.issues)
    }

    function Candidate(entryLimit: nat, issueLimit: nat): Payload<T>
      requires InRange(entryLimit, issueLimit)
    {
      Compacted(Cut(data.entries, compactEntry, entryLimit), Cut(data.issues, compactIssue, issueLimit))
    }

    function Shown(list: Option<Listed<T>>): seq<T> {
      if list.Some? then list.value.shown else []
    }

    /** Which list is halved next: the issues when only they are left or they are no smaller. */
    predicate HalvesIssues(entryLimit: nat, issueLimit: nat)
      requires InRange(entryLimit, issueLimit)
    {
      var candidate := Candidate(entryLimit, issueLimit);
      issueLimit > 0 && (entryLimit == 0 || bytes(Shown(candidate.issues)) >= bytes(Shown(candidate.entries)))
    }

    /** The limits the loop tries from here on, in order, until one fits or none is left. */
    function Tried(entryLimit: nat, issueLimit: nat): (limits: seq<(nat, nat)>)
      requires InRange(entryLimit, issueLimit)
      ensures limits != [] && limits[0] == (entryLimit, issueLimit)
      ensures forall i :: 0 <= i < |limits| ==> limits[i].0 <= entryLimit && limits[i].1 <= issueLimit
      decreases entryLimit + issueLimit
    {
      if fits(Candidate(entryLimit, issueLimit)) || (entryLimit == 0 && issueLimit == 0) then [(entryLimit, issueLimit)]
      else if HalvesIssues(entryLimit, issueLimit) then [(entryLimit, issueLimit)] + Tried(entryLimit, issueLimit / 2)
      else [(entryLimit, issueLimit)] + Tried(entryLimit / 2, issueLimit)
    }

    function Result(entryLimit: nat, issueLimit: nat): Payload<T>
      requires InRange(entryLimit, issueLimit)
    {
      var limits := Tried(entryLimit, issueLimit);
      var last := limits[|limits| - 1];
      if fits(Candidate(last.0, last.1)) then Candidate(last.0, last.1) else Minimal
    }

    function BoundedJsonData(): Payload<T> {
      if fits(Full) then Full else Result(FirstLimit(data.entries), FirstLimit(data.issues))
    }
  }

  method BoundedJsonData<T>(search: Search<T>) returns (payload: Payload<T>)
    ensures payload == search.BoundedJsonData()
  {
    if search.fits(Full) {
      return Full;
    }
    var entryLimit: nat := FirstLimit(search.data.entries);
    var issueLimit: nat := FirstLimit(search.data.issues);
    while true
      invariant search.InRange(entryLimit, issueLimit)
      invariant search.Result(entryLimit, issueLimit) == search.BoundedJsonData()
      decreases entryLimit + issueLimit
    {
      var candidate := search.Candidate(entryLimit, issueLimit);
      if search.fits(candidate) {
        return candidate;
      }
      if entryLimit == 0 && issueLimit == 0 {
        return Minimal;
      }
      NextResult(search, entryLimit, issueLimit);
      var entryBytes := search.bytes(search.Shown(candidate.entries));
      var issueBytes := search.bytes(search.Shown(candidate.issues));
      if issueLimit > 0 && (entryLimit == 0 || issueBytes >= entryBytes) {
        issueLimit := issueLimit / 2;
      } else {
        entryLimit := entryLimit / 2;
      }
    }
  }

  lemma {:induction false} NextResult<T>(search: Search<T>, entryLimit: nat, issueLimit: nat)
    requires search.InRange(entryLimit, issueLimit) && (entryLimit != 0 || issueLimit != 0)
    requires !search.fits(search.Candidate(entryLimit, issueLimit))
    ensures search.Result(entryLimit, issueLimit)
         == if search.HalvesIssues(entryLimit, issueLimit) then search.Result(entryLimit, issueLimit / 2)
            else search.Result(entryLimit / 2, issueLimit)
  {
  }

  /** The search stops where a candidate fits, or at two empty lists. */
  lemma {:induction false} LastTried<T>(search: Search<T>, entryLimit: nat, issueLimit: nat)
    requires search.InRange(entryLimit, issueLimit)
    ensures var limits := search.Tried(entryLimit, issueLimit);
            var last := limits[|limits| - 1];
            search.fits(search.Candidate(last.0, last.1)) || last == (0, 0)
    decreases entryLimit + issueLimit
  {
    if !search.fits(search.Candidate(entryLimit, issueLimit)) && (entryLimit != 0 || issueLimit != 0) {
      if search.HalvesIssues(entryLimit, issueLimit) {
        LastTried(search, entryLimit, issueLimit / 2);
      } else {
        LastTried(search, entryLimit / 2, issueLimit);
      }
    }
  }

  lemma {:induction false} EarlierTried<T>(search: Search<T>, entryLimit: nat, issueLimit: nat, i: nat)
    requires search.InRange(entryLimit, issueLimit) && i < |search.Tried(entryLimit, issueLimit)| - 1
    ensures var limits := search.Tried(entryLimit, issueLimit);
            !search.fits(search.Candidate(limits[i].0, limits[i].1))
    decreases i
  {
    if i > 0 {
      if search.HalvesIssues(entryLimit, issueLimit) {
        EarlierTried(search, entryLimit, issueLimit / 2, i - 1);
      } else {
        EarlierTried(search, entryLimit / 2, issueLimit, i - 1);
      }
    }
  }

  /** Whatever the test: the data itself, or a compacted payload that fits, or the
      minimal payload and then not even the payload with both lists empty fits. */
  lemma {:induction false} ResultFitsOrNothingDoes<T>(search: Search<T>)
    ensures match search.BoundedJsonData()
            case Full => search.fits(Full)
            case Compacted(_, _) => !search.fits(Full) && search.fits(search.BoundedJsonData())
            case Minimal => !search.fits(Full) && !search.fits(search.Candidate(0, 0))
  {
    LastTried(search, FirstLimit(search.data.entries), FirstLimit(search.data.issues));
  }

  /** A list's shown items are a compacted prefix, and shown plus omitted is the original count. */
  ghost predicate Accounts<T(!new)>(list: Option<seq<T>>, cut: Option<Listed<T>>, compact: T -> T) {
    && (list == None <==> cut == None)
    && (cut.Some? ==>
          && |cut.value.shown| + cut.value.omitted == |list.value| && |cut.value.shown| <= LIST_LIMIT
          && forall i :: 0 <= i < |cut.value.shown| ==> cut.value.shown[i] == compact(list.value[i]))
  }

  lemma CountsConserved<T(!new)>(search: Search<T>)
    requires search.BoundedJsonData().Compacted?
    ensures Accounts(search.data.entries, search.BoundedJsonData().entries, search.compactEntry)
    ensures Accounts(search.data.issues, search.BoundedJsonData().issues, search.compactIssue)
  {
  }

  /** How often a limit can be halved before it is 0. */
  function Halvings(n: nat): nat {
    if n == 0 then 0 else 1 + Halvings(n / 2)
  }

  lemma {:induction false} TriedCount<T>(search: Search<T>, entryLimit: nat, issueLimit: nat)
    requires search.InRange(entryLimit, issueLimit)
    ensures |search.Tried(entryLimit, issueLimit)| <= 1 + Halvings(entryLimit) + Halvings(issueLimit)
    decreases entryLimit + issueLimit
  {
    if !search.fits(search.Candidate(entryLimit, issueLimit)) && (entryLimit != 0 || issueLimit != 0) {
      if search.HalvesIssues(entryLimit, issueLimit) {
        TriedCount(search, entryLimit, issueLimit / 2);
      } else {
        TriedCount(search, entryLimit / 2, issueLimit);
      }
    }
  }

  lemma {:induction false} HalvingsMonotone(a: nat, b: nat)
    requires a <= b
    ensures Halvings(a) <= Halvings(b)
    decreases b
  {
    if a > 0 {
      HalvingsMonotone(a / 2, b / 2);
    }
  }

  /** At most 13 compacted payloads are built, however long the lists. */
  lemma FewCandidates<T>(search: Search<T>)
    ensures |search.Tried(FirstLimit(search.data.entries), FirstLimit(search.data.issues))| <= 13
  {
    var entryLimit, issueLimit := FirstLimit(search.data.entries), FirstLimit(search.data.issues);
    TriedCount(search, entryLimit, issueLimit);
    HalvingsMonotone(entryLimit, LIST_LIMIT);
    HalvingsMonotone(issueLimit, LIST_LIMIT);
    assert Halvings(48) == 1 + Halvings(24) && Halvings(24) == 1 + Halvings(12) && Halvings(12) == 1 + Halvings(6);
    assert Halvings(6) == 1 + Halvings(3) && Halvings(3) == 1 + Halvings(1) && Halvings(1) == 1;
  }

  /** Every candidate tried before the last one does not fit, and each round shows
      strictly fewer items than the round before. */
  lemma {:induction false} NothingTriedFits<T>(search: Search<T>, i: nat)
    requires var limits := search.Tried(FirstLimit(search.data.entries), FirstLimit(search.data.issues));
             i < |limits| - 1
    ensures var limits := search.Tried(FirstLimit(search.data.entries), FirstLimit(search.data.issues));
            && !search.fits(search.Candidate(limits[i].0, limits[i].1))
            && limits[i + 1].0 + limits[i + 1].1 < limits[i].0 + limits[i].1
  {
    EarlierTried(search, FirstLimit(search.data.entries), FirstLimit(search.data.issues), i);
    TriedDescends(search, FirstLimit(search.data.entries), FirstLimit(search.data.issues), i);
  }

  lemma {:induction false} TriedUnfolds<T>(search: Search<T>, entryLimit: nat, issueLimit: nat)
    requires search.InRange(entryLimit, issueLimit) && |search.Tried(entryLimit, issueLimit)| > 1
    ensures search.Tried(entryLimit, issueLimit) == [(entryLimit, issueLimit)] +
            if search.HalvesIssues(entryLimit, issueLimit) then search.Tried(entryLimit, issueLimit / 2)
            else search.Tried(entryLimit / 2, issueLimit)
  {
  }

  lemma {:induction false} TriedDescends<T>(search: Search<T>, entryLimit: nat, issueLimit: nat, i: nat)
    requires search.InRange(entryLimit, issueLimit) && i < |search.Tried(entryLimit, issueLimit)| - 1
    ensures var limits := search.Tried(entryLimit, issueLimit);
            limits[i + 1].0 + limits[i + 1].1 < limits[i].0 + limits[i].1
    decreases i
  {
    var next := if search.HalvesIssues(entryLimit, issueLimit) then (entryLimit, issueLimit / 2)
                else (entryLimit / 2, issueLimit);
    TriedUnfolds(search, entryLimit, issueLimit);
    if i > 0 {
      TriedDescends(search, next.0, next.1, i - 1);
    }
  }

  // ----- The whole search

  /** The first `n` items of a list, compacted. */
  ghost predicate IsPrefix<T(!new)>(shown: seq<T>, list: Option<seq<T>>, compact: T -> T, n: nat) {
    && n <= |Items(list)| && |shown| == n
    && forall i :: 0 <= i < n ==> shown[i] == compact(Items(list)[i])
  }

  /** The compacted payload that shows `limits.0` entries and `limits.1` issues. */
  ghost predicate Shows<T(!new)>(search: Search<T>, payload: Payload<T>, limits: (nat, nat)) {
    && payload.Compacted?
    && (payload.entries.Some? <==> search.data.entries.Some?) && (payload.issues.Some? <==> search.data.issues.Some?)
    && (payload.entries.Some? ==>
          && IsPrefix(payload.entries.value.shown, search.data.entries, search.compactEntry, limits.0)
          && payload.entries.value.omitted == |search.data.entries.value| - limits.0)
    && (payload.issues.Some? ==>
          && IsPrefix(payload.issues.value.shown, search.data.issues, search.compactIssue, limits.1)
          && payload.issues.value.omitted == |search.data.issues.value| - limits.1)
  }

  /** From one round to the next the issues are halved when any are left and they are no
      smaller than the entries or no entry is left; otherwise the entries are. */
  ghost predicate Halved<T(!new)>(search: Search<T>, limits: (nat, nat), next: (nat, nat)) {
    forall entries, issues ::
      IsPrefix(entries, search.data.entries, search.compactEntry, limits.0)
      && IsPrefix(issues, search.data.issues, search.compactIssue, limits.1) ==>
        next == if limits.1 > 0 && (limits.0 == 0 || search.bytes(issues) >= search.bytes(entries)) then (limits.0, limits.1 / 2)
                else (limits.0 / 2, limits.1)
  }

  lemma {:induction false} SamePrefix<T(!new)>(a: seq<T>, b: seq<T>, list: Option<seq<T>>, compact: T -> T, n: nat)
    requires IsPrefix(a, list, compact, n) && IsPrefix(b, list, compact, n)
    ensures a == b
  {
  }

  lemma {:induction false} CandidateShows<T(!new)>(search: Search<T>, a: nat, b: nat)
    requires search.InRange(a, b)
    ensures Shows(search, search.Candidate(a, b), (a, b))
    ensures IsPrefix(search.Shown(search.Candidate(a, b).entries), search.data.entries, search.compactEntry, a)
    ensures IsPrefix(search.Shown(search.Candidate(a, b).issues), search.data.issues, search.compactIssue, b)
  {
  }

  lemma {:induction false} NextIsHalved<T(!new)>(search: Search<T>, a: nat, b: nat)
    requires search.InRange(a, b)
    ensures Halved(search, (a, b), if search.HalvesIssues(a, b) then (a, b / 2) else (a / 2, b))
  {
    CandidateShows(search, a, b);
    var candidate := search.Candidate(a, b);
    forall entries, issues | IsPrefix(entries, search.data.entries, search.compactEntry, a)
                             && IsPrefix(issues, search.data.issues, search.compactIssue, b)
      ensures entries == search.Shown(candidate.entries) && issues == search.Shown(candidate.issues)
    {
      SamePrefix(entries, search.Shown(candidate.entries), search.data.entries, search.compactEntry, a);
      SamePrefix(issues, search.Shown(candidate.issues), search.data.issues, search.compactIssue, b);
    }
  }

  lemma {:induction false} TriedHalves<T(!new)>(search: Search<T>, a: nat, b: nat, i: nat)
    requires search.InRange(a, b) && i < |search.Tried(a, b)| - 1
    ensures var limits := search.Tried(a, b); search.InRange(limits[i].0, limits[i].1) && Halved(search, limits[i], limits[i + 1])
    decreases i
  {
    TriedUnfolds(search, a, b);
    NextIsHalved(search, a, b);
    if i > 0 {
      if search.HalvesIssues(a, b) { TriedHalves(search, a, b / 2, i - 1); } else { TriedHalves(search, a / 2, b, i - 1); }
    }
  }

  /** The rounds of the search: from at most 48 items of each list on, each round halves one of
      them as said, none before the last fits, and the last one fits or shows nothing. The
      answer is the data if that fits, or else the last round's payload if it fits, or else the
      minimal one. */
  lemma {:induction false} SearchRounds<T(!new)>(search: Search<T>) returns (limits: seq<(nat, nat)>, last: Payload<T>)
    ensures limits != []
    ensures limits[0].0 == (if |Items(search.data.entries)| < 48 then |Items(search.data.entries)| else 48)
    ensures limits[0].1 == (if |Items(search.data.issues)| < 48 then |Items(search.data.issues)| else 48)
    ensures forall i :: 0 <= i < |limits| - 1 ==> Halved(search, limits[i], limits[i + 1])
    ensures forall i, payload :: 0 <= i < |limits| - 1 && Shows(search, payload, limits[i]) ==> !search.fits(payload)
    ensures Shows(search, last, limits[|limits| - 1])
    ensures search.fits(last) || limits[|limits| - 1] == (0, 0)
    ensures search.BoundedJsonData() == if search.fits(Full) then Full else if search.fits(last) then last else Minimal
  {
    var a, b := FirstLimit(search.data.entries), FirstLimit(search.data.issues);
    limits := search.Tried(a, b);
    last := search.Candidate(limits[|limits| - 1].0, limits[|limits| - 1].1);
    LastTried(search, a, b);
    CandidateShows(search, limits[|limits| - 1].0, limits[|limits| - 1].1);
    forall i | 0 <= i < |limits| - 1 ensures Halved(search, limits[i], limits[i + 1]) {
      TriedHalves(search, a, b, i);
    }
    forall i, payload | 0 <= i < |limits| - 1 && Shows(search, payload, limits[i]) ensures !search.fits(payload) {
      EarlierTried(search, a, b, i);
      OnePayload(search, payload, limits[i]);
    }
  }

  lemma {:induction false} OnePayload<T(!new)>(search: Search<T>, payload: Payload<T>, limits: (nat, nat))
    requires search.InRange(limits.0, limits.1) && Shows(search, payload, limits)
    ensures payload == search.Candidate(limits.0, limits.1)
  {
    CandidateShows(search, limits.0, limits.1);
    var other := search.Candidate(limits.0, limits.1);
    if payload.entries.Some? {
      SamePrefix(payload.entries.value.shown, other.entries.value.shown, search.data.entries, search.compactEntry, limits.0);
    }
    if payload.issues.Some? {
      SamePrefix(payload.issues.value.shown, other.issues.value.shown, search.data.issues, search.compactIssue, limits.1);
    }
  }
}
