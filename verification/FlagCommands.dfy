/** The specifications of four commands and their alias tables (cli/aliases.ts,
    cli/commands/workbench/args.ts, cli/commands/session-args.ts, cli/commands/workbench.ts,
    cli/commands/quick-task.ts). */
module FlagCommands {
  import opened Wrappers
  import opened FlagAliases
  import opened FlagSpecs
  import opened FlagPipeline
  import opened FlagAgreement

  // ----- The specifications of the commands

  /** A dash and a letter or a second dash. */
  predicate NameLike(raw: string) {
    |raw| > 1 && raw[0] == '-' && (raw[1] == '-' || 'a' <= raw[1] <= 'z' || 'A' <= raw[1] <= 'Z')
  }

  /** The value, or two different names in its place. */
  predicate AlikeValues(a: Option<string>, b: Option<string>) {
    a == b || (a.Some? && b.Some? && NameLike(a.value) && NameLike(b.value))
  }

  const VALUE_FLAGS: set<string> := {
    "--actor", "--append", "--approval", "--area", "--artifact", "--baseline-id", "--body", "--branch", "--claim",
    "--command", "--cutoff-session-id", "--feature-id", "--for", "--format", "--from-spec", "--id", "--intent", "--issue",
    "--issue-type", "--limit", "--message", "--note", "--parent-spec", "--path", "--query", "--reason", "--result", "--run",
    "--scenario", "--session", "--source", "--tags", "--task", "--task-id", "--test", "--title", "--to", "--topic", "--type",
    "--url"
  }

  /** A value flag stored under its key. */
  function Keyed(name: string, key: string): FlagDef {
    Valued([name], false, Some(key), false, false, None, false, None, None, None)
  }

  function Called(name: string, validate: Option<(Fields, string) -> Update>, store: (Fields, string) -> Update): FlagDef {
    Valued([name], false, None, false, false, None, false, None, validate, Some(store))
  }

  /** The tests that the callbacks of the `done` specification make of texts alone: is it blank,
      may the command join those before it, may these arguments run, is it a finite number, and
      the time-out that it stands for. */
  datatype DoneChecks = DoneChecks(
    blank: string -> bool, joins: (seq<string>, string) -> bool, runs: seq<string> -> bool,
    finite: string -> bool, milliseconds: string -> Option<string>)

  function Commands(fields: Fields): seq<string> {
    if "testCommands" in fields && fields["testCommands"].Many? then fields["testCommands"].texts else []
  }

  function FinishDone(checks: DoneChecks, fields: Fields, rest: seq<string>): Update {
    if "testCommands" in fields || "testShellCommand" in fields then None
    else if rest == [] || !checks.runs(rest) then None
    else Some(fields["verification" := Many(rest)])
  }

  function AddTest(checks: DoneChecks, fields: Fields, raw: string): Update {
    if "testShellCommand" in fields || !checks.joins(Commands(fields), raw) then None
    else Some(PushValue(fields, "testCommands", raw))
  }

  function SetShell(checks: DoneChecks, fields: Fields, raw: string): Update {
    if "testCommands" in fields || "testShellCommand" in fields || checks.blank(raw) then None
    else Some(fields["testShellCommand" := One(raw)])
  }

  function CheckFinite(checks: DoneChecks, fields: Fields, raw: string): Update {
    if checks.finite(raw) then Some(fields) else None
  }

  function SetTimeout(checks: DoneChecks, fields: Fields, raw: string): Update {
    match checks.milliseconds(raw)
    case None => None
    case Some(text) => Some(fields["verificationTimeoutMs" := One(text)])
  }

  const DONE_ALIASES: AliasTable := [
    ("-S", "--session"), ("-T", "--task-id"), ("-a", "--artifact"), ("-c", "--command"), ("-n", "--note"),
    ("-o", "--result"), ("-s", "--require-spec-check"), ("-x", "--test")]

  function DoneFlags(checks: DoneChecks): seq<FlagDef> {
    [Terminator(["--"], (fields, rest) => FinishDone(checks, fields, rest)),
     Switch(["--json", "-j"], Some("json"), None),
     Keyed("--session", "session"),
     Keyed("--task-id", "taskId"),
     Called("--test", None, (fields, raw) => AddTest(checks, fields, raw)),
     Called("--verification-timeout-ms", Some((fields, raw) => CheckFinite(checks, fields, raw)),
            (fields, raw) => SetTimeout(checks, fields, raw)),
     Called("--test-shell", None, (fields, raw) => SetShell(checks, fields, raw)),
     Keyed("--command", "evidenceCommand"),
     Keyed("--result", "evidenceResult"),
     Switch(["--require-spec-check"], Some("requireSpecCheck"), None),
     Keyed("--artifact", "artifact"),
     Keyed("--note", "note")]
  }

  /** The first argument that is no flag names the selection. */
  function DonePositional(fields: Fields, arg: string): Capture {
    if arg == "" || arg[0] == '-' || "taskId" in fields then Declined else Took(fields["taskId" := One(arg)])
  }

  function DoneProgram(checks: DoneChecks): Program {
    Program(DoneFlags(checks), false, DonePositional)
  }

  lemma {:induction false} FoundIn(flags: seq<FlagDef>, i: nat, name: string)
    requires i < |flags| && name in flags[i].names
    ensures Find(flags, name).Some?
    decreases |flags|
  {
    if i < |flags| - 1 {
      assert flags[..|flags| - 1][i] == flags[i];
      FoundIn(flags[..|flags| - 1], i, name);
    }
  }

  lemma {:induction false} FoundNowhere(flags: seq<FlagDef>, name: string)
    requires forall i :: 0 <= i < |flags| ==> name !in flags[i].names
    ensures Find(flags, name) == None
    decreases |flags|
  {
    if flags != [] {
      var front := flags[..|flags| - 1];
      forall i | 0 <= i < |front| ensures name !in front[i].names {
        assert front[i] == flags[i];
      }
      FoundNowhere(front, name);
    }
  }

  /** A short alias is none of the names. */
  lemma {:induction false} DoneLacks(checks: DoneChecks, alias: string)
    requires |alias| == 2 && alias != "--" && alias != "-j"
    ensures Find(DoneFlags(checks), alias) == None
  {
    forall i | 0 <= i < |DoneFlags(checks)| ensures alias !in DoneFlags(checks)[i].names {
    }
    FoundNowhere(DoneFlags(checks), alias);
  }

  lemma {:induction false} DoneKnows(checks: DoneChecks)
    ensures forall i :: 0 <= i < |DONE_ALIASES| ==> Find(DoneFlags(checks), DONE_ALIASES[i].1).Some?
  {
    var flags := DoneFlags(checks);
    FoundIn(flags, 2, "--session");
    FoundIn(flags, 3, "--task-id");
    FoundIn(flags, 10, "--artifact");
    FoundIn(flags, 7, "--command");
    FoundIn(flags, 11, "--note");
    FoundIn(flags, 8, "--result");
    FoundIn(flags, 9, "--require-spec-check");
    FoundIn(flags, 4, "--test");
  }

  lemma {:induction false} FoundMember(flags: seq<FlagDef>, name: string) returns (i: nat)
    requires Named(flags) && Find(flags, name).Some?
    ensures i < |flags| && flags[i] == Find(flags, name).value && name in flags[i].names
  {
    FindNamed(flags, name);
    FindIsMember(flags, name);
    i :| 0 <= i < |flags| && flags[i] == Find(flags, name).value;
  }

  predicate ShortAliases(table: AliasTable) {
    DistinctKeys(table) && forall i :: 0 <= i < |table| ==> |table[i].0| == 2 && table[i].0 != "--" && table[i].0 != "-j"
  }

  lemma {:induction false} DoneAliasesAreShort()
    ensures ShortAliases(DONE_ALIASES) && forall i :: 0 <= i < |DONE_ALIASES| ==> DONE_ALIASES[i].1 != "" && DONE_ALIASES[i].1 != "--"
  {
  }

  lemma {:induction false} DoneTerminates(checks: DoneChecks, name: string)
    requires Find(DoneFlags(checks), name).Some?
    ensures name == "--" <==> Find(DoneFlags(checks), name).value.Terminator?
  {
    var i := FoundMember(DoneFlags(checks), name);
  }

  /** The `done` table fits the `done` specification. */
  lemma {:induction false} DoneIsConsistent(checks: DoneChecks)
    ensures Consistent(DONE_ALIASES, DoneProgram(checks))
  {
    var program := DoneProgram(checks);
    DoneAliasesAreShort();
    DoneKnows(checks);
    forall i | 0 <= i < |DONE_ALIASES| ensures AliasFits(program, DONE_ALIASES[i].0, DONE_ALIASES[i].1) {
      DoneLacks(checks, DONE_ALIASES[i].0);
    }
    forall name | Find(program.flags, name).Some? ensures name == "--" <==> Find(program.flags, name).value.Terminator? {
      DoneTerminates(checks, name);
    }
  }

  lemma {:induction false} ValueFlagsStart(name: string)
    requires name in VALUE_FLAGS
    ensures LooksLikeValueFlag(name)
  {
  }

  lemma {:induction false} AllLookLikeValueFlags()
    ensures forall name :: name in VALUE_FLAGS ==> LooksLikeValueFlag(name)
  {
    forall name | name in VALUE_FLAGS ensures LooksLikeValueFlag(name) {
      ValueFlagsStart(name);
    }
  }

  lemma {:induction false} DoneValued(checks: DoneChecks, name: string)
    requires Find(DoneFlags(checks), name).Some? && |name| > 3 && name != "--json" && name != "--require-spec-check"
    ensures Find(DoneFlags(checks), name).value.Valued?
  {
    var i := FoundMember(DoneFlags(checks), name);
  }

  lemma {:induction false} DoneLists(checks: DoneChecks, name: string)
    requires LooksLikeValueFlag(name)
    ensures if Find(DoneFlags(checks), name).Some? then Find(DoneFlags(checks), name).value.Valued? else Stops(DoneProgram(checks), name)
  {
    if Find(DoneFlags(checks), name).Some? { DoneValued(checks, name); }
  }

  lemma {:induction false} DoneIsListed(checks: DoneChecks)
    ensures Listed(VALUE_FLAGS, DoneProgram(checks))
  {
    AllLookLikeValueFlags();
    DoneListsAll(checks, VALUE_FLAGS);
  }

  predicate LooksLikeValueFlag(name: string) {
    && |name| > 3 && name[0] == '-' && name != "--json" && name != "--require-spec-check"
    && name != "--confirm" && name != "--dry-run" && name != "--all-missing" && name != "--no-spec-required"
  }

  lemma {:induction false} DoneListsAll(checks: DoneChecks, valueFlags: set<string>)
    requires forall name :: name in valueFlags ==> LooksLikeValueFlag(name)
    ensures Listed(valueFlags, DoneProgram(checks))
  {
    forall name | name in valueFlags
      ensures if Find(DoneFlags(checks), name).Some? then Find(DoneFlags(checks), name).value.Valued? else Stops(DoneProgram(checks), name)
    {
      DoneLists(checks, name);
    }
  }

  /** For the `done` command: wherever the values fit, rewriting the aliases first means what
      reading them directly means. */
  lemma {:induction false} DoneMeansSame(checks: DoneChecks, args: seq<string>, fields: Fields)
    requires ValuesFit(DONE_ALIASES, VALUE_FLAGS, DoneProgram(checks), args) && Readable(DONE_ALIASES, VALUE_FLAGS, args, Looking)
    ensures Consistent(DONE_ALIASES, DoneProgram(checks))
    ensures Agree(DONE_ALIASES, VALUE_FLAGS, DoneProgram(checks), args, fields)
  {
    DoneIsConsistent(checks);
    DoneIsListed(checks);
    FoundIn(DoneFlags(checks), 0, "--");
    FittingMeansSame(DONE_ALIASES, VALUE_FLAGS, DoneProgram(checks), args, fields);
  }

  // ----- session

  /** The texts that are a number of the right kind. */
  datatype SessionChecks = SessionChecks(days: string -> bool, offset: string -> bool, limit: string -> bool)

  function SetNumber(valid: string -> bool, key: string, fields: Fields, raw: string): Update {
    if valid(raw) then Some(fields[key := One(raw)]) else None
  }

  function Numeric(name: string, key: string, error: string, valid: string -> bool): FlagDef {
    Valued([name], false, None, false, true, None, false, Some(error), None, Some((fields, raw) => SetNumber(valid, key, fields, raw)))
  }

  function Dashless(names: seq<string>, multi: bool, key: string, quoted: bool, validate: Option<(Fields, string) -> Update>): FlagDef {
    Valued(names, multi, Some(key), true, false, None, quoted, None, validate, None)
  }

  const SESSION_ALIASES: AliasTable := [("-D", "--dry-run"), ("-S", "--session"), ("-a", "--actor"), ("-b", "--branch")]

  function SessionFlags(checks: SessionChecks): seq<FlagDef> {
    [Switch(["--json", "-j"], Some("json"), None),
     Switch(["--dry-run"], Some("dryRun"), None),
     Switch(["--debug"], Some("debug"), None),
     Switch(["--strict"], Some("strict"), None),
     Switch(["--candidates"], Some("candidates"), None),
     Dashless(["--session"], false, "session", false, None),
     Dashless(["--branch"], false, "branch", false, None),
     Dashless(["--actor"], false, "actor", false, None),
     Dashless(["--reason"], false, "reason", false, None),
     Numeric("--older-than-days", "olderThanDays", "--older-than-days must be a non-negative number.", checks.days),
     Numeric("--offset", "archiveOffset", "--offset must be a non-negative integer.", checks.offset),
     Numeric("--limit", "archiveLimit", "--limit must be a positive integer.", checks.limit)]
  }

  /** Every other argument is taken. */
  function SessionPositional(fields: Fields, arg: string): Capture {
    Took(PushValue(fields, "positional", arg))
  }

  function SessionProgram(checks: SessionChecks): Program {
    Program(SessionFlags(checks), true, SessionPositional)
  }

  lemma {:induction false} SessionKnows(checks: SessionChecks)
    ensures forall i :: 0 <= i < |SESSION_ALIASES| ==> Find(SessionFlags(checks), SESSION_ALIASES[i].1).Some?
  {
    var flags := SessionFlags(checks);
    FoundIn(flags, 1, "--dry-run");
    FoundIn(flags, 5, "--session");
    FoundIn(flags, 7, "--actor");
    FoundIn(flags, 6, "--branch");
  }

  lemma {:induction false} SessionLacks(checks: SessionChecks, alias: string)
    requires |alias| == 2 && alias != "-j"
    ensures Find(SessionFlags(checks), alias) == None
  {
    forall i | 0 <= i < |SessionFlags(checks)| ensures alias !in SessionFlags(checks)[i].names {
    }
    FoundNowhere(SessionFlags(checks), alias);
  }

  /** The `session` table fits the `session` specification. */
  lemma {:induction false} SessionIsConsistent(checks: SessionChecks)
    ensures Consistent(SESSION_ALIASES, SessionProgram(checks))
  {
    var program := SessionProgram(checks);
    SessionKnows(checks);
    forall i | 0 <= i < |SESSION_ALIASES| ensures AliasFits(program, SESSION_ALIASES[i].0, SESSION_ALIASES[i].1) {
      SessionLacks(checks, SESSION_ALIASES[i].0);
    }
    forall name | Find(program.flags, name).Some? ensures name == "--" <==> Find(program.flags, name).value.Terminator? {
      SessionLacks(checks, "--");
      var i := FoundMember(program.flags, name);
    }
  }

  // ----- evidence admit

  const EVIDENCE_ALIASES: AliasTable := [
    ("-S", "--session"), ("-T", "--task-id"), ("-a", "--artifact"), ("-c", "--command"), ("-n", "--note"),
    ("-o", "--result"), ("-r", "--reason"), ("-D", "--dry-run")]

  function AdmitFlags(issueType: (Fields, string) -> Update): seq<FlagDef> {
    [Switch(["--json", "-j"], Some("json"), None),
     Switch(["--confirm"], Some("confirm"), None),
     Switch(["--dry-run"], Some("dryRun"), None),
     Switch(["--all-missing"], Some("allMissing"), None),
     Dashless(["--session", "-S"], false, "session", false, None),
     Dashless(["--task-id", "-T"], true, "taskIds", false, None),
     Dashless(["--issue-type"], false, "issueType", false, Some(issueType)),
     Dashless(["--reason", "-r", "--approval"], false, "reason", true, None),
     Dashless(["--issue"], false, "issueUrl", false, None),
     Dashless(["--baseline-id"], false, "baselineId", false, None),
     Dashless(["--cutoff-session-id"], false, "cutoffSessionId", false, None)]
  }

  /** No positional arguments. */
  function AdmitProgram(issueType: (Fields, string) -> Update): Program {
    Program(AdmitFlags(issueType), false, (fields, arg) => Declined)
  }

  /** Names of the same definitions are found alike. */
  lemma {:induction false} FoundAlike(flags: seq<FlagDef>, a: string, b: string)
    requires forall i :: 0 <= i < |flags| ==> (a in flags[i].names <==> b in flags[i].names)
    ensures Find(flags, a) == Find(flags, b)
    decreases |flags|
  {
    if flags != [] {
      var front := flags[..|flags| - 1];
      forall i | 0 <= i < |front| ensures a in front[i].names <==> b in front[i].names {
        assert front[i] == flags[i];
      }
      FoundAlike(front, a, b);
    }
  }

  lemma {:induction false} AdmitAliases(issueType: (Fields, string) -> Update, i: nat)
    requires i < |EVIDENCE_ALIASES|
    ensures AliasFits(AdmitProgram(issueType), EVIDENCE_ALIASES[i].0, EVIDENCE_ALIASES[i].1)
  {
    var flags := AdmitFlags(issueType);
    if i < 2 || i == 6 {
      FoundAlike(flags, EVIDENCE_ALIASES[i].0, EVIDENCE_ALIASES[i].1);
    } else {
      forall k | 0 <= k < |flags| ensures EVIDENCE_ALIASES[i].0 !in flags[k].names { }
      FoundNowhere(flags, EVIDENCE_ALIASES[i].0);
    }
  }

  lemma {:induction false} AdmitEnds(issueType: (Fields, string) -> Update, name: string)
    requires Find(AdmitFlags(issueType), name).Some?
    ensures name != "--" && !Find(AdmitFlags(issueType), name).value.Terminator?
  {
    var i := FoundMember(AdmitFlags(issueType), name);
  }

  /** The `evidence` table fits the specification of `evidence admit`, which lists some of the
      aliases itself and does not know the targets of others. */
  lemma {:induction false} AdmitIsConsistent(issueType: (Fields, string) -> Update)
    ensures Consistent(EVIDENCE_ALIASES, AdmitProgram(issueType))
  {
    var program := AdmitProgram(issueType);
    forall i | 0 <= i < |EVIDENCE_ALIASES| ensures AliasFits(program, EVIDENCE_ALIASES[i].0, EVIDENCE_ALIASES[i].1) {
      AdmitAliases(issueType, i);
    }
    forall name | Find(program.flags, name).Some? ensures name == "--" <==> Find(program.flags, name).value.Terminator? {
      AdmitEnds(issueType, name);
    }
  }

  lemma {:induction false} AdmitLists(issueType: (Fields, string) -> Update, name: string)
    requires Find(AdmitFlags(issueType), name).Some?
    ensures var def := Find(AdmitFlags(issueType), name).value;
            && (name in VALUE_FLAGS ==> def.Valued?) && (def.Valued? ==> def.rejectDash)
            && (def.Valued? ==> name in VALUE_FLAGS || name == "-S" || name == "-T" || name == "-r")
  {
    var i := FoundMember(AdmitFlags(issueType), name);
    if name in VALUE_FLAGS { ValueFlagsStart(name); }
  }

  /** Every key is a dash and a letter, and every target a long name. */
  predicate ShortToLong(table: AliasTable) {
    forall i :: 0 <= i < |table| ==> |table[i].0| == 2 && |table[i].1| > 2 && table[i].1[0] == '-'
  }

  lemma {:induction false} InheritedNamesHaveNoDash(name: string)
    requires name in INHERITED_NAMES
    ensures name != "" && name[0] != '-'
  {
  }

  lemma {:induction false} DashedIsReadable(table: AliasTable, valueFlags: set<string>, args: seq<string>, mode: Mode)
    requires forall i :: 0 <= i < |args| ==> args[i] != "" && args[i][0] == '-'
    ensures Readable(table, valueFlags, args, mode)
    decreases |args|
  {
    if args == [] {
      NothingRewritten(table, valueFlags, mode);
    } else {
      if args[0] in INHERITED_NAMES { InheritedNamesHaveNoDash(args[0]); }
      ReadableHead(table, valueFlags, args, mode);
      DashedIsReadable(table, valueFlags, args[1..], NextMode(table, valueFlags, args[0], mode));
    }
  }

  lemma {:induction false} ShortToLongIsFlat(table: AliasTable)
    requires ShortToLong(table)
    ensures Flat(table)
  {
    forall i | 0 <= i < |table|
      ensures OwnAlias(table, table[i].1) == None && table[i].1 !in INHERITED_NAMES && table[i].1 != "--"
    {
      if OwnAlias(table, table[i].1).Some? { AliasTargetIsEntry(table, table[i].1); }
      if table[i].1 in INHERITED_NAMES { InheritedNamesHaveNoDash(table[i].1); }
    }
  }

  lemma {:induction false} EntryIsAlias(table: AliasTable, i: nat)
    requires i < |table|
    ensures OwnAlias(table, table[i].0).Some?
    decreases |table|
  {
    if i > 0 {
      assert table[1..][i - 1] == table[i];
      EntryIsAlias(table[1..], i - 1);
    }
  }

  lemma {:induction false} AdmitAliasesAreKeys()
    ensures forall name :: name == "-S" || name == "-T" || name == "-r" ==> OwnAlias(EVIDENCE_ALIASES, name).Some?
  {
    EntryIsAlias(EVIDENCE_ALIASES, 0);
    EntryIsAlias(EVIDENCE_ALIASES, 1);
    EntryIsAlias(EVIDENCE_ALIASES, 6);
  }

  lemma {:induction false} AdmitIsListing(issueType: (Fields, string) -> Update)
    ensures Listing(EVIDENCE_ALIASES, VALUE_FLAGS, AdmitProgram(issueType))
  {
    ShortToLongIsFlat(EVIDENCE_ALIASES);
    AllLookLikeValueFlags();
    var program := AdmitProgram(issueType);
    forall name | OwnAlias(EVIDENCE_ALIASES, name) == None && Find(program.flags, name).Some?
      ensures Find(program.flags, name).value.Valued? <==> name in VALUE_FLAGS
    {
      AdmitAliasesAreKeys();
      AdmitLists(issueType, name);
    }
  }

  lemma {:induction false} AdmitRejectsDashes(issueType: (Fields, string) -> Update)
    ensures RejectsDashes(AdmitProgram(issueType))
  {
    var program := AdmitProgram(issueType);
    forall name | Find(program.flags, name).Some?
      ensures name != "--" && (Find(program.flags, name).value.Valued? ==> Find(program.flags, name).value.rejectDash)
    {
      AdmitEnds(issueType, name);
      AdmitLists(issueType, name);
    }
  }

  /** For `evidence admit` the two readings always mean the same: its value flags are all listed
      and take no dash, and no other argument is taken. */
  lemma {:induction false} AdmitAgrees(issueType: (Fields, string) -> Update, args: seq<string>, fields: Fields)
    requires Readable(EVIDENCE_ALIASES, VALUE_FLAGS, args, Looking)
    ensures Named(AdmitFlags(issueType))
    ensures Agree(EVIDENCE_ALIASES, VALUE_FLAGS, AdmitProgram(issueType), args, fields)
  {
    AdmitIsConsistent(issueType);
    AdmitIsListing(issueType);
    AdmitRejectsDashes(issueType);
    AlwaysReads(EVIDENCE_ALIASES, VALUE_FLAGS, AdmitProgram(issueType), args, fields);
    Same(EVIDENCE_ALIASES, VALUE_FLAGS, AdmitProgram(issueType), args, Looking, fields);
  }

  // ----- quick-task

  const QUICK_ALIASES: AliasTable := [
    ("-F", "--feature-id"), ("-P", "--parent-spec"), ("-T", "--task"), ("-a", "--artifact"), ("-c", "--command"),
    ("-n", "--note"), ("-t", "--task")]

  const QUICK_TASK_MAX_TASKS := 100

  function AddTask(fields: Fields, raw: string): Update {
    var next := PushValue(fields, "tasks", raw);
    if |next["tasks"].texts| > QUICK_TASK_MAX_TASKS then None else Some(next)
  }

  const QUICK_FLAGS: seq<FlagDef> :=
    [Switch(["--json", "-j"], Some("json"), None),
     Keyed("--feature-id", "featureId"),
     Keyed("--parent-spec", "parentSpec"),
     Switch(["--no-spec-required"], Some("noSpecRequired"), None),
     Keyed("--reason", "noSpecRequiredReason"),
     Valued(["--task"], true, None, false, false, None, false, None, None, Some(AddTask)),
     Keyed("--command", "command"),
     Keyed("--artifact", "artifact"),
     Keyed("--note", "note")]

  /** The first argument that is no flag is the theme. */
  function QuickPositional(fields: Fields, arg: string): Capture {
    if arg == "" || "theme" in fields || arg[0] == '-' then Declined else Took(fields["theme" := One(arg)])
  }

  const QUICK_PROGRAM: Program := Program(QUICK_FLAGS, true, QuickPositional)

  lemma {:induction false} QuickKnows()
    ensures forall i :: 0 <= i < |QUICK_ALIASES| ==> Find(QUICK_FLAGS, QUICK_ALIASES[i].1).Some?
  {
    FoundIn(QUICK_FLAGS, 1, "--feature-id");
    FoundIn(QUICK_FLAGS, 2, "--parent-spec");
    FoundIn(QUICK_FLAGS, 5, "--task");
    FoundIn(QUICK_FLAGS, 6, "--command");
    FoundIn(QUICK_FLAGS, 7, "--artifact");
    FoundIn(QUICK_FLAGS, 8, "--note");
  }

  lemma {:induction false} QuickLacks(alias: string)
    requires |alias| == 2 && alias != "-j"
    ensures Find(QUICK_FLAGS, alias) == None
  {
    forall i | 0 <= i < |QUICK_FLAGS| ensures alias !in QUICK_FLAGS[i].names {
    }
    FoundNowhere(QUICK_FLAGS, alias);
  }

  lemma {:induction false} QuickLists(name: string)
    requires Find(QUICK_FLAGS, name).Some?
    ensures var def := Find(QUICK_FLAGS, name).value;
            !def.Terminator? && (def.Valued? <==> name in VALUE_FLAGS) && (def.Valued? ==> !def.useMatchedName)
  {
    var i := FoundMember(QUICK_FLAGS, name);
    if name in VALUE_FLAGS { ValueFlagsStart(name); }
  }

  lemma {:induction false} QuickIsConsistent()
    ensures Consistent(QUICK_ALIASES, QUICK_PROGRAM)
  {
    QuickKnows();
    forall i | 0 <= i < |QUICK_ALIASES| ensures AliasFits(QUICK_PROGRAM, QUICK_ALIASES[i].0, QUICK_ALIASES[i].1) {
      QuickLacks(QUICK_ALIASES[i].0);
    }
    forall name | Find(QUICK_FLAGS, name).Some? ensures name == "--" <==> Find(QUICK_FLAGS, name).value.Terminator? {
      QuickLacks("--");
      QuickLists(name);
    }
  }

  lemma {:induction false} QuickIsListing()
    ensures Listing(QUICK_ALIASES, VALUE_FLAGS, QUICK_PROGRAM)
  {
    ShortToLongIsFlat(QUICK_ALIASES);
    AllLookLikeValueFlags();
    forall name | Find(QUICK_FLAGS, name).Some? ensures Find(QUICK_FLAGS, name).value.Valued? <==> name in VALUE_FLAGS {
      QuickLists(name);
    }
  }

  lemma {:induction false} QuickDeclines()
    ensures DeclinesAliases(QUICK_ALIASES, QUICK_PROGRAM) && NamesUnquoted(QUICK_ALIASES, QUICK_FLAGS)
  {
    QuickKnows();
    forall alias, f | OwnAlias(QUICK_ALIASES, alias).Some? ensures QuickPositional(f, alias).Declined? {
      AliasTargetIsEntry(QUICK_ALIASES, alias);
    }
  }

  /** For `quick-task` they mean the same exactly when the parse looks up no alias after a `--`
      that was given as a value. */
  lemma {:induction false} QuickAgreesIff(args: seq<string>, fields: Fields)
    requires Readable(QUICK_ALIASES, VALUE_FLAGS, args, Looking)
    ensures Named(QUICK_FLAGS)
    ensures Agree(QUICK_ALIASES, VALUE_FLAGS, QUICK_PROGRAM, args, fields)
            <==> !MeetsKept(QUICK_ALIASES, VALUE_FLAGS, QUICK_PROGRAM, args, Looking, fields)
  {
    QuickIsConsistent();
    QuickIsListing();
    QuickDeclines();
    ListedIff(QUICK_ALIASES, VALUE_FLAGS, QUICK_PROGRAM, args, Looking, fields);
  }

  lemma {:induction false} TaskIndex(i: nat)
    requires i < |QUICK_FLAGS| && "--task" in QUICK_FLAGS[i].names
    ensures QUICK_FLAGS[i] == Valued(["--task"], true, None, false, false, None, false, None, None, Some(AddTask))
  {
    assert i == 5;
  }

  lemma {:induction false} TaskTakesDashes(args: seq<string>, fields: Fields)
    requires |args| > 1 && args[0] == "--task" && args[1] == "--" && "tasks" !in fields
    ensures Named(QUICK_FLAGS) && LooksUpAlike(QUICK_ALIASES, QUICK_PROGRAM, args[0], Looking)
    ensures var s := PlainNext(QUICK_ALIASES, VALUE_FLAGS, QUICK_PROGRAM, args, Looking, fields); s.Onward? && s.taken == 2
    ensures ModePast(QUICK_ALIASES, VALUE_FLAGS, args, 2, Looking) == Ended
  {
    FoundIn(QUICK_FLAGS, 5, "--task");
    var i := FoundMember(QUICK_FLAGS, "--task");
    TaskIndex(i);
    if OwnAlias(QUICK_ALIASES, "--task").Some? { AliasTargetIsEntry(QUICK_ALIASES, "--task"); }
    ModePastTwo(QUICK_ALIASES, VALUE_FLAGS, args, Looking);
  }

  lemma {:induction false} QuickKept(alias: string)
    requires OwnAlias(QUICK_ALIASES, alias).Some?
    ensures !LooksUpAlike(QUICK_ALIASES, QUICK_PROGRAM, alias, Ended)
  {
    AliasTargetIsEntry(QUICK_ALIASES, alias);
    QuickKnows();
    QuickLacks(alias);
  }

  /** So an alias behind `quick-task --task --` is never read alike. */
  lemma {:induction false} DashTaskHidesAliases(args: seq<string>, fields: Fields)
    requires |args| > 2 && args[0] == "--task" && args[1] == "--" && OwnAlias(QUICK_ALIASES, args[2]).Some? && "tasks" !in fields
    requires Readable(QUICK_ALIASES, VALUE_FLAGS, args, Looking)
    ensures Named(QUICK_FLAGS) && !Agree(QUICK_ALIASES, VALUE_FLAGS, QUICK_PROGRAM, args, fields)
  {
    QuickAgreesIff(args, fields);
    TaskTakesDashes(args, fields);
    QuickKept(args[2]);
    var s := PlainNext(QUICK_ALIASES, VALUE_FLAGS, QUICK_PROGRAM, args, Looking, fields);
    KeptIsMet(QUICK_ALIASES, VALUE_FLAGS, QUICK_PROGRAM, args[2..], Ended, s.fields);
    KeptBehindIsMet(QUICK_ALIASES, VALUE_FLAGS, QUICK_PROGRAM, args, Looking, fields);
  }
}
