/** The two readings of the arguments of `session` (cli/commands/session-args.ts, cli/aliases.ts):
    where the rewriting keeps an alias, it is taken for a positional argument, and the readings
    never meet again. */
module SessionReading {
  import opened Wrappers
  import opened FlagAliases
  import opened FlagSpecs
  import opened FlagPipeline
  import opened FlagAgreement
  import opened FlagDivergence
  import opened FlagCommands

  /** No name is a number. */
  ghost predicate NumbersOnly(checks: SessionChecks) {
    forall raw :: NameLike(raw) ==> !checks.days(raw) && !checks.offset(raw) && !checks.limit(raw)
  }

  /** How many positional arguments there are. */
  function Count(fields: Fields): nat {
    if "positional" in fields && fields["positional"].Many? then |fields["positional"].texts| else 0
  }

  ghost predicate Switching(def: FlagDef) {
    def.Switch? && def.apply == None && def.key.Some? && def.key.value != "positional"
  }

  ghost predicate Dashing(def: FlagDef) {
    && def.Valued? && def.rejectDash && !def.allowEmpty && !def.multi && def.validate == None && def.store == None
    && def.key.Some? && def.key.value != "positional"
  }

  /** A value that is refused or stored by itself, and never a name. */
  ghost predicate Numbering(def: FlagDef) {
    && def.Valued? && !def.rejectDash && def.allowEmpty && def.validate == None && def.store.Some?
    && (forall f: Fields, raw: string :: NameLike(raw) ==> def.store.value(f, raw) == None)
    && (forall f: Fields, g: Fields, raw: string :: def.store.value(f, raw) == None <==> def.store.value(g, raw) == None)
    && (forall f: Fields, raw: string :: def.store.value(f, raw).Some? ==> Count(def.store.value(f, raw).value) == Count(f))
  }

  lemma {:induction false} SessionKinds(checks: SessionChecks, name: string)
    requires NumbersOnly(checks) && Find(SessionFlags(checks), name).Some?
    ensures var def := Find(SessionFlags(checks), name).value;
            def.names != [] && (Switching(def) || Dashing(def) || Numbering(def))
  {
    var i := FoundMember(SessionFlags(checks), name);
    KindsByIndex(checks, i);
  }

  lemma {:induction false} KindsByIndex(checks: SessionChecks, i: nat)
    requires NumbersOnly(checks) && i < |SessionFlags(checks)|
    ensures var def := SessionFlags(checks)[i]; Switching(def) || Dashing(def) || Numbering(def)
  {
    if i == 9 { NumericNumbers("--older-than-days", "olderThanDays", "--older-than-days must be a non-negative number.", checks.days); }
    if i == 10 { NumericNumbers("--offset", "archiveOffset", "--offset must be a non-negative integer.", checks.offset); }
    if i == 11 { NumericNumbers("--limit", "archiveLimit", "--limit must be a positive integer.", checks.limit); }
  }

  lemma {:induction false} NumericNumbers(name: string, key: string, error: string, valid: string -> bool)
    requires key != "positional" && forall raw :: NameLike(raw) ==> !valid(raw)
    ensures Numbering(Numeric(name, key, error, valid))
  {
  }

  // ----- Steps of both readings side by side

  /** Both go on, equally far and with as many new positional arguments, or both end. */
  ghost predicate Parallel(s: Step, f: Fields, t: Step, g: Fields) {
    || (s.Onward? && t.Onward? && s.taken == t.taken && Count(s.fields) - Count(f) == Count(t.fields) - Count(g) >= 0)
    || (s.Stop? && t.Stop? && Count(s.outcome.0) == Count(f) && Count(t.outcome.0) == Count(g))
  }

  lemma {:induction false} FlagsParallel(def: FlagDef, program: Program, a: string, b: string, m: Option<string>, n: Option<string>, f: Fields, g: Fields)
    requires def.names != [] && (Switching(def) || Dashing(def) || Numbering(def))
    requires (a == "" <==> b == "") && AlikeValues(m, n)
    ensures Parallel(StepAt(Some(def), program, a, m, f), f, StepAt(Some(def), program, b, n, g), g)
  {
  }

  lemma {:induction false} SessionNames(checks: SessionChecks, name: string)
    requires Find(SessionFlags(checks), name).Some?
    ensures |name| > 1 && name[0] == '-'
  {
    var i := FoundMember(SessionFlags(checks), name);
  }

  lemma {:induction false} SessionAliasesAreNames(alias: string)
    requires OwnAlias(SESSION_ALIASES, alias).Some?
    ensures NameLike(alias) && NameLike(OwnAlias(SESSION_ALIASES, alias).value)
  {
    AliasTargetIsEntry(SESSION_ALIASES, alias);
  }

  lemma {:induction false} SecondsAlike(args: seq<string>, mode: Mode)
    ensures AlikeValues(SecondWord(SESSION_ALIASES, VALUE_FLAGS, args, mode), Second(args))
  {
    if |args| > 1 && OwnAlias(SESSION_ALIASES, args[1]).Some? { SessionAliasesAreNames(args[1]); }
  }

  /** Where no alias is kept, the readings go on side by side. */
  lemma {:induction false} SessionStep(checks: SessionChecks, args: seq<string>, mode: Mode, f: Fields, g: Fields)
    requires NumbersOnly(checks) && Consistent(SESSION_ALIASES, SessionProgram(checks))
    requires args != [] && LooksUpAlike(SESSION_ALIASES, SessionProgram(checks), args[0], mode)
    ensures var program := SessionProgram(checks);
            Parallel(PlainNext(SESSION_ALIASES, VALUE_FLAGS, program, args, mode, f), f, DirectNext(SESSION_ALIASES, program, args, mode, g), g)
  {
    var program, word := SessionProgram(checks), WordOf(SESSION_ALIASES, args[0], mode);
    Looked(SESSION_ALIASES, program, args[0], mode);
    SecondsAlike(args, mode);
    if Find(program.flags, word).Some? {
      SessionKinds(checks, word);
      FlagsParallel(Find(program.flags, word).value, program, word, args[0],
                    SecondWord(SESSION_ALIASES, VALUE_FLAGS, args, mode), Second(args), f, g);
    } else {
      SessionTakesAll(checks, args[0], SecondWord(SESSION_ALIASES, VALUE_FLAGS, args, mode), Second(args), f, g);
    }
  }

  lemma {:induction false} SessionTakesAll(checks: SessionChecks, arg: string, m: Option<string>, n: Option<string>, f: Fields, g: Fields)
    ensures Parallel(StepAt(None, SessionProgram(checks), arg, m, f), f, StepAt(None, SessionProgram(checks), arg, n, g), g)
  {
  }

  /** Positional arguments are never taken back. */
  lemma {:induction false} PlainGrows(checks: SessionChecks, args: seq<string>, mode: Mode, f: Fields)
    requires NumbersOnly(checks) && Readable(SESSION_ALIASES, VALUE_FLAGS, args, mode) && Named(SessionFlags(checks))
    ensures Count(Plain(SESSION_ALIASES, VALUE_FLAGS, SessionProgram(checks), args, mode, f).0) >= Count(f)
    decreases |args|
  {
    if args == [] {
      NothingRewritten(SESSION_ALIASES, VALUE_FLAGS, mode);
    } else {
      var program, word := SessionProgram(checks), WordOf(SESSION_ALIASES, args[0], mode);
      var more := SecondWord(SESSION_ALIASES, VALUE_FLAGS, args, mode);
      PlainStep(SESSION_ALIASES, VALUE_FLAGS, program, args, mode, f);
      if Find(program.flags, word).Some? {
        SessionKinds(checks, word);
        FlagsParallel(Find(program.flags, word).value, program, word, word, more, more, f, f);
      } else {
        SessionTakesAll(checks, word, more, more, f, f);
      }
      var s := PlainNext(SESSION_ALIASES, VALUE_FLAGS, program, args, mode, f);
      if s.Onward? {
        PlainGrows(checks, args[s.taken..], ModePast(SESSION_ALIASES, VALUE_FLAGS, args, s.taken, mode), s.fields);
      }
    }
  }

  /** Once the plain reading has more positional arguments it keeps them. */
  lemma {:induction false} Drift(checks: SessionChecks, args: seq<string>, mode: Mode, f: Fields, g: Fields)
    requires NumbersOnly(checks) && Readable(SESSION_ALIASES, VALUE_FLAGS, args, mode) && Consistent(SESSION_ALIASES, SessionProgram(checks))
    requires Count(f) > Count(g)
    ensures Count(Plain(SESSION_ALIASES, VALUE_FLAGS, SessionProgram(checks), args, mode, f).0)
          > Count(Direct(SESSION_ALIASES, SessionProgram(checks), args, g).0)
    decreases |args|, 1
  {
    var program := SessionProgram(checks);
    if args == [] {
      NothingRewritten(SESSION_ALIASES, VALUE_FLAGS, mode);
    } else if LooksUpAlike(SESSION_ALIASES, program, args[0], mode) {
      SessionStep(checks, args, mode, f, g);
      PlainStep(SESSION_ALIASES, VALUE_FLAGS, program, args, mode, f);
      DirectStep(SESSION_ALIASES, program, args, mode, g);
      var s := PlainNext(SESSION_ALIASES, VALUE_FLAGS, program, args, mode, f);
      var t := DirectNext(SESSION_ALIASES, program, args, mode, g);
      if s.Onward? {
        Drift(checks, args[s.taken..], ModePast(SESSION_ALIASES, VALUE_FLAGS, args, s.taken, mode), s.fields, t.fields);
      }
    } else {
      KeptDrift(checks, args, mode, f, g);
    }
  }

  lemma {:induction false} KeptPushed(checks: SessionChecks, args: seq<string>, mode: Mode, f: Fields) returns (pushed: Fields)
    requires Readable(SESSION_ALIASES, VALUE_FLAGS, args, mode) && Consistent(SESSION_ALIASES, SessionProgram(checks))
    requires args != [] && !LooksUpAlike(SESSION_ALIASES, SessionProgram(checks), args[0], mode)
    ensures var next := NextMode(SESSION_ALIASES, VALUE_FLAGS, args[0], mode);
            && Readable(SESSION_ALIASES, VALUE_FLAGS, args[1..], next)
            && Plain(SESSION_ALIASES, VALUE_FLAGS, SessionProgram(checks), args, mode, f)
               == Plain(SESSION_ALIASES, VALUE_FLAGS, SessionProgram(checks), args[1..], next, pushed)
    ensures Count(pushed) == Count(f) + 1
  {
    pushed := PushValue(f, "positional", args[0]);
    AliasIsFit(SESSION_ALIASES, SessionProgram(checks), args[0]);
    PlainStep(SESSION_ALIASES, VALUE_FLAGS, SessionProgram(checks), args, mode, f);
    ModePastOne(SESSION_ALIASES, VALUE_FLAGS, args, mode);
  }

  lemma {:induction false} KeptTarget(checks: SessionChecks, args: seq<string>, mode: Mode, g: Fields) returns (t: Step)
    requires NumbersOnly(checks) && Consistent(SESSION_ALIASES, SessionProgram(checks))
    requires args != [] && !LooksUpAlike(SESSION_ALIASES, SessionProgram(checks), args[0], mode)
    ensures t.Onward? ==> 1 <= t.taken <= 2 && t.taken <= |args|
    ensures t.Onward? ==> Count(t.fields) == Count(g) && (t.taken == 2 ==> args[1] != "" && args[1][0] != '-')
                          && Direct(SESSION_ALIASES, SessionProgram(checks), args, g)
                             == Direct(SESSION_ALIASES, SessionProgram(checks), args[t.taken..], t.fields)
    ensures !t.Onward? ==> Direct(SESSION_ALIASES, SessionProgram(checks), args, g).0 == g
  {
    KeptStep(SESSION_ALIASES, SessionProgram(checks), args, mode, g);
    t := TargetStep(checks, args[0], Second(args), g);
  }

  /** A kept alias starts it. */
  lemma {:induction false} KeptDrift(checks: SessionChecks, args: seq<string>, mode: Mode, f: Fields, g: Fields)
    requires NumbersOnly(checks) && Readable(SESSION_ALIASES, VALUE_FLAGS, args, mode) && Consistent(SESSION_ALIASES, SessionProgram(checks))
    requires args != [] && !LooksUpAlike(SESSION_ALIASES, SessionProgram(checks), args[0], mode) && Count(f) >= Count(g)
    ensures Count(Plain(SESSION_ALIASES, VALUE_FLAGS, SessionProgram(checks), args, mode, f).0)
          > Count(Direct(SESSION_ALIASES, SessionProgram(checks), args, g).0)
    decreases |args|, 0
  {
    var next := NextMode(SESSION_ALIASES, VALUE_FLAGS, args[0], mode);
    var pushed := KeptPushed(checks, args, mode, f);
    var t := KeptTarget(checks, args, mode, g);
    if !t.Onward? {
      PlainGrows(checks, args[1..], next, pushed);
    } else if t.taken == 1 {
      Drift(checks, args[1..], next, pushed, t.fields);
    } else {
      pushed := ValuePushed(checks, args[1..], next, pushed);
      assert args[1..][1..] == args[2..];
      Drift(checks, args[2..], ModePast(SESSION_ALIASES, VALUE_FLAGS, args[1..], 1, next), pushed, t.fields);
    }
  }

  /** What an alias does by itself: it adds no positional argument, and takes no name as a value. */
  lemma {:induction false} TargetStep(checks: SessionChecks, alias: string, more: Option<string>, g: Fields) returns (t: Step)
    requires NumbersOnly(checks) && OwnAlias(SESSION_ALIASES, alias).Some?
    requires var def := Find(SessionFlags(checks), OwnAlias(SESSION_ALIASES, alias).value); def.Some? && def.value.names != []
    ensures t == StepAt(Find(SessionFlags(checks), OwnAlias(SESSION_ALIASES, alias).value), SessionProgram(checks), alias, more, g)
    ensures if t.Onward? then Count(t.fields) == Count(g) && (t.taken == 2 ==> more.value != "" && more.value[0] != '-')
            else t.Stop? && t.outcome.0 == g
  {
    var target := OwnAlias(SESSION_ALIASES, alias).value;
    SessionAliasesAreNames(alias);
    SessionKinds(checks, target);
    TargetKind(checks, alias);
    t := StepAt(Find(SessionFlags(checks), target), SessionProgram(checks), alias, more, g);
  }

  lemma {:induction false} TargetKind(checks: SessionChecks, alias: string)
    requires OwnAlias(SESSION_ALIASES, alias).Some? && Find(SessionFlags(checks), OwnAlias(SESSION_ALIASES, alias).value).Some?
    ensures var def := Find(SessionFlags(checks), OwnAlias(SESSION_ALIASES, alias).value).value; def.Valued? ==> def.rejectDash
  {
    AliasTargetIsEntry(SESSION_ALIASES, alias);
    var i := FoundMember(SessionFlags(checks), OwnAlias(SESSION_ALIASES, alias).value);
  }

  /** An argument without a dash is a positional one. */
  lemma {:induction false} ValuePushed(checks: SessionChecks, args: seq<string>, mode: Mode, f: Fields) returns (pushed: Fields)
    requires args != [] && args[0] != "" && args[0][0] != '-' && Readable(SESSION_ALIASES, VALUE_FLAGS, args, mode) && Named(SessionFlags(checks))
    ensures var past := ModePast(SESSION_ALIASES, VALUE_FLAGS, args, 1, mode);
            && Readable(SESSION_ALIASES, VALUE_FLAGS, args[1..], past)
            && Plain(SESSION_ALIASES, VALUE_FLAGS, SessionProgram(checks), args, mode, f)
               == Plain(SESSION_ALIASES, VALUE_FLAGS, SessionProgram(checks), args[1..], past, pushed)
    ensures Count(pushed) == Count(f) + 1
  {
    pushed := PushValue(f, "positional", args[0]);
    if OwnAlias(SESSION_ALIASES, args[0]).Some? { SessionAliasesAreNames(args[0]); }
    if Find(SessionFlags(checks), args[0]).Some? { SessionNames(checks, args[0]); }
    PlainStep(SESSION_ALIASES, VALUE_FLAGS, SessionProgram(checks), args, mode, f);
  }

  // ----- When they agree

  lemma {:induction false} NamesRefused(def: FlagDef, program: Program, name: string, m: Option<string>, n: Option<string>, f: Fields)
    requires def.names != [] && (Switching(def) || Dashing(def) || Numbering(def)) && AlikeValues(m, n)
    ensures StepAt(Some(def), program, name, m, f) == StepAt(Some(def), program, name, n, f)
  {
  }

  lemma {:induction false} SessionHead(checks: SessionChecks, args: seq<string>, mode: Mode, f: Fields)
    requires NumbersOnly(checks) && Named(SessionFlags(checks))
    requires args != [] && LooksUpAlike(SESSION_ALIASES, SessionProgram(checks), args[0], mode)
    ensures ReadsHead(SESSION_ALIASES, VALUE_FLAGS, SessionProgram(checks), args, mode, f)
    ensures !PlainNext(SESSION_ALIASES, VALUE_FLAGS, SessionProgram(checks), args, mode, f).Finish?
  {
    var word := WordOf(SESSION_ALIASES, args[0], mode);
    SecondsAlike(args, mode);
    if Find(SessionFlags(checks), word).Some? {
      SessionKinds(checks, word);
      NamesRefused(Find(SessionFlags(checks), word).value, SessionProgram(checks), word,
                   SecondWord(SESSION_ALIASES, VALUE_FLAGS, args, mode), Second(args), f);
    }
  }

  lemma {:induction false} SessionIffIn(checks: SessionChecks, args: seq<string>, mode: Mode, f: Fields)
    requires NumbersOnly(checks) && Readable(SESSION_ALIASES, VALUE_FLAGS, args, mode) && Consistent(SESSION_ALIASES, SessionProgram(checks))
    ensures Alike(SESSION_ALIASES, VALUE_FLAGS, SessionProgram(checks), args, mode, f)
            <==> !MeetsKept(SESSION_ALIASES, VALUE_FLAGS, SessionProgram(checks), args, mode, f)
    decreases |args|
  {
    var program := SessionProgram(checks);
    if args == [] {
      NothingRewritten(SESSION_ALIASES, VALUE_FLAGS, mode);
    } else if LooksUpAlike(SESSION_ALIASES, program, args[0], mode) {
      SessionHead(checks, args, mode, f);
      StepInStep(SESSION_ALIASES, VALUE_FLAGS, program, args, mode, f);
      var s := PlainNext(SESSION_ALIASES, VALUE_FLAGS, program, args, mode, f);
      if s.Onward? {
        SessionIffIn(checks, args[s.taken..], ModePast(SESSION_ALIASES, VALUE_FLAGS, args, s.taken, mode), s.fields);
      }
    } else {
      KeptDrift(checks, args, mode, f, f);
    }
  }

  /** For `session` the two readings agree exactly when the parse looks up no alias after a `--`
      or after the value flag of another command. */
  lemma {:induction false} SessionAgreesIff(checks: SessionChecks, args: seq<string>, fields: Fields)
    requires NumbersOnly(checks) && Readable(SESSION_ALIASES, VALUE_FLAGS, args, Looking)
    ensures Named(SessionFlags(checks))
    ensures Agree(SESSION_ALIASES, VALUE_FLAGS, SessionProgram(checks), args, fields)
            <==> !MeetsKept(SESSION_ALIASES, VALUE_FLAGS, SessionProgram(checks), args, Looking, fields)
  {
    SessionIsConsistent(checks);
    SessionIffIn(checks, args, Looking, fields);
  }

  /** Behind any arguments read in step, an alias after a `--` is never read alike, whatever
      follows. */
  lemma {:induction false} DashesHideAliases(checks: SessionChecks, args: seq<string>, alias: string, more: seq<string>, fields: Fields)
    requires NumbersOnly(checks) && OwnAlias(SESSION_ALIASES, alias).Some? && Named(SessionFlags(checks))
    requires Readable(SESSION_ALIASES, VALUE_FLAGS, args + (["--", alias] + more), Looking)
    requires Behind(SESSION_ALIASES, VALUE_FLAGS, SessionProgram(checks), args, Looking, fields).Some?
    ensures !Agree(SESSION_ALIASES, VALUE_FLAGS, SessionProgram(checks), args + (["--", alias] + more), fields)
  {
    var tail := ["--", alias] + more;
    var (mode, behind) := Behind(SESSION_ALIASES, VALUE_FLAGS, SessionProgram(checks), args, Looking, fields).value;
    SessionIsConsistent(checks);
    FrontReduces(SESSION_ALIASES, VALUE_FLAGS, SessionProgram(checks), args, tail, Looking, fields);
    SessionIffIn(checks, tail, mode, behind);
    DashesKeep(checks, alias, tail, mode, behind);
  }

  lemma {:induction false} DashesKeep(checks: SessionChecks, alias: string, tail: seq<string>, mode: Mode, fields: Fields)
    requires OwnAlias(SESSION_ALIASES, alias).Some? && Consistent(SESSION_ALIASES, SessionProgram(checks))
    requires |tail| > 1 && tail[0] == "--" && tail[1] == alias
    ensures MeetsKept(SESSION_ALIASES, VALUE_FLAGS, SessionProgram(checks), tail, mode, fields)
  {
    SessionLacks(checks, "--");
    AliasTargetIsEntry(SESSION_ALIASES, alias);
    SessionKnows(checks);
    SessionLacks(checks, alias);
    ModePastOne(SESSION_ALIASES, VALUE_FLAGS, tail, mode);
    assert tail[1..][0] == alias;
  }

  /** So the dry run of `session -- -D` is lost. */
  lemma {:induction false} DryRunIsLost(checks: SessionChecks)
    ensures Readable(SESSION_ALIASES, VALUE_FLAGS, ["--", "-D"], Looking) && Named(SessionFlags(checks))
    ensures Plain(SESSION_ALIASES, VALUE_FLAGS, SessionProgram(checks), ["--", "-D"], Looking, map[])
         == (map["positional" := Many(["--", "-D"])], None)
    ensures Direct(SESSION_ALIASES, SessionProgram(checks), ["--", "-D"], map[])
         == (map["positional" := Many(["--"]), "dryRun" := On], None)
  {
    SessionIsConsistent(checks);
    PlainDashes(checks);
    DirectDashes(checks);
  }

  lemma {:induction false} PlainDashes(checks: SessionChecks)
    ensures Readable(SESSION_ALIASES, VALUE_FLAGS, ["--", "-D"], Looking) && Named(SessionFlags(checks))
    ensures Plain(SESSION_ALIASES, VALUE_FLAGS, SessionProgram(checks), ["--", "-D"], Looking, map[])
         == (map["positional" := Many(["--", "-D"])], None)
  {
    var program := SessionProgram(checks);
    SessionIsConsistent(checks);
    SessionLacks(checks, "--");
    assert ["--", "-D"][1..] == ["-D"];
    ModePastOne(SESSION_ALIASES, VALUE_FLAGS, ["--", "-D"], Looking);
    PlainStep(SESSION_ALIASES, VALUE_FLAGS, program, ["--", "-D"], Looking, map[]);
    PlainDashD(checks);
  }

  lemma {:induction false} PlainDashD(checks: SessionChecks)
    requires Named(SessionFlags(checks))
    ensures Readable(SESSION_ALIASES, VALUE_FLAGS, ["-D"], Ended)
    ensures Plain(SESSION_ALIASES, VALUE_FLAGS, SessionProgram(checks), ["-D"], Ended, map["positional" := Many(["--"])])
         == (map["positional" := Many(["--", "-D"])], None)
  {
    var before := map["positional" := Many(["--"])];
    SessionLacks(checks, "-D");
    PlainStep(SESSION_ALIASES, VALUE_FLAGS, SessionProgram(checks), ["-D"], Ended, before);
    assert ["-D"][1..] == [];
    assert ["--"] + ["-D"] == ["--", "-D"];
    assert PushValue(before, "positional", "-D") == map["positional" := Many(["--", "-D"])];
    assert PlainNext(SESSION_ALIASES, VALUE_FLAGS, SessionProgram(checks), ["-D"], Ended, before) == Onward(1, map["positional" := Many(["--", "-D"])]);
    NothingRewritten(SESSION_ALIASES, VALUE_FLAGS, ModePast(SESSION_ALIASES, VALUE_FLAGS, ["-D"], 1, Ended));
  }

  lemma {:induction false} DryRunFound(checks: SessionChecks)
    ensures OwnAlias(SESSION_ALIASES, "-D") == Some("--dry-run")
    ensures Find(SessionFlags(checks), "--dry-run") == Some(Switch(["--dry-run"], Some("dryRun"), None))
  {
    FoundIn(SessionFlags(checks), 1, "--dry-run");
    var i := FoundMember(SessionFlags(checks), "--dry-run");
  }

  lemma {:induction false} DirectDashes(checks: SessionChecks)
    requires Consistent(SESSION_ALIASES, SessionProgram(checks))
    ensures Direct(SESSION_ALIASES, SessionProgram(checks), ["--", "-D"], map[])
         == (map["positional" := Many(["--"]), "dryRun" := On], None)
  {
    var program := SessionProgram(checks);
    SessionLacks(checks, "--");
    SessionLacks(checks, "-D");
    DryRunFound(checks);
    DirectStep(SESSION_ALIASES, program, ["--", "-D"], Looking, map[]);
    assert ["--", "-D"][1..] == ["-D"];
    KeptStep(SESSION_ALIASES, program, ["-D"], Ended, map["positional" := Many(["--"])]);
    assert ["-D"][1..] == [];
  }
}
