/** The two readings of the arguments of `done` (cli/commands/workbench/args.ts, cli/aliases.ts).
    A kept alias ends the one reading, a changed shell command stays changed, and any other
    changed value can be repaired by giving the flag again. */
module DoneReading {
  import opened Wrappers
  import opened FlagAliases
  import opened FlagSpecs
  import opened FlagPipeline
  import opened FlagAgreement
  import opened FlagDivergence
  import opened FlagCommands

  /** No name is blank or a number. */
  ghost predicate NamesAreWords(checks: DoneChecks) {
    forall raw :: NameLike(raw) ==> !checks.blank(raw) && !checks.finite(raw)
  }

  const STORED_KEYS: set<string> := {"session", "taskId", "evidenceCommand", "evidenceResult", "artifact", "note"}

  /** The plain reading `f` differs from the direct one `g` in the `changed` values and nowhere
      else; before one is changed a shell command is given. */
  ghost predicate Differ(f: Fields, g: Fields, changed: set<string>) {
    && f.Keys == g.Keys && changed <= g.Keys && changed <= STORED_KEYS
    && (changed != {} ==> "testShellCommand" in g)
    && (forall k :: k in g.Keys ==> (f[k] == g[k] <==> k !in changed))
  }

  lemma {:induction false} NoDifference(f: Fields, g: Fields, changed: set<string>)
    requires Differ(f, g, changed)
    ensures f == g <==> changed == {}
  {
    if changed != {} {
      var k :| k in changed;
      assert f[k] != g[k];
    }
  }

  /** The keys whose values differ after one more flag. */
  function Changed(changed: set<string>, key: Option<string>, altered: bool): set<string> {
    if key == None then changed else if altered then changed + {key.value} else changed - {key.value}
  }

  // ----- The flags by kind

  ghost predicate Switching(def: FlagDef) {
    def.Switch? && def.apply == None && (def.key == Some("json") || def.key == Some("requireSpecCheck"))
  }

  ghost predicate Taking(def: FlagDef) {
    def.Valued? && !def.rejectDash && !def.allowEmpty && !def.multi && !def.useMatchedName
  }

  ghost predicate Storing(def: FlagDef) {
    Taking(def) && def.validate == None && def.store == None && def.key.Some? && def.key.value in STORED_KEYS
  }

  ghost predicate Testing(checks: DoneChecks, def: FlagDef) {
    && Taking(def) && def.names == ["--test"] && def.key == None && def.validate == None && def.store.Some?
    && (forall f, raw :: def.store.value(f, raw) == AddTest(checks, f, raw))
  }

  ghost predicate Shelling(checks: DoneChecks, def: FlagDef) {
    && Taking(def) && def.key == None && def.validate == None && def.store.Some?
    && (forall f, raw :: def.store.value(f, raw) == SetShell(checks, f, raw))
  }

  ghost predicate Timing(checks: DoneChecks, def: FlagDef) {
    && Taking(def) && def.key == None && def.validate.Some? && def.store.Some?
    && (forall f, raw :: def.validate.value(f, raw) == CheckFinite(checks, f, raw))
    && (forall f, raw :: def.store.value(f, raw) == SetTimeout(checks, f, raw))
  }

  ghost predicate Finishing(checks: DoneChecks, def: FlagDef) {
    def.Terminator? && forall f, rest :: def.finish(f, rest) == FinishDone(checks, f, rest)
  }

  ghost predicate OfSomeKind(checks: DoneChecks, def: FlagDef) {
    def.names != [] && (Switching(def) || Storing(def) || Testing(checks, def) || Shelling(checks, def) || Timing(checks, def) || Finishing(checks, def))
  }

  lemma {:induction false} KindByIndex(checks: DoneChecks, i: nat)
    requires i < |DoneFlags(checks)|
    ensures var def := DoneFlags(checks)[i];
            OfSomeKind(checks, def) && (Storing(def) || Testing(checks, def) ==> def.names[0] in VALUE_FLAGS && def.names == [def.names[0]])
  {
  }

  lemma {:induction false} DoneKinds(checks: DoneChecks, name: string)
    requires Find(DoneFlags(checks), name).Some?
    ensures var def := Find(DoneFlags(checks), name).value;
            OfSomeKind(checks, def) && (Storing(def) || Testing(checks, def) ==> name in VALUE_FLAGS)
  {
    var i := FoundMember(DoneFlags(checks), name);
    KindByIndex(checks, i);
  }

  // ----- One step of both readings

  /** Both shell commands are set and differ. */
  predicate Parted(f: Fields, g: Fields) {
    "testShellCommand" in f && "testShellCommand" in g && f["testShellCommand"] != g["testShellCommand"]
  }

  /** The steps are alike: both end on these fields with one error, both hand over, or both go on
      to fields that differ in the values changed so far. */
  ghost predicate StepsLevel(s: Step, f: Fields, t: Step, g: Fields, changed: set<string>, key: Option<string>, altered: bool) {
    match t
    case Stop(outcome) => s.Stop? && s.outcome == (f, outcome.1) && outcome.0 == g
    case Finish(finish) => s == t && (changed != {} ==> forall rest :: finish(f, rest) == None && finish(g, rest) == None)
    case Onward(taken, fields) =>
      && s.Onward? && s.taken == taken && g.Keys <= fields.Keys
      && (if altered && key == None then Parted(s.fields, fields) else Differ(s.fields, fields, Changed(changed, key, altered)))
  }

  lemma {:induction false} StoringStep(def: FlagDef, program: Program, name: string, more: Option<string>, f: Fields)
    requires Storing(def) && def.names != [] && !program.skipFalsyArgs
    ensures StepAt(Some(def), program, name, more, f)
         == if more == None || more.value == "" then Stop((f, Some(MissingError(def, def.names[0]))))
            else Onward(2, f[def.key.value := One(more.value)])
  {
  }

  lemma {:induction false} StoredDiffer(f: Fields, g: Fields, changed: set<string>, key: string, m: string, n: string)
    requires Differ(f, g, changed) && key in STORED_KEYS && (m != n ==> "testShellCommand" in g)
    ensures Differ(f[key := One(m)], g[key := One(n)], Changed(changed, Some(key), m != n))
  {
  }

  lemma {:induction false} StoringLevel(checks: DoneChecks, def: FlagDef, a: string, b: string, m: Option<string>, n: Option<string>, f: Fields, g: Fields, changed: set<string>)
    requires Storing(def) && def.names != [] && Differ(f, g, changed) && AlikeValues(m, n) && (m != n ==> "testShellCommand" in g)
    ensures StepsLevel(StepAt(Some(def), DoneProgram(checks), a, m, f), f, StepAt(Some(def), DoneProgram(checks), b, n, g), g,
                  changed, def.key, m != n)
  {
    StoringStep(def, DoneProgram(checks), a, m, f);
    StoringStep(def, DoneProgram(checks), b, n, g);
    if m.Some? && m.value != "" { StoredDiffer(f, g, changed, def.key.value, m.value, n.value); }
  }

  lemma {:induction false} TestingLevel(checks: DoneChecks, def: FlagDef, a: string, b: string, m: Option<string>, n: Option<string>, f: Fields, g: Fields, changed: set<string>)
    requires Testing(checks, def) && def.names != [] && Differ(f, g, changed) && AlikeValues(m, n) && (m != n ==> "testShellCommand" in g)
    ensures StepsLevel(StepAt(Some(def), DoneProgram(checks), a, m, f), f, StepAt(Some(def), DoneProgram(checks), b, n, g), g,
                  changed, None, m != n)
  {
  }

  lemma {:induction false} ShellingLevel(checks: DoneChecks, def: FlagDef, a: string, b: string, m: Option<string>, n: Option<string>, f: Fields, g: Fields, changed: set<string>)
    requires NamesAreWords(checks) && Shelling(checks, def) && def.names != [] && Differ(f, g, changed) && AlikeValues(m, n)
    ensures StepsLevel(StepAt(Some(def), DoneProgram(checks), a, m, f), f, StepAt(Some(def), DoneProgram(checks), b, n, g), g,
                  changed, None, m != n)
  {
  }

  lemma {:induction false} TimingLevel(checks: DoneChecks, def: FlagDef, a: string, b: string, m: Option<string>, n: Option<string>, f: Fields, g: Fields, changed: set<string>)
    requires NamesAreWords(checks) && Timing(checks, def) && def.names != [] && Differ(f, g, changed) && AlikeValues(m, n)
    ensures StepsLevel(StepAt(Some(def), DoneProgram(checks), a, m, f), f, StepAt(Some(def), DoneProgram(checks), b, n, g), g,
                  changed, None, m != n)
  {
  }

  lemma {:induction false} OtherLevel(checks: DoneChecks, def: FlagDef, a: string, b: string, m: Option<string>, n: Option<string>, f: Fields, g: Fields, changed: set<string>)
    requires (Switching(def) || Finishing(checks, def)) && def.names != [] && Differ(f, g, changed)
    ensures StepsLevel(StepAt(Some(def), DoneProgram(checks), a, m, f), f, StepAt(Some(def), DoneProgram(checks), b, n, g), g,
                  changed, None, false)
  {
  }

  lemma {:induction false} PositionalLevel(checks: DoneChecks, arg: string, m: Option<string>, n: Option<string>, f: Fields, g: Fields, changed: set<string>)
    requires Differ(f, g, changed)
    ensures StepsLevel(StepAt(None, DoneProgram(checks), arg, m, f), f, StepAt(None, DoneProgram(checks), arg, n, g), g, changed, None, false)
  {
  }

  // ----- The arguments

  function ValueFlag(checks: DoneChecks, args: seq<string>, mode: Mode): Option<FlagDef>
    requires args != []
  {
    var def := Find(DoneFlags(checks), WordOf(DONE_ALIASES, args[0], mode));
    if def.Some? && def.value.Valued? then def else None
  }

  /** Does the rewriting change a value? */
  predicate Altered(checks: DoneChecks, args: seq<string>, mode: Mode)
    requires args != []
  {
    ValueFlag(checks, args, mode).Some? && SecondWord(DONE_ALIASES, VALUE_FLAGS, args, mode) != Second(args)
  }

  function ValueKey(checks: DoneChecks, args: seq<string>, mode: Mode): Option<string>
    requires args != []
  {
    match ValueFlag(checks, args, mode)
    case None => None
    case Some(def) => def.key
  }

  lemma {:induction false} DoneAliasesAreNames(alias: string)
    requires OwnAlias(DONE_ALIASES, alias).Some?
    ensures NameLike(alias) && NameLike(OwnAlias(DONE_ALIASES, alias).value)
  {
    AliasTargetIsEntry(DONE_ALIASES, alias);
  }

  lemma {:induction false} SecondsAlike(args: seq<string>, mode: Mode)
    ensures AlikeValues(SecondWord(DONE_ALIASES, VALUE_FLAGS, args, mode), Second(args))
  {
    if |args| > 1 && OwnAlias(DONE_ALIASES, args[1]).Some? { DoneAliasesAreNames(args[1]); }
  }

  /** The value of a listed flag is changed only where that flag is kept itself. */
  lemma {:induction false} AlteredWhereKept(args: seq<string>, mode: Mode)
    requires args != [] && WordOf(DONE_ALIASES, args[0], mode) in VALUE_FLAGS
    requires SecondWord(DONE_ALIASES, VALUE_FLAGS, args, mode) != Second(args)
    ensures mode.Keeping?
  {
  }

  lemma {:induction false} FlagLevel(checks: DoneChecks, def: FlagDef, args: seq<string>, mode: Mode, f: Fields, g: Fields, changed: set<string>)
    requires NamesAreWords(checks) && args != [] && Differ(f, g, changed) && (mode.Keeping? ==> "testShellCommand" in g)
    requires Find(DoneFlags(checks), WordOf(DONE_ALIASES, args[0], mode)) == Some(def) && def.names != []
    ensures StepsLevel(StepAt(Some(def), DoneProgram(checks), WordOf(DONE_ALIASES, args[0], mode), SecondWord(DONE_ALIASES, VALUE_FLAGS, args, mode), f), f,
                  StepAt(Some(def), DoneProgram(checks), args[0], Second(args), g), g,
                  changed, ValueKey(checks, args, mode), Altered(checks, args, mode))
  {
    var word, m, n := WordOf(DONE_ALIASES, args[0], mode), SecondWord(DONE_ALIASES, VALUE_FLAGS, args, mode), Second(args);
    DoneKinds(checks, word);
    SecondsAlike(args, mode);
    if m != n && word in VALUE_FLAGS { AlteredWhereKept(args, mode); }
    if Storing(def) {
      StoringLevel(checks, def, word, args[0], m, n, f, g, changed);
    } else if Testing(checks, def) {
      TestingLevel(checks, def, word, args[0], m, n, f, g, changed);
    } else if Shelling(checks, def) {
      ShellingLevel(checks, def, word, args[0], m, n, f, g, changed);
    } else if Timing(checks, def) {
      TimingLevel(checks, def, word, args[0], m, n, f, g, changed);
    } else {
      OtherLevel(checks, def, word, args[0], m, n, f, g, changed);
    }
  }

  lemma {:induction false} StepLevel(checks: DoneChecks, args: seq<string>, mode: Mode, f: Fields, g: Fields, changed: set<string>)
    requires NamesAreWords(checks) && Consistent(DONE_ALIASES, DoneProgram(checks)) && NamesUnquoted(DONE_ALIASES, DoneFlags(checks))
    requires args != [] && LooksUpAlike(DONE_ALIASES, DoneProgram(checks), args[0], mode)
    requires Differ(f, g, changed) && (mode.Keeping? ==> "testShellCommand" in g)
    ensures StepsLevel(PlainNext(DONE_ALIASES, VALUE_FLAGS, DoneProgram(checks), args, mode, f), f,
                  DirectNext(DONE_ALIASES, DoneProgram(checks), args, mode, g), g,
                  changed, ValueKey(checks, args, mode), Altered(checks, args, mode))
  {
    var word := WordOf(DONE_ALIASES, args[0], mode);
    Looked(DONE_ALIASES, DoneProgram(checks), args[0], mode);
    match Find(DoneFlags(checks), word)
    case None =>
      PositionalLevel(checks, word, SecondWord(DONE_ALIASES, VALUE_FLAGS, args, mode), Second(args), f, g, changed);
    case Some(def) =>
      FindNamed(DoneFlags(checks), word);
      FlagLevel(checks, def, args, mode, f, g, changed);
  }

  // ----- A shell command stays

  lemma {:induction false} KindKeepsShell(checks: DoneChecks, def: FlagDef, name: string, more: Option<string>, f: Fields)
    requires OfSomeKind(checks, def) && "testShellCommand" in f
    ensures match StepAt(Some(def), DoneProgram(checks), name, more, f)
            case Stop(outcome) => outcome.0 == f
            case Onward(_, next) => "testShellCommand" in next && next["testShellCommand"] == f["testShellCommand"]
            case Finish(finish) => forall rest :: finish(f, rest) == None
  {
  }

  lemma {:induction false} PositionalKeepsShell(checks: DoneChecks, name: string, more: Option<string>, f: Fields)
    requires "testShellCommand" in f
    ensures match StepAt(None, DoneProgram(checks), name, more, f)
            case Stop(outcome) => outcome.0 == f
            case Onward(_, next) => "testShellCommand" in next && next["testShellCommand"] == f["testShellCommand"]
            case Finish(_) => false
  {
  }

  predicate ShellKept(f: Fields, after: Fields) {
    "testShellCommand" in f && "testShellCommand" in after && after["testShellCommand"] == f["testShellCommand"]
  }

  lemma {:induction false} PlainKeepsShell(checks: DoneChecks, args: seq<string>, mode: Mode, f: Fields)
    requires Readable(DONE_ALIASES, VALUE_FLAGS, args, mode) && Named(DoneFlags(checks)) && "testShellCommand" in f
    ensures ShellKept(f, Plain(DONE_ALIASES, VALUE_FLAGS, DoneProgram(checks), args, mode, f).0)
    decreases |args|
  {
    if args == [] {
      NothingRewritten(DONE_ALIASES, VALUE_FLAGS, mode);
    } else {
      var word, more := WordOf(DONE_ALIASES, args[0], mode), SecondWord(DONE_ALIASES, VALUE_FLAGS, args, mode);
      PlainStep(DONE_ALIASES, VALUE_FLAGS, DoneProgram(checks), args, mode, f);
      match Find(DoneFlags(checks), word) {
        case None => PositionalKeepsShell(checks, word, more, f);
        case Some(def) =>
          DoneKinds(checks, word);
          KindKeepsShell(checks, def, word, more, f);
      }
      var s := PlainNext(DONE_ALIASES, VALUE_FLAGS, DoneProgram(checks), args, mode, f);
      if s.Onward? {
        PlainKeepsShell(checks, args[s.taken..], ModePast(DONE_ALIASES, VALUE_FLAGS, args, s.taken, mode), s.fields);
      }
    }
  }

  /** Every argument is looked up by itself: whether the rewriting would keep it does not matter. */
  lemma {:induction false} DirectKeepsShell(checks: DoneChecks, args: seq<string>, g: Fields)
    requires Consistent(DONE_ALIASES, DoneProgram(checks)) && "testShellCommand" in g
    ensures ShellKept(g, Direct(DONE_ALIASES, DoneProgram(checks), args, g).0)
    decreases |args|
  {
    if args != [] {
      var word := WordOf(DONE_ALIASES, args[0], Looking);
      DirectStep(DONE_ALIASES, DoneProgram(checks), args, Looking, g);
      match Find(DoneFlags(checks), word) {
        case None => PositionalKeepsShell(checks, args[0], Second(args), g);
        case Some(def) =>
          DoneKinds(checks, word);
          KindKeepsShell(checks, def, args[0], Second(args), g);
      }
      var t := DirectNext(DONE_ALIASES, DoneProgram(checks), args, Looking, g);
      if t.Onward? { DirectKeepsShell(checks, args[t.taken..], t.fields); }
    }
  }

  lemma {:induction false} PartedNeverAgrees(checks: DoneChecks, args: seq<string>, mode: Mode, f: Fields, g: Fields)
    requires Readable(DONE_ALIASES, VALUE_FLAGS, args, mode) && Consistent(DONE_ALIASES, DoneProgram(checks)) && Parted(f, g)
    ensures Plain(DONE_ALIASES, VALUE_FLAGS, DoneProgram(checks), args, mode, f).0 != Direct(DONE_ALIASES, DoneProgram(checks), args, g).0
  {
    PlainKeepsShell(checks, args, mode, f);
    DirectKeepsShell(checks, args, g);
  }

  // ----- When they agree

  /** The condition: read the arguments directly, with `g` the fields so far and `changed` the
      keys whose values the rewriting has changed. No alias is met that the rewriting keeps,
      the text of `--test-shell` is no alias, and every other changed value is given again. */
  predicate Repaired(checks: DoneChecks, args: seq<string>, mode: Mode, g: Fields, changed: set<string>)
    requires Named(DoneFlags(checks))
    decreases |args|
  {
    if args == [] then changed == {}
    else
      && LooksUpAlike(DONE_ALIASES, DoneProgram(checks), args[0], mode)
      && var t := DirectNext(DONE_ALIASES, DoneProgram(checks), args, mode, g);
         if !t.Onward? then changed == {}
         else
           var key, altered := ValueKey(checks, args, mode), Altered(checks, args, mode);
           && (altered ==> key.Some?)
           && Repaired(checks, args[t.taken..], ModePast(DONE_ALIASES, VALUE_FLAGS, args, t.taken, mode), t.fields, Changed(changed, key, altered))
  }

  lemma {:induction false} ListedIsName(name: string)
    requires name in VALUE_FLAGS
    ensures NameLike(name)
  {
  }

  lemma {:induction false} SwitchIsUnlisted(checks: DoneChecks, name: string)
    requires Find(DoneFlags(checks), name).Some? && name in VALUE_FLAGS
    ensures Find(DoneFlags(checks), name).value.Valued?
  {
    ValueFlagsStart(name);
    DoneLists(checks, name);
  }

  /** A value flag that is not listed took this value, which the rewriting takes for a listed
      flag: it was a shell command. */
  lemma {:induction false} NameTaken(checks: DoneChecks, def: FlagDef, name: string, raw: string, g: Fields)
    requires NamesAreWords(checks) && def.names != [] && (Shelling(checks, def) || Timing(checks, def)) && NameLike(raw)
    ensures var t := StepAt(Some(def), DoneProgram(checks), name, Some(raw), g);
            t.Onward? ==> "testShellCommand" in t.fields
  {
  }

  lemma {:induction false} LookingBehindShell(checks: DoneChecks, args: seq<string>, g: Fields)
    requires NamesAreWords(checks) && Named(DoneFlags(checks)) && args != []
    ensures var t := DirectNext(DONE_ALIASES, DoneProgram(checks), args, Looking, g);
            t.Onward? && ModePast(DONE_ALIASES, VALUE_FLAGS, args, t.taken, Looking).Keeping? ==> "testShellCommand" in t.fields
  {
    var word := WordOf(DONE_ALIASES, args[0], Looking);
    var t := DirectNext(DONE_ALIASES, DoneProgram(checks), args, Looking, g);
    if t.Onward? && ModePast(DONE_ALIASES, VALUE_FLAGS, args, t.taken, Looking).Keeping? {
      if t.taken == 1 {
        ModePastOne(DONE_ALIASES, VALUE_FLAGS, args, Looking);
        TakenIsUnlisted(checks, args, g);
      } else {
        ModePastTwo(DONE_ALIASES, VALUE_FLAGS, args, Looking);
        SecondIsName(args);
        DoneKinds(checks, word);
        NameTaken(checks, Find(DoneFlags(checks), word).value, args[0], args[1], g);
      }
    }
  }

  lemma {:induction false} SecondIsName(args: seq<string>)
    requires |args| > 1 && WordOf(DONE_ALIASES, args[1], Looking) in VALUE_FLAGS
    ensures NameLike(args[1])
  {
    ListedIsName(WordOf(DONE_ALIASES, args[1], Looking));
    if OwnAlias(DONE_ALIASES, args[1]).Some? { DoneAliasesAreNames(args[1]); }
  }

  lemma {:induction false} TakenIsUnlisted(checks: DoneChecks, args: seq<string>, g: Fields)
    requires Named(DoneFlags(checks)) && args != []
    ensures var t := DirectNext(DONE_ALIASES, DoneProgram(checks), args, Looking, g);
            t.Onward? && t.taken == 1 ==> WordOf(DONE_ALIASES, args[0], Looking) !in VALUE_FLAGS
  {
    var word := WordOf(DONE_ALIASES, args[0], Looking);
    if word in VALUE_FLAGS {
      ListedIsName(word);
      if OwnAlias(DONE_ALIASES, args[0]).Some? { DoneAliasesAreNames(args[0]); }
      if Find(DoneFlags(checks), word).Some? { SwitchIsUnlisted(checks, word); }
    }
  }

  /** A listed flag stands where a value was taken only behind a shell command. */
  lemma {:induction false} KeepingBehindShell(checks: DoneChecks, args: seq<string>, mode: Mode, g: Fields)
    requires NamesAreWords(checks) && Named(DoneFlags(checks)) && args != [] && (mode.Keeping? ==> "testShellCommand" in g)
    ensures var t := DirectNext(DONE_ALIASES, DoneProgram(checks), args, mode, g);
            t.Onward? && ModePast(DONE_ALIASES, VALUE_FLAGS, args, t.taken, mode).Keeping? ==> "testShellCommand" in t.fields
  {
    var word := WordOf(DONE_ALIASES, args[0], mode);
    if mode.Looking? {
      LookingBehindShell(checks, args, g);
    } else if mode.Ended? {
      ModePastOne(DONE_ALIASES, VALUE_FLAGS, args, mode);
      if |args| > 1 { ModePastTwo(DONE_ALIASES, VALUE_FLAGS, args, mode); }
    } else if Find(DoneFlags(checks), word) == None {
      PositionalKeepsShell(checks, args[0], Second(args), g);
    } else {
      DoneKinds(checks, word);
      KindKeepsShell(checks, Find(DoneFlags(checks), word).value, args[0], Second(args), g);
    }
  }

  lemma {:induction false} DoneDeclines(checks: DoneChecks)
    ensures DeclinesAliases(DONE_ALIASES, DoneProgram(checks)) && NamesUnquoted(DONE_ALIASES, DoneFlags(checks))
  {
    DoneKnows(checks);
    forall alias, f | OwnAlias(DONE_ALIASES, alias).Some? ensures DonePositional(f, alias).Declined? {
      AliasTargetIsEntry(DONE_ALIASES, alias);
    }
  }

  /** What the table and the specification of `done` are proved to be. */
  ghost predicate Sound(checks: DoneChecks) {
    && NamesAreWords(checks) && Consistent(DONE_ALIASES, DoneProgram(checks))
    && DeclinesAliases(DONE_ALIASES, DoneProgram(checks)) && NamesUnquoted(DONE_ALIASES, DoneFlags(checks))
  }

  /** The two readings, from different fields, mean the same. */
  predicate Equal(checks: DoneChecks, args: seq<string>, mode: Mode, f: Fields, g: Fields)
    requires Readable(DONE_ALIASES, VALUE_FLAGS, args, mode) && Named(DoneFlags(checks))
  {
    SameMeaning(Plain(DONE_ALIASES, VALUE_FLAGS, DoneProgram(checks), args, mode, f),
                Direct(DONE_ALIASES, DoneProgram(checks), args, g), DONE_ALIASES, DoneFlags(checks))
  }

  lemma {:induction false} EndsLevel(checks: DoneChecks, args: seq<string>, mode: Mode, f: Fields, g: Fields, changed: set<string>)
    requires Sound(checks) && Readable(DONE_ALIASES, VALUE_FLAGS, args, mode)
    requires args != [] && LooksUpAlike(DONE_ALIASES, DoneProgram(checks), args[0], mode)
    requires Differ(f, g, changed) && (mode.Keeping? ==> "testShellCommand" in g)
    requires !DirectNext(DONE_ALIASES, DoneProgram(checks), args, mode, g).Onward?
    ensures Equal(checks, args, mode, f, g) <==> changed == {}
  {
    NoDifference(f, g, changed);
    StepLevel(checks, args, mode, f, g, changed);
    PlainStep(DONE_ALIASES, VALUE_FLAGS, DoneProgram(checks), args, mode, f);
    DirectStep(DONE_ALIASES, DoneProgram(checks), args, mode, g);
    if DirectNext(DONE_ALIASES, DoneProgram(checks), args, mode, g).Finish? {
      FinishesAtDashes(DONE_ALIASES, VALUE_FLAGS, DoneProgram(checks), args, mode, f);
    }
  }

  lemma {:induction false} GoesOnLevel(checks: DoneChecks, args: seq<string>, mode: Mode, f: Fields, g: Fields, changed: set<string>) returns (next: Fields)
    requires Sound(checks) && Readable(DONE_ALIASES, VALUE_FLAGS, args, mode)
    requires args != [] && LooksUpAlike(DONE_ALIASES, DoneProgram(checks), args[0], mode)
    requires Differ(f, g, changed) && (mode.Keeping? ==> "testShellCommand" in g)
    requires DirectNext(DONE_ALIASES, DoneProgram(checks), args, mode, g).Onward?
    ensures var t := DirectNext(DONE_ALIASES, DoneProgram(checks), args, mode, g);
            var past := ModePast(DONE_ALIASES, VALUE_FLAGS, args, t.taken, mode);
            && Readable(DONE_ALIASES, VALUE_FLAGS, args[t.taken..], past)
            && (Equal(checks, args, mode, f, g) <==> Equal(checks, args[t.taken..], past, next, t.fields))
    ensures var t := DirectNext(DONE_ALIASES, DoneProgram(checks), args, mode, g);
            var key, altered := ValueKey(checks, args, mode), Altered(checks, args, mode);
            if altered && key == None then Parted(next, t.fields) else Differ(next, t.fields, Changed(changed, key, altered))
  {
    StepLevel(checks, args, mode, f, g, changed);
    PlainStep(DONE_ALIASES, VALUE_FLAGS, DoneProgram(checks), args, mode, f);
    DirectStep(DONE_ALIASES, DoneProgram(checks), args, mode, g);
    next := PlainNext(DONE_ALIASES, VALUE_FLAGS, DoneProgram(checks), args, mode, f).fields;
  }

  /** Where the readings of `done` agree, from fields that differ in the changed values. */
  lemma {:induction false} DoneIffIn(checks: DoneChecks, args: seq<string>, mode: Mode, f: Fields, g: Fields, changed: set<string>)
    requires Sound(checks) && Readable(DONE_ALIASES, VALUE_FLAGS, args, mode)
    requires Differ(f, g, changed) && (mode.Keeping? ==> "testShellCommand" in g)
    ensures Equal(checks, args, mode, f, g) <==> Repaired(checks, args, mode, g, changed)
    decreases |args|
  {
    if args == [] {
      NoDifference(f, g, changed);
      NothingRewritten(DONE_ALIASES, VALUE_FLAGS, mode);
    } else if !LooksUpAlike(DONE_ALIASES, DoneProgram(checks), args[0], mode) {
      KeptNever(DONE_ALIASES, VALUE_FLAGS, DoneProgram(checks), args, mode, f, g);
    } else if !DirectNext(DONE_ALIASES, DoneProgram(checks), args, mode, g).Onward? {
      EndsLevel(checks, args, mode, f, g, changed);
    } else {
      var t := DirectNext(DONE_ALIASES, DoneProgram(checks), args, mode, g);
      var past := ModePast(DONE_ALIASES, VALUE_FLAGS, args, t.taken, mode);
      var key, altered := ValueKey(checks, args, mode), Altered(checks, args, mode);
      var next := GoesOnLevel(checks, args, mode, f, g, changed);
      if altered && key == None {
        PartedNeverAgrees(checks, args[t.taken..], past, next, t.fields);
      } else {
        KeepingBehindShell(checks, args, mode, g);
        DoneIffIn(checks, args[t.taken..], past, next, t.fields, Changed(changed, key, altered));
      }
    }
  }

  /** For `done` the two readings agree exactly under that condition. */
  lemma {:induction false} DoneAgreesIff(checks: DoneChecks, args: seq<string>, fields: Fields)
    requires NamesAreWords(checks) && Readable(DONE_ALIASES, VALUE_FLAGS, args, Looking)
    ensures Named(DoneFlags(checks))
    ensures Agree(DONE_ALIASES, VALUE_FLAGS, DoneProgram(checks), args, fields) <==> Repaired(checks, args, Looking, fields, {})
  {
    DoneIsConsistent(checks);
    DoneDeclines(checks);
    DoneIffIn(checks, args, Looking, fields, fields, {});
  }

  // ----- Where they do not

  lemma {:induction false} ShellIndex(checks: DoneChecks, i: nat)
    requires i < |DoneFlags(checks)| && "--test-shell" in DoneFlags(checks)[i].names
    ensures Shelling(checks, DoneFlags(checks)[i]) && DoneFlags(checks)[i].names != []
  {
    assert i == 6;
  }

  lemma {:induction false} ShellFlag(checks: DoneChecks)
    ensures Find(DoneFlags(checks), "--test-shell").Some?
    ensures Find(DoneFlags(checks), "--test-shell").value.names != [] && Shelling(checks, Find(DoneFlags(checks), "--test-shell").value)
  {
    FoundIn(DoneFlags(checks), 6, "--test-shell");
    var i := FoundMember(DoneFlags(checks), "--test-shell");
    ShellIndex(checks, i);
  }

  lemma {:induction false} ShellIsUnlisted()
    ensures "--test-shell" !in VALUE_FLAGS && OwnAlias(DONE_ALIASES, "--test-shell") == None
  {
    if OwnAlias(DONE_ALIASES, "--test-shell").Some? { AliasTargetIsEntry(DONE_ALIASES, "--test-shell"); }
  }

  lemma {:induction false} ShellMakes(checks: DoneChecks, def: FlagDef, raw: string, name: string, f: Fields)
    requires def.names != [] && Shelling(checks, def) && raw != ""
    ensures OnValue(def, f, raw, name) == FromUpdate(f, SetShell(checks, f, raw))
  {
  }

  lemma {:induction false} ShellTells(checks: DoneChecks, raw: string, f: Fields)
    requires NamesAreWords(checks) && OwnAlias(DONE_ALIASES, raw).Some?
    ensures FromUpdate(f, SetShell(checks, f, OwnAlias(DONE_ALIASES, raw).value)) == FromUpdate(f, SetShell(checks, f, raw))
            <==> "testCommands" in f || "testShellCommand" in f
    ensures SetShell(checks, f, OwnAlias(DONE_ALIASES, raw).value).None? <==> SetShell(checks, f, raw).None?
  {
    DoneAliasesAreNames(raw);
    AliasTargetIsEntry(DONE_ALIASES, raw);
    if !("testCommands" in f || "testShellCommand" in f) {
      assert SetShell(checks, f, raw).value["testShellCommand"] == One(raw);
    }
  }

  lemma {:induction false} ShellTakesAValue(checks: DoneChecks, flag: string)
    requires flag == "--test-shell"
    ensures TakesAValue(DONE_ALIASES, DoneProgram(checks), flag, Looking) && WordOf(DONE_ALIASES, flag, Looking) == flag
    ensures NextMode(DONE_ALIASES, VALUE_FLAGS, flag, Looking) == Looking
  {
    ShellFlag(checks);
    ShellIsUnlisted();
  }

  lemma {:induction false} ShellPlain(checks: DoneChecks, flag: string, raw: string, f: Fields)
    requires flag == "--test-shell" && Consistent(DONE_ALIASES, DoneProgram(checks)) && Readable(DONE_ALIASES, VALUE_FLAGS, [flag, raw], Looking)
    requires WordOf(DONE_ALIASES, raw, Looking) != ""
    ensures Plain(DONE_ALIASES, VALUE_FLAGS, DoneProgram(checks), [flag, raw], Looking, f)
         == FromUpdate(f, SetShell(checks, f, WordOf(DONE_ALIASES, raw, Looking)))
  {
    ShellFlag(checks);
    ShellTakesAValue(checks, flag);
    PlainValue(DONE_ALIASES, VALUE_FLAGS, DoneProgram(checks), flag, raw, Looking, f);
    ShellMakes(checks, Find(DoneFlags(checks), flag).value, WordOf(DONE_ALIASES, raw, Looking), flag, f);
  }

  lemma {:induction false} ShellDirect(checks: DoneChecks, flag: string, raw: string, f: Fields)
    requires flag == "--test-shell" && Consistent(DONE_ALIASES, DoneProgram(checks)) && raw != ""
    ensures Direct(DONE_ALIASES, DoneProgram(checks), [flag, raw], f) == FromUpdate(f, SetShell(checks, f, raw))
  {
    ShellFlag(checks);
    ShellTakesAValue(checks, flag);
    DirectValue(DONE_ALIASES, DoneProgram(checks), flag, raw, Looking, f);
    ShellMakes(checks, Find(DoneFlags(checks), flag).value, raw, flag, f);
  }

  lemma {:induction false} AliasWord(raw: string)
    requires OwnAlias(DONE_ALIASES, raw).Some?
    ensures raw != "" && WordOf(DONE_ALIASES, raw, Looking) == OwnAlias(DONE_ALIASES, raw).value != ""
  {
    DoneAliasesAreNames(raw);
    AliasTargetIsEntry(DONE_ALIASES, raw);
  }

  lemma {:induction false} ShellSameMeaning(checks: DoneChecks, raw: string, f: Fields)
    requires NamesAreWords(checks) && OwnAlias(DONE_ALIASES, raw).Some?
    ensures SameMeaning(FromUpdate(f, SetShell(checks, f, OwnAlias(DONE_ALIASES, raw).value)), FromUpdate(f, SetShell(checks, f, raw)),
                        DONE_ALIASES, DoneFlags(checks))
            <==> "testCommands" in f || "testShellCommand" in f
  {
    ShellTells(checks, raw, f);
  }

  lemma {:induction false} ShellAliasTail(checks: DoneChecks, flag: string, raw: string, f: Fields)
    requires flag == "--test-shell" && NamesAreWords(checks) && Consistent(DONE_ALIASES, DoneProgram(checks))
    requires Readable(DONE_ALIASES, VALUE_FLAGS, [flag, raw], Looking) && OwnAlias(DONE_ALIASES, raw).Some?
    ensures Alike(DONE_ALIASES, VALUE_FLAGS, DoneProgram(checks), [flag, raw], Looking, f)
            <==> "testCommands" in f || "testShellCommand" in f
  {
    AliasWord(raw);
    ShellPlain(checks, flag, raw, f);
    ShellDirect(checks, flag, raw, f);
    ShellSameMeaning(checks, raw, f);
  }

  /** Behind any arguments read in step, the text of `--test-shell` is read alike exactly when it
      is no alias or the flag is refused there. */
  lemma {:induction false} ShellValueIff(checks: DoneChecks, args: seq<string>, flag: string, raw: string, fields: Fields)
    requires flag == "--test-shell" && NamesAreWords(checks) && Named(DoneFlags(checks))
    requires Readable(DONE_ALIASES, VALUE_FLAGS, args + [flag, raw], Looking)
    requires Behind(DONE_ALIASES, VALUE_FLAGS, DoneProgram(checks), args, Looking, fields).Some?
    requires Behind(DONE_ALIASES, VALUE_FLAGS, DoneProgram(checks), args, Looking, fields).value.0.Looking?
    ensures var behind := Behind(DONE_ALIASES, VALUE_FLAGS, DoneProgram(checks), args, Looking, fields).value.1;
            Agree(DONE_ALIASES, VALUE_FLAGS, DoneProgram(checks), args + [flag, raw], fields)
            <==> OwnAlias(DONE_ALIASES, raw) == None || "testCommands" in behind || "testShellCommand" in behind
  {
    var behind := Behind(DONE_ALIASES, VALUE_FLAGS, DoneProgram(checks), args, Looking, fields).value.1;
    DoneIsConsistent(checks);
    DoneDeclines(checks);
    FrontReduces(DONE_ALIASES, VALUE_FLAGS, DoneProgram(checks), args, [flag, raw], Looking, fields);
    if OwnAlias(DONE_ALIASES, raw).Some? {
      ShellAliasTail(checks, flag, raw, behind);
    } else {
      ShellTakesAValue(checks, flag);
      ValueIff(DONE_ALIASES, VALUE_FLAGS, DoneProgram(checks), args, flag, raw, fields);
    }
  }

  lemma {:induction false} TestAlias()
    ensures OwnAlias(DONE_ALIASES, "-x") == Some("--test")
  {
  }

  lemma {:induction false} ShellStores(checks: DoneChecks, raw: string)
    requires NamesAreWords(checks) && NameLike(raw)
    ensures FromUpdate(map[], SetShell(checks, map[], raw)) == (map["testShellCommand" := One(raw)], None)
  {
  }

  lemma {:induction false} PlainShell(checks: DoneChecks, flag: string, raw: string)
    requires NamesAreWords(checks) && flag == "--test-shell" && Consistent(DONE_ALIASES, DoneProgram(checks))
    requires Readable(DONE_ALIASES, VALUE_FLAGS, [flag, raw], Looking) && NameLike(WordOf(DONE_ALIASES, raw, Looking))
    ensures Plain(DONE_ALIASES, VALUE_FLAGS, DoneProgram(checks), [flag, raw], Looking, map[])
         == (map["testShellCommand" := One(WordOf(DONE_ALIASES, raw, Looking))], None)
  {
    ShellStores(checks, WordOf(DONE_ALIASES, raw, Looking));
    ShellPlain(checks, flag, raw, map[]);
  }

  lemma {:induction false} DirectShell(checks: DoneChecks, flag: string, raw: string)
    requires NamesAreWords(checks) && flag == "--test-shell" && Consistent(DONE_ALIASES, DoneProgram(checks)) && NameLike(raw)
    ensures Direct(DONE_ALIASES, DoneProgram(checks), [flag, raw], map[]) == (map["testShellCommand" := One(raw)], None)
  {
    ShellStores(checks, raw);
    ShellDirect(checks, flag, raw, map[]);
  }

  /** So `done --test-shell -x` runs `--test` and not `-x`. */
  lemma {:induction false} ShellRunsTarget(checks: DoneChecks, flag: string, raw: string)
    requires NamesAreWords(checks) && flag == "--test-shell" && raw == "-x"
    ensures Readable(DONE_ALIASES, VALUE_FLAGS, [flag, raw], Looking) && Named(DoneFlags(checks))
    ensures Plain(DONE_ALIASES, VALUE_FLAGS, DoneProgram(checks), [flag, raw], Looking, map[])
         == (map["testShellCommand" := One("--test")], None)
    ensures Direct(DONE_ALIASES, DoneProgram(checks), [flag, raw], map[])
         == (map["testShellCommand" := One(raw)], None)
  {
    DoneIsConsistent(checks);
    TestAlias();
    DashedIsReadable(DONE_ALIASES, VALUE_FLAGS, [flag, raw], Looking);
    PlainShell(checks, flag, raw);
    DirectShell(checks, flag, raw);
  }

  /** Behind any arguments read in step, an alias after a `--` that a flag took as its value is
      never read alike, whatever follows. */
  lemma {:induction false} DashValueHidesAliases(checks: DoneChecks, args: seq<string>, flag: string, alias: string, more: seq<string>, fields: Fields)
    requires NamesAreWords(checks) && Named(DoneFlags(checks)) && OwnAlias(DONE_ALIASES, alias).Some?
    requires Readable(DONE_ALIASES, VALUE_FLAGS, args + ([flag, "--", alias] + more), Looking)
    requires Behind(DONE_ALIASES, VALUE_FLAGS, DoneProgram(checks), args, Looking, fields).Some?
    requires var word := WordOf(DONE_ALIASES, flag, Behind(DONE_ALIASES, VALUE_FLAGS, DoneProgram(checks), args, Looking, fields).value.0);
             Find(DoneFlags(checks), word).Some? && Storing(Find(DoneFlags(checks), word).value)
    ensures !Agree(DONE_ALIASES, VALUE_FLAGS, DoneProgram(checks), args + ([flag, "--", alias] + more), fields)
  {
    var tail := [flag, "--", alias] + more;
    var (mode, behind) := Behind(DONE_ALIASES, VALUE_FLAGS, DoneProgram(checks), args, Looking, fields).value;
    DoneIsConsistent(checks);
    DoneDeclines(checks);
    FrontReduces(DONE_ALIASES, VALUE_FLAGS, DoneProgram(checks), args, tail, Looking, fields);
    DashTail(checks, tail, mode, behind);
  }

  lemma {:induction false} DashTail(checks: DoneChecks, tail: seq<string>, mode: Mode, g: Fields)
    requires Sound(checks) && Readable(DONE_ALIASES, VALUE_FLAGS, tail, mode)
    requires |tail| > 2 && tail[1] == "--" && OwnAlias(DONE_ALIASES, tail[2]).Some?
    requires var def := Find(DoneFlags(checks), WordOf(DONE_ALIASES, tail[0], mode)); def.Some? && Storing(def.value)
    ensures !Alike(DONE_ALIASES, VALUE_FLAGS, DoneProgram(checks), tail, mode, g)
  {
    if LooksUpAlike(DONE_ALIASES, DoneProgram(checks), tail[0], mode) {
      DashTaken(checks, tail, mode, g);
      KeptHere(checks, tail[2..]);
      var s := PlainNext(DONE_ALIASES, VALUE_FLAGS, DoneProgram(checks), tail, mode, g);
      StepInStep(DONE_ALIASES, VALUE_FLAGS, DoneProgram(checks), tail, mode, g);
      KeptNever(DONE_ALIASES, VALUE_FLAGS, DoneProgram(checks), tail[2..], Ended, s.fields, s.fields);
    } else {
      KeptNever(DONE_ALIASES, VALUE_FLAGS, DoneProgram(checks), tail, mode, g, g);
    }
  }

  lemma {:induction false} DashTaken(checks: DoneChecks, tail: seq<string>, mode: Mode, g: Fields)
    requires Sound(checks) && |tail| > 2 && tail[1] == "--" && LooksUpAlike(DONE_ALIASES, DoneProgram(checks), tail[0], mode)
    requires var def := Find(DoneFlags(checks), WordOf(DONE_ALIASES, tail[0], mode)); def.Some? && Storing(def.value)
    ensures ReadsHead(DONE_ALIASES, VALUE_FLAGS, DoneProgram(checks), tail, mode, g)
    ensures var s := PlainNext(DONE_ALIASES, VALUE_FLAGS, DoneProgram(checks), tail, mode, g);
            s.Onward? && s.taken == 2 && ModePast(DONE_ALIASES, VALUE_FLAGS, tail, 2, mode) == Ended
  {
    ModePastTwo(DONE_ALIASES, VALUE_FLAGS, tail, mode);
    assert Second(tail) == Some("--") == SecondWord(DONE_ALIASES, VALUE_FLAGS, tail, mode);
  }

  lemma {:induction false} KeptHere(checks: DoneChecks, tail: seq<string>)
    requires Sound(checks) && tail != [] && OwnAlias(DONE_ALIASES, tail[0]).Some?
    ensures !LooksUpAlike(DONE_ALIASES, DoneProgram(checks), tail[0], Ended)
  {
    AliasIsFit(DONE_ALIASES, DoneProgram(checks), tail[0]);
    AliasTargetIsEntry(DONE_ALIASES, tail[0]);
    DoneLacks(checks, tail[0]);
  }

  lemma {:induction false} SessionIndex(checks: DoneChecks, i: nat)
    requires i < |DoneFlags(checks)| && "--session" in DoneFlags(checks)[i].names
    ensures DoneFlags(checks)[i] == Keyed("--session", "session")
  {
    assert i == 2;
  }

  lemma {:induction false} SpecCheckIndex(checks: DoneChecks, i: nat)
    requires i < |DoneFlags(checks)| && "--require-spec-check" in DoneFlags(checks)[i].names
    ensures DoneFlags(checks)[i] == Switch(["--require-spec-check"], Some("requireSpecCheck"), None)
  {
    assert i == 9;
  }

  lemma {:induction false} SessionAndSpecCheck(checks: DoneChecks)
    ensures Find(DoneFlags(checks), "--session") == Some(Keyed("--session", "session"))
    ensures Find(DoneFlags(checks), "--require-spec-check") == Some(Switch(["--require-spec-check"], Some("requireSpecCheck"), None))
  {
    FoundIn(DoneFlags(checks), 2, "--session");
    FoundIn(DoneFlags(checks), 9, "--require-spec-check");
    var i := FoundMember(DoneFlags(checks), "--session");
    var j := FoundMember(DoneFlags(checks), "--require-spec-check");
    SessionIndex(checks, i);
    SpecCheckIndex(checks, j);
  }

  lemma {:induction false} SpecCheckAlias()
    ensures OwnAlias(DONE_ALIASES, "-s") == Some("--require-spec-check")
    ensures OwnAlias(DONE_ALIASES, "--session") == None
  {
    if OwnAlias(DONE_ALIASES, "--session").Some? { AliasTargetIsEntry(DONE_ALIASES, "--session"); }
  }

  lemma {:induction false} StoresText(program: Program, name: string, key: string, raw: string, g: Fields)
    requires name != "" && raw != ""
    ensures StepAt(Some(Keyed(name, key)), program, name, Some(raw), g) == Onward(2, g[key := One(raw)])
  {
  }

  lemma {:induction false} DashPast(args: seq<string>)
    requires |args| > 1 && args[1] == "--"
    ensures ModePast(DONE_ALIASES, VALUE_FLAGS, args, 2, Looking) == Ended
    ensures SecondWord(DONE_ALIASES, VALUE_FLAGS, args, Looking) == Some("--")
  {
    ModePastTwo(DONE_ALIASES, VALUE_FLAGS, args, Looking);
  }

  lemma {:induction false} DashStored(checks: DoneChecks, args: seq<string>)
    requires Named(DoneFlags(checks)) && |args| > 1 && args[0] == "--session" && args[1] == "--"
    ensures PlainNext(DONE_ALIASES, VALUE_FLAGS, DoneProgram(checks), args, Looking, map[]) == Onward(2, map["session" := One("--")])
    ensures DirectNext(DONE_ALIASES, DoneProgram(checks), args, Looking, map[]) == Onward(2, map["session" := One("--")])
  {
    SpecCheckAlias();
    SessionAndSpecCheck(checks);
    DashPast(args);
    StoresText(DoneProgram(checks), args[0], "session", "--", map[]);
  }

  lemma {:induction false} SpecCheckSet(checks: DoneChecks, args: seq<string>, g: Fields)
    requires Consistent(DONE_ALIASES, DoneProgram(checks)) && !LooksUpAlike(DONE_ALIASES, DoneProgram(checks), "-s", Ended) && args == ["-s"]
    ensures Direct(DONE_ALIASES, DoneProgram(checks), args, g) == (g["requireSpecCheck" := On], None)
  {
    SpecCheckAlias();
    SessionAndSpecCheck(checks);
    KeptSwitch(DONE_ALIASES, DoneProgram(checks), "-s", "--require-spec-check", ["--require-spec-check"], "requireSpecCheck", g);
  }

  lemma {:induction false} SpecCheckKept(checks: DoneChecks, args: seq<string>, f: Fields)
    requires Sound(checks) && args == ["-s"]
    ensures !LooksUpAlike(DONE_ALIASES, DoneProgram(checks), "-s", Ended)
    ensures Readable(DONE_ALIASES, VALUE_FLAGS, args, Ended)
    ensures Plain(DONE_ALIASES, VALUE_FLAGS, DoneProgram(checks), args, Ended, f) == (f, Some(UnknownArgument("-s")))
  {
    SpecCheckAlias();
    DashedIsReadable(DONE_ALIASES, VALUE_FLAGS, args, Ended);
    KeptHere(checks, args);
    KeptNever(DONE_ALIASES, VALUE_FLAGS, DoneProgram(checks), args, Ended, f, f);
  }

  /** So `done --session -- -s` is refused for the alias of a switch that it has. */
  lemma {:induction false} SpecCheckIsRefused(checks: DoneChecks, args: seq<string>)
    requires NamesAreWords(checks) && args == ["--session", "--", "-s"]
    ensures Readable(DONE_ALIASES, VALUE_FLAGS, args, Looking) && Named(DoneFlags(checks))
    ensures Plain(DONE_ALIASES, VALUE_FLAGS, DoneProgram(checks), args, Looking, map[])
         == (map["session" := One("--")], Some(UnknownArgument("-s")))
    ensures Direct(DONE_ALIASES, DoneProgram(checks), args, map[])
         == (map["session" := One("--")]["requireSpecCheck" := On], None)
  {
    DoneIsConsistent(checks);
    DoneDeclines(checks);
    assert args[2..] == ["-s"];
    SpecCheckKept(checks, args[2..], map["session" := One("--")]);
    SpecCheckSet(checks, args[2..], map["session" := One("--")]);
    DashesBetween(checks, args);
  }

  lemma {:induction false} DashesBetween(checks: DoneChecks, args: seq<string>)
    requires Consistent(DONE_ALIASES, DoneProgram(checks)) && args == ["--session", "--", "-s"]
    ensures Readable(DONE_ALIASES, VALUE_FLAGS, args, Looking) && Readable(DONE_ALIASES, VALUE_FLAGS, args[2..], Ended)
    ensures Plain(DONE_ALIASES, VALUE_FLAGS, DoneProgram(checks), args, Looking, map[])
         == Plain(DONE_ALIASES, VALUE_FLAGS, DoneProgram(checks), args[2..], Ended, map["session" := One("--")])
    ensures Direct(DONE_ALIASES, DoneProgram(checks), args, map[])
         == Direct(DONE_ALIASES, DoneProgram(checks), args[2..], map["session" := One("--")])
  {
    DashedIsReadable(DONE_ALIASES, VALUE_FLAGS, args, Looking);
    DashPast(args);
    DashStored(checks, args);
    PlainStep(DONE_ALIASES, VALUE_FLAGS, DoneProgram(checks), args, Looking, map[]);
    DirectStep(DONE_ALIASES, DoneProgram(checks), args, Looking, map[]);
  }
}
