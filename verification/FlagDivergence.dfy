/** Where rewriting the aliases first changes what the arguments mean: behind any arguments that
    are read in step, the exact cases in which the last ones are not
    (cli/aliases.ts, cli/commands/flag-spec.ts). */
module FlagDivergence {
  import opened Wrappers
  import opened FlagAliases
  import opened FlagSpecs
  import opened FlagPipeline

  /** What stands behind `args` is read in this mode and from these fields; None where the parse
      does not get through all of them, or not in step. */
  ghost function Behind(table: AliasTable, valueFlags: set<string>, program: Program, args: seq<string>, mode: Mode, fields: Fields): Option<(Mode, Fields)>
    requires Named(program.flags)
    decreases |args|
  {
    if args == [] then Some((mode, fields))
    else if !ReadsHead(table, valueFlags, program, args, mode, fields) then None
    else
      var s := PlainNext(table, valueFlags, program, args, mode, fields);
      if s.Onward? then Behind(table, valueFlags, program, args[s.taken..], ModePast(table, valueFlags, args, s.taken, mode), s.fields)
      else None
  }

  lemma {:induction false} SameFront(table: AliasTable, valueFlags: set<string>, program: Program, args: seq<string>, tail: seq<string>, mode: Mode, fields: Fields)
    requires Named(program.flags) && args != [] && ReadsHead(table, valueFlags, program, args, mode, fields)
    requires PlainNext(table, valueFlags, program, args, mode, fields).Onward?
    ensures var s := PlainNext(table, valueFlags, program, args, mode, fields);
            && PlainNext(table, valueFlags, program, args + tail, mode, fields) == s
            && (args + tail)[s.taken..] == args[s.taken..] + tail
    ensures var word := WordOf(table, args[0], mode);
            Find(program.flags, word).Some? ==> Find(program.flags, word).value.names != []
    ensures var word := WordOf(table, args[0], mode);
            StepAt(Find(program.flags, word), program, word, Second(args + tail), fields) == PlainNext(table, valueFlags, program, args, mode, fields)
  {
    FindNamed(program.flags, WordOf(table, args[0], mode));
    if |args| > 1 { assert (args + tail)[1] == args[1]; }
  }

  lemma {:induction false} SameModePast(table: AliasTable, valueFlags: set<string>, args: seq<string>, tail: seq<string>, taken: nat, mode: Mode)
    requires taken <= |args|
    ensures ModePast(table, valueFlags, args + tail, taken, mode) == ModePast(table, valueFlags, args, taken, mode)
    decreases taken
  {
    if taken > 0 {
      assert (args + tail)[1..] == args[1..] + tail;
      SameModePast(table, valueFlags, args[1..], tail, taken - 1, NextMode(table, valueFlags, args[0], mode));
    }
  }

  /** Both readings of a longer list come down to those of what is behind. */
  lemma {:induction false} FrontReduces(table: AliasTable, valueFlags: set<string>, program: Program, args: seq<string>, tail: seq<string>, mode: Mode, fields: Fields)
    requires Consistent(table, program) && Readable(table, valueFlags, args + tail, mode)
    requires Behind(table, valueFlags, program, args, mode, fields).Some?
    ensures var (past, behind) := Behind(table, valueFlags, program, args, mode, fields).value;
            && Readable(table, valueFlags, tail, past)
            && Plain(table, valueFlags, program, args + tail, mode, fields) == Plain(table, valueFlags, program, tail, past, behind)
            && Direct(table, program, args + tail, fields) == Direct(table, program, tail, behind)
    decreases |args|
  {
    if args == [] {
      assert args + tail == tail;
    } else {
      var s := PlainNext(table, valueFlags, program, args, mode, fields);
      SameFront(table, valueFlags, program, args, tail, mode, fields);
      SameModePast(table, valueFlags, args, tail, s.taken, mode);
      PlainStep(table, valueFlags, program, args + tail, mode, fields);
      DirectStep(table, program, args + tail, mode, fields);
      NameMatters(table, program, args[0], mode, Second(args + tail), fields);
      FrontReduces(table, valueFlags, program, args[s.taken..], tail, ModePast(table, valueFlags, args, s.taken, mode), s.fields);
    }
  }

  // ----- A value that the rewriting changes

  /** A value flag, under its name or an alias, that both readings know. */
  predicate TakesAValue(table: AliasTable, program: Program, flag: string, mode: Mode) {
    var word := WordOf(table, flag, mode);
    && LooksUpAlike(table, program, flag, mode) && !(program.skipFalsyArgs && word == "")
    && Find(program.flags, word).Some? && Find(program.flags, word).value.Valued?
  }

  lemma {:induction false} PlainValue(table: AliasTable, valueFlags: set<string>, program: Program, flag: string, raw: string, mode: Mode, fields: Fields)
    requires Consistent(table, program) && TakesAValue(table, program, flag, mode) && Readable(table, valueFlags, [flag, raw], mode)
    ensures var word := WordOf(table, flag, mode);
            var def := Find(program.flags, word).value;
            && def.names != []
            && Plain(table, valueFlags, program, [flag, raw], mode, fields)
               == OnValue(def, fields, WordOf(table, raw, NextMode(table, valueFlags, flag, mode)), word)
  {
    FindNamed(program.flags, WordOf(table, flag, mode));
    PlainStep(table, valueFlags, program, [flag, raw], mode, fields);
    assert [flag, raw][2..] == [];
    NothingRewritten(table, valueFlags, ModePast(table, valueFlags, [flag, raw], 2, mode));
  }

  lemma {:induction false} DirectValue(table: AliasTable, program: Program, flag: string, raw: string, mode: Mode, fields: Fields)
    requires Consistent(table, program) && TakesAValue(table, program, flag, mode)
    ensures var def := Find(program.flags, WordOf(table, flag, mode)).value;
            && def.names != []
            && Direct(table, program, [flag, raw], fields) == OnValue(def, fields, raw, flag)
  {
    var def := Find(program.flags, WordOf(table, flag, mode)).value;
    FindNamed(program.flags, WordOf(table, flag, mode));
    FlagIsNotSkipped(table, program, flag, mode);
    ValueStep(def, program, flag, raw, fields);
    DirectStep(table, program, [flag, raw], mode, fields);
    assert [flag, raw][2..] == [];
    NothingDirect(table, program, OnValue(def, fields, raw, flag).0);
  }

  lemma {:induction false} FlagIsNotSkipped(table: AliasTable, program: Program, flag: string, mode: Mode)
    requires Consistent(table, program) && TakesAValue(table, program, flag, mode)
    ensures !(program.skipFalsyArgs && flag == "")
  {
    Looked(table, program, flag, mode);
  }

  lemma {:induction false} ValueStep(def: FlagDef, program: Program, name: string, raw: string, fields: Fields)
    requires def.Valued? && def.names != [] && !(program.skipFalsyArgs && name == "")
    ensures StepAt(Some(def), program, name, Some(raw), fields) == Advance(OnValue(def, fields, raw, name), 2)
  {
  }

  lemma {:induction false} NothingDirect(table: AliasTable, program: Program, fields: Fields)
    requires Named(program.flags)
    ensures Direct(table, program, [], fields) == (fields, None)
  {
  }

  /** Behind any arguments read in step the readings agree on the value of a flag exactly when
      the flag makes the same of it and of what the rewriting puts in its place. */
  lemma {:induction false} ValueIff(table: AliasTable, valueFlags: set<string>, program: Program, args: seq<string>, flag: string, raw: string, fields: Fields)
    requires Consistent(table, program) && Readable(table, valueFlags, args + [flag, raw], Looking)
    requires Behind(table, valueFlags, program, args, Looking, fields).Some?
    requires TakesAValue(table, program, flag, Behind(table, valueFlags, program, args, Looking, fields).value.0)
    ensures var (mode, behind) := Behind(table, valueFlags, program, args, Looking, fields).value;
            var word := WordOf(table, flag, mode);
            var def, rewritten := Find(program.flags, word).value, WordOf(table, raw, NextMode(table, valueFlags, flag, mode));
            && def.names != []
            && (Agree(table, valueFlags, program, args + [flag, raw], fields) <==>
                SameMeaning(OnValue(def, behind, rewritten, word), OnValue(def, behind, raw, flag), table, program.flags))
            && (rewritten == raw ==> Agree(table, valueFlags, program, args + [flag, raw], fields))
  {
    var (mode, behind) := Behind(table, valueFlags, program, args, Looking, fields).value;
    FrontReduces(table, valueFlags, program, args, [flag, raw], Looking, fields);
    PlainValue(table, valueFlags, program, flag, raw, mode, behind);
    DirectValue(table, program, flag, raw, mode, behind);
    FindIsMember(program.flags, WordOf(table, flag, mode));
  }

  // ----- An alias that the rewriting keeps

  /** What a step makes of the fields when nothing stands behind it. */
  function Ending(step: Step, fields: Fields): Outcome {
    match step
    case Stop(outcome) => outcome
    case Onward(_, next) => (next, None)
    case Finish(finish) => FromUpdate(fields, finish(fields, []))
  }

  lemma {:induction false} KeptTail(table: AliasTable, valueFlags: set<string>, program: Program, alias: string, mode: Mode, fields: Fields)
    requires Consistent(table, program) && Readable(table, valueFlags, [alias], mode) && !LooksUpAlike(table, program, alias, mode)
    ensures var def := Find(program.flags, OwnAlias(table, alias).value);
            && def.value.names != []
            && Plain(table, valueFlags, program, [alias], mode, fields) == Ending(StepAt(None, program, alias, None, fields), fields)
            && Direct(table, program, [alias], fields) == Ending(StepAt(def, program, alias, None, fields), fields)
  {
    KeptStep(table, program, [alias], mode, fields);
    assert [alias][1..] == [];
    PlainStep(table, valueFlags, program, [alias], mode, fields);
    NothingRewritten(table, valueFlags, ModePast(table, valueFlags, [alias], 1, mode));
  }

  lemma {:induction false} KeptSwitch(table: AliasTable, program: Program, alias: string, target: string, names: seq<string>, key: string, fields: Fields)
    requires Consistent(table, program) && !LooksUpAlike(table, program, alias, Ended)
    requires OwnAlias(table, alias) == Some(target) && Find(program.flags, target) == Some(Switch(names, Some(key), None))
    ensures Direct(table, program, [alias], fields) == (fields[key := On], None)
  {
    KeptStep(table, program, [alias], Ended, fields);
    assert [alias][1..] == [];
  }

  /** Behind any arguments read in step that make the rewriting keep an alias of a flag, unknown
      under that name: the readings agree exactly when an unknown argument does what the flag
      does. */
  lemma {:induction false} KeptAliasIff(table: AliasTable, valueFlags: set<string>, program: Program, args: seq<string>, alias: string, fields: Fields)
    requires Consistent(table, program) && Readable(table, valueFlags, args + [alias], Looking)
    requires Behind(table, valueFlags, program, args, Looking, fields).Some?
    requires !LooksUpAlike(table, program, alias, Behind(table, valueFlags, program, args, Looking, fields).value.0)
    ensures var (mode, behind) := Behind(table, valueFlags, program, args, Looking, fields).value;
            var def := Find(program.flags, OwnAlias(table, alias).value);
            && def.value.names != []
            && (Agree(table, valueFlags, program, args + [alias], fields) <==>
                SameMeaning(Ending(StepAt(None, program, alias, None, behind), behind),
                            Ending(StepAt(def, program, alias, None, behind), behind), table, program.flags))
  {
    var (mode, behind) := Behind(table, valueFlags, program, args, Looking, fields).value;
    FrontReduces(table, valueFlags, program, args, [alias], Looking, fields);
    KeptTail(table, valueFlags, program, alias, mode, behind);
  }
}
