/** Alias rewriting followed by parsing means what parsing with the aliases built in means. */
module FlagPipeline {
  import opened Wrappers
  import opened FlagAliases
  import opened FlagSpecs

  /** The aliases, in table order, of any of the names. */
  function AliasesOf(table: AliasTable, names: seq<string>): (r: seq<string>)
    ensures forall alias :: alias in r <==> exists i :: 0 <= i < |table| && table[i].0 == alias && table[i].1 in names
  {
    if table == [] then []
    else
      var rest := AliasesOf(table[1..], names);
      assert forall i :: 0 <= i < |table[1..]| ==> table[1..][i] == table[i + 1];
      var r := if table[0].1 in names then [table[0].0] + rest else rest;
      assert forall alias :: alias in r ==> exists i :: 0 <= i < |table| && table[i].0 == alias && table[i].1 in names by {
        forall alias | alias in r ensures exists i :: 0 <= i < |table| && table[i].0 == alias && table[i].1 in names {
          if !(table[0].1 in names && alias == table[0].0) {
            assert alias in rest;
            var i :| 0 <= i < |table[1..]| && table[1..][i].0 == alias && table[1..][i].1 in names;
            assert table[i + 1].0 == alias;
          }
        }
      }
      r
  }

  function WithAliases(table: AliasTable, def: FlagDef): FlagDef {
    def.(names := def.names + AliasesOf(table, def.names))
  }

  function ExtendFlags(table: AliasTable, flags: seq<FlagDef>): (r: seq<FlagDef>)
    ensures |r| == |flags| && forall i :: 0 <= i < |r| ==> r[i] == WithAliases(table, flags[i])
    ensures Named(flags) ==> Named(r)
  {
    if flags == [] then []
    else ExtendFlags(table, flags[..|flags| - 1]) + [WithAliases(table, flags[|flags| - 1])]
  }

  /** The specification that knows the aliases itself. */
  function Extend(table: AliasTable, program: Program): Program {
    program.(flags := ExtendFlags(table, program.flags))
  }

  predicate DistinctKeys(table: AliasTable) {
    forall i, j :: 0 <= i < j < |table| ==> table[i].0 != table[j].0
  }

  /** No state lets the argument through as a positional one: the parse stops there. */
  ghost predicate Stops(program: Program, arg: string) {
    forall f :: !program.positional(f, arg).Took?
  }

  /** An alias is unknown to the specification, or known as its target; a target that is
      unknown is not taken for a positional argument, and neither is its alias. */
  ghost predicate AliasFits(program: Program, alias: string, target: string) {
    && alias != "" && target != "" && alias != "--" && target != "--"
    && (Find(program.flags, alias) == None || Find(program.flags, alias) == Find(program.flags, target))
    && (Find(program.flags, target) == None ==> Stops(program, alias) && Stops(program, target))
  }

  /** What table and specification have to agree on: the meaning of the aliases, and that
      `--` is the one terminator, or none. */
  ghost predicate Consistent(table: AliasTable, program: Program) {
    && Named(program.flags) && DistinctKeys(table)
    && (forall i :: 0 <= i < |table| ==> AliasFits(program, table[i].0, table[i].1))
    && (forall name :: Find(program.flags, name).Some? ==> (name == "--" <==> Find(program.flags, name).value.Terminator?))
  }

  /** Two parses end alike: the same fields, and both fail or neither does; the errors are the
      same too unless a flag quotes the name it was written with or an alias leads to a name
      that the specification does not know. */
  predicate SameMeaning(a: Outcome, b: Outcome, table: AliasTable, flags: seq<FlagDef>) {
    && a.0 == b.0 && (a.1 == None <==> b.1 == None)
    && (NamesUnquoted(table, flags) ==> a.1 == b.1)
  }

  predicate NamesUnquoted(table: AliasTable, flags: seq<FlagDef>) {
    && (forall i :: 0 <= i < |flags| && flags[i].Valued? ==> !flags[i].useMatchedName)
    && (forall i :: 0 <= i < |table| ==> Find(flags, table[i].1).Some?)
  }

  /** In the extended specification an alias finds its target's definition and any other
      name finds its own. */
  lemma {:induction false} FindExtended(table: AliasTable, flags: seq<FlagDef>, name: string)
    requires DistinctKeys(table) && Named(flags)
    requires OwnAlias(table, name).Some? ==>
               Find(flags, name) == None || Find(flags, name) == Find(flags, OwnAlias(table, name).value)
    ensures var target := if OwnAlias(table, name).Some? then OwnAlias(table, name).value else name;
            Find(ExtendFlags(table, flags), name) ==
            if Find(flags, target).Some? then Some(WithAliases(table, Find(flags, target).value)) else None
    decreases |flags|
  {
    if flags != [] {
      var last, init := flags[|flags| - 1], flags[..|flags| - 1];
      var extended := ExtendFlags(table, flags);
      assert extended[..|flags| - 1] == ExtendFlags(table, init);
      LastKnows(table, last, name);
      if OwnAlias(table, name).Some? { FindNamed(flags, OwnAlias(table, name).value); }
      if name !in extended[|flags| - 1].names {
        FindExtended(table, init, name);
      }
    }
  }

  lemma {:induction false} LastKnows(table: AliasTable, def: FlagDef, name: string)
    requires DistinctKeys(table)
    ensures name in WithAliases(table, def).names <==>
            name in def.names || (OwnAlias(table, name).Some? && OwnAlias(table, name).value in def.names)
  {
    var aliases := AliasesOf(table, def.names);
    if OwnAlias(table, name).Some? {
      AliasTargetIsEntry(table, name);
      var k :| 0 <= k < |table| && table[k] == (name, OwnAlias(table, name).value);
      assert name in aliases <==> OwnAlias(table, name).value in def.names;
    } else {
      NoAliasNoEntry(table, name);
      assert name !in aliases;
    }
  }

  lemma {:induction false} NoAliasNoEntry(table: AliasTable, name: string)
    requires OwnAlias(table, name) == None
    ensures forall i :: 0 <= i < |table| ==> table[i].0 != name
    decreases |table|
  {
    if table != [] {
      NoAliasNoEntry(table[1..], name);
      assert forall i :: 0 < i < |table| ==> table[i] == table[1..][i - 1];
    }
  }

  lemma {:induction false} AliasIsFit(table: AliasTable, program: Program, arg: string)
    requires Consistent(table, program) && OwnAlias(table, arg).Some?
    ensures AliasFits(program, arg, OwnAlias(table, arg).value)
    ensures NamesUnquoted(table, program.flags) ==> Find(program.flags, OwnAlias(table, arg).value).Some?
  {
    AliasTargetIsEntry(table, arg);
  }

  /** The rewritten rest of the arguments, as strings. */
  function Rewritten(table: AliasTable, valueFlags: set<string>, args: seq<string>, consuming: bool): seq<string>
    requires AllTexts(Normalize(table, valueFlags, args, consuming))
  {
    Strings(Normalize(table, valueFlags, args, consuming))
  }

  lemma {:induction false} RewrittenStep(table: AliasTable, valueFlags: set<string>, args: seq<string>, consuming: bool)
    requires args != [] && args[0] != "--" && AllTexts(Normalize(table, valueFlags, args, consuming))
    ensures var word := if consuming then Text(args[0]) else Resolve(table, args[0]);
            var next := !consuming && TakesValue(valueFlags, word);
            && word.Text? && AllTexts(Normalize(table, valueFlags, args[1..], next))
            && Rewritten(table, valueFlags, args, consuming) ==
               [word.text] + Rewritten(table, valueFlags, args[1..], next)
  {
    var word := if consuming then Text(args[0]) else Resolve(table, args[0]);
    var next := !consuming && TakesValue(valueFlags, word);
    var all, tail := Normalize(table, valueFlags, args, consuming), Normalize(table, valueFlags, args[1..], next);
    assert all == [word] + tail;
    assert all[0] == word && forall i :: 0 <= i < |tail| ==> tail[i] == all[i + 1];
    assert Strings(all) == [word.text] + Strings(tail);
  }

  lemma {:induction false} FindIsMember(flags: seq<FlagDef>, name: string)
    requires Find(flags, name).Some?
    ensures exists i :: 0 <= i < |flags| && flags[i] == Find(flags, name).value
    decreases |flags|
  {
    if name in flags[|flags| - 1].names {
      assert flags[|flags| - 1] == Find(flags, name).value;
    } else {
      FindIsMember(flags[..|flags| - 1], name);
      var i :| 0 <= i < |flags[..|flags| - 1]| && flags[..|flags| - 1][i] == Find(flags, name).value;
      assert flags[i] == Find(flags, name).value;
    }
  }

  // ----- The rewriting and the parse side by side

  /** What the rewriting does with the next argument: looks it up, keeps it as the value of the
      flag before, or keeps it because a `--` came before. */
  datatype Mode = Looking | Keeping | Ended

  predicate Readable(table: AliasTable, valueFlags: set<string>, args: seq<string>, mode: Mode) {
    mode.Ended? || !MeetsInheritedName(table, valueFlags, args, mode.Keeping?)
  }

  /** The rewritten rest of the arguments. */
  function RewrittenIn(table: AliasTable, valueFlags: set<string>, args: seq<string>, mode: Mode): seq<string>
    requires Readable(table, valueFlags, args, mode)
  {
    if mode.Ended? then args
    else
      AllTextsIff(table, valueFlags, args, mode.Keeping?);
      Rewritten(table, valueFlags, args, mode.Keeping?)
  }

  /** What the parser sees of an argument. */
  function WordOf(table: AliasTable, arg: string, mode: Mode): string {
    if mode.Looking? && OwnAlias(table, arg).Some? && arg != "--" then OwnAlias(table, arg).value else arg
  }

  function NextMode(table: AliasTable, valueFlags: set<string>, arg: string, mode: Mode): Mode {
    if arg == "--" || mode.Ended? then Ended
    else if mode.Looking? && WordOf(table, arg, mode) in valueFlags then Keeping
    else Looking
  }

  lemma {:induction false} RewrittenHead(table: AliasTable, valueFlags: set<string>, args: seq<string>, mode: Mode)
    requires args != [] && Readable(table, valueFlags, args, mode)
    ensures var next := NextMode(table, valueFlags, args[0], mode);
            && Readable(table, valueFlags, args[1..], next)
            && RewrittenIn(table, valueFlags, args, mode)
               == [WordOf(table, args[0], mode)] + RewrittenIn(table, valueFlags, args[1..], next)
  {
    if !mode.Ended? {
      AllTextsIff(table, valueFlags, args, mode.Keeping?);
      if args[0] == "--" {
        TextsAreStrings(args);
      } else {
        RewrittenStep(table, valueFlags, args, mode.Keeping?);
      }
    }
  }

  lemma {:induction false} ReadableHead(table: AliasTable, valueFlags: set<string>, args: seq<string>, mode: Mode)
    requires args != []
    ensures Readable(table, valueFlags, args, mode) <==>
            && (mode.Looking? && args[0] != "--" ==> !(args[0] in INHERITED_NAMES && OwnAlias(table, args[0]) == None))
            && Readable(table, valueFlags, args[1..], NextMode(table, valueFlags, args[0], mode))
  {
  }

  lemma {:induction false} TextsAreStrings(args: seq<string>)
    ensures AllTexts(Texts(args)) && Strings(Texts(args)) == args
  {
  }

  /** The argument means the same to both parses although the rewriting keeps it. */
  predicate LooksUpAlike(table: AliasTable, program: Program, arg: string, mode: Mode) {
    || mode.Looking? || OwnAlias(table, arg) == None || Find(program.flags, arg).Some?
    || Find(program.flags, OwnAlias(table, arg).value) == None
  }

  /** Both lookups find the same definition. */
  lemma {:induction false} Looked(table: AliasTable, program: Program, arg: string, mode: Mode)
    requires Consistent(table, program) && LooksUpAlike(table, program, arg, mode)
    ensures var word := WordOf(table, arg, mode);
            Find(ExtendFlags(table, program.flags), arg) ==
            if Find(program.flags, word).Some? then Some(WithAliases(table, Find(program.flags, word).value)) else None
    ensures var word := WordOf(table, arg, mode);
            && (word == "" <==> arg == "") && (word == "--" <==> arg == "--")
            && (word != arg && Find(program.flags, word) == None ==>
                  Stops(program, word) && Stops(program, arg) && !NamesUnquoted(table, program.flags))
  {
    if OwnAlias(table, arg).Some? { AliasIsFit(table, program, arg); }
    FindExtended(table, program.flags, arg);
  }

  function Plain(table: AliasTable, valueFlags: set<string>, program: Program, args: seq<string>, mode: Mode, fields: Fields): Outcome
    requires Readable(table, valueFlags, args, mode) && Named(program.flags)
  {
    Parse(RewrittenIn(table, valueFlags, args, mode), program, fields)
  }

  function Direct(table: AliasTable, program: Program, args: seq<string>, fields: Fields): Outcome
    requires Named(program.flags)
  {
    Parse(args, Extend(table, program), fields)
  }

  /** Both readings of the arguments mean the same. */
  predicate Alike(table: AliasTable, valueFlags: set<string>, program: Program, args: seq<string>, mode: Mode, fields: Fields)
    requires Readable(table, valueFlags, args, mode) && Named(program.flags)
  {
    SameMeaning(Plain(table, valueFlags, program, args, mode, fields), Direct(table, program, args, fields), table, program.flags)
  }

  predicate Agree(table: AliasTable, valueFlags: set<string>, program: Program, args: seq<string>, fields: Fields)
    requires Readable(table, valueFlags, args, Looking) && Named(program.flags)
  {
    Alike(table, valueFlags, program, args, Looking, fields)
  }

  // ----- One step of each

  /** What the rewriting makes of the second argument. */
  function SecondWord(table: AliasTable, valueFlags: set<string>, args: seq<string>, mode: Mode): Option<string> {
    if |args| > 1 then Some(WordOf(table, args[1], NextMode(table, valueFlags, args[0], mode))) else None
  }

  function ModePast(table: AliasTable, valueFlags: set<string>, args: seq<string>, taken: nat, mode: Mode): Mode
    requires taken <= |args|
    decreases taken
  {
    if taken == 0 then mode
    else ModePast(table, valueFlags, args[1..], taken - 1, NextMode(table, valueFlags, args[0], mode))
  }

  /** The step of the parse of the rewritten arguments. */
  function PlainNext(table: AliasTable, valueFlags: set<string>, program: Program, args: seq<string>, mode: Mode, fields: Fields): (s: Step)
    requires Named(program.flags) && args != []
    ensures s.Onward? ==> 1 <= s.taken <= 2 && s.taken <= |args|
  {
    var word := WordOf(table, args[0], mode);
    FindNamed(program.flags, word);
    StepAt(Find(program.flags, word), program, word, SecondWord(table, valueFlags, args, mode), fields)
  }

  lemma {:induction false} RewrittenPast(table: AliasTable, valueFlags: set<string>, args: seq<string>, taken: nat, mode: Mode)
    requires taken <= |args| && Readable(table, valueFlags, args, mode)
    ensures Readable(table, valueFlags, args[taken..], ModePast(table, valueFlags, args, taken, mode))
    ensures taken <= |RewrittenIn(table, valueFlags, args, mode)|
    ensures RewrittenIn(table, valueFlags, args, mode)[taken..]
         == RewrittenIn(table, valueFlags, args[taken..], ModePast(table, valueFlags, args, taken, mode))
    decreases taken
  {
    if taken == 0 {
      assert args[0..] == args;
    } else {
      RewrittenHead(table, valueFlags, args, mode);
      RewrittenPast(table, valueFlags, args[1..], taken - 1, NextMode(table, valueFlags, args[0], mode));
      assert args[1..][taken - 1..] == args[taken..];
    }
  }

  lemma {:induction false} RewrittenFront(table: AliasTable, valueFlags: set<string>, args: seq<string>, mode: Mode)
    requires args != [] && Readable(table, valueFlags, args, mode)
    ensures var rewritten := RewrittenIn(table, valueFlags, args, mode);
            && rewritten != [] && rewritten[0] == WordOf(table, args[0], mode)
            && Second(rewritten) == SecondWord(table, valueFlags, args, mode)
  {
    RewrittenHead(table, valueFlags, args, mode);
    var next := NextMode(table, valueFlags, args[0], mode);
    if |args| > 1 {
      RewrittenHead(table, valueFlags, args[1..], next);
    } else {
      NothingRewritten(table, valueFlags, next);
      assert args[1..] == [];
    }
  }

  lemma {:induction false} NothingRewritten(table: AliasTable, valueFlags: set<string>, mode: Mode)
    ensures Readable(table, valueFlags, [], mode) && RewrittenIn(table, valueFlags, [], mode) == []
  {
  }

  lemma {:induction false} PlainStep(table: AliasTable, valueFlags: set<string>, program: Program, args: seq<string>, mode: Mode, fields: Fields)
    requires args != [] && Readable(table, valueFlags, args, mode) && Named(program.flags)
    ensures match PlainNext(table, valueFlags, program, args, mode, fields)
            case Stop(outcome) => Plain(table, valueFlags, program, args, mode, fields) == outcome
            case Onward(taken, next) =>
              var past := ModePast(table, valueFlags, args, taken, mode);
              && Readable(table, valueFlags, args[taken..], past)
              && Plain(table, valueFlags, program, args, mode, fields) == Plain(table, valueFlags, program, args[taken..], past, next)
            case Finish(finish) =>
              var past := NextMode(table, valueFlags, args[0], mode);
              && Readable(table, valueFlags, args[1..], past)
              && Plain(table, valueFlags, program, args, mode, fields)
                 == FromUpdate(fields, finish(fields, RewrittenIn(table, valueFlags, args[1..], past)))
  {
    RewrittenFront(table, valueFlags, args, mode);
    ParseStep(RewrittenIn(table, valueFlags, args, mode), program, fields);
    match PlainNext(table, valueFlags, program, args, mode, fields)
    case Stop(_) =>
    case Onward(taken, _) => RewrittenPast(table, valueFlags, args, taken, mode);
    case Finish(_) => RewrittenHead(table, valueFlags, args, mode);
  }

  /** The step of the direct reading: that of the definition that the word has. */
  function DirectNext(table: AliasTable, program: Program, args: seq<string>, mode: Mode, fields: Fields): (s: Step)
    requires Named(program.flags) && args != []
    ensures s.Onward? ==> 1 <= s.taken <= 2 && s.taken <= |args|
  {
    var word := WordOf(table, args[0], mode);
    FindNamed(program.flags, word);
    StepAt(Find(program.flags, word), program, args[0], Second(args), fields)
  }

  lemma {:induction false} DirectNextIsNext(table: AliasTable, program: Program, args: seq<string>, mode: Mode, fields: Fields)
    requires args != [] && Consistent(table, program) && LooksUpAlike(table, program, args[0], mode)
    ensures NextStep(args, Extend(table, program), fields) == DirectNext(table, program, args, mode, fields)
  {
    var word := WordOf(table, args[0], mode);
    FindNamed(program.flags, word);
    Looked(table, program, args[0], mode);
    if Find(program.flags, word).Some? {
      StepExtended(table, program, Find(program.flags, word).value, args[0], Second(args), fields);
    }
  }

  lemma {:induction false} DirectStep(table: AliasTable, program: Program, args: seq<string>, mode: Mode, fields: Fields)
    requires args != [] && Consistent(table, program) && LooksUpAlike(table, program, args[0], mode)
    ensures match DirectNext(table, program, args, mode, fields)
            case Stop(outcome) => Direct(table, program, args, fields) == outcome
            case Onward(taken, next) => Direct(table, program, args, fields) == Direct(table, program, args[taken..], next)
            case Finish(finish) => Direct(table, program, args, fields) == FromUpdate(fields, finish(fields, args[1..]))
  {
    ParseStep(args, Extend(table, program), fields);
    DirectNextIsNext(table, program, args, mode, fields);
  }

  /** More names do not change what a flag does. */
  lemma {:induction false} StepExtended(table: AliasTable, program: Program, def: FlagDef, name: string, more: Option<string>, fields: Fields)
    requires def.names != []
    ensures WithAliases(table, def).names != []
    ensures StepAt(Some(WithAliases(table, def)), Extend(table, program), name, more, fields) == StepAt(Some(def), program, name, more, fields)
  {
    var extended := WithAliases(table, def);
    assert extended.names[0] == def.names[0];
  }

  /** A kept alias is unknown to the one reading and its target to the other. */
  lemma {:induction false} KeptStep(table: AliasTable, program: Program, args: seq<string>, mode: Mode, fields: Fields)
    requires args != [] && Consistent(table, program) && !LooksUpAlike(table, program, args[0], mode)
    ensures args[0] != "" && WordOf(table, args[0], mode) == args[0] && Find(program.flags, args[0]) == None
    ensures var def := Find(program.flags, OwnAlias(table, args[0]).value);
            && def.Some? && def.value.names != []
            && match StepAt(def, program, args[0], Second(args), fields)
               case Stop(outcome) => Direct(table, program, args, fields) == outcome
               case Onward(taken, next) => Direct(table, program, args, fields) == Direct(table, program, args[taken..], next)
               case Finish(finish) => Direct(table, program, args, fields) == FromUpdate(fields, finish(fields, args[1..]))
  {
    var target := OwnAlias(table, args[0]).value;
    AliasIsFit(table, program, args[0]);
    FindNamed(program.flags, target);
    FindExtended(table, program.flags, args[0]);
    ParseStep(args, Extend(table, program), fields);
    StepExtended(table, program, Find(program.flags, target).value, args[0], Second(args), fields);
  }

  // ----- Reading in step

  /** The next argument is no kept alias of a flag, and the step makes the same of what follows
      it and of what the rewriting puts there. */
  ghost predicate ReadsHead(table: AliasTable, valueFlags: set<string>, program: Program, args: seq<string>, mode: Mode, fields: Fields)
    requires Named(program.flags) && args != []
  {
    var word := WordOf(table, args[0], mode);
    FindNamed(program.flags, word);
    && LooksUpAlike(table, program, args[0], mode)
    && PlainNext(table, valueFlags, program, args, mode, fields)
       == StepAt(Find(program.flags, word), program, word, Second(args), fields)
  }

  /** So it is at every argument up to the end of the parse. */
  ghost predicate Reads(table: AliasTable, valueFlags: set<string>, program: Program, args: seq<string>, mode: Mode, fields: Fields)
    requires Named(program.flags)
    decreases |args|
  {
    args != [] ==>
      && ReadsHead(table, valueFlags, program, args, mode, fields)
      && var s := PlainNext(table, valueFlags, program, args, mode, fields);
         s.Onward? ==> Reads(table, valueFlags, program, args[s.taken..], ModePast(table, valueFlags, args, s.taken, mode), s.fields)
  }

  lemma {:induction false} FlagNameMatters(def: FlagDef, program: Program, a: string, b: string, more: Option<string>, fields: Fields)
    requires def.names != [] && (a == "" <==> b == "")
    ensures var s, t := StepAt(Some(def), program, a, more, fields), StepAt(Some(def), program, b, more, fields);
            s == t || (s.Stop? && t.Stop? && s.outcome.0 == t.outcome.0 && def.Valued? && def.useMatchedName)
  {
  }

  lemma {:induction false} StoppedNameMatters(program: Program, a: string, b: string, more: Option<string>, fields: Fields)
    requires Stops(program, a) && Stops(program, b) && a != "" && b != ""
    ensures var s, t := StepAt(None, program, a, more, fields), StepAt(None, program, b, more, fields);
            s.Stop? && t.Stop? && s.outcome.0 == t.outcome.0 == fields
  {
  }

  /** An alias and its target differ only where a message quotes the name. */
  lemma {:induction false} NameMatters(table: AliasTable, program: Program, arg: string, mode: Mode, more: Option<string>, fields: Fields)
    requires Consistent(table, program) && LooksUpAlike(table, program, arg, mode)
    ensures var word := WordOf(table, arg, mode);
            Find(program.flags, word).Some? ==> Find(program.flags, word).value.names != []
    ensures var word := WordOf(table, arg, mode);
            var s, t := StepAt(Find(program.flags, word), program, word, more, fields), StepAt(Find(program.flags, word), program, arg, more, fields);
            s == t || (s.Stop? && t.Stop? && SameMeaning(s.outcome, t.outcome, table, program.flags))
  {
    var word := WordOf(table, arg, mode);
    FindNamed(program.flags, word);
    Looked(table, program, arg, mode);
    if word != arg {
      match Find(program.flags, word)
      case None =>
        AliasIsFit(table, program, arg);
        StoppedNameMatters(program, word, arg, more, fields);
      case Some(def) =>
        FindIsMember(program.flags, word);
        FlagNameMatters(def, program, word, arg, more, fields);
    }
  }

  /** The terminator is the `--` itself, so nothing behind it is rewritten. */
  lemma {:induction false} FinishesAtDashes(table: AliasTable, valueFlags: set<string>, program: Program, args: seq<string>, mode: Mode, fields: Fields)
    requires args != [] && Consistent(table, program) && Readable(table, valueFlags, args, mode)
    requires PlainNext(table, valueFlags, program, args, mode, fields).Finish?
    ensures WordOf(table, args[0], mode) == args[0] == "--" && NextMode(table, valueFlags, args[0], mode) == Ended
    ensures Readable(table, valueFlags, args[1..], Ended) && RewrittenIn(table, valueFlags, args[1..], Ended) == args[1..]
  {
    assert WordOf(table, args[0], mode) == "--";
    if OwnAlias(table, args[0]).Some? { AliasIsFit(table, program, args[0]); }
  }

  /** One step in step: the rest decides. */
  lemma {:induction false} StepInStep(table: AliasTable, valueFlags: set<string>, program: Program, args: seq<string>, mode: Mode, fields: Fields)
    requires Consistent(table, program) && Readable(table, valueFlags, args, mode)
    requires args != [] && ReadsHead(table, valueFlags, program, args, mode, fields)
    ensures var s := PlainNext(table, valueFlags, program, args, mode, fields);
            if s.Onward? then
              var past := ModePast(table, valueFlags, args, s.taken, mode);
              && Readable(table, valueFlags, args[s.taken..], past)
              && (Alike(table, valueFlags, program, args, mode, fields) <==> Alike(table, valueFlags, program, args[s.taken..], past, s.fields))
            else Alike(table, valueFlags, program, args, mode, fields)
  {
    PlainStep(table, valueFlags, program, args, mode, fields);
    DirectStep(table, program, args, mode, fields);
    NameMatters(table, program, args[0], mode, Second(args), fields);
    if PlainNext(table, valueFlags, program, args, mode, fields).Finish? {
      FinishesAtDashes(table, valueFlags, program, args, mode, fields);
    }
  }

  /** Arguments read in step mean the same both ways. */
  lemma {:induction false} Same(table: AliasTable, valueFlags: set<string>, program: Program, args: seq<string>, mode: Mode, fields: Fields)
    requires Consistent(table, program) && Readable(table, valueFlags, args, mode)
    requires Reads(table, valueFlags, program, args, mode, fields)
    ensures Alike(table, valueFlags, program, args, mode, fields)
    decreases |args|
  {
    if args == [] {
      NothingRewritten(table, valueFlags, mode);
    } else {
      StepInStep(table, valueFlags, program, args, mode, fields);
      var s := PlainNext(table, valueFlags, program, args, mode, fields);
      if s.Onward? {
        Same(table, valueFlags, program, args[s.taken..], ModePast(table, valueFlags, args, s.taken, mode), s.fields);
      }
    }
  }

  /** Rewriting aliases and then parsing gives the fields, and fails exactly when, parsing
      the raw arguments with the aliases built into the specification does. */
  lemma {:induction false} RewriteThenParse(table: AliasTable, valueFlags: set<string>, program: Program,
                                            args: seq<string>, fields: Fields)
    requires Consistent(table, program) && Readable(table, valueFlags, args, Looking)
    requires Reads(table, valueFlags, program, args, Looking, fields)
    ensures AllTexts(Normalize(table, valueFlags, args, false))
    ensures SameMeaning(Parse(Rewritten(table, valueFlags, args, false), program, fields),
                        Parse(args, Extend(table, program), fields), table, program.flags)
  {
    AllTextsIff(table, valueFlags, args, false);
    Same(table, valueFlags, program, args, Looking, fields);
  }
}
