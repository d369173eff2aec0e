/** When rewriting the aliases changes nothing: conditions on the arguments and on the
    specification (cli/aliases.ts, cli/commands/flag-spec.ts). */
module FlagAgreement {
  import opened Wrappers
  import opened FlagAliases
  import opened FlagSpecs
  import opened FlagPipeline

  // ----- A condition on the arguments alone

  /** A listed value flag is one for the specification too, or an argument at which the parse
      stops; the converse is not asked for. */
  ghost predicate Listed(valueFlags: set<string>, program: Program) {
    && "" !in valueFlags
    && (forall name :: name in valueFlags ==>
          if Find(program.flags, name).Some? then Find(program.flags, name).value.Valued? else Stops(program, name))
  }

  /** The value of a listed flag is not `--`; that of any other value flag is no alias, no listed
      flag and not `--`. */
  predicate ValueFits(table: AliasTable, valueFlags: set<string>, flag: string, raw: string) {
    raw != "--" && (flag in valueFlags || (OwnAlias(table, raw) == None && raw !in valueFlags))
  }

  /** Every value up to the first `--` fits. */
  predicate ValuesFit(table: AliasTable, valueFlags: set<string>, program: Program, args: seq<string>)
    decreases |args|
  {
    if args == [] || args[0] == "--" then true
    else
      var word := WordOf(table, args[0], Looking);
      var def := if program.skipFalsyArgs && word == "" then None else Find(program.flags, word);
      if def.Some? && def.value.Valued? && |args| > 1 then
        ValueFits(table, valueFlags, word, args[1]) && ValuesFit(table, valueFlags, program, args[2..])
      else ValuesFit(table, valueFlags, program, args[1..])
  }

  /** Such arguments are read in step from any fields, when nothing is parsed after a `--`. */
  lemma {:induction false} FittingReads(table: AliasTable, valueFlags: set<string>, program: Program, args: seq<string>, fields: Fields)
    requires Consistent(table, program) && Listed(valueFlags, program)
    requires Find(program.flags, "--") == None ==> Stops(program, "--")
    requires ValuesFit(table, valueFlags, program, args)
    ensures Reads(table, valueFlags, program, args, Looking, fields)
    decreases |args|
  {
    if args != [] {
      FittingHead(table, valueFlags, program, args, fields);
      var s := PlainNext(table, valueFlags, program, args, Looking, fields);
      if s.Onward? {
        FittingReads(table, valueFlags, program, args[s.taken..], s.fields);
      }
    }
  }

  lemma {:induction false} FittingHead(table: AliasTable, valueFlags: set<string>, program: Program, args: seq<string>, fields: Fields)
    requires Consistent(table, program) && Listed(valueFlags, program)
    requires Find(program.flags, "--") == None ==> Stops(program, "--")
    requires args != [] && ValuesFit(table, valueFlags, program, args)
    ensures ReadsHead(table, valueFlags, program, args, Looking, fields)
    ensures var s := PlainNext(table, valueFlags, program, args, Looking, fields);
            s.Onward? ==> ModePast(table, valueFlags, args, s.taken, Looking) == Looking
                          && ValuesFit(table, valueFlags, program, args[s.taken..])
  {
    var word := WordOf(table, args[0], Looking);
    FindNamed(program.flags, word);
    if args[0] == "--" {
      if Find(program.flags, "--").Some? { assert Find(program.flags, "--").value.Terminator?; }
    } else if Find(program.flags, word).Some? && Find(program.flags, word).value.Valued? && |args| > 1 && !(program.skipFalsyArgs && word == "") {
      assert ValueFits(table, valueFlags, word, args[1]);
      ModePastTwo(table, valueFlags, args, Looking);
    } else {
      ModePastOne(table, valueFlags, args, Looking);
      if OwnAlias(table, args[0]).Some? { AliasIsFit(table, program, args[0]); }
    }
  }

  lemma {:induction false} ModePastOne(table: AliasTable, valueFlags: set<string>, args: seq<string>, mode: Mode)
    requires args != []
    ensures ModePast(table, valueFlags, args, 1, mode) == NextMode(table, valueFlags, args[0], mode)
  {
  }

  lemma {:induction false} ModePastTwo(table: AliasTable, valueFlags: set<string>, args: seq<string>, mode: Mode)
    requires |args| > 1
    ensures ModePast(table, valueFlags, args, 2, mode)
         == NextMode(table, valueFlags, args[1], NextMode(table, valueFlags, args[0], mode))
  {
    ModePastOne(table, valueFlags, args[1..], NextMode(table, valueFlags, args[0], mode));
  }

  /** The two ways of reading the arguments mean the same for every list whose values fit. */
  lemma {:induction false} FittingMeansSame(table: AliasTable, valueFlags: set<string>, program: Program, args: seq<string>, fields: Fields)
    requires Consistent(table, program) && Listed(valueFlags, program)
    requires Find(program.flags, "--") == None ==> Stops(program, "--")
    requires ValuesFit(table, valueFlags, program, args) && Readable(table, valueFlags, args, Looking)
    ensures Agree(table, valueFlags, program, args, fields)
  {
    FittingReads(table, valueFlags, program, args, fields);
    Same(table, valueFlags, program, args, Looking, fields);
  }

  // ----- Specifications whose value flags the table lists

  /** Under its full name a flag takes a value exactly when it is listed, and a listed name that
      the specification does not know stops the parse. */
  ghost predicate Listing(table: AliasTable, valueFlags: set<string>, program: Program) {
    && "" !in valueFlags && Flat(table)
    && (forall name :: OwnAlias(table, name) == None ==>
          if Find(program.flags, name).Some? then Find(program.flags, name).value.Valued? <==> name in valueFlags
          else name in valueFlags ==> Stops(program, name))
  }

  lemma {:induction false} WordIsNoAlias(table: AliasTable, arg: string)
    requires Flat(table) && arg != "--"
    ensures OwnAlias(table, WordOf(table, arg, Looking)) == None
  {
    if OwnAlias(table, arg).Some? { AliasTargetIsEntry(table, arg); }
  }

  /** Then the rewriting never changes a value, and keeps nothing but values and what stands
      after a `--`. */
  lemma {:induction false} ListedHead(table: AliasTable, valueFlags: set<string>, program: Program, args: seq<string>, mode: Mode, fields: Fields)
    requires Consistent(table, program) && Listing(table, valueFlags, program)
    requires !mode.Keeping? && args != [] && LooksUpAlike(table, program, args[0], mode)
    ensures ReadsHead(table, valueFlags, program, args, mode, fields)
    ensures var s := PlainNext(table, valueFlags, program, args, mode, fields);
            s.Onward? ==> !ModePast(table, valueFlags, args, s.taken, mode).Keeping?
  {
    ModePastOne(table, valueFlags, args, mode);
    if |args| > 1 { ModePastTwo(table, valueFlags, args, mode); }
    if mode.Looking? && args[0] != "--" {
      WordIsNoAlias(table, args[0]);
      if OwnAlias(table, args[0]).Some? { AliasIsFit(table, program, args[0]); }
    }
  }

  /** No value is a `--`, and none is parsed. */
  ghost predicate RejectsDashes(program: Program) {
    && Find(program.flags, "--") == None && Stops(program, "--")
    && (forall name :: Find(program.flags, name).Some? && Find(program.flags, name).value.Valued? ==> Find(program.flags, name).value.rejectDash)
  }

  lemma {:induction false} StaysLooking(table: AliasTable, valueFlags: set<string>, program: Program, args: seq<string>, fields: Fields)
    requires Consistent(table, program) && Listing(table, valueFlags, program) && RejectsDashes(program) && args != []
    ensures var s := PlainNext(table, valueFlags, program, args, Looking, fields);
            s.Onward? ==> ModePast(table, valueFlags, args, s.taken, Looking) == Looking
  {
    ModePastOne(table, valueFlags, args, Looking);
    if |args| > 1 { ModePastTwo(table, valueFlags, args, Looking); }
    if args[0] != "--" {
      WordIsNoAlias(table, args[0]);
      if OwnAlias(table, args[0]).Some? { AliasIsFit(table, program, args[0]); }
    }
  }

  /** Such a specification never parses what the rewriting keeps. */
  lemma {:induction false} AlwaysReads(table: AliasTable, valueFlags: set<string>, program: Program, args: seq<string>, fields: Fields)
    requires Consistent(table, program) && Listing(table, valueFlags, program) && RejectsDashes(program)
    ensures Reads(table, valueFlags, program, args, Looking, fields)
    decreases |args|
  {
    if args != [] {
      ListedHead(table, valueFlags, program, args, Looking, fields);
      StaysLooking(table, valueFlags, program, args, fields);
      var s := PlainNext(table, valueFlags, program, args, Looking, fields);
      if s.Onward? { AlwaysReads(table, valueFlags, program, args[s.taken..], s.fields); }
    }
  }

  /** No name of the table is taken for a positional argument. */
  ghost predicate DeclinesAliases(table: AliasTable, program: Program) {
    forall alias, f :: OwnAlias(table, alias).Some? ==> program.positional(f, alias).Declined?
  }

  /** A known name is never complained about as unknown. */
  lemma {:induction false} NeverUnknown(args: seq<string>, program: Program, fields: Fields, name: string)
    requires Named(program.flags) && Find(program.flags, name).Some?
    ensures Parse(args, program, fields).1 != Some(UnknownArgument(name))
    decreases |args|
  {
    if args != [] {
      ParseStep(args, program, fields);
      var s := NextStep(args, program, fields);
      if s.Onward? { NeverUnknown(args[s.taken..], program, s.fields, name); }
    }
  }

  /** An alias that the rewriting keeps is unknown to the one reading and never to the other,
      whatever stands behind it. */
  lemma {:induction false} KeptNever(table: AliasTable, valueFlags: set<string>, program: Program, args: seq<string>, mode: Mode, fields: Fields, other: Fields)
    requires Consistent(table, program) && DeclinesAliases(table, program) && NamesUnquoted(table, program.flags)
    requires args != [] && Readable(table, valueFlags, args, mode) && !LooksUpAlike(table, program, args[0], mode)
    ensures Plain(table, valueFlags, program, args, mode, fields) == (fields, Some(UnknownArgument(args[0])))
    ensures Direct(table, program, args, other).1 != Some(UnknownArgument(args[0]))
    ensures !SameMeaning(Plain(table, valueFlags, program, args, mode, fields), Direct(table, program, args, other), table, program.flags)
  {
    AliasIsFit(table, program, args[0]);
    PlainStep(table, valueFlags, program, args, mode, fields);
    FindExtended(table, program.flags, args[0]);
    NeverUnknown(args, Extend(table, program), other, args[0]);
  }

  /** Does the parse, before it ends, look up an alias that the rewriting keeps and only the
      other reading knows? */
  predicate MeetsKept(table: AliasTable, valueFlags: set<string>, program: Program, args: seq<string>, mode: Mode, fields: Fields)
    requires Named(program.flags)
    decreases |args|
  {
    args != [] &&
    (!LooksUpAlike(table, program, args[0], mode) ||
     var s := PlainNext(table, valueFlags, program, args, mode, fields);
     s.Onward? && MeetsKept(table, valueFlags, program, args[s.taken..], ModePast(table, valueFlags, args, s.taken, mode), s.fields))
  }

  lemma {:induction false} KeptIsMet(table: AliasTable, valueFlags: set<string>, program: Program, args: seq<string>, mode: Mode, fields: Fields)
    requires Named(program.flags) && args != [] && !LooksUpAlike(table, program, args[0], mode)
    ensures MeetsKept(table, valueFlags, program, args, mode, fields)
  {
  }

  lemma {:induction false} KeptBehindIsMet(table: AliasTable, valueFlags: set<string>, program: Program, args: seq<string>, mode: Mode, fields: Fields)
    requires Named(program.flags) && args != []
    requires var s := PlainNext(table, valueFlags, program, args, mode, fields);
             s.Onward? && MeetsKept(table, valueFlags, program, args[s.taken..], ModePast(table, valueFlags, args, s.taken, mode), s.fields)
    ensures MeetsKept(table, valueFlags, program, args, mode, fields)
  {
  }

  /** For such a specification that is the only difference. */
  lemma {:induction false} ListedIff(table: AliasTable, valueFlags: set<string>, program: Program, args: seq<string>, mode: Mode, fields: Fields)
    requires Consistent(table, program) && Listing(table, valueFlags, program)
    requires DeclinesAliases(table, program) && NamesUnquoted(table, program.flags)
    requires !mode.Keeping? && Readable(table, valueFlags, args, mode)
    ensures Alike(table, valueFlags, program, args, mode, fields) <==> !MeetsKept(table, valueFlags, program, args, mode, fields)
    decreases |args|
  {
    if args == [] {
      NothingRewritten(table, valueFlags, mode);
    } else if !LooksUpAlike(table, program, args[0], mode) {
      KeptNever(table, valueFlags, program, args, mode, fields, fields);
    } else {
      ListedHead(table, valueFlags, program, args, mode, fields);
      StepInStep(table, valueFlags, program, args, mode, fields);
      var s := PlainNext(table, valueFlags, program, args, mode, fields);
      if s.Onward? {
        ListedIff(table, valueFlags, program, args[s.taken..], ModePast(table, valueFlags, args, s.taken, mode), s.fields);
      }
    }
  }
}
