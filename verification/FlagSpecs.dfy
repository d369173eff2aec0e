/** The table-driven argument parser (cli/commands/flag-spec.ts). */
module FlagSpecs {
  import opened Wrappers

  datatype Field = On | One(text: string) | Many(texts: seq<string>)

  type Fields = map<string, Field>

  /** The thrown errors; Refused is one thrown by a callback of the table. */
  datatype FlagError =
    | UnknownArgument(arg: string) | MissingValue(name: string) | CustomMissing(message: string)
    | NoStoreKey(name: string) | Refused

  /** What a callback makes of the state: a new one, or a thrown error. */
  type Update = Option<Fields>

  datatype Capture = Took(fields: Fields) | Declined | Threw

  datatype FlagDef =
    | Switch(names: seq<string>, key: Option<string>, apply: Option<Fields -> Update>)
    | Valued(names: seq<string>, multi: bool, key: Option<string>, rejectDash: bool, allowEmpty: bool,
             errorName: Option<string>, useMatchedName: bool, missingError: Option<string>,
             validate: Option<(Fields, string) -> Update>, store: Option<(Fields, string) -> Update>)
    | Terminator(names: seq<string>, finish: (Fields, seq<string>) -> Update)

  datatype Program = Program(flags: seq<FlagDef>, skipFalsyArgs: bool, positional: (Fields, string) -> Capture)

  /** Every flag has a canonical name, as its type says. */
  predicate Named(flags: seq<FlagDef>) {
    forall i :: 0 <= i < |flags| ==> flags[i].names != []
  }

  /** The last definition with the name, because a later entry of the lookup replaces an earlier one. */
  function Find(flags: seq<FlagDef>, name: string): Option<FlagDef> {
    if flags == [] then None
    else if name in flags[|flags| - 1].names then Some(flags[|flags| - 1])
    else Find(flags[..|flags| - 1], name)
  }

  /** The outcome of handling one flag: the fields so far and the error that stops the parse. */
  type Outcome = (Fields, Option<FlagError>)

  function FromUpdate(before: Fields, update: Update): Outcome {
    if update.Some? then (update.value, None) else (before, Some(Refused))
  }

  function StoreValue(fields: Fields, key: string, field: Field): Fields {
    fields[key := field]
  }

  function PushValue(fields: Fields, key: string, raw: string): Fields {
    if key in fields && fields[key].Many? then fields[key := Many(fields[key].texts + [raw])]
    else fields[key := Many([raw])]
  }

  function ApplySwitch(def: FlagDef, fields: Fields): Outcome
    requires def.Switch? && def.names != []
  {
    if def.apply.Some? then FromUpdate(fields, def.apply.value(fields))
    else if def.key == None then (fields, Some(NoStoreKey(def.names[0])))
    else (StoreValue(fields, def.key.value, On), None)
  }

  predicate IsMissing(def: FlagDef, raw: Option<string>)
    requires def.Valued?
  {
    || raw == None
    || (raw.value == "" && !def.allowEmpty)
    || (def.rejectDash && raw.value != "" && raw.value[0] == '-')
  }

  function MissingError(def: FlagDef, matched: string): FlagError
    requires def.Valued? && def.names != []
  {
    if def.missingError.Some? then CustomMissing(def.missingError.value)
    else MissingValue(if def.useMatchedName then matched
                      else if def.errorName.Some? then def.errorName.value else def.names[0])
  }

  function ApplyValue(def: FlagDef, fields: Fields, raw: string): Outcome
    requires def.Valued? && def.names != []
  {
    var checked := if def.validate.Some? then FromUpdate(fields, def.validate.value(fields, raw)) else (fields, None);
    if checked.1.Some? then checked
    else if def.store.Some? then FromUpdate(checked.0, def.store.value(checked.0, raw))
    else if def.key == None then (checked.0, Some(NoStoreKey(def.names[0])))
    else if def.multi then (PushValue(checked.0, def.key.value, raw), None)
    else (StoreValue(checked.0, def.key.value, One(raw)), None)
  }

  /** The rest of the loop: the final fields and the thrown error, if any. */
  function Parse(args: seq<string>, program: Program, fields: Fields): Outcome
    requires Named(program.flags)
    decreases |args|
  {
    if args == [] then (fields, None)
    else if program.skipFalsyArgs && args[0] == "" then Parse(args[1..], program, fields)
    else match Find(program.flags, args[0])
      case None =>
        (match program.positional(fields, args[0])
         case Took(next) => Parse(args[1..], program, next)
         case Declined => (fields, Some(UnknownArgument(args[0])))
         case Threw => (fields, Some(Refused)))
      case Some(def) =>
        FindNamed(program.flags, args[0]);
        if def.Switch? then
          var (next, error) := ApplySwitch(def, fields);
          if error.Some? then (next, error) else Parse(args[1..], program, next)
        else if def.Terminator? then FromUpdate(fields, def.finish(fields, args[1..]))
        else
          var raw := if |args| > 1 then Some(args[1]) else None;
          if IsMissing(def, raw) then (fields, Some(MissingError(def, args[0])))
          else
            var (next, error) := ApplyValue(def, fields, raw.value);
            if error.Some? then (next, error) else Parse(args[2..], program, next)
  }

  lemma {:induction false} FindNamed(flags: seq<FlagDef>, name: string)
    requires Named(flags)
    ensures Find(flags, name).Some? ==> Find(flags, name).value.names != []
    ensures Find(flags, name).Some? ==> name in Find(flags, name).value.names
    decreases |flags|
  {
    if flags != [] && name !in flags[|flags| - 1].names {
      FindNamed(flags[..|flags| - 1], name);
    }
  }

  // ----- One step of the parse

  /** What the next argument does: it ends the parse, it is taken with or without the one behind
      it, or it hands the rest to a terminator. */
  datatype Step = Stop(outcome: Outcome) | Onward(taken: nat, fields: Fields) | Finish(finish: (Fields, seq<string>) -> Update)

  /** What a value flag makes of the argument behind it. */
  function OnValue(def: FlagDef, fields: Fields, raw: string, name: string): Outcome
    requires def.Valued? && def.names != []
  {
    if IsMissing(def, Some(raw)) then (fields, Some(MissingError(def, name))) else ApplyValue(def, fields, raw)
  }

  function Advance(outcome: Outcome, taken: nat): Step {
    if outcome.1.Some? then Stop(outcome) else Onward(taken, outcome.0)
  }

  /** The step at an argument `name` that means `def`, with `more` behind it. */
  function StepAt(def: Option<FlagDef>, program: Program, name: string, more: Option<string>, fields: Fields): (s: Step)
    requires def.Some? ==> def.value.names != []
    ensures s.Onward? ==> 1 <= s.taken <= if more.Some? then 2 else 1
    ensures s.Stop? ==> s.outcome.1.Some?
  {
    if program.skipFalsyArgs && name == "" then Onward(1, fields)
    else match def
      case None =>
        (match program.positional(fields, name)
         case Took(next) => Onward(1, next)
         case Declined => Stop((fields, Some(UnknownArgument(name))))
         case Threw => Stop((fields, Some(Refused))))
      case Some(flag) =>
        if flag.Switch? then Advance(ApplySwitch(flag, fields), 1)
        else if flag.Terminator? then Finish(flag.finish)
        else if more == None then Stop((fields, Some(MissingError(flag, name))))
        else Advance(OnValue(flag, fields, more.value, name), 2)
  }

  function Second(args: seq<string>): Option<string> {
    if |args| > 1 then Some(args[1]) else None
  }

  function NextStep(args: seq<string>, program: Program, fields: Fields): Step
    requires Named(program.flags) && args != []
  {
    FindNamed(program.flags, args[0]);
    StepAt(Find(program.flags, args[0]), program, args[0], Second(args), fields)
  }

  /** The parse goes step by step. */
  lemma {:induction false} ParseStep(args: seq<string>, program: Program, fields: Fields)
    requires Named(program.flags) && args != []
    ensures Parse(args, program, fields) ==
            match NextStep(args, program, fields)
            case Stop(outcome) => outcome
            case Onward(taken, next) => Parse(args[taken..], program, next)
            case Finish(finish) => FromUpdate(fields, finish(fields, args[1..]))
  {
    FindNamed(program.flags, args[0]);
  }

  /** The state object a command hands in; parsing writes into it. */
  class FlagState {
    var fields: Fields

    constructor (initial: Fields)
      ensures fields == initial
    {
      fields := initial;
    }

    method Push(key: string, raw: string)
      modifies this
      ensures fields == PushValue(old(fields), key, raw)
    {
      if key in fields && fields[key].Many? {
        fields := fields[key := Many(fields[key].texts + [raw])];
      } else {
        fields := fields[key := Many([raw])];
      }
    }

    /** Handles one value flag; the result is the thrown error, if any. */
    method TakeValue(def: FlagDef, raw: string) returns (error: Option<FlagError>)
      requires def.Valued? && def.names != []
      modifies this
      ensures (fields, error) == ApplyValue(def, old(fields), raw)
    {
      if def.validate.Some? {
        var checked := def.validate.value(fields, raw);
        if checked == None {
          return Some(Refused);
        }
        fields := checked.value;
      }
      if def.store.Some? {
        var stored := def.store.value(fields, raw);
        if stored == None {
          return Some(Refused);
        }
        fields := stored.value;
      } else if def.key == None {
        return Some(NoStoreKey(def.names[0]));
      } else if def.multi {
        Push(def.key.value, raw);
      } else {
        fields := fields[def.key.value := One(raw)];
      }
      return None;
    }

    method SetSwitch(def: FlagDef) returns (error: Option<FlagError>)
      requires def.Switch? && def.names != []
      modifies this
      ensures (fields, error) == ApplySwitch(def, old(fields))
    {
      if def.apply.Some? {
        var applied := def.apply.value(fields);
        if applied == None {
          return Some(Refused);
        }
        fields := applied.value;
      } else if def.key == None {
        return Some(NoStoreKey(def.names[0]));
      } else {
        fields := fields[def.key.value := On];
      }
      return None;
    }
  }

  /** The `Map` from every name to its definition. */
  method BuildLookup(flags: seq<FlagDef>) returns (lookup: map<string, FlagDef>)
    ensures forall name :: name in lookup <==> Find(flags, name).Some?
    ensures forall name :: name in lookup ==> lookup[name] == Find(flags, name).value
  {
    lookup := map[];
    for i := 0 to |flags|
      invariant forall name :: name in lookup <==> Find(flags[..i], name).Some?
      invariant forall name :: name in lookup ==> lookup[name] == Find(flags[..i], name).value
    {
      ghost var before := lookup;
      for j := 0 to |flags[i].names|
        invariant forall name :: name in lookup <==> name in before || name in flags[i].names[..j]
        invariant forall name :: name in lookup ==>
                    if name in flags[i].names[..j] then lookup[name] == flags[i]
                    else name in before && lookup[name] == before[name]
      {
        lookup := lookup[flags[i].names[j] := flags[i]];
        assert flags[i].names[..j + 1] == flags[i].names[..j] + [flags[i].names[j]];
      }
      assert flags[i].names[..|flags[i].names|] == flags[i].names;
      assert flags[..i + 1][..i] == flags[..i] && flags[..i + 1][i] == flags[i];
    }
    assert flags[..|flags|] == flags;
  }

  method ParseFlagSpec(args: seq<string>, program: Program, state: FlagState) returns (error: Option<FlagError>)
    requires Named(program.flags)
    modifies state
    ensures (state.fields, error) == Parse(args, program, old(state.fields))
  {
    var lookup := BuildLookup(program.flags);
    ghost var final := Parse(args, program, state.fields);
    var index := 0;
    assert args[0..] == args;
    while index < |args|
      invariant index <= |args| && Parse(args[index..], program, state.fields) == final
    {
      var arg := args[index];
      ghost var rest := args[index..];
      assert rest[1..] == args[index + 1..];
      FindNamed(program.flags, arg);
      if program.skipFalsyArgs && arg == "" {
        index := index + 1;
        continue;
      }
      if arg !in lookup {
        var captured := program.positional(state.fields, arg);
        if captured.Took? {
          state.fields := captured.fields;
          index := index + 1;
          continue;
        }
        return Some(if captured.Declined? then UnknownArgument(arg) else Refused);
      }
      var def := lookup[arg];
      if def.Switch? {
        error := state.SetSwitch(def);
        if error.Some? {
          return;
        }
      } else if def.Terminator? {
        var finished := def.finish(state.fields, args[index + 1..]);
        if finished == None {
          return Some(Refused);
        }
        state.fields := finished.value;
        return None;
      } else {
        var raw := if index + 1 < |args| then Some(args[index + 1]) else None;
        if IsMissing(def, raw) {
          return Some(MissingError(def, arg));
        }
        assert rest[2..] == args[index + 2..];
        index := index + 1;
        error := state.TakeValue(def, raw.value);
        if error.Some? {
          return;
        }
      }
      index := index + 1;
    }
    return None;
  }
}
