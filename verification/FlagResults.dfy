/** What the table-driven parser makes of arguments, told over the table and the arguments alone
    (cli/commands/flag-spec.ts). */
module FlagResults {
  import opened Wrappers
  import opened FlagSpecs

  /** One flag as it is given: which one, under which of its names, and with which value. */
  datatype Setting = Setting(flag: nat, name: string, raw: string)

  /** The flag is stored under its key, without callbacks. */
  predicate Stored(def: FlagDef) {
    match def
    case Switch(_, key, apply) => key.Some? && apply == None
    case Valued(_, _, key, _, _, _, _, _, validate, store) => key.Some? && validate == None && store == None
    case Terminator(_, _) => false
  }

  /** The value is refused: it is empty where that is not allowed, or starts with a dash where
      that is not. */
  predicate Bad(def: FlagDef, raw: string)
    requires def.Valued?
  {
    (raw == "" && !def.allowEmpty) || (raw != "" && raw[0] == '-' && def.rejectDash)
  }

  /** The name stands for this entry of the table: no later entry has it. */
  predicate Names(program: Program, flag: nat, name: string) {
    && flag < |program.flags| && name in program.flags[flag].names
    && (forall j :: flag < j < |program.flags| ==> name !in program.flags[j].names)
    && !(program.skipFalsyArgs && name == "")
  }

  predicate Fits(program: Program, s: Setting) {
    && Names(program, s.flag, s.name) && Stored(program.flags[s.flag])
    && (program.flags[s.flag].Valued? ==> !Bad(program.flags[s.flag], s.raw))
  }

  predicate AllFit(program: Program, settings: seq<Setting>) {
    forall i :: 0 <= i < |settings| ==> Fits(program, settings[i])
  }

  function Words(program: Program, s: Setting): seq<string>
    requires Fits(program, s)
  {
    if program.flags[s.flag].Valued? then [s.name, s.raw] else [s.name]
  }

  /** The settings as arguments, in order. */
  function Print(program: Program, settings: seq<Setting>): seq<string>
    requires AllFit(program, settings)
  {
    if settings == [] then []
    else Print(program, settings[..|settings| - 1]) + Words(program, settings[|settings| - 1])
  }

  function KeyOf(program: Program, s: Setting): string
    requires Fits(program, s)
  {
    program.flags[s.flag].key.value
  }

  /** The values given for a key, in order. */
  function Raws(program: Program, settings: seq<Setting>, key: string): seq<string>
    requires AllFit(program, settings)
  {
    if settings == [] then []
    else
      var last := settings[|settings| - 1];
      Raws(program, settings[..|settings| - 1], key) + if KeyOf(program, last) == key then [last.raw] else []
  }

  /** A key belongs to one entry of the table. */
  predicate KeysApart(program: Program) {
    forall i, j :: 0 <= i < j < |program.flags| && Stored(program.flags[i]) && Stored(program.flags[j]) ==>
      program.flags[i].key != program.flags[j].key
  }

  function TextsAt(fields: Fields, key: string): seq<string> {
    if key in fields && fields[key].Many? then fields[key].texts else []
  }

  predicate Gives(program: Program, settings: seq<Setting>, key: string)
    requires AllFit(program, settings)
  {
    exists i :: 0 <= i < |settings| && KeyOf(program, settings[i]) == key
  }

  /** What a key holds after the settings: a switch that was given is on, a value is the last
      one given, several values are all that were given behind those already there, and
      a key that was not given is as it was. */
  predicate HoldsAt(program: Program, settings: seq<Setting>, before: Fields, now: Fields, key: string)
    requires AllFit(program, settings)
  {
    if Gives(program, settings, key) then
      && key in now
      && forall i :: 0 <= i < |settings| && KeyOf(program, settings[i]) == key ==>
           match program.flags[settings[i].flag]
           case Switch(_, _, _) => now[key] == On
           case Valued(_, multi, _, _, _, _, _, _, _, _) =>
             if multi then now[key] == Many(TextsAt(before, key) + Raws(program, settings, key))
             else var raws := Raws(program, settings, key); raws != [] && now[key] == One(raws[|raws| - 1])
    else (key in now <==> key in before) && (key in now ==> now[key] == before[key])
  }

  ghost predicate Holds(program: Program, settings: seq<Setting>, before: Fields, now: Fields)
    requires AllFit(program, settings)
  {
    forall key :: HoldsAt(program, settings, before, now, key)
  }

  lemma {:induction false} FindsNamed(flags: seq<FlagDef>, i: nat, name: string)
    requires i < |flags| && name in flags[i].names && forall j :: i < j < |flags| ==> name !in flags[j].names
    ensures Find(flags, name) == Some(flags[i])
    decreases |flags|
  {
    if i < |flags| - 1 {
      assert flags[..|flags| - 1][i] == flags[i];
      FindsNamed(flags[..|flags| - 1], i, name);
    }
  }

  /** One setting in front of anything. */
  lemma {:induction false} ReadOne(program: Program, s: Setting, tail: seq<string>, fields: Fields)
    requires Named(program.flags) && Fits(program, s)
    ensures var def, key := program.flags[s.flag], KeyOf(program, s);
            Parse(Words(program, s) + tail, program, fields) ==
            Parse(tail, program, fields[key := Stores(def, fields, key, s.raw)])
  {
    var args := Words(program, s) + tail;
    FindsNamed(program.flags, s.flag, s.name);
    ParseStep(args, program, fields);
    assert [] + [s.raw] == [s.raw];
    if program.flags[s.flag].Valued? {
      assert args[2..] == tail;
    } else {
      assert args[1..] == tail;
    }
  }

  function Stores(def: FlagDef, fields: Fields, key: string, raw: string): Field {
    if def.Switch? then On else if def.Valued? && def.multi then Many(TextsAt(fields, key) + [raw]) else One(raw)
  }

  lemma {:induction false} GivenBefore(program: Program, settings: seq<Setting>, key: string)
    requires settings != [] && AllFit(program, settings) && KeyOf(program, settings[|settings| - 1]) != key
    ensures Gives(program, settings, key) <==> Gives(program, settings[..|settings| - 1], key)
    ensures Raws(program, settings, key) == Raws(program, settings[..|settings| - 1], key)
  {
    var front := settings[..|settings| - 1];
    if i :| 0 <= i < |front| && KeyOf(program, front[i]) == key { assert KeyOf(program, settings[i]) == key; }
    if i :| 0 <= i < |settings| && KeyOf(program, settings[i]) == key { assert KeyOf(program, front[i]) == key; }
  }

  lemma {:induction false} OtherKey(program: Program, settings: seq<Setting>, before: Fields, now: Fields, later: Fields, key: string)
    requires settings != [] && AllFit(program, settings) && KeyOf(program, settings[|settings| - 1]) != key
    requires (key in later <==> key in now) && (key in now ==> later[key] == now[key])
    requires HoldsAt(program, settings[..|settings| - 1], before, now, key)
    ensures HoldsAt(program, settings, before, later, key)
  {
    GivenBefore(program, settings, key);
    var front := settings[..|settings| - 1];
    forall i | 0 <= i < |settings| && KeyOf(program, settings[i]) == key ensures i < |front| && front[i] == settings[i] { }
  }

  lemma {:induction false} ThisKey(program: Program, settings: seq<Setting>, before: Fields, now: Fields)
    requires settings != [] && AllFit(program, settings) && KeysApart(program)
    requires HoldsAt(program, settings[..|settings| - 1], before, now, KeyOf(program, settings[|settings| - 1]))
    ensures var s := settings[|settings| - 1];
            var key := KeyOf(program, s);
            HoldsAt(program, settings, before, now[key := Stores(program.flags[s.flag], now, key, s.raw)], key)
  {
    var s, front := settings[|settings| - 1], settings[..|settings| - 1];
    var key := KeyOf(program, s);
    forall i | 0 <= i < |settings| && KeyOf(program, settings[i]) == key ensures settings[i].flag == s.flag {
      SameFlag(program, settings[i], s);
    }
    RawsEnd(program, settings, TextsAt(before, key));
    if Gives(program, front, key) {
      var i :| 0 <= i < |front| && KeyOf(program, front[i]) == key;
      assert front[i] == settings[i];
    } else {
      NoRaws(program, front, key);
    }
  }

  lemma {:induction false} RawsEnd(program: Program, settings: seq<Setting>, texts: seq<string>)
    requires settings != [] && AllFit(program, settings)
    ensures var s, front := settings[|settings| - 1], settings[..|settings| - 1];
            var key := KeyOf(program, s);
            && Raws(program, settings, key) == Raws(program, front, key) + [s.raw]
            && texts + Raws(program, front, key) + [s.raw] == texts + Raws(program, settings, key)
            && (Raws(program, front, key) == [] ==> texts + [s.raw] == texts + Raws(program, settings, key))
  {
  }

  lemma {:induction false} HoldsLater(program: Program, settings: seq<Setting>, before: Fields, now: Fields)
    requires settings != [] && AllFit(program, settings) && KeysApart(program)
    requires Holds(program, settings[..|settings| - 1], before, now)
    ensures var s := settings[|settings| - 1];
            var key := KeyOf(program, s);
            Holds(program, settings, before, now[key := Stores(program.flags[s.flag], now, key, s.raw)])
  {
    var s := settings[|settings| - 1];
    var key := KeyOf(program, s);
    var field := Stores(program.flags[s.flag], now, key, s.raw);
    var later := now[key := field];
    forall k ensures HoldsAt(program, settings, before, later, k) {
      if k == key { ThisKey(program, settings, before, now); } else { OtherKey(program, settings, before, now, later, k); }
    }
  }

  lemma {:induction false} SameFlag(program: Program, a: Setting, b: Setting)
    requires Fits(program, a) && Fits(program, b) && KeysApart(program) && KeyOf(program, a) == KeyOf(program, b)
    ensures a.flag == b.flag
  {
    assert program.flags[a.flag].key == program.flags[b.flag].key;
  }

  lemma {:induction false} NoRaws(program: Program, settings: seq<Setting>, key: string)
    requires AllFit(program, settings) && forall i :: 0 <= i < |settings| ==> KeyOf(program, settings[i]) != key
    ensures Raws(program, settings, key) == []
    decreases |settings|
  {
    if settings != [] { NoRaws(program, settings[..|settings| - 1], key); }
  }

  /** The parser undoes the printing of settings, whatever follows them. */
  lemma {:induction false} ReadsSettings(program: Program, settings: seq<Setting>, tail: seq<string>, fields: Fields) returns (now: Fields)
    requires Named(program.flags) && AllFit(program, settings) && KeysApart(program)
    ensures Parse(Print(program, settings) + tail, program, fields) == Parse(tail, program, now)
    ensures Holds(program, settings, fields, now)
    decreases |settings|
  {
    if settings == [] {
      assert Print(program, settings) + tail == tail;
      now := fields;
    } else {
      var front, s := settings[..|settings| - 1], settings[|settings| - 1];
      var def, key := program.flags[s.flag], KeyOf(program, s);
      var before := ReadsSettings(program, front, Words(program, s) + tail, fields);
      assert Print(program, settings) + tail == Print(program, front) + (Words(program, s) + tail);
      ReadOne(program, s, tail, before);
      HoldsLater(program, settings, fields, before);
      now := before[key := Stores(def, before, key, s.raw)];
    }
  }

  /** Settings and nothing else: no error. */
  lemma {:induction false} SettingsSucceed(program: Program, settings: seq<Setting>, fields: Fields) returns (now: Fields)
    requires Named(program.flags) && AllFit(program, settings) && KeysApart(program)
    ensures Parse(Print(program, settings), program, fields) == (now, None) && Holds(program, settings, fields, now)
  {
    now := ReadsSettings(program, settings, [], fields);
    assert Print(program, settings) + [] == Print(program, settings);
  }

  // ----- Errors

  /** The message of a missing value. */
  function MissingText(def: FlagDef, name: string): FlagError
    requires def.Valued? && def.names != []
  {
    match (def.missingError, def.useMatchedName, def.errorName)
    case (Some(message), _, _) => CustomMissing(message)
    case (None, true, _) => MissingValue(name)
    case (None, false, Some(other)) => MissingValue(other)
    case (None, false, None) => MissingValue(def.names[0])
  }

  /** The first argument that no entry names, and that is not taken, ends the parse. */
  lemma {:induction false} UnknownEnds(program: Program, settings: seq<Setting>, arg: string, tail: seq<string>, fields: Fields) returns (now: Fields)
    requires Named(program.flags) && AllFit(program, settings) && KeysApart(program)
    requires (forall i :: 0 <= i < |program.flags| ==> arg !in program.flags[i].names) && !(program.skipFalsyArgs && arg == "")
    requires forall f :: program.positional(f, arg).Declined?
    ensures Parse(Print(program, settings) + ([arg] + tail), program, fields) == (now, Some(UnknownArgument(arg)))
    ensures Holds(program, settings, fields, now)
  {
    now := ReadsSettings(program, settings, [arg] + tail, fields);
    FindsNothing(program.flags, arg);
    ParseStep([arg] + tail, program, now);
  }

  lemma {:induction false} FindsNothing(flags: seq<FlagDef>, name: string)
    requires forall i :: 0 <= i < |flags| ==> name !in flags[i].names
    ensures Find(flags, name) == None
    decreases |flags|
  {
    if flags != [] {
      var front := flags[..|flags| - 1];
      forall i | 0 <= i < |front| ensures name !in front[i].names { assert front[i] == flags[i]; }
      FindsNothing(front, name);
    }
  }

  /** So does the first value flag with nothing or a bad value behind it. */
  lemma {:induction false} MissingEnds(program: Program, settings: seq<Setting>, flag: nat, name: string, tail: seq<string>, fields: Fields) returns (now: Fields)
    requires Named(program.flags) && AllFit(program, settings) && KeysApart(program)
    requires Names(program, flag, name) && program.flags[flag].Valued?
    requires tail == [] || Bad(program.flags[flag], tail[0])
    ensures program.flags[flag].names != []
    ensures Parse(Print(program, settings) + ([name] + tail), program, fields) == (now, Some(MissingText(program.flags[flag], name)))
    ensures Holds(program, settings, fields, now)
  {
    now := ReadsSettings(program, settings, [name] + tail, fields);
    FindsNamed(program.flags, flag, name);
    ParseStep([name] + tail, program, now);
  }

  // ----- Callbacks

  /** A value flag with callbacks: the check comes first, and either may refuse. */
  lemma {:induction false} CallbacksRun(program: Program, flag: nat, name: string, raw: string, tail: seq<string>, fields: Fields)
    requires Named(program.flags) && Names(program, flag, name)
    requires var def := program.flags[flag]; def.Valued? && !Bad(def, raw) && def.store.Some?
    ensures var def := program.flags[flag];
            var checked := if def.validate.Some? then def.validate.value(fields, raw) else Some(fields);
            Parse([name, raw] + tail, program, fields) ==
            match checked
            case None => (fields, Some(Refused))
            case Some(valid) =>
              match def.store.value(valid, raw)
              case None => (valid, Some(Refused))
              case Some(next) => Parse(tail, program, next)
  {
    FindsNamed(program.flags, flag, name);
    ParseStep([name, raw] + tail, program, fields);
    assert ([name, raw] + tail)[2..] == tail;
  }

  /** A switch with a callback does what the callback does. */
  lemma {:induction false} SwitchRuns(program: Program, flag: nat, name: string, tail: seq<string>, fields: Fields)
    requires Named(program.flags) && Names(program, flag, name)
    requires program.flags[flag].Switch? && program.flags[flag].apply.Some?
    ensures Parse([name] + tail, program, fields) == match program.flags[flag].apply.value(fields)
                                                     case None => (fields, Some(Refused))
                                                     case Some(next) => Parse(tail, program, next)
  {
    FindsNamed(program.flags, flag, name);
    ParseStep([name] + tail, program, fields);
    assert ([name] + tail)[1..] == tail;
  }

  /** A flag without a callback and without a key cannot be stored; the message names it. */
  lemma {:induction false} KeylessEnds(program: Program, flag: nat, name: string, raw: string, tail: seq<string>, fields: Fields)
    requires Named(program.flags) && Names(program, flag, name)
    requires match program.flags[flag]
             case Switch(_, key, apply) => key == None && apply == None
             case Valued(_, _, key, _, _, _, _, _, validate, store) =>
               key == None && validate == None && store == None && !Bad(program.flags[flag], raw)
             case Terminator(_, _) => false
    ensures program.flags[flag].names != []
    ensures Parse([name, raw] + tail, program, fields) == (fields, Some(NoStoreKey(program.flags[flag].names[0])))
  {
    FindsNamed(program.flags, flag, name);
    ParseStep([name, raw] + tail, program, fields);
  }

  /** A terminator takes all that follows and ends the parse; an argument that no entry names
      goes to the positional callback; an empty one may be skipped. */
  lemma {:induction false} OthersRun(program: Program, arg: string, tail: seq<string>, fields: Fields)
    requires Named(program.flags)
    ensures arg == "" && program.skipFalsyArgs ==> Parse([arg] + tail, program, fields) == Parse(tail, program, fields)
    ensures !(program.skipFalsyArgs && arg == "") ==>
              && (forall i :: 0 <= i < |program.flags| && Names(program, i, arg) && program.flags[i].Terminator? ==>
                    Parse([arg] + tail, program, fields) == match program.flags[i].finish(fields, tail)
                                                           case None => (fields, Some(Refused))
                                                           case Some(next) => (next, None))
              && ((forall i :: 0 <= i < |program.flags| ==> arg !in program.flags[i].names) ==>
                    Parse([arg] + tail, program, fields) == match program.positional(fields, arg)
                                                           case Took(next) => Parse(tail, program, next)
                                                           case Declined => (fields, Some(UnknownArgument(arg)))
                                                           case Threw => (fields, Some(Refused)))
  {
    var args := [arg] + tail;
    assert args[1..] == tail;
    ParseStep(args, program, fields);
    forall i | 0 <= i < |program.flags| && Names(program, i, arg) ensures Find(program.flags, arg) == Some(program.flags[i]) {
      FindsNamed(program.flags, i, arg);
    }
    if forall i :: 0 <= i < |program.flags| ==> arg !in program.flags[i].names { FindsNothing(program.flags, arg); }
  }
}
