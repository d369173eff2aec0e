/** Rewriting of scoped flag aliases (cli/aliases.ts). */
module FlagAliases {
  import opened Wrappers

  /** The own entries of one scope's alias object, keys distinct. */
  type AliasTable = seq<(string, string)>

  /** What an argument becomes: a text, or the value that a plain object inherits under
      that property name, which is no string. */
  datatype Word = Text(text: string) | InheritedValue(name: string)

  /** The property names every alias object inherits from `Object.prototype`. */
  const INHERITED_NAMES: set<string> := {
    "__defineGetter__", "__defineSetter__", "__lookupGetter__", "__lookupSetter__", "__proto__",
    "constructor", "hasOwnProperty", "isPrototypeOf", "propertyIsEnumerable", "toLocaleString",
    "toString", "valueOf"
  }

  function OwnAlias(table: AliasTable, arg: string): Option<string> {
    if table == [] then None
    else if table[0].0 == arg then Some(table[0].1)
    else OwnAlias(table[1..], arg)
  }

  /** `aliases[arg] ?? arg` */
  function Resolve(table: AliasTable, arg: string): Word {
    match OwnAlias(table, arg)
    case Some(target) => Text(target)
    case None => if arg in INHERITED_NAMES then InheritedValue(arg) else Text(arg)
  }

  function Texts(args: seq<string>): (words: seq<Word>)
    ensures |words| == |args| && forall i :: 0 <= i < |args| ==> words[i] == Text(args[i])
  {
    if args == [] then [] else [Text(args[0])] + Texts(args[1..])
  }

  predicate AllTexts(words: seq<Word>) {
    forall i :: 0 <= i < |words| ==> words[i].Text?
  }

  function Strings(words: seq<Word>): (args: seq<string>)
    requires AllTexts(words)
    ensures |args| == |words| && forall i :: 0 <= i < |args| ==> args[i] == words[i].text
  {
    if words == [] then [] else [words[0].text] + Strings(words[1..])
  }

  /** Does the argument after this word stay as it is? */
  predicate TakesValue(valueFlags: set<string>, word: Word) {
    word.Text? && word.text in valueFlags
  }

  /** The rest of the loop; `consuming` is its `previousConsumesValue`. */
  function Normalize(table: AliasTable, valueFlags: set<string>, args: seq<string>, consuming: bool): (r: seq<Word>)
    ensures |r| == |args|
  {
    if args == [] then []
    else if args[0] == "--" then Texts(args)
    else if consuming then [Text(args[0])] + Normalize(table, valueFlags, args[1..], false)
    else
      var word := Resolve(table, args[0]);
      [word] + Normalize(table, valueFlags, args[1..], TakesValue(valueFlags, word))
  }

  /** `aliases` is None for a scope without an alias table. */
  method NormalizeScopedFlags(aliases: Option<AliasTable>, valueFlags: set<string>, args: seq<string>)
    returns (normalized: seq<Word>)
    ensures normalized == if aliases == None then Texts(args) else Normalize(aliases.value, valueFlags, args, false)
  {
    if aliases == None {
      return Texts(args);
    }
    var table := aliases.value;
    ghost var final := Normalize(table, valueFlags, args, false);
    normalized := [];
    var previousConsumesValue := false;
    var index := 0;
    assert args[0..] == args;
    while index < |args|
      invariant index <= |args|
      invariant normalized + Normalize(table, valueFlags, args[index..], previousConsumesValue) == final
    {
      var arg := args[index];
      if arg == "--" {
        TextsOfRest(args, index);
        Regroup(normalized, Text("--"), Texts(args[index + 1..]));
        return normalized + [Text("--")] + Texts(args[index + 1..]);
      }
      NormalizeStep(table, valueFlags, args, index, previousConsumesValue);
      var value := if previousConsumesValue then Text(arg) else Resolve(table, arg);
      previousConsumesValue := !previousConsumesValue && TakesValue(valueFlags, value);
      Regroup(normalized, value, Normalize(table, valueFlags, args[index + 1..], previousConsumesValue));
      normalized := normalized + [value];
      index := index + 1;
    }
    assert normalized + [] == normalized;
  }

  lemma {:induction false} NormalizeStep(table: AliasTable, valueFlags: set<string>, args: seq<string>,
                                         index: nat, consuming: bool)
    requires index < |args| && args[index] != "--"
    ensures var word := if consuming then Text(args[index]) else Resolve(table, args[index]);
            Normalize(table, valueFlags, args[index..], consuming) ==
            [word] + Normalize(table, valueFlags, args[index + 1..], !consuming && TakesValue(valueFlags, word))
  {
    assert args[index..][1..] == args[index + 1..];
  }

  lemma {:induction false} TextsOfRest(args: seq<string>, index: nat)
    requires index < |args|
    ensures Texts(args[index..]) == [Text(args[index])] + Texts(args[index + 1..])
  {
    assert args[index..][1..] == args[index + 1..];
  }

  lemma Regroup<T>(front: seq<T>, x: T, back: seq<T>)
    ensures front + ([x] + back) == front + [x] + back
  {
  }

  /** From the first `--` on, whether or not a value was due there, nothing changes. */
  lemma {:induction false} KeepsFromDoubleDash(table: AliasTable, valueFlags: set<string>, args: seq<string>,
                                               consuming: bool, k: nat)
    requires k < |args| && args[k] == "--"
    ensures Normalize(table, valueFlags, args, consuming)[k..] == Texts(args[k..])
    decreases |args|
  {
    if args[0] == "--" {
      assert Texts(args)[k..] == Texts(args[k..]);
    } else {
      var word := if consuming then Text(args[0]) else Resolve(table, args[0]);
      var rest := !consuming && TakesValue(valueFlags, word);
      KeepsFromDoubleDash(table, valueFlags, args[1..], rest, k - 1);
      DropHead(word, Normalize(table, valueFlags, args[1..], rest), k);
      DropHead(args[0], args[1..], k);
      assert args == [args[0]] + args[1..];
    }
  }

  lemma {:induction false} DropHead<T>(x: T, s: seq<T>, k: nat)
    requires 0 < k <= |s| + 1
    ensures ([x] + s)[k..] == s[k - 1..]
  {
  }

  /** Is an argument looked up whose name the alias object only inherits? */
  predicate MeetsInheritedName(table: AliasTable, valueFlags: set<string>, args: seq<string>, consuming: bool) {
    if args == [] || args[0] == "--" then false
    else if consuming then MeetsInheritedName(table, valueFlags, args[1..], false)
    else
      || (args[0] in INHERITED_NAMES && OwnAlias(table, args[0]) == None)
      || MeetsInheritedName(table, valueFlags, args[1..], TakesValue(valueFlags, Resolve(table, args[0])))
  }

  /** The result is a list of strings exactly when no such name is looked up. */
  lemma {:induction false} AllTextsIff(table: AliasTable, valueFlags: set<string>, args: seq<string>, consuming: bool)
    ensures AllTexts(Normalize(table, valueFlags, args, consuming)) <==>
            !MeetsInheritedName(table, valueFlags, args, consuming)
    decreases |args|
  {
    var r := Normalize(table, valueFlags, args, consuming);
    if args != [] && args[0] != "--" {
      var word := if consuming then Text(args[0]) else Resolve(table, args[0]);
      var next := !consuming && TakesValue(valueFlags, word);
      var tail := Normalize(table, valueFlags, args[1..], next);
      AllTextsIff(table, valueFlags, args[1..], next);
      assert r == [word] + tail;
      assert AllTexts(r) <==> word.Text? && AllTexts(tail) by {
        if AllTexts(r) { assert r[0] == word && forall i :: 0 <= i < |tail| ==> tail[i] == r[i + 1]; }
      }
    }
  }

  /** A positional argument that is lost: `toString` becomes a function value. */
  lemma InheritedNameIsLost()
    ensures Normalize([("-S", "--session")], {"--session"}, ["toString"], false) == [InheritedValue("toString")]
  {
    assert "toString" != "-S";
    assert ["toString"][1..] == [];
    assert OwnAlias([("-S", "--session")], "toString") == None by {
      assert [("-S", "--session")][1..] == [];
    }
  }

  /** No alias leads to another alias or to an inherited name, and none rewrites `--`. */
  predicate Flat(table: AliasTable) {
    forall i :: 0 <= i < |table| ==>
      OwnAlias(table, table[i].1) == None && table[i].1 !in INHERITED_NAMES && table[i].1 != "--"
  }

  lemma {:induction false} AliasTargetIsEntry(table: AliasTable, arg: string)
    requires OwnAlias(table, arg).Some?
    ensures exists i :: 0 <= i < |table| && table[i] == (arg, OwnAlias(table, arg).value)
    decreases |table|
  {
    if table[0].0 == arg {
      assert table[0] == (arg, OwnAlias(table, arg).value);
    } else {
      AliasTargetIsEntry(table[1..], arg);
      var i :| 0 <= i < |table[1..]| && table[1..][i] == (arg, OwnAlias(table[1..], arg).value);
      assert table[i + 1] == (arg, OwnAlias(table, arg).value);
    }
  }

  lemma ResolveTwice(table: AliasTable, arg: string)
    requires Flat(table) && Resolve(table, arg).Text? && arg != "--"
    ensures Resolve(table, Resolve(table, arg).text) == Resolve(table, arg) && Resolve(table, arg).text != "--"
  {
    if OwnAlias(table, arg).Some? {
      AliasTargetIsEntry(table, arg);
      var i :| 0 <= i < |table| && table[i] == (arg, OwnAlias(table, arg).value);
      assert OwnAlias(table, table[i].1) == None;
    }
  }

  /** Normalising a normalised list changes nothing. */
  lemma {:induction false} NormalizeIdempotent(table: AliasTable, valueFlags: set<string>, args: seq<string>,
                                               consuming: bool)
    requires Flat(table) && AllTexts(Normalize(table, valueFlags, args, consuming))
    ensures var once := Normalize(table, valueFlags, args, consuming);
            Normalize(table, valueFlags, Strings(once), consuming) == once
    decreases |args|
  {
    var once := Normalize(table, valueFlags, args, consuming);
    if args == [] {
    } else if args[0] == "--" {
      assert Strings(once) == args;
    } else {
      var word := if consuming then Text(args[0]) else Resolve(table, args[0]);
      var next := !consuming && TakesValue(valueFlags, word);
      var tail := Normalize(table, valueFlags, args[1..], next);
      assert once == [word] + tail;
      assert word == once[0] && forall i :: 0 <= i < |tail| ==> tail[i] == once[i + 1];
      assert Strings(once)[0] == word.text && Strings(once)[1..] == Strings(tail);
      NormalizeIdempotent(table, valueFlags, args[1..], next);
      if !consuming {
        ResolveTwice(table, args[0]);
      }
    }
  }
}
