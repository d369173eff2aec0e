/** Quoting of verification arguments (cli/commands/workbench.ts) and the tokenizer
    that reads them back (cli/core/command-line.ts). */
module CommandLine {
  import opened Wrappers

  datatype Quote = Unquoted | SingleQuoted | DoubleQuoted

  /** The variables of the tokenizer's loop. */
  datatype Scan = Scan(tokens: seq<string>, current: string, quote: Quote, started: bool)

  const START := Scan([], "", Unquoted, false)

  /** `/\s/` */
  predicate IsSpace(c: char) {
    || '\t' <= c <= '\r' || c == ' ' || c == '\U{00A0}' || c == '\U{1680}' || '\U{2000}' <= c <= '\U{200A}'
    || c == '\U{2028}' || c == '\U{2029}' || c == '\U{202F}' || c == '\U{205F}' || c == '\U{3000}' || c == '\U{FEFF}'
  }

  /** The length of the run of backslashes at the head of `s`. */
  function SlashRun(s: string): (n: nat)
    ensures n <= |s| && (forall i :: 0 <= i < n ==> s[i] == '\\') && (n < |s| ==> s[n] != '\\')
  {
    if s == [] || s[0] != '\\' then 0 else 1 + SlashRun(s[1..])
  }

  function Slashes(n: nat): string {
    if n == 0 then "" else "\\" + Slashes(n - 1)
  }

  /** One round of the loop on the rest `s` of the command: the new state and the
      number of characters consumed. */
  function Step(s: string, st: Scan): (r: (Scan, nat))
    requires s != []
    ensures 1 <= r.1 <= |s|
  {
    var c, n := s[0], SlashRun(s);
    if st.quote != SingleQuoted && c == '\\' && n < |s| && s[n] == '"' then
      var text := st.current + Slashes(n / 2);
      if n % 2 == 0 then
        (st.(current := text, started := true,
             quote := if st.quote == DoubleQuoted then Unquoted else DoubleQuoted), n + 1)
      else (st.(current := text + "\"", started := true), n + 1)
    else if (st.quote == SingleQuoted && c == '\'') || (st.quote == DoubleQuoted && c == '"') then
      (st.(quote := Unquoted), 1)
    else if st.quote != Unquoted then (st.(current := st.current + [c], started := true), 1)
    else if c == '\\' then
      if |s| > 1 && (IsSpace(s[1]) || s[1] == '"' || s[1] == '\'') then
        (st.(current := st.current + [s[1]], started := true), 2)
      else (st.(current := st.current + [c], started := true), 1)
    else if c == '"' then (st.(quote := DoubleQuoted, started := true), 1)
    else if c == '\'' then (st.(quote := SingleQuoted, started := true), 1)
    else if IsSpace(c) then
      (if st.started then Scan(st.tokens + [st.current], "", Unquoted, false) else st, 1)
    else (st.(current := st.current + [c], started := true), 1)
  }

  /** The state after all of `s`. */
  function Run(s: string, st: Scan): Scan
    decreases |s|, 1
  {
    if s == [] then st else RunOn(s, st)
  }

  /** One round and the rounds after it. */
  function RunOn(s: string, st: Scan): Scan
    requires s != []
    decreases |s|, 0
  {
    var (st', n) := Step(s, st); Run(s[n..], st')
  }

  /** What the tokenizer returns from a final state; None for the thrown "Unclosed quote". */
  function Finish(st: Scan): Option<seq<string>> {
    if st.quote != Unquoted then None
    else Some(if st.started then st.tokens + [st.current] else st.tokens)
  }

  function Split(command: string): Option<seq<string>> {
    Finish(Run(command, START))
  }

  /** The inner loop: the first position at or after `index` that holds no backslash. */
  method SkipSlashes(command: string, index: nat) returns (quoteIndex: nat)
    requires index <= |command|
    ensures quoteIndex == index + SlashRun(command[index..])
  {
    quoteIndex := index;
    while quoteIndex < |command| && command[quoteIndex] == '\\'
      invariant index <= quoteIndex <= |command|
      invariant SlashRun(command[index..]) == quoteIndex - index + SlashRun(command[quoteIndex..])
    {
      assert command[quoteIndex..][1..] == command[quoteIndex + 1..];
      quoteIndex := quoteIndex + 1;
    }
  }

  /** The body of the loop at position `index`; `next` is the position it goes on from. */
  method Round(command: string, index: nat, st: Scan) returns (st': Scan, next: nat)
    requires index < |command|
    ensures next <= |command| && (st', next - index) == Step(command[index..], st)
  {
    ghost var rest := command[index..];
    var c := command[index];
    st' := st;
    if st.quote != SingleQuoted && c == '\\' {
      var quoteIndex := SkipSlashes(command, index);
      if quoteIndex < |command| && command[quoteIndex] == '"' {
        var slashCount := quoteIndex - index;
        assert rest[slashCount] == '"';
        st' := st'.(current := st'.current + Slashes(slashCount / 2), started := true);
        if slashCount % 2 == 0 {
          st' := st'.(quote := if st.quote == DoubleQuoted then Unquoted else DoubleQuoted);
        } else {
          st' := st'.(current := st'.current + "\"");
        }
        return st', quoteIndex + 1;
      }
    }
    next := index + 1;
    if st.quote != Unquoted {
      if c == (if st.quote == SingleQuoted then '\'' else '"') {
        st' := st'.(quote := Unquoted);
      } else {
        st' := st'.(current := st'.current + [c], started := true);
      }
    } else if c == '\\' {
      if next < |command| && (IsSpace(command[next]) || command[next] == '"' || command[next] == '\'') {
        st' := st'.(current := st'.current + [command[next]], started := true);
        next := next + 1;
      } else {
        st' := st'.(current := st'.current + [c], started := true);
      }
    } else if c == '"' || c == '\'' {
      st' := st'.(quote := if c == '"' then DoubleQuoted else SingleQuoted, started := true);
    } else if IsSpace(c) {
      if st'.started {
        st' := Scan(st'.tokens + [st'.current], "", Unquoted, false);
      }
    } else {
      st' := st'.(current := st'.current + [c], started := true);
    }
  }

  method SplitCommandLine(command: string) returns (result: Option<seq<string>>)
    ensures result == Split(command)
  {
    var st := START;
    var index := 0;
    ghost var final := Run(command, st);
    assert command[0..] == command;
    while index < |command|
      invariant index <= |command| && Run(command[index..], st) == final
      decreases |command| - index
    {
      var st', next := Round(command, index, st);
      assert command[index..][next - index..] == command[next..];
      RunStep(command[index..], st, command[next..]);
      st, index := st', next;
    }
    assert command[index..] == "";
    if st.quote != Unquoted {
      return None;
    }
    return Some(if st.started then st.tokens + [st.current] else st.tokens);
  }

  /** `/^[A-Za-z0-9_@%+=:,./-]+$/` */
  predicate IsPlain(c: char) {
    || 'A' <= c <= 'Z' || 'a' <= c <= 'z' || '0' <= c <= ':' || c == '_' || c == '@' || c == '%'
    || c == '=' || '+' <= c <= '/'
  }

  /** `value.replaceAll("'", "'\\''")` */
  function EscapeQuotes(value: string): string {
    if value == [] then []
    else (if value[0] == '\'' then "'\\''" else [value[0]]) + EscapeQuotes(value[1..])
  }

  function FormatArgvToken(value: string): string {
    if value != [] && forall i :: 0 <= i < |value| ==> IsPlain(value[i]) then value
    else "'" + EscapeQuotes(value) + "'"
  }

  /** `[executable, ...args].map(formatArgvToken).join(" ")` */
  function FormatCommand(argv: seq<string>): string {
    if argv == [] then ""
    else if |argv| == 1 then FormatArgvToken(argv[0])
    else FormatArgvToken(argv[0]) + " " + FormatCommand(argv[1..])
  }

  lemma {:induction false} RunStep(s: string, st: Scan, rest: string)
    requires s != [] && Step(s, st).1 == |s| - |rest| && |rest| < |s| && s[|s| - |rest|..] == rest
    ensures Run(s, st) == Run(rest, Step(s, st).0)
  {
  }

  lemma {:induction false} StepPlain(c: char, rest: string, st: Scan)
    requires IsPlain(c) && st.quote == Unquoted
    ensures Run([c] + rest, st) == Run(rest, st.(current := st.current + [c], started := true))
  {
    var s := [c] + rest;
    assert s[0] == c && s[1..] == rest;
    assert !IsSpace(c) && c != '\\' && c != '\'' && c != '"';
    assert Step(s, st) == (st.(current := st.current + [c], started := true), 1);
    RunStep(s, st, rest);
  }

  lemma {:induction false} RunPlain(value: string, rest: string, st: Scan)
    requires forall i :: 0 <= i < |value| ==> IsPlain(value[i])
    requires st.quote == Unquoted && (value != [] || st.started)
    ensures Run(value + rest, st) == Run(rest, st.(current := st.current + value, started := true))
    decreases |value|
  {
    if value == [] {
      assert value + rest == rest && st.current + value == st.current;
    } else {
      StepPlain(value[0], value[1..] + rest, st);
      RunPlain(value[1..], rest, st.(current := st.current + [value[0]], started := true));
      Regroup(st.current, value, rest);
    }
  }

  lemma Regroup(front: string, value: string, rest: string)
    requires value != []
    ensures front + [value[0]] + value[1..] == front + value
    ensures [value[0]] + (value[1..] + rest) == value + rest
  {
  }

  /** Inside single quotes the escaped form reads back as the value. */
  lemma {:induction false} RunEscaped(value: string, rest: string, st: Scan)
    requires st.quote == SingleQuoted && st.started
    ensures Run(EscapeQuotes(value) + ("'" + rest), st) ==
            Run(rest, st.(current := st.current + value, quote := Unquoted))
    decreases |value|
  {
    if value == [] {
      CloseReads(rest, st);
      assert EscapeQuotes(value) + ("'" + rest) == "'" + rest && st.current + value == st.current;
    } else {
      var tail := EscapeQuotes(value[1..]) + ("'" + rest);
      if value[0] == '\'' {
        EscapedQuoteReads(tail, st);
      } else {
        LiteralReads(value[0], tail, st);
      }
      Assoc(if value[0] == '\'' then "'\\''" else [value[0]], EscapeQuotes(value[1..]), "'" + rest);
      RunEscaped(value[1..], rest, st.(current := st.current + [value[0]]));
      Regroup(st.current, value, rest);
    }
  }

  lemma Assoc(a: string, b: string, c: string)
    ensures a + (b + c) == (a + b) + c
  {
  }

  lemma {:induction false} CloseReads(tail: string, st: Scan)
    requires st.quote == SingleQuoted
    ensures Run("'" + tail, st) == Run(tail, st.(quote := Unquoted))
  {
    RunStep("'" + tail, st, tail);
  }

  lemma {:induction false} LiteralReads(c: char, tail: string, st: Scan)
    requires st.quote == SingleQuoted && st.started && c != '\''
    ensures Run([c] + tail, st) == Run(tail, st.(current := st.current + [c]))
  {
    RunStep([c] + tail, st, tail);
  }

  /** The four characters that close, escape a quote and open again. */
  lemma {:induction false} EscapedQuoteReads(tail: string, st: Scan)
    requires st.quote == SingleQuoted && st.started
    ensures Run("'\\''" + tail, st) == Run(tail, st.(current := st.current + ['\'']))
  {
    var s3 := "'" + tail;
    var s2 := "\\'" + s3;
    assert "'\\''" + tail == "'" + s2;
    RunStep("'" + s2, st, s2);
    var outside := st.(quote := Unquoted);
    assert SlashRun(s2) == 1 by { assert s2[1..][0] == '\''; }
    assert s2[2..] == s3;
    RunStep(s2, outside, s3);
    RunStep(s3, outside.(current := st.current + ['\'']), tail);
  }

  /** A quoted token in front of anything is read as exactly the value, whatever follows. */
  lemma {:induction false} TokenReads(value: string, rest: string, st: Scan)
    requires st.quote == Unquoted && st.current == ""
    ensures Run(FormatArgvToken(value) + rest, st) == Run(rest, st.(current := value, started := true))
  {
    if value != [] && forall i :: 0 <= i < |value| ==> IsPlain(value[i]) {
      RunPlain(value, rest, st);
      assert st.current + value == value;
    } else {
      var body := EscapeQuotes(value) + ("'" + rest);
      assert FormatArgvToken(value) + rest == "'" + body;
      RunStep("'" + body, st, body);
      RunEscaped(value, rest, st.(quote := SingleQuoted, started := true));
      assert st.current + value == value;
    }
  }

  lemma {:induction false} FormatHead(argv: seq<string>)
    requires |argv| > 1
    ensures FormatCommand(argv) == FormatArgvToken(argv[0]) + (" " + FormatCommand(argv[1..]))
  {
  }

  lemma {:induction false} SpaceReads(rest: string, tokens: seq<string>, token: string)
    ensures Run(" " + rest, Scan(tokens, token, Unquoted, true)) == Run(rest, Scan(tokens + [token], "", Unquoted, false))
  {
    RunStep(" " + rest, Scan(tokens, token, Unquoted, true), rest);
  }

  lemma {:induction false} FirstReads(argv: seq<string>, tokens: seq<string>)
    requires |argv| > 1
    ensures Run(FormatCommand(argv), Scan(tokens, "", Unquoted, false))
         == Run(FormatCommand(argv[1..]), Scan(tokens + [argv[0]], "", Unquoted, false))
  {
    var rest := FormatCommand(argv[1..]);
    FormatHead(argv);
    TokenReads(argv[0], " " + rest, Scan(tokens, "", Unquoted, false));
    SpaceReads(rest, tokens, argv[0]);
  }

  lemma {:induction false} LastReads(token: string, tokens: seq<string>)
    ensures Run(FormatArgvToken(token), Scan(tokens, "", Unquoted, false)) == Run("", Scan(tokens, token, Unquoted, true))
  {
    TokenReads(token, "", Scan(tokens, "", Unquoted, false));
    assert FormatArgvToken(token) + "" == FormatArgvToken(token);
  }

  lemma {:induction false} OneReads(argv: seq<string>, tokens: seq<string>)
    requires |argv| == 1
    ensures Finish(Run(FormatCommand(argv), Scan(tokens, "", Unquoted, false))) == Some(tokens + argv)
  {
    LastReads(argv[0], tokens);
    assert argv == [argv[0]];
  }

  lemma {:induction false} ManyRead(argv: seq<string>, tokens: seq<string>)
    requires |argv| > 1
    requires Finish(Run(FormatCommand(argv[1..]), Scan(tokens + [argv[0]], "", Unquoted, false))) == Some((tokens + [argv[0]]) + argv[1..])
    ensures Finish(Run(FormatCommand(argv), Scan(tokens, "", Unquoted, false))) == Some(tokens + argv)
  {
    FirstReads(argv, tokens);
    assert (tokens + [argv[0]]) + argv[1..] == tokens + argv;
  }

  lemma {:induction false} FormatReads(argv: seq<string>, tokens: seq<string>)
    ensures Finish(Run(FormatCommand(argv), Scan(tokens, "", Unquoted, false))) == Some(tokens + argv)
    decreases |argv|
  {
    if argv == [] {
      assert tokens + argv == tokens;
    } else if |argv| == 1 {
      OneReads(argv, tokens);
    } else {
      FormatReads(argv[1..], tokens + [argv[0]]);
      ManyRead(argv, tokens);
    }
  }

  /** Splitting undoes quoting, for every list of strings. */
  lemma {:induction false} SplitUndoesFormat(argv: seq<string>)
    ensures Split(FormatCommand(argv)) == Some(argv)
  {
    FormatReads(argv, []);
    assert [] + argv == argv;
  }

  /** No two argument lists print alike. */
  lemma {:induction false} FormatInjective(argv: seq<string>, other: seq<string>)
    requires FormatCommand(argv) == FormatCommand(other)
    ensures argv == other
  {
    SplitUndoesFormat(argv);
    SplitUndoesFormat(other);
  }

  /** How the Windows convention writes the first piece of a value, its leading
      backslashes with the character after them: in front of a quote the run is
      doubled and one backslash more escapes the quote. */
  function EscapePiece(slashes: nat, c: char): string {
    if c == '"' then Slashes(2 * slashes + 1) + ['"'] else Slashes(slashes) + [c]
  }

  /** The text between the double quotes; a final run of backslashes is doubled too. */
  function EscapeDouble(value: string): string
    decreases |value|
  {
    var n := SlashRun(value);
    if n == |value| then Slashes(2 * n)
    else EscapePiece(n, value[n]) + EscapeDouble(value[n + 1..])
  }

  lemma {:induction false} SlashesHead(n: nat, c: char, tail: string)
    requires c != '\\'
    ensures var s := Slashes(n) + [c] + tail;
            |Slashes(n)| == n && SlashRun(s) == n && s[n] == c && s[n + 1..] == tail
  {
    if n > 0 {
      SlashesHead(n - 1, c, tail);
      assert (Slashes(n) + [c] + tail)[1..] == Slashes(n - 1) + [c] + tail;
    }
  }

  lemma {:induction false} SlashRunIsSlashes(s: string)
    ensures s[..SlashRun(s)] == Slashes(SlashRun(s))
  {
    if SlashRun(s) > 0 {
      SlashRunIsSlashes(s[1..]);
      assert s[..SlashRun(s)] == "\\" + s[1..][..SlashRun(s[1..])];
    }
  }

  /** A run of backslashes in front of a quote is read in one round. */
  lemma {:induction false} SlashesBeforeQuote(n: nat, tail: string, st: Scan)
    requires st.quote == DoubleQuoted && st.started
    ensures Run(Slashes(n) + ['"'] + tail, st) ==
            Run(tail, if n % 2 == 0 then st.(current := st.current + Slashes(n / 2), quote := Unquoted)
                      else st.(current := st.current + Slashes(n / 2) + "\""))
  {
    var s := Slashes(n) + ['"'] + tail;
    SlashesHead(n, '"', tail);
    if n == 0 {
      assert st.current + Slashes(0) == st.current;
    } else {
      assert s[0] == '\\';
    }
    RunStep(s, st, tail);
  }

  lemma {:induction false} NoSlashes(c: char, tail: string, st: Scan)
    requires st.quote == DoubleQuoted && st.started && c != '"' && c != '\\'
    ensures Run(Slashes(0) + [c] + tail, st) == Run(tail, st.(current := st.current + (Slashes(0) + [c])))
  {
    DoubleLiteralReads(c, tail, st);
    assert Slashes(0) + [c] == [c];
  }

  lemma {:induction false} SlashStep(n: nat, c: char, tail: string, st: Scan)
    requires n > 0 && st.quote == DoubleQuoted && st.started && c != '"' && c != '\\'
    ensures Run(Slashes(n) + [c] + tail, st) == Run(Slashes(n - 1) + [c] + tail, st.(current := st.current + "\\"))
  {
    SlashesHead(n, c, tail);
    OneSlashMore(st.current, n, c, tail);
    SlashReads(Slashes(n - 1) + [c] + tail, st);
  }

  /** A run of backslashes in front of anything but a quote is read as it stands. */
  lemma {:induction false} SlashesBeforeOther(n: nat, c: char, tail: string, st: Scan)
    requires st.quote == DoubleQuoted && st.started && c != '"' && c != '\\'
    ensures Run(Slashes(n) + [c] + tail, st) == Run(tail, st.(current := st.current + (Slashes(n) + [c])))
    decreases n
  {
    if n == 0 {
      NoSlashes(c, tail, st);
    } else {
      SlashStep(n, c, tail, st);
      SlashesBeforeOther(n - 1, c, tail, st.(current := st.current + "\\"));
      OneSlashDeeper(n, c, st);
    }
  }

  lemma {:induction false} OneSlashDeeper(n: nat, c: char, st: Scan)
    requires n > 0
    ensures var next := st.(current := st.current + "\\");
            next.(current := next.current + (Slashes(n - 1) + [c])) == st.(current := st.current + (Slashes(n) + [c]))
  {
    OneSlashMore(st.current, n, c, "");
  }

  lemma OneSlashMore(front: string, n: nat, c: char, tail: string)
    requires n > 0
    ensures front + "\\" + (Slashes(n - 1) + [c]) == front + (Slashes(n) + [c])
    ensures "\\" + (Slashes(n - 1) + [c] + tail) == Slashes(n) + [c] + tail
  {
  }

  lemma {:induction false} DoubleLiteralReads(c: char, tail: string, st: Scan)
    requires st.quote == DoubleQuoted && st.started && c != '"' && c != '\\'
    ensures Run([c] + tail, st) == Run(tail, st.(current := st.current + [c]))
  {
    RunStep([c] + tail, st, tail);
  }

  lemma {:induction false} SlashReads(rest: string, st: Scan)
    requires st.quote == DoubleQuoted && st.started
    requires var n := SlashRun("\\" + rest); n < |rest| + 1 && ("\\" + rest)[n] != '"'
    ensures Run("\\" + rest, st) == Run(rest, st.(current := st.current + "\\"))
  {
    RunStep("\\" + rest, st, rest);
  }

  lemma {:induction false} PieceReads(n: nat, c: char, tail: string, st: Scan)
    requires st.quote == DoubleQuoted && st.started && c != '\\'
    ensures Run(EscapePiece(n, c) + tail, st) == Run(tail, st.(current := st.current + (Slashes(n) + [c])))
  {
    if c == '"' {
      SlashesBeforeQuote(2 * n + 1, tail, st);
      assert (2 * n + 1) / 2 == n;
      assert st.current + Slashes(n) + "\"" == st.current + (Slashes(n) + ['"']);
    } else {
      SlashesBeforeOther(n, c, tail, st);
    }
  }

  /** The first piece of a double-quoted value. */
  lemma {:induction false} FirstPieceReads(value: string, rest: string, st: Scan)
    requires st.quote == DoubleQuoted && st.started && SlashRun(value) < |value|
    ensures var n := SlashRun(value);
            Run(EscapeDouble(value) + (['"'] + rest), st)
            == Run(EscapeDouble(value[n + 1..]) + (['"'] + rest), st.(current := st.current + (Slashes(n) + [value[n]])))
  {
    var n := SlashRun(value);
    Assoc(EscapePiece(n, value[n]), EscapeDouble(value[n + 1..]), ['"'] + rest);
    PieceReads(n, value[n], EscapeDouble(value[n + 1..]) + (['"'] + rest), st);
  }

  lemma {:induction false} OnlySlashesRead(value: string, rest: string, st: Scan)
    requires st.quote == DoubleQuoted && st.started && SlashRun(value) == |value|
    ensures Run(EscapeDouble(value) + (['"'] + rest), st) == Run(rest, st.(current := st.current + value, quote := Unquoted))
  {
    AllSlashes(value, rest);
    SlashesBeforeQuote(2 * |value|, rest, st);
  }

  /** The tokenizer also undoes the double-quoted form, backslashes and quotes included. */
  lemma {:induction false} DoubleQuotedReads(value: string, rest: string, st: Scan)
    requires st.quote == DoubleQuoted && st.started
    ensures Run(EscapeDouble(value) + (['"'] + rest), st) ==
            Run(rest, st.(current := st.current + value, quote := Unquoted))
    decreases |value|
  {
    var n := SlashRun(value);
    if n == |value| {
      OnlySlashesRead(value, rest, st);
    } else {
      FirstPieceReads(value, rest, st);
      DoubleQuotedReads(value[n + 1..], rest, st.(current := st.current + (Slashes(n) + [value[n]])));
      PieceBack(st.current, value);
    }
  }

  lemma {:induction false} AllSlashes(value: string, rest: string)
    requires SlashRun(value) == |value|
    ensures EscapeDouble(value) + (['"'] + rest) == Slashes(2 * |value|) + ['"'] + rest
    ensures Slashes(2 * |value| / 2) == value
  {
    SlashRunIsSlashes(value);
    assert value[..|value|] == value;
  }

  lemma {:induction false} PieceBack(front: string, value: string)
    requires SlashRun(value) < |value|
    ensures var n := SlashRun(value); front + (Slashes(n) + [value[n]]) + value[n + 1..] == front + value
  {
    SlashRunIsSlashes(value);
    var n := SlashRun(value);
    assert value == value[..n] + [value[n]] + value[n + 1..];
  }

  /** A command that is one double-quoted token splits into exactly its value. */
  lemma {:induction false} SplitUndoesDoubleQuotes(value: string)
    ensures Split("\"" + EscapeDouble(value) + "\"") == Some([value])
  {
    var body := EscapeDouble(value) + (['"'] + "");
    var command := "\"" + EscapeDouble(value) + "\"";
    assert command == "\"" + body;
    RunStep("\"" + body, START, body);
    DoubleQuotedReads(value, "", START.(quote := DoubleQuoted, started := true));
    assert START.current + value == value && [] + [value] == [value];
  }

  /** Reading cannot tell a text from its two parts when the first does not end in a backslash. */
  lemma {:induction false} RunAppend(a: string, b: string, st: Scan)
    requires a == [] || a[|a| - 1] != '\\'
    ensures Run(a + b, st) == Run(b, Run(a, st))
    decreases |a|
  {
    if a == [] {
      assert a + b == b;
    } else {
      SlashRunAppend(a, b);
      var (st', n) := Step(a, st);
      assert Step(a + b, st) == (st', n) by {
        if |a| > 1 { assert (a + b)[1] == a[1]; }
        if SlashRun(a) < |a| { assert (a + b)[SlashRun(a)] == a[SlashRun(a)]; }
      }
      assert (a + b)[n..] == a[n..] + b;
      RunAppend(a[n..], b, st');
    }
  }

  lemma {:induction false} SlashRunAppend(a: string, b: string)
    requires a != [] && a[|a| - 1] != '\\'
    ensures SlashRun(a + b) == SlashRun(a) < |a|
    decreases |a|
  {
    if a[0] == '\\' {
      SlashRunAppend(a[1..], b);
      assert (a + b)[1..] == a[1..] + b;
    }
  }

  /** Tokens already pushed never influence the rest. */
  lemma {:induction false} RunKeepsTokens(s: string, st: Scan, front: seq<string>)
    ensures Run(s, st.(tokens := front + st.tokens)) ==
            Run(s, st).(tokens := front + Run(s, st).tokens)
    decreases |s|
  {
    if s != [] {
      var (st', n) := Step(s, st);
      assert Step(s, st.(tokens := front + st.tokens)) == (st'.(tokens := front + st'.tokens), n) by {
        assert front + (st.tokens + [st.current]) == (front + st.tokens) + [st.current];
      }
      RunKeepsTokens(s[n..], st', front);
    }
  }

  /** Splitting distributes over a space: when the left part closes its quotes and does
      not end in a backslash, the tokens are those of the two parts in order, and an
      unclosed quote on the right is an unclosed quote of the whole. */
  lemma {:induction false} SplitDistributes(left: string, space: char, right: string)
    requires IsSpace(space)
    requires left == [] || left[|left| - 1] != '\\'
    requires Split(left).Some?
    ensures Split(left + [space] + right) ==
            match Split(right) case None => None case Some(tokens) => Some(Split(left).value + tokens)
  {
    var st := Run(left, START);
    assert left + [space] + right == left + ([space] + right);
    RunAppend(left, [space] + right, START);
    RunStep([space] + right, st, right);
    var tokens := Split(left).value;
    UnstartedIsEmpty(left, START);
    assert Step([space] + right, st).0 == Scan(tokens, "", Unquoted, false);
    RunKeepsTokens(right, START, tokens);
    assert tokens + START.tokens == tokens;
    var r := Run(right, START);
    assert tokens + (r.tokens + [r.current]) == (tokens + r.tokens) + [r.current];
  }

  /** A token that has not started has no text. */
  lemma {:induction false} UnstartedIsEmpty(s: string, st: Scan)
    requires st.started || st.current == ""
    ensures Run(s, st).started || Run(s, st).current == ""
    decreases |s|
  {
    if s != [] {
      UnstartedIsEmpty(s[Step(s, st).1..], Step(s, st).0);
    }
  }

  /** The side condition of SplitDistributes is needed: a final backslash escapes the space. */
  lemma FinalBackslashJoins()
    ensures Split("a\\") == Some(["a\\"]) && Split("b") == Some(["b"])
    ensures Split("a\\" + [' '] + "b") == Some(["a b"])
  {
    LeftAlone();
    RightAlone();
    Joined();
  }

  lemma LeftAlone()
    ensures Split("a\\") == Some(["a\\"])
  {
    StepPlain('a', "\\", START);
    LoneBackslashReads(Scan([], "a", Unquoted, true));
    assert "a\\" == ['a'] + "\\" && "a" + "\\" == "a\\" && "" + ['a'] == "a";
    assert [] + ["a\\"] == ["a\\"];
  }

  lemma RightAlone()
    ensures Split("b") == Some(["b"])
  {
    StepPlain('b', "", START);
    assert "b" == ['b'] + "" && "" + ['b'] == "b";
    assert [] + ["b"] == ["b"];
  }

  lemma Joined()
    ensures Split("a\\" + [' '] + "b") == Some(["a b"])
  {
    StepPlain('a', "\\ b", START);
    EscapedSpaceReads("b", Scan([], "a", Unquoted, true));
    StepPlain('b', "", Scan([], "a ", Unquoted, true));
    assert "a\\" + [' '] + "b" == ['a'] + "\\ b" && "\\ b" == "\\ " + "b" && "b" == ['b'] + "";
    assert "a " + ['b'] == "a b" && "a" + " " == "a " && "" + ['a'] == "a";
    assert [] + ["a b"] == ["a b"];
  }

  lemma {:induction false} LoneBackslashReads(st: Scan)
    requires st.quote == Unquoted && st.started
    ensures Run("\\", st) == st.(current := st.current + "\\")
  {
    assert "\\"[1..] == "";
    RunStep("\\", st, "");
  }

  lemma {:induction false} EscapedSpaceReads(tail: string, st: Scan)
    requires st.quote == Unquoted && st.started
    ensures Run("\\ " + tail, st) == Run(tail, st.(current := st.current + " "))
  {
    var s := "\\ " + tail;
    assert SlashRun(s) == 1 by { assert s[1..][0] == ' '; }
    assert s[2..] == tail;
    RunStep(s, st, tail);
  }

  // ----- Text outside single quotes

  /** A run of backslashes in front of a double quote, outside single quotes: half of them stay;
      an odd one more makes the quote a character, otherwise it opens or closes a quotation. */
  lemma {:induction false} QuoteAfterSlashes(n: nat, tail: string, st: Scan)
    requires st.quote != SingleQuoted && n > 0
    ensures Run(Slashes(n) + ['"'] + tail, st) ==
            Run(tail, if n % 2 == 1 then st.(current := st.current + Slashes(n / 2) + "\"", started := true)
                      else st.(current := st.current + Slashes(n / 2), started := true,
                               quote := if st.quote == DoubleQuoted then Unquoted else DoubleQuoted))
  {
    var s := Slashes(n) + ['"'] + tail;
    SlashesHead(n, '"', tail);
    assert s[0] == '\\';
    RunStep(s, st, tail);
  }

  predicate IsMark(c: char) {
    c == '"' || c == '\''
  }

  /** A word without white space and quotes is read as it stands, backslashes included. */
  lemma {:induction false} RunWord(value: string, st: Scan)
    requires forall i :: 0 <= i < |value| ==> !IsSpace(value[i]) && !IsMark(value[i])
    requires st.quote == Unquoted && (value != [] || st.started)
    ensures Run(value, st) == st.(current := st.current + value, started := true)
    decreases |value|
  {
    if value == [] {
      assert st.current + value == st.current;
    } else {
      WordStep(value, st);
      RunStep(value, st, value[1..]);
      RunWord(value[1..], st.(current := st.current + [value[0]], started := true));
      assert st.current + [value[0]] + value[1..] == st.current + value;
    }
  }

  lemma {:induction false} WordStep(value: string, st: Scan)
    requires value != [] && st.quote == Unquoted
    requires forall i :: 0 <= i < |value| ==> !IsSpace(value[i]) && !IsMark(value[i])
    ensures Step(value, st) == (st.(current := st.current + [value[0]], started := true), 1)
  {
  }

  /** So a path with backslashes needs no quotes. */
  lemma {:induction false} SplitKeepsWord(value: string)
    requires value != [] && forall i :: 0 <= i < |value| ==> !IsSpace(value[i]) && !IsMark(value[i])
    ensures Split(value) == Some([value])
  {
    RunWord(value, START);
    assert START.current + value == value && [] + [value] == [value];
  }

  /** Outside quotes a backslash makes a single quote or a white space a character. */
  lemma {:induction false} EscapedReads(c: char, tail: string, st: Scan)
    requires st.quote == Unquoted && (IsSpace(c) || c == '\'')
    ensures Run(['\\', c] + tail, st) == Run(tail, st.(current := st.current + [c], started := true))
  {
    var s := ['\\', c] + tail;
    assert SlashRun(s) == 1 by { assert s[1..][0] == c; }
    assert s[2..] == tail;
    RunStep(s, st, tail);
  }

  /** An argument is printed as it is exactly when it needs no quotes. */
  lemma {:induction false} PrintedAsIsIff(value: string)
    ensures FormatCommand([value]) == value <==>
            value != [] && forall i :: 0 <= i < |value| ==>
              || 'A' <= value[i] <= 'Z' || 'a' <= value[i] <= 'z' || '0' <= value[i] <= '9'
              || value[i] in "_@%+=:,./-"
  {
    if !(value != [] && forall i :: 0 <= i < |value| ==> IsPlain(value[i])) { EscapedIsNoShorter(value); }
  }

  lemma {:induction false} EscapedIsNoShorter(value: string)
    ensures |EscapeQuotes(value)| >= |value|
  {
    if value != [] { EscapedIsNoShorter(value[1..]); }
  }
}
