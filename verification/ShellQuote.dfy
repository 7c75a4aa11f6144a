/**
 Shell quoting (eval/src/eval_harness.rs:1744-1753, 1081-1097) against the quoting rules of section 2.2
 of the POSIX Shell Command Language.
 */
module ShellQuote {
  import opened Prelude

  predicate IsBare(c: char) {
    '0' <= c <= '9' || 'A' <= c <= 'Z' || 'a' <= c <= 'z' || c in "_@%+=:,./-"
  }

  /** `value.replace('\'', "'\"'\"'")`. */
  function EscapeQuotes(value: string): string {
    if value == [] then []
    else (if value[0] == '\'' then "'\"'\"'" else [value[0]]) + EscapeQuotes(value[1..])
  }

  /** `shell_quote`. */
  function ShellQuote(value: string): string {
    if value != [] && (forall i | 0 <= i < |value| :: IsBare(value[i])) then value
    else "'" + EscapeQuotes(value) + "'"
  }

  // ----- splitting a simple command into words

  datatype Mode = Between | InWord | Single | Double | Escape(inWord: bool) | DoubleEscape

  /** Characters that mean something to the shell, or may, when they are not quoted. */
  predicate IsSpecial(c: char) {
    c in "|&;<>()$`\n*?[#~"
  }

  /** How far the splitter has come: the finished words and the one being read. */
  datatype Progress = Progress(mode: Mode, word: string, words: seq<string>) {
    function To(next: Mode): Progress {
      this.(mode := next)
    }

    function Take(c: char, next: Mode): Progress {
      this.(mode := next, word := word + [c])
    }

    function EndWord(): Progress {
      if mode == InWord then Progress(Between, "", words + [word]) else this
    }
  }

  /** One character. `None`: not a plain list of words, so more than quote removal would happen to it. */
  function Step(p: Progress, c: char): Option<Progress> {
    if c == '\0' then None
    else
      match p.mode
      case Between | InWord =>
        if c == ' ' || c == '\t' then Some(p.EndWord())
        else if c == '\'' then Some(p.To(Single))
        else if c == '"' then Some(p.To(Double))
        else if c == '\\' then Some(p.To(Escape(p.mode == InWord)))
        else if IsSpecial(c) then None
        else Some(p.Take(c, InWord))
      case Single => Some(if c == '\'' then p.To(InWord) else p.Take(c, Single))
      case Double =>
        if c == '"' then Some(p.To(InWord))
        else if c == '\\' then Some(p.To(DoubleEscape))
        else if c == '$' || c == '`' then None
        else Some(p.Take(c, Double))
      case Escape(inWord) =>
        Some(if c == '\n' then p.To(if inWord then InWord else Between) else p.Take(c, InWord))
      case DoubleEscape =>
        if c == '\n' then Some(p.To(Double))
        else if c in "$`\"\\" then Some(p.Take(c, Double))
        else Some(p.Take('\\', Double).Take(c, Double))
  }

  function Scan(p: Progress, s: string): Option<Progress>
    decreases s
  {
    if s == [] then Some(p)
    else
      match Step(p, s[0])
      case None => None
      case Some(next) => Scan(next, s[1..])
  }

  /** The words of a command that only uses quoting. */
  function Words(s: string): Option<seq<string>> {
    match Scan(Progress(Between, "", []), s)
    case None => None
    case Some(end) => if end.mode.Between? || end.mode.InWord? then Some(end.EndWord().words) else None
  }

  predicate NulFree(s: string) {
    '\0' !in s
  }

  lemma {:induction false} ScanConcat(p: Progress, a: string, b: string)
    ensures Scan(p, a + b) == match Scan(p, a) case None => None case Some(q) => Scan(q, b)
    decreases a
  {
    hide Step;
    if a == [] {
      assert a + b == b;
    } else {
      assert (a + b)[0] == a[0] && (a + b)[1..] == a[1..] + b;
      match Step(p, a[0])
      case None =>
      case Some(next) => ScanConcat(next, a[1..], b);
    }
  }

  lemma {:induction false} ScanRefusesNul(p: Progress, s: string)
    requires !NulFree(s)
    ensures Scan(p, s) == None
    decreases s
  {
    if s[0] == '\0' {
    } else {
      match Step(p, s[0])
      case None =>
      case Some(next) => ScanRefusesNul(next, s[1..]);
    }
  }

  // ----- what a quoted string is read as

  lemma StepBare(p: Progress, c: char)
    requires (p.mode == InWord || p.mode == Between) && IsBare(c)
    ensures Step(p, c) == Some(p.Take(c, InWord))
  {}

  lemma {:induction false} ScanBare(p: Progress, value: string)
    requires p.mode == InWord || (p.mode == Between && value != [])
    requires forall i | 0 <= i < |value| :: IsBare(value[i])
    ensures Scan(p, value) == Some(Progress(InWord, p.word + value, p.words))
    decreases value
  {
    hide Step, IsBare;
    if value == [] {
      assert p.word + value == p.word;
    } else {
      var next := p.Take(value[0], InWord);
      StepBare(p, value[0]);
      ScanBare(next, value[1..]);
      assert next.word + value[1..] == p.word + value;
    }
  }

  lemma ScanOneEscape(p: Progress, c: char)
    requires p.mode == Single && c != '\0'
    ensures Scan(p, if c == '\'' then "'\"'\"'" else [c]) == Some(p.Take(c, Single))
  {
    if c == '\'' {
      assert Scan(p.Take('\'', Double).To(InWord).To(Single), "") == Some(p.Take(c, Single));
      assert Scan(p.Take('\'', Double).To(InWord), "'") == Some(p.Take(c, Single));
      assert Scan(p.Take('\'', Double), "\"'") == Some(p.Take(c, Single));
      assert Scan(p.To(Double), "'\"'") == Some(p.Take(c, Single));
      assert Scan(p.To(InWord), "\"'\"'") == Some(p.Take(c, Single));
    } else {
      assert Scan(p, [c]) == Some(p.Take(c, Single));
    }
  }

  lemma {:induction false} ScanEscaped(p: Progress, value: string)
    requires p.mode == Single && NulFree(value)
    ensures Scan(p, EscapeQuotes(value)) == Some(Progress(Single, p.word + value, p.words))
    decreases value
  {
    hide Step, Scan;
    if value == [] {
      assert p.word + value == p.word;
      ScanNothing(p);
    } else {
      var head := if value[0] == '\'' then "'\"'\"'" else [value[0]];
      var next := p.Take(value[0], Single);
      ScanOneEscape(p, value[0]);
      ScanEscaped(next, value[1..]);
      ScanConcat(p, head, EscapeQuotes(value[1..]));
      assert next.word + value[1..] == p.word + value;
    }
  }

  lemma ScanNothing(p: Progress)
    ensures Scan(p, []) == Some(p)
  {}

  lemma ScanQuoteMark(p: Progress)
    requires p.mode == Between || p.mode == Single
    ensures Scan(p, "'") == Some(p.To(if p.mode == Between then Single else InWord))
  {
    assert "'"[1..] == [];
  }

  /** At the start of a word, a quoted string is read as the string itself. */
  lemma ScanQuoted(words: seq<string>, value: string)
    requires NulFree(value)
    ensures Scan(Progress(Between, "", words), ShellQuote(value)) == Some(Progress(InWord, value, words))
  {
    hide Step, Scan, EscapeQuotes;
    var p := Progress(Between, "", words);
    if value != [] && forall i | 0 <= i < |value| :: IsBare(value[i]) {
      ScanBare(p, value);
      assert "" + value == value;
    } else {
      var inner := EscapeQuotes(value);
      ScanQuoteMark(p);
      ScanEscaped(p.To(Single), value);
      assert "" + value == value;
      ScanQuoteMark(Progress(Single, value, words));
      ScanConcat(p, "'", inner);
      ScanConcat(p, "'" + inner, "'");
    }
  }

  lemma {:induction false} QuoteKeepsNul(value: string)
    ensures NulFree(EscapeQuotes(value)) <==> NulFree(value)
    ensures NulFree(ShellQuote(value)) <==> NulFree(value)
  {
    if value == [] {
    } else {
      QuoteKeepsNul(value[1..]);
      assert value == [value[0]] + value[1..];
    }
  }

  // ----- the round trip

  function JoinQuoted(values: seq<string>): string {
    if values == [] then ""
    else if |values| == 1 then ShellQuote(values[0])
    else JoinQuoted(values[..|values| - 1]) + " " + ShellQuote(values[|values| - 1])
  }

  lemma {:induction false} ScanJoined(values: seq<string>)
    requires values != [] && forall i | 0 <= i < |values| :: NulFree(values[i])
    ensures var n := |values| - 1;
      Scan(Progress(Between, "", []), JoinQuoted(values)) == Some(Progress(InWord, values[n], values[..n]))
  {
    hide Scan, ShellQuote, NulFree;
    var n := |values| - 1;
    var start := Progress(Between, "", []);
    if n == 0 {
      ScanQuoted([], values[0]);
    } else {
      var front := values[..n];
      ScanJoined(front);
      var before := Progress(InWord, front[n - 1], front[..n - 1]);
      assert front[..n - 1] + [front[n - 1]] == front;
      ScanBlank(before);
      ScanQuoted(front, values[n]);
      ScanConcat(start, JoinQuoted(front), " ");
      ScanConcat(start, JoinQuoted(front) + " ", ShellQuote(values[n]));
    }
  }

  lemma ScanBlank(p: Progress)
    requires p.mode == InWord
    ensures Scan(p, " ") == Some(Progress(Between, "", p.words + [p.word]))
  {
    assert " "[1..] == [];
  }

  lemma NulInParts(a: string, b: string)
    ensures NulFree(a + " " + b) <==> NulFree(a) && NulFree(b)
  {}

  lemma {:induction false} JoinKeepsNul(values: seq<string>, i: nat)
    requires i < |values| && !NulFree(values[i])
    ensures !NulFree(JoinQuoted(values))
  {
    hide ShellQuote, NulFree;
    var n := |values| - 1;
    if n == 0 {
      QuoteKeepsNul(values[0]);
    } else {
      NulInParts(JoinQuoted(values[..n]), ShellQuote(values[n]));
      if i == n {
        QuoteKeepsNul(values[n]);
      } else {
        JoinKeepsNul(values[..n], i);
      }
    }
  }

  /** Splitting the quoted, space-joined list gives the list back exactly when no string holds a NUL. */
  lemma QuotingRoundTrips(values: seq<string>)
    ensures Words(JoinQuoted(values)) == Some(values) <==> forall i | 0 <= i < |values| :: NulFree(values[i])
  {
    hide ShellQuote, Scan, NulFree;
    if values == [] {
      ScanNothing(Progress(Between, "", []));
    } else if forall i | 0 <= i < |values| :: NulFree(values[i]) {
      ScanJoined(values);
      assert values[..|values| - 1] + [values[|values| - 1]] == values;
    } else {
      var i :| 0 <= i < |values| && !NulFree(values[i]);
      JoinKeepsNul(values, i);
      ScanRefusesNul(Progress(Between, "", []), JoinQuoted(values));
    }
  }

  /** So different NUL-free lists never quote to the same command. */
  lemma QuotingIsInjective(a: seq<string>, b: seq<string>)
    requires forall i | 0 <= i < |a| :: NulFree(a[i])
    requires forall i | 0 <= i < |b| :: NulFree(b[i])
    requires JoinQuoted(a) == JoinQuoted(b)
    ensures a == b
  {
    QuotingRoundTrips(a);
    QuotingRoundTrips(b);
  }

  // ----- the benchmark wrapper

  function JoinLines(lines: seq<string>): string {
    if lines == [] then ""
    else if |lines| == 1 then lines[0]
    else lines[0] + "\n" + JoinLines(lines[1..])
  }

  /** The script that `bash` is to run: the command in a subshell, its status reported after the marker. */
  function WrapperScript(command: string, cwd: Option<string>, marker: string): string {
    "set +e\n" + (if cwd.Some? then "cd " + ShellQuote(cwd.value) + "\n" else "")
    + "(\n" + command + "\n)\nstatus=$?\nprintf " + ShellQuote("\\n" + marker + "%s\\n") + " \"$status\""
  }

  lemma ThreeWords(script: string)
    ensures JoinQuoted(["bash", "-lc", script]) == "bash -lc " + ShellQuote(script)
  {
    hide EscapeQuotes;
    var values := ["bash", "-lc", script];
    assert ShellQuote("bash") == "bash" && ShellQuote("-lc") == "-lc";
    assert values[..2] == ["bash", "-lc"] && values[..2][..1] == ["bash"];
    assert JoinQuoted(["bash", "-lc"]) == "bash" + " " + "-lc" by { assert ["bash", "-lc"][..1] == ["bash"]; }
    assert JoinQuoted(values) == "bash -lc" + " " + ShellQuote(script);
  }

  /** Changing directory goes to the directory named, whatever characters its name has. */
  lemma ChangeDirectoryIsTwoWords(directory: string)
    requires NulFree(directory)
    ensures Words("cd " + ShellQuote(directory)) == Some(["cd", directory])
  {
    hide EscapeQuotes, Scan, Words;
    var values := ["cd", directory];
    assert values[..1] == ["cd"] && ShellQuote("cd") == "cd";
    assert JoinQuoted(values) == "cd" + " " + ShellQuote(directory);
    assert "cd" + " " == "cd ";
    assert NulFree("cd");
    QuotingRoundTrips(values);
  }

  lemma WrapperKeepsNul(command: string, cwd: Option<string>, marker: string)
    ensures NulFree(WrapperScript(command, cwd, marker)) <==>
      NulFree(command) && NulFree(marker) && (cwd.Some? ==> NulFree(cwd.value))
  {
    hide ShellQuote;
    var format := "\\n" + marker + "%s\\n";
    QuoteKeepsNul(format);
    if cwd.Some? {
      QuoteKeepsNul(cwd.value);
    }
  }

  lemma JoinCons(head: string, tail: seq<string>)
    requires tail != []
    ensures JoinLines([head] + tail) == head + "\n" + JoinLines(tail)
  {
    assert ([head] + tail)[1..] == tail;
  }

  lemma Append(a: string, b: string, c: string)
    ensures a + (b + c) == a + b + c
  {
  }

  /** The lines from the closing parenthesis on. */
  lemma ScriptEnd(report: string)
    ensures JoinLines([")", "status=$?", report]) == ")\nstatus=$?\n" + report
  {
    assert JoinLines([report]) == report;
    hide JoinLines;
    JoinCons("status=$?", [report]);
    JoinCons(")", ["status=$?"] + [report]);
    assert [")"] + (["status=$?"] + [report]) == [")", "status=$?", report];
    Append(")\n", "status=$?\n", report);
  }

  /** The lines from the opening parenthesis on. */
  lemma ScriptTail(command: string, report: string)
    ensures JoinLines(["(", command, ")", "status=$?", report]) == "(\n" + command + "\n)\nstatus=$?\n" + report
  {
    hide JoinLines;
    var end := [")", "status=$?", report];
    ScriptEnd(report);
    JoinCons(command, end);
    JoinCons("(", [command] + end);
    assert ["("] + ([command] + end) == ["(", command, ")", "status=$?", report];
    var rest := ")\nstatus=$?\n" + report;
    assert "(" + "\n" + (command + "\n" + rest) == "(\n" + command + "\n)\nstatus=$?\n" + report;
  }

  lemma ScriptFromLines(cd: Option<string>, command: string, report: string)
    ensures var tail := ["(", command, ")", "status=$?", report];
      JoinLines(["set +e"] + (if cd.Some? then [cd.value] else []) + tail)
        == "set +e\n" + (if cd.Some? then cd.value + "\n" else "") + ("(\n" + command + "\n)\nstatus=$?\n" + report)
  {
    hide JoinLines;
    var tail := ["(", command, ")", "status=$?", report];
    ScriptTail(command, report);
    if cd.Some? {
      JoinCons(cd.value, tail);
      JoinCons("set +e", [cd.value] + tail);
      assert ["set +e"] + [cd.value] + tail == ["set +e"] + ([cd.value] + tail);
      Append("set +e\n", cd.value + "\n", JoinLines(tail));
    } else {
      JoinCons("set +e", tail);
      assert ["set +e"] + [] + tail == ["set +e"] + tail;
      assert "set +e\n" + "" == "set +e\n";
    }
  }

  lemma WrappedIsScript(command: string, cwd: Option<string>, marker: string, lines: seq<string>)
    requires lines == ["set +e"] + (if cwd.Some? then ["cd " + ShellQuote(cwd.value)] else [])
             + ["(", command, ")", "status=$?", "printf " + ShellQuote("\\n" + marker + "%s\\n") + " \"$status\""]
    ensures JoinLines(lines) == WrapperScript(command, cwd, marker)
  {
    hide ShellQuote, JoinLines;
    var format := ShellQuote("\\n" + marker + "%s\\n");
    var report := "printf " + format + " \"$status\"";
    var cd := if cwd.Some? then Some("cd " + ShellQuote(cwd.value)) else None;
    ScriptFromLines(cd, command, report);
    Append("(\n" + command + "\n)\nstatus=$?\n", "printf " + format, " \"$status\"");
  }

  lemma WrapperReadBack(command: string, cwd: Option<string>, marker: string)
    ensures var script := WrapperScript(command, cwd, marker);
      Words("bash -lc " + ShellQuote(script)) == Some(["bash", "-lc", script]) <==>
        NulFree(command) && NulFree(marker) && (cwd.Some? ==> NulFree(cwd.value))
  {
    hide ShellQuote, Words, WrapperScript, JoinQuoted;
    var script := WrapperScript(command, cwd, marker);
    var values := ["bash", "-lc", script];
    ThreeWords(script);
    QuotingRoundTrips(values);
    WrapperKeepsNul(command, cwd, marker);
    assert NulFree("bash") && NulFree("-lc");
    assert (forall i | 0 <= i < |values| :: NulFree(values[i])) <==> NulFree(script) by {
      assert values[2] == script;
    }
  }

  /**
   The lines of the script: errors do not stop it, the directory is changed first, then the command runs in
   a subshell of its own, and its status is kept and printed at the end in the format asked for.
   */
  ghost predicate IsWrapper(command: string, cwd: Option<string>, marker: string, script: string) {
    exists lines: seq<string> ::
      && script == JoinLines(lines)
      && (if cwd.Some? then |lines| == 7 else |lines| == 6)
      && lines[0] == "set +e"
      && (cwd.Some? && NulFree(cwd.value) ==> Words(lines[1]) == Some(["cd", cwd.value]))
      && lines[|lines| - 5] == "(" && lines[|lines| - 4] == command && lines[|lines| - 3] == ")"
      && lines[|lines| - 2] == "status=$?"
      && exists format ::
           && lines[|lines| - 1] == "printf " + format + " \"$status\""
           && (NulFree(marker) ==> Words(format) == Some(["\\n" + marker + "%s\\n"]))
  }

  lemma WrapperIsInOrder(command: string, cwd: Option<string>, marker: string, lines: seq<string>)
    requires lines == ["set +e"] + (if cwd.Some? then ["cd " + ShellQuote(cwd.value)] else [])
             + ["(", command, ")", "status=$?", "printf " + ShellQuote("\\n" + marker + "%s\\n") + " \"$status\""]
    requires JoinLines(lines) == WrapperScript(command, cwd, marker)
    ensures IsWrapper(command, cwd, marker, WrapperScript(command, cwd, marker))
  {
    hide ShellQuote, Words, NulFree, WrapperScript, JoinLines;
    if cwd.Some? && NulFree(cwd.value) {
      ChangeDirectoryIsTwoWords(cwd.value);
    }
    if NulFree(marker) {
      FormatIsOneWord(marker);
    }
    var format := ShellQuote("\\n" + marker + "%s\\n");
    assert lines[|lines| - 1] == "printf " + format + " \"$status\"";
  }

  /** The format that reports the status is one word. */
  lemma FormatIsOneWord(marker: string)
    requires NulFree(marker)
    ensures Words(ShellQuote("\\n" + marker + "%s\\n")) == Some(["\\n" + marker + "%s\\n"])
  {
    hide ShellQuote, Words;
    var values := ["\\n" + marker + "%s\\n"];
    assert NulFree(values[0]);
    QuotingRoundTrips(values);
    assert JoinQuoted(values) == ShellQuote(values[0]);
  }

  /** `terminal_bench_wrap_command`. */
  method TerminalBenchWrapCommand(command: string, cwd: Option<string>, marker: string) returns (wrapped: string)
    ensures wrapped == JoinQuoted(["bash", "-lc", WrapperScript(command, cwd, marker)])
    ensures Words(wrapped) == Some(["bash", "-lc", WrapperScript(command, cwd, marker)]) <==>
      NulFree(command) && NulFree(marker) && (cwd.Some? ==> NulFree(cwd.value))
    ensures IsWrapper(command, cwd, marker, WrapperScript(command, cwd, marker))
  {
    hide ShellQuote, Words, NulFree, WrapperScript, IsWrapper;
    var lines := ["set +e"];
    if cwd.Some? {
      lines := lines + ["cd " + ShellQuote(cwd.value)];
    }
    lines := lines + ["(", command, ")", "status=$?",
                      "printf " + ShellQuote("\\n" + marker + "%s\\n") + " \"$status\""];
    var script := JoinLines(lines);
    wrapped := "bash -lc " + ShellQuote(script);
    WrappedIsScript(command, cwd, marker, lines);
    ThreeWords(script);
    WrapperReadBack(command, cwd, marker);
    WrapperIsInOrder(command, cwd, marker, lines);
  }
}
