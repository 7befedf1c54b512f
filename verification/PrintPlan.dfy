/** The printed form of a plan, and reading it back. */
module PrintPlan {
  import opened Basics
  import opened PlanData

  // ---- Quoted words ----

  function HexDigit(n: nat): char
    requires n < 16
  {
    "0123456789abcdef"[n]
  }

  function Escaped(c: char): string
  {
    if c == '"' || c == '\\' then ['\\', c]
    else if c < ' ' then ['\\', 'x', HexDigit(c as int / 16), HexDigit(c as int % 16)]
    else [c]
  }

  function EscapedAll(text: string): string
  {
    if text == "" then "" else Escaped(text[0]) + EscapedAll(text[1..])
  }

  function Quoted(text: string): string
  {
    "\"" + EscapedAll(text) + "\""
  }

  function QuotedWords(words: seq<string>): string
  {
    if words == [] then "" else " " + Quoted(words[0]) + QuotedWords(words[1..])
  }

  // ---- The text ----

  /** The resolved settings by name. */
  datatype Settings = Settings(stage: string, target: string, model: string, cpu: string,
                               floating: string, optimize: string, debug: bool, dryRun: bool)
  {
    /** Names come from fixed tables and hold neither blanks nor line ends. */
    predicate Plain()
    {
      forall name :: name in [stage, target, model, cpu, floating, optimize] ==> ' ' !in name && '\n' !in name
    }
  }

  const DRIVE_LINE := "acc: E: "

  function OnOff(on: bool): string
  {
    if on then "on" else "off"
  }

  function Drive(dryRun: bool): string
  {
    if dryRun then "is a symbolic " + "private workspace; " + "no files are created"
    else "maps the invocation's " + "private workspace"
  }

  function Field(key: string, name: string, stop: char): string
  {
    key + name + [stop]
  }

  function FirstLine(s: Settings): string
  {
    Field("acc: plan stage=", s.stage, ' ') + (Field("target=", s.target, ' ') +
    (Field("model=", s.model, ' ') + Field("cpu=", s.cpu, '\n')))
  }

  function OtherLines(s: Settings): string
  {
    Field("acc: plan float=", s.floating, ' ') + (Field("optimize=", s.optimize, ' ') +
    (Field("debug=", OnOff(s.debug), '\n') + Field(DRIVE_LINE, Drive(s.dryRun), '\n')))
  }

  function Header(s: Settings): string
  {
    FirstLine(s) + OtherLines(s)
  }

  function CommandText(cmd: Command): string
  {
    "tool:" + QuotedWords(cmd.arguments) + "\n" +
    if cmd.response == [] then ""
    else "response: " + Quoted(cmd.responseFile) + QuotedWords(cmd.response[1..]) + "\n"
  }

  function CommandsText(commands: seq<Command>): string
  {
    if commands == [] then "" else CommandText(commands[0]) + CommandsText(commands[1..])
  }

  function PublishText(product: string, output: string): string
  {
    "publish: " + Quoted(product) + " -> " + Quoted(output) + "\n"
  }

  function PublishesText(products: seq<string>, outputs: seq<string>): string
    requires |products| == |outputs|
  {
    if outputs == [] then ""
    else PublishText(products[0], outputs[0]) + PublishesText(products[1..], outputs[1..])
  }

  function Text(settings: Settings, plan: Plan): string
    requires plan.Parallel()
  {
    Header(settings) + CommandsText(plan.commands) + PublishesText(plan.products, plan.outputs)
  }

  /** The header in three lines. */
  lemma HeaderLines(s: Settings)
    ensures
      FirstLine(s) ==
      "acc: plan stage=" + s.stage + " target=" + s.target + " model=" + s.model + " cpu=" + s.cpu + "\n"
    ensures
      OtherLines(s) ==
      "acc: plan float=" + s.floating + " optimize=" + s.optimize + " debug=" + (if s.debug then "on" else "off") + "\n" +
      ("acc: E: " + (if s.dryRun then "is a symbolic " + "private workspace; " + "no files are created"
                    else "maps the invocation's " + "private workspace") + ['\n'])
  {
    FourFields("acc: plan stage=", s.stage, "target=", s.target, "model=", s.model, "cpu=", s.cpu);
    assert " " + "target=" == " target=" && " " + "model=" == " model=" && " " + "cpu=" == " cpu=";
    assert " " + "optimize=" == " optimize=" && " " + "debug=" == " debug=";
    ThreeAndDrive("acc: plan float=", s.floating, "optimize=", s.optimize, "debug=", OnOff(s.debug),
                  Field(DRIVE_LINE, Drive(s.dryRun), '\n'));
  }

  lemma FourFields(a: string, k: string, b: string, l: string, c: string, m: string, d: string, n: string)
    ensures
      Field(a, k, ' ') + (Field(b, l, ' ') + (Field(c, m, ' ') + Field(d, n, '\n'))) ==
      a + k + (" " + b) + l + (" " + c) + m + (" " + d) + n + "\n"
  {
  }

  lemma ThreeAndDrive(a: string, k: string, b: string, l: string, c: string, m: string, last: string)
    ensures
      Field(a, k, ' ') + (Field(b, l, ' ') + (Field(c, m, '\n') + last)) ==
      a + k + (" " + b) + l + (" " + c) + m + "\n" + last
  {
  }

  /** Quotes and backslashes get a backslash, control characters their number, and nothing else changes. */
  lemma EscapedSamples()
    ensures Escaped('"') == "\\\"" && Escaped('\\') == "\\\\" && Escaped('\t') == "\\x09" && Escaped('a') == "a"
    ensures Quoted("C:\\") == "\"C:\\\\\""
  {
    assert "C:\\"[1..] == ":\\" && ":\\"[1..] == "\\" && "\\"[1..] == "";
    assert EscapedAll("\\") == "\\\\" && EscapedAll(":\\") == ":\\\\" && EscapedAll("C:\\") == "C:\\\\";
  }

  /** A command, one with a response file, and a publication. */
  lemma PrintedLines(tool: string, word: string, file: string, cmd: Command)
    ensures
      CommandText(cmd.(arguments := [tool, word], response := [])) ==
      "tool: " + Quoted(tool) + " " + Quoted(word) + "\n"
    ensures
      CommandText(cmd.(arguments := [tool], response := [tool, word], responseFile := file)) ==
      "tool: " + Quoted(tool) + "\n" + ("response: " + Quoted(file) + " " + Quoted(word) + "\n")
    ensures PublishText(word, file) == "publish: " + Quoted(word) + " -> " + Quoted(file) + "\n"
  {
    hide Quoted;
    OneQuoted(tool);
    OneQuoted(word);
    assert [tool, word][1..] == [word];
    assert QuotedWords([tool, word]) == " " + Quoted(tool) + (" " + Quoted(word));
    assert "tool:" + " " == "tool: ";
  }

  lemma OneQuoted(word: string)
    ensures QuotedWords([word]) == " " + Quoted(word)
  {
    hide Quoted;
    assert [word][1..] == [];
  }

  // ---- A reader of the text ----

  datatype Read<+T> = Bad | Got(value: T, rest: string)

  function HexValue(c: char): int
  {
    if '0' <= c <= '9' then c as int - '0' as int
    else if 'a' <= c <= 'f' then c as int - 'a' as int + 10
    else -1
  }

  /** Reads the characters of a word up to its closing quote. */
  function ReadChars(s: string): (r: Read<string>)
    ensures r.Got? ==> |r.rest| < |s|
    decreases |s|
  {
    if s == "" then Bad
    else if s[0] == '"' then Got("", s[1..])
    else if s[0] != '\\' then Prepend(s[0], ReadChars(s[1..]))
    else if |s| < 2 then Bad
    else if s[1] != 'x' then Prepend(s[1], ReadChars(s[2..]))
    else if |s| < 4 || HexValue(s[2]) < 0 || HexValue(s[3]) < 0 then Bad
    else Prepend((16 * HexValue(s[2]) + HexValue(s[3])) as char, ReadChars(s[4..]))
  }

  function Prepend(c: char, r: Read<string>): Read<string>
  {
    match r
    case Bad => Bad
    case Got(word, rest) => Got([c] + word, rest)
  }

  function ReadQuoted(s: string): (r: Read<string>)
    ensures r.Got? ==> |r.rest| < |s|
  {
    if s == "" || s[0] != '"' then Bad else ReadChars(s[1..])
  }

  /** Reads words, each behind a blank, up to the end of the line. */
  function ReadWords(s: string): (r: Read<seq<string>>)
    ensures r.Got? ==> |r.rest| < |s|
    decreases |s|
  {
    if s == "" then Bad
    else if s[0] == '\n' then Got([], s[1..])
    else if s[0] != ' ' then Bad
    else
      match ReadQuoted(s[1..])
      case Bad => Bad
      case Got(word, rest) =>
        match ReadWords(rest)
        case Bad => Bad
        case Got(words, end) => Got([word] + words, end)
  }

  /** What is printed of a command. */
  datatype Shown = Shown(arguments: seq<string>, response: Option<(string, seq<string>)>)

  function ShownOf(cmd: Command): Shown
  {
    Shown(cmd.arguments, if cmd.response == [] then None else Some((cmd.responseFile, cmd.response[1..])))
  }

  function ReadResponse(s: string): (r: Read<(string, seq<string>)>)
    ensures r.Got? ==> |r.rest| < |s|
  {
    match ReadQuoted(s)
    case Bad => Bad
    case Got(file, afterFile) =>
      match ReadWords(afterFile)
      case Bad => Bad
      case Got(lines, rest) => Got((file, lines), rest)
  }

  const TOOL := "tool:"
  const RESPONSE := "response: "
  const PUBLISH := "publish: "
  const ARROW := " -> "

  function ReadCommand(s: string): (r: Read<Shown>)
    requires TOOL <= s
    ensures r.Got? ==> |r.rest| < |s|
  {
    match ReadWords(s[|TOOL|..])
    case Bad => Bad
    case Got(words, rest) =>
      if !(RESPONSE <= rest) then Got(Shown(words, None), rest)
      else
        match ReadResponse(rest[|RESPONSE|..])
        case Bad => Bad
        case Got(response, end) => Got(Shown(words, Some(response)), end)
  }

  function ReadCommands(s: string): Read<seq<Shown>>
    decreases |s|
  {
    if !(TOOL <= s) then Got([], s)
    else
      match ReadCommand(s)
      case Bad => Bad
      case Got(cmd, rest) =>
        match ReadCommands(rest)
        case Bad => Bad
        case Got(cmds, end) => Got([cmd] + cmds, end)
  }

  function ReadPublish(s: string): (r: Read<(string, string)>)
    requires PUBLISH <= s
    ensures r.Got? ==> |r.rest| < |s|
  {
    match ReadQuoted(s[|PUBLISH|..])
    case Bad => Bad
    case Got(product, rest) =>
      if !(ARROW <= rest) then Bad
      else
        match ReadQuoted(rest[|ARROW|..])
        case Bad => Bad
        case Got(output, end) => if end == "" || end[0] != '\n' then Bad else Got((product, output), end[1..])
  }

  function ReadPublishes(s: string): Read<seq<(string, string)>>
    decreases |s|
  {
    if s == "" then Got([], "")
    else if !(PUBLISH <= s) then Bad
    else
      match ReadPublish(s)
      case Bad => Bad
      case Got(pair, rest) =>
        match ReadPublishes(rest)
        case Bad => Bad
        case Got(pairs, end) => Got([pair] + pairs, end)
  }

  /** The text up to the first `stop`, and the text behind it. */
  function Until(s: string, stop: char): (r: Read<string>)
    ensures r.Got? ==> |r.rest| < |s|
  {
    if s == "" then Bad
    else if s[0] == stop then Got("", s[1..])
    else Prepend(s[0], Until(s[1..], stop))
  }

  /** A setting: its key, then its name up to `stop`. */
  function ReadField(s: string, key: string, stop: char): Read<string>
  {
    if key <= s then Until(s[|key|..], stop) else Bad
  }

  // ---- The reader undoes the printer ----

  lemma HexBack(c: char)
    requires c < ' '
    ensures
      var hi, lo := HexDigit(c as int / 16), HexDigit(c as int % 16);
      HexValue(hi) == c as int / 16 && HexValue(lo) == c as int % 16
  {
    assert forall n :: 0 <= n < 16 ==> HexValue("0123456789abcdef"[n]) == n;
  }

  lemma CharBack(c: char, tail: string)
    ensures ReadChars(Escaped(c) + tail) == Prepend(c, ReadChars(tail))
  {
    var s := Escaped(c) + tail;
    if c == '"' || c == '\\' {
      assert s[2..] == tail;
    } else if c < ' ' {
      HexBack(c);
      assert s[4..] == tail;
    } else {
      assert s[1..] == tail;
    }
  }

  lemma {:induction false} CharsBack(text: string, rest: string)
    ensures ReadChars(EscapedAll(text) + "\"" + rest) == Got(text, rest)
  {
    hide Escaped;
    if text == "" {
      assert (EscapedAll(text) + "\"" + rest)[1..] == rest;
    } else {
      var tail := EscapedAll(text[1..]) + "\"" + rest;
      CharsBack(text[1..], rest);
      CharBack(text[0], tail);
      hide ReadChars;
      assert EscapedAll(text) + "\"" + rest == Escaped(text[0]) + tail;
      assert text == [text[0]] + text[1..];
    }
  }

  lemma QuotedBack(text: string, rest: string)
    ensures ReadQuoted(Quoted(text) + rest) == Got(text, rest)
  {
    CharsBack(text, rest);
    assert (Quoted(text) + rest)[1..] == EscapedAll(text) + "\"" + rest;
  }

  /** The words of a printed line are read back exactly. */
  lemma {:induction false} WordsBack(words: seq<string>, rest: string)
    ensures ReadWords(QuotedWords(words) + "\n" + rest) == Got(words, rest)
  {
    hide ReadQuoted;
    hide Quoted;
    var s := QuotedWords(words) + "\n" + rest;
    if words == [] {
      assert s[1..] == rest;
    } else {
      var tail := QuotedWords(words[1..]) + "\n" + rest;
      WordsBack(words[1..], rest);
      QuotedBack(words[0], tail);
      assert s[1..] == Quoted(words[0]) + tail;
      assert words == [words[0]] + words[1..];
    }
  }

  lemma CommandBack(cmd: Command, rest: string)
    requires !(RESPONSE <= rest)
    ensures ReadCommand(CommandText(cmd) + rest) == Got(ShownOf(cmd), rest)
  {
    hide ReadWords;
    hide ReadQuoted;
    hide QuotedWords;
    hide Quoted;
    var s := CommandText(cmd) + rest;
    if cmd.response == [] {
      WordsBack(cmd.arguments, rest);
      assert s[|TOOL|..] == QuotedWords(cmd.arguments) + "\n" + rest;
    } else {
      var lines := QuotedWords(cmd.response[1..]) + "\n" + rest;
      var after := RESPONSE + (Quoted(cmd.responseFile) + lines);
      WordsBack(cmd.arguments, after);
      QuotedBack(cmd.responseFile, lines);
      WordsBack(cmd.response[1..], rest);
      assert s[|TOOL|..] == QuotedWords(cmd.arguments) + "\n" + after;
      assert after[|RESPONSE|..] == Quoted(cmd.responseFile) + lines;
    }
  }

  function ShownAll(commands: seq<Command>): seq<Shown>
  {
    if commands == [] then [] else [ShownOf(commands[0])] + ShownAll(commands[1..])
  }

  function Pairs(products: seq<string>, outputs: seq<string>): seq<(string, string)>
    requires |products| == |outputs|
  {
    if outputs == [] then [] else [(products[0], outputs[0])] + Pairs(products[1..], outputs[1..])
  }

  lemma CommandBegins(cmd: Command, rest: string)
    ensures TOOL <= CommandText(cmd) + rest
  {
  }

  /** Only a response line begins like one. */
  lemma NoResponse(s: string)
    requires s == "" || TOOL <= s || PUBLISH <= s
    ensures !(RESPONSE <= s)
    ensures PUBLISH <= s ==> !(TOOL <= s)
  {
    if TOOL <= s {
      assert s[0] == TOOL[0];
    } else if PUBLISH <= s {
      assert s[0] == PUBLISH[0];
    }
  }

  lemma {:induction false} CommandsBack(commands: seq<Command>, rest: string)
    requires rest == "" || PUBLISH <= rest
    ensures ReadCommands(CommandsText(commands) + rest) == Got(ShownAll(commands), rest)
    ensures !(RESPONSE <= CommandsText(commands) + rest)
  {
    hide ReadCommand;
    hide CommandText;
    hide ShownOf;
    if commands == [] {
      assert CommandsText(commands) + rest == rest;
      NoResponse(rest);
    } else {
      var tail := CommandsText(commands[1..]) + rest;
      CommandsBack(commands[1..], rest);
      CommandBack(commands[0], tail);
      CommandBegins(commands[0], tail);
      Associates(CommandText(commands[0]), CommandsText(commands[1..]), rest);
      NoResponse(CommandText(commands[0]) + tail);
    }
  }

  lemma PublishBack(product: string, output: string, rest: string)
    ensures ReadPublish(PublishText(product, output) + rest) == Got((product, output), rest)
  {
    hide ReadQuoted;
    hide Quoted;
    var s := PublishText(product, output) + rest;
    var tail := ARROW + (Quoted(output) + ("\n" + rest));
    QuotedBack(product, tail);
    QuotedBack(output, "\n" + rest);
    assert s[|PUBLISH|..] == Quoted(product) + tail;
    assert tail[|ARROW|..] == Quoted(output) + ("\n" + rest);
    assert ("\n" + rest)[1..] == rest;
  }

  lemma {:induction false} PublishesBack(products: seq<string>, outputs: seq<string>)
    requires |products| == |outputs|
    ensures ReadPublishes(PublishesText(products, outputs)) == Got(Pairs(products, outputs), "")
    ensures var s := PublishesText(products, outputs); s == "" || PUBLISH <= s
  {
    hide ReadPublish;
    if outputs != [] {
      PublishesBack(products[1..], outputs[1..]);
      PublishBack(products[0], outputs[0], PublishesText(products[1..], outputs[1..]));
    }
  }

  lemma {:induction false} FieldBack(name: string, stop: char, rest: string)
    requires stop !in name
    ensures Until(name + [stop] + rest, stop) == Got(name, rest)
  {
    var s := name + [stop] + rest;
    if name == "" {
      assert s[1..] == rest;
    } else {
      assert name[0] in name && s[1..] == name[1..] + [stop] + rest;
      FieldBack(name[1..], stop, rest);
      assert [name[0]] + name[1..] == name;
    }
  }

  lemma KeyedBack(key: string, name: string, stop: char, rest: string)
    requires stop !in name
    ensures ReadField(Field(key, name, stop) + rest, key, stop) == Got(name, rest)
  {
    hide Until;
    FieldBack(name, stop, rest);
    assert (key + name + [stop] + rest)[|key|..] == name + [stop] + rest;
  }

  /** Reads the three header lines. */
  function ReadHeader(s: string): Read<Settings>
  {
    match ReadField(s, "acc: plan stage=", ' ')
    case Bad => Bad
    case Got(stage, s1) =>
      match ReadField(s1, "target=", ' ')
      case Bad => Bad
      case Got(target, s2) =>
        match ReadField(s2, "model=", ' ')
        case Bad => Bad
        case Got(model, s3) =>
          match ReadField(s3, "cpu=", '\n')
          case Bad => Bad
          case Got(cpu, s4) => ReadHeaderRest(stage, target, model, cpu, s4)
  }

  function ReadHeaderRest(stage: string, target: string, model: string, cpu: string, s: string): Read<Settings>
  {
    match ReadField(s, "acc: plan float=", ' ')
    case Bad => Bad
    case Got(floating, s1) =>
      match ReadField(s1, "optimize=", ' ')
      case Bad => Bad
      case Got(optimize, s2) =>
        match ReadField(s2, "debug=", '\n')
        case Bad => Bad
        case Got(debug, s3) =>
          match ReadField(s3, DRIVE_LINE, '\n')
          case Bad => Bad
          case Got(drive, s4) =>
            Got(Settings(stage, target, model, cpu, floating, optimize, debug == "on", drive == Drive(true)), s4)
  }

  lemma NoLineEnds(on: bool, dryRun: bool)
    ensures '\n' !in OnOff(on) && '\n' !in Drive(dryRun)
    ensures (OnOff(on) == "on") == on && (Drive(dryRun) == Drive(true)) == dryRun
  {
    NoLineEndInDrive(dryRun);
    assert "on"[1] != "off"[1];
    assert Drive(true)[0] == 'i' && Drive(false)[0] == 'm';
    hide Drive;
  }

  lemma NoLineEndInDrive(dryRun: bool)
    ensures '\n' !in Drive(dryRun)
  {
  }

  lemma OtherLinesBack(s: Settings, rest: string)
    requires s.Plain()
    ensures ReadHeaderRest(s.stage, s.target, s.model, s.cpu, OtherLines(s) + rest) == Got(s, rest)
  {
    hide ReadField;
    hide OnOff;
    hide Drive;
    hide Field;
    NoLineEnds(s.debug, s.dryRun);
    var f1, f2 := Field("acc: plan float=", s.floating, ' '), Field("optimize=", s.optimize, ' ');
    var f3, f4 := Field("debug=", OnOff(s.debug), '\n'), Field(DRIVE_LINE, Drive(s.dryRun), '\n');
    Associates(f1, f2 + (f3 + f4), rest);
    Associates(f2, f3 + f4, rest);
    Associates(f3, f4, rest);
    KeyedBack("acc: plan float=", s.floating, ' ', f2 + (f3 + (f4 + rest)));
    KeyedBack("optimize=", s.optimize, ' ', f3 + (f4 + rest));
    KeyedBack("debug=", OnOff(s.debug), '\n', f4 + rest);
    KeyedBack(DRIVE_LINE, Drive(s.dryRun), '\n', rest);
  }

  lemma HeaderBack(s: Settings, rest: string)
    requires s.Plain()
    ensures ReadHeader(Header(s) + rest) == Got(s, rest)
  {
    hide ReadField;
    hide ReadHeaderRest;
    hide OtherLines;
    hide Field;
    var t := OtherLines(s) + rest;
    OtherLinesBack(s, rest);
    var f1, f2 := Field("acc: plan stage=", s.stage, ' '), Field("target=", s.target, ' ');
    var f3, f4 := Field("model=", s.model, ' '), Field("cpu=", s.cpu, '\n');
    Associates(FirstLine(s), OtherLines(s), rest);
    Associates(f1, f2 + (f3 + f4), t);
    Associates(f2, f3 + f4, t);
    Associates(f3, f4, t);
    KeyedBack("acc: plan stage=", s.stage, ' ', f2 + (f3 + (f4 + t)));
    KeyedBack("target=", s.target, ' ', f3 + (f4 + t));
    KeyedBack("model=", s.model, ' ', f4 + t);
    KeyedBack("cpu=", s.cpu, '\n', t);
  }

  /** Reads a whole printed plan. */
  function ReadText(s: string): Option<(Settings, seq<Shown>, seq<(string, string)>)>
  {
    match ReadHeader(s)
    case Bad => None
    case Got(settings, s1) =>
      match ReadCommands(s1)
      case Bad => None
      case Got(commands, s2) =>
        match ReadPublishes(s2)
        case Bad => None
        case Got(pairs, _) => Some((settings, commands, pairs))
  }

  /** The printed text gives back the settings, every command with its response file, and every
      publication. */
  lemma TextBack(settings: Settings, plan: Plan)
    requires settings.Plain() && plan.Parallel()
    ensures
      ReadText(Text(settings, plan)) ==
      Some((settings, ShownAll(plan.commands), Pairs(plan.products, plan.outputs)))
  {
    hide ReadHeader;
    hide ReadCommands;
    hide ReadPublishes;
    hide Header;
    hide CommandsText;
    hide PublishesText;
    var publishes := PublishesText(plan.products, plan.outputs);
    PublishesBack(plan.products, plan.outputs);
    CommandsBack(plan.commands, publishes);
    HeaderBack(settings, CommandsText(plan.commands) + publishes);
    Associates(Header(settings), CommandsText(plan.commands), publishes);
  }

  /** Plans that print the same text have the same commands, responses and publications. */
  lemma TextIsUnambiguous(s: Settings, p: Plan, t: Settings, q: Plan)
    requires s.Plain() && p.Parallel() && t.Plain() && q.Parallel() && Text(s, p) == Text(t, q)
    ensures s == t && ShownAll(p.commands) == ShownAll(q.commands)
    ensures p.products == q.products && p.outputs == q.outputs
  {
    TextBack(s, p);
    TextBack(t, q);
    PairsDetermine(p.products, p.outputs, q.products, q.outputs);
  }

  lemma {:induction false} PairsDetermine(a: seq<string>, b: seq<string>, c: seq<string>, d: seq<string>)
    requires |a| == |b| && |c| == |d| && Pairs(a, b) == Pairs(c, d)
    ensures a == c && b == d
  {
    if b != [] {
      assert d != [];
      var p, q := Pairs(a, b), Pairs(c, d);
      assert p[0] == q[0] && p[1..] == Pairs(a[1..], b[1..]) && q[1..] == Pairs(c[1..], d[1..]);
      PairsDetermine(a[1..], b[1..], c[1..], d[1..]);
      assert a == [a[0]] + a[1..] && c == [c[0]] + c[1..] && b == [b[0]] + b[1..] && d == [d[0]] + d[1..];
    }
  }

  // ---- The printer ----

  /** The stream that the plan is written to. */
  class Stream {
    var text: string

    constructor ()
      ensures text == ""
    {
      text := "";
    }

    method Put(s: string)
      modifies this
      ensures text == old(text) + s
    {
      text := text + s;
    }

    method PutEscaped(c: char)
      modifies this
      ensures text == old(text) + Escaped(c)
    {
      if c == '"' || c == '\\' {
        Put("\\");
      }
      if c < ' ' {
        Put("\\x");
        Put([HexDigit(c as int / 16), HexDigit(c as int % 16)]);
      } else {
        Put([c]);
      }
    }

    method PutQuoted(word: string)
      modifies this
      ensures text == old(text) + Quoted(word)
    {
      hide Escaped;
      Put("\"");
      ghost var start := text;
      assert word[0..] == word;
      for i := 0 to |word|
        invariant text + EscapedAll(word[i..]) == start + EscapedAll(word)
      {
        assert word[i..][0] == word[i] && word[i..][1..] == word[i + 1..];
        PutEscaped(word[i]);
      }
      assert text == old(text) + "\"" + EscapedAll(word) by {
        assert EscapedAll(word[|word|..]) == "";
      }
      Put("\"");
    }

    method PutWords(words: seq<string>, first: nat)
      requires first <= |words|
      modifies this
      ensures text == old(text) + QuotedWords(words[first..])
    {
      hide Quoted;
      ghost var start := text;
      for i := first to |words|
        invariant text + QuotedWords(words[i..]) == start + QuotedWords(words[first..])
      {
        assert words[i..][0] == words[i] && words[i..][1..] == words[i + 1..];
        Put(" ");
        PutQuoted(words[i]);
      }
    }

    method PutCommand(cmd: Command)
      modifies this
      ensures text == old(text) + CommandText(cmd)
    {
      hide Quoted;
      hide QuotedWords;
      Put("tool:");
      assert cmd.arguments[0..] == cmd.arguments;
      PutWords(cmd.arguments, 0);
      Put("\n");
      if cmd.response != [] {
        Put("response: ");
        PutQuoted(cmd.responseFile);
        PutWords(cmd.response, 1);
        Put("\n");
      }
    }

    method PutCommands(commands: seq<Command>)
      modifies this
      ensures text == old(text) + CommandsText(commands)
    {
      hide CommandText;
      ghost var start := text;
      for i := 0 to |commands|
        invariant text + CommandsText(commands[i..]) == start + CommandsText(commands)
      {
        assert commands[i..][0] == commands[i] && commands[i..][1..] == commands[i + 1..];
        PutCommand(commands[i]);
      }
    }

    method PutPublishes(products: seq<string>, outputs: seq<string>)
      requires |products| == |outputs|
      modifies this
      ensures text == old(text) + PublishesText(products, outputs)
    {
      hide PublishText;
      ghost var start := text;
      assert products[0..] == products && outputs[0..] == outputs;
      for i := 0 to |outputs|
        invariant text + PublishesText(products[i..], outputs[i..]) == start + PublishesText(products, outputs)
      {
        assert products[i..][0] == products[i] && products[i..][1..] == products[i + 1..];
        assert outputs[i..][0] == outputs[i] && outputs[i..][1..] == outputs[i + 1..];
        PutPublish(products[i], outputs[i]);
      }
    }

    method PrintPlan(settings: Settings, plan: Plan)
      requires plan.Parallel()
      modifies this
      ensures text == old(text) + Text(settings, plan)
    {
      hide Header;
      hide CommandsText;
      hide PublishesText;
      Put(Header(settings));
      PutCommands(plan.commands);
      PutPublishes(plan.products, plan.outputs);
    }

    method PutPublish(product: string, output: string)
      modifies this
      ensures text == old(text) + PublishText(product, output)
    {
      hide Quoted;
      Put("publish: ");
      PutQuoted(product);
      Put(" -> ");
      PutQuoted(output);
      Put("\n");
    }
  }
}
