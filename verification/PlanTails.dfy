/** Command tails on DOS: which tools of a plan get all their words. */
module PlanTails {
  import opened Basics
  import opened Strings
  import opened PlanData
  import opened Publish
  import DosPath
  import GuestPath
  import PlanNames
  import PlanParts
  import Planner
  import opened PlanWords
  import opened PlanRuns
  import Launch

  /** How many of the words lie on drive E. */
  function WordsOnE(words: seq<string>): nat
  {
    if words == [] then 0 else (if OnDriveE(words[0]) then 1 else 0) + WordsOnE(words[1..])
  }

  /** How much longer a word gets when the workspace takes the place of drive E. */
  function Growth(site: Launch.Site): int
  {
    |Launch.DosJoin(site.work, "")| - |"E:\\"|
  }

  lemma OneMoreTimes(n: nat, growth: int)
    ensures (1 + n) * growth == growth + n * growth
  {
  }

  lemma {:induction false} HostedLength(words: seq<string>, site: Launch.Site)
    requires !site.unix && Launch.HostWords(words, site).Some?
    ensures Lengths(Launch.HostWords(words, site).value) == Lengths(words) + WordsOnE(words) * Growth(site)
  {
    hide Growth;
    hide Launch.HostWord;
    if words != [] {
      HostedLength(words[1..], site);
      var hosted := Launch.HostWords(words, site).value;
      assert hosted[1..] == Launch.HostWords(words[1..], site).value && hosted[0] == Launch.HostWord(words[0], site).value;
      LengthsCons(words);
      LengthsCons(hosted);
      WordGrows(words[0], site);
      OneMoreTimes(WordsOnE(words[1..]), Growth(site));
    }
  }

  lemma WordGrows(word: string, site: Launch.Site)
    requires !site.unix && Launch.HostWord(word, site).Some?
    ensures |Launch.HostWord(word, site).value| == |word| + if OnDriveE(word) then Growth(site) else 0
  {
  }

  /** The tail that a tool gets on DOS is longer than the planned one by the growth of every word on
      drive E. A tail over 126 bytes is cut by the system. */
  lemma TranslatedTail(arguments: seq<string>, site: Launch.Site)
    requires !site.unix && Launch.ToolArguments(arguments, site).Some?
    ensures
      var translated := Launch.ToolArguments(arguments, site).value;
      TailLength(translated) <= TAIL_LIMIT <==>
        TailLength(arguments) + WordsOnE(arguments[1..]) * Growth(site) <= TAIL_LIMIT
  {
    hide Launch.HostWords;
    hide Launch.HostTool;
    hide Growth;
    HostedLength(arguments[1..], site);
  }

  /** A word that is translated becomes a path within the limits of DOS. */
  lemma TranslatedIsPath(word: string, site: Launch.Site)
    requires !site.unix && Launch.HostWord(word, site).Some?
    ensures Launch.HostWord(word, site).value == word || |Launch.HostWord(word, site).value| < DOS_PATH
  {
  }

  /** The tail of a tool with one file behind it, and at most one option before that, is not cut. */
  lemma ShortTailFits(arguments: seq<string>, site: Launch.Site)
    requires !site.unix && Launch.ToolArguments(arguments, site).Some? && TailLength(arguments) <= TAIL_LIMIT
    requires |arguments| == 2 || (|arguments| == 3 && arguments[1] == "-f")
    ensures TailLength(Launch.ToolArguments(arguments, site).value) <= TAIL_LIMIT
  {
    hide Launch.HostWords;
    hide Launch.HostWord;
    hide Launch.HostTool;
    var words := arguments[1..];
    if |words| == 1 {
      assert words == [words[0]];
      HostedOne(words[0], site);
    } else {
      assert words == ["-f", words[1]];
      HostedOption(words[1], site);
    }
  }

  lemma HostedOne(word: string, site: Launch.Site)
    requires !site.unix && Launch.HostWords([word], site).Some?
    requires Lengths([word]) <= TAIL_LIMIT
    ensures Launch.HostWord(word, site).Some? && Launch.HostWords([word], site).value == [Launch.HostWord(word, site).value]
    ensures Lengths(Launch.HostWords([word], site).value) <= TAIL_LIMIT
  {
    hide Launch.HostWord;
    assert [word][1..] == [];
    TranslatedIsPath(word, site);
    LengthsOne(word);
    LengthsOne(Launch.HostWord(word, site).value);
  }

  lemma HostedOption(word: string, site: Launch.Site)
    requires !site.unix && Launch.HostWords(["-f", word], site).Some?
    requires Lengths(["-f", word]) <= TAIL_LIMIT
    ensures Lengths(Launch.HostWords(["-f", word], site).value) <= TAIL_LIMIT
  {
    hide Launch.HostWord;
    var words := ["-f", word];
    assert words[1..] == [word] && "-f"[0] == '-';
    WordOnE("-f", site);
    var hosted := Launch.HostWords(words, site).value;
    assert hosted[1..] == Launch.HostWords([word], site).value;
    LengthsCons(words);
    HostedOne(word, site);
    TranslatedIsPath(word, site);
    LengthsCons(hosted);
    LengthsOne(word);
    LengthsOne(Launch.HostWord(word, site).value);
  }

  /** The tail of a linker command is never cut. */
  lemma LinkerTailFits(was: Command, now: Command, site: Launch.Site)
    requires PlanParts.Serialised(was, now) && PlanParts.IsLinker(was)
    requires !site.unix && Launch.ToolArguments(now.arguments, site).Some?
    ensures Launch.Uncut(now, site)
  {
    hide PlanParts.IsLinker;
    hide PlanParts.Printable;
    hide Launch.ToolArguments;
    hide TailLength;
    ShortTailFits(now.arguments, site);
  }

  // ---- The tails of a plan ----

  lemma {:induction false} WordsOnEConcat(a: seq<string>, b: seq<string>)
    ensures WordsOnE(a + b) == WordsOnE(a) + WordsOnE(b)
  {
    if a == [] {
      assert a + b == b;
    } else {
      assert (a + b)[1..] == a[1..] + b;
      WordsOnEConcat(a[1..], b);
    }
  }

  lemma {:induction false} PlainIsNotOnE(words: seq<string>)
    requires PlainWords(words)
    ensures WordsOnE(words) == 0
  {
    if words != [] {
      PlainIsNotOnE(words[1..]);
    }
  }

  /** The source with this host path lies on drive E. */
  predicate SourceOnE(w: PlanParts.World, source: string)
  {
    w.Guest(source).Some? && OnDriveE(w.Guest(source).value)
  }

  /** A compile command has its product on drive E, and its source if that lies there. */
  function WordsOf(w: PlanParts.World, source: string): nat
  {
    if SourceOnE(w, source) then 2 else 1
  }

  lemma WordsOnEOne(word: string)
    ensures WordsOnE([word]) == if OnDriveE(word) then 1 else 0
  {
    assert [word][1..] == [];
  }

  lemma CompileWords(d: Planner.Draft, input: string, n: nat)
    requires PlainTables(d) && n <= PlanNames.TEMP_LIMIT && d.CompileCommand(input, n).Some?
    ensures
      var cmd := d.CompileCommand(input, n).value;
      cmd.source == input && cmd.arguments != [] && WordsOnE(cmd.arguments[1..]) == WordsOf(d.w, input)
  {
    hide PlainTables;
    hide PlainWords;
    hide Planner.Draft.CompilerArguments;
    hide PlanParts.AddWords;
    hide PlanParts.World.Guest;
    var cmd := d.CompileCommand(input, n).value;
    var head, guest := d.CompilerArguments(input).value, d.w.Guest(input).value;
    CompilerIsPlain(d, input);
    PlainIsNotOnE(head[1..]);
    assert cmd.arguments[1..] == head[1..] + ["-o"] + [cmd.product] + [guest];
    WordsOnEConcat(head[1..], ["-o"]);
    WordsOnEConcat(head[1..] + ["-o"], [cmd.product]);
    WordsOnEConcat(head[1..] + ["-o"] + [cmd.product], [guest]);
    WordsOnEOne("-o");
    WordsOnEOne(cmd.product);
    WordsOnEOne(guest);
    assert "-o"[0] == '-' && OnDriveE(cmd.product);
  }

  lemma CompilerIsNoLinker(d: Planner.Draft, input: string, n: nat)
    requires d.w.host.Dos? && n <= PlanNames.TEMP_LIMIT && d.CompileCommand(input, n).Some?
    ensures !PlanParts.IsLinker(d.CompileCommand(input, n).value)
  {
    hide PlanParts.AddWords;
    hide PlanParts.AddDefinitions;
    hide PlanParts.AddAreas;
    hide PlanParts.RawWords;
    hide PlanParts.ToolPath;
    hide PlanParts.Classify;
    hide PlanParts.Basename;
    hide PlanNames.TempName;
    hide PlanParts.World.Guest;
    hide GuestPath.PathEqual;
    var name := if PlanParts.Classify(input).CSource? then "cc.exe" else "as.exe";
    var args := d.CompilerArguments(input).value;
    assert [PlanParts.ToolPath(d.w, name).value] <= args;
    assert args[0] == PlanParts.ToolPath(d.w, name).value;
    PlanParts.ToolHasName(d.w, name);
    ToolNamesDiffer();
  }

  lemma ToolNamesDiffer()
    ensures !GuestPath.PathEqual("cc.exe", "ln.exe") && !GuestPath.PathEqual("as.exe", "ln.exe")
    ensures GuestPath.PathEqual("ln.exe", "ln.exe")
  {
    assert GuestPath.LowerAll("cc.exe")[0] == 'c' && GuestPath.LowerAll("as.exe")[0] == 'a';
    assert GuestPath.LowerAll("ln.exe")[0] == 'l';
  }

  /** On DOS no compile command is taken for a linker command. */
  lemma {:induction false} CompiledWords(d: Planner.Draft, k: nat)
    requires PlainTables(d) && d.w.host.Dos? && k <= |d.inputs| && d.Compiled(k).Some?
    ensures forall cmd :: cmd in d.Compiled(k).value ==>
      && !PlanParts.IsLinker(cmd) && cmd.arguments != []
      && WordsOnE(cmd.arguments[1..]) == WordsOf(d.w, cmd.source)
  {
    hide PlainTables;
    hide Planner.Draft.CompileCommand;
    hide PlanParts.IsSource;
    hide PlanParts.IsLinker;
    hide WordsOf;
    if k > 0 {
      CompiledWords(d, k - 1);
      if PlanParts.IsSource(d.inputs[k - 1]) {
        CompileWords(d, d.inputs[k - 1], |d.Compiled(k - 1).value| + 1);
        CompilerIsNoLinker(d, d.inputs[k - 1], |d.Compiled(k - 1).value| + 1);
      }
    }
  }

  /** Every compile command has room in its tail for its paths in the workspace. */
  predicate TailsFit(d: Planner.Draft, site: Launch.Site)
    requires d.Suffixed() && d.CanDraft()
  {
    forall cmd :: cmd in d.Compiled(|d.inputs|).value ==>
      TailLength(cmd.arguments) + WordsOf(d.w, cmd.source) * Growth(site) <= TAIL_LIMIT
  }

  lemma {:induction false} SqueezedParts(compiled: seq<Command>, tool: Option<string>, cmd: Command)
    requires cmd in PlanParts.Squeezed(compiled, tool)
    ensures cmd in compiled || |cmd.arguments| == 2
  {
    if compiled != [] {
      var front := compiled[..|compiled| - 1];
      if cmd in PlanParts.Squeezed(front, tool) {
        SqueezedParts(front, tool, cmd);
      }
    }
  }

  lemma LinkIsLinker(d: Planner.Draft, n: nat, compiled: seq<string>)
    requires d.w.host.Dos? && d.r.stage.Link? && n <= PlanNames.TEMP_LIMIT
    requires PlanParts.Suffix(d.LinkOutput()).Some? && d.LinkCommand(n, compiled).Some?
    ensures PlanParts.IsLinker(d.LinkCommand(n, compiled).value)
  {
    hide Planner.Draft.Entries;
    hide Planner.Draft.StartupFile;
    hide Planner.Draft.OverlayFiles;
    hide Planner.Draft.RuntimeFile;
    hide Planner.Draft.RootOptions;
    hide PlanParts.RawWords;
    hide PlanParts.ToolPath;
    hide PlanParts.Basename;
    hide PlanParts.Suffix;
    hide PlanParts.Fits;
    hide PlanNames.TempName;
    PlanParts.ToolHasName(d.w, "ln.exe");
    ToolNamesDiffer();
  }

  /** On DOS a drafted command compiles a source, squeezes one file, or links. */
  lemma DraftedParts(d: Planner.Draft, cmd: Command)
    requires d.w.host.Dos? && d.Suffixed() && d.CanDraft() && cmd in d.Drafted()
    ensures cmd in d.Compiled(|d.inputs|).value || |cmd.arguments| == 2 || PlanParts.IsLinker(cmd)
  {
    hide Planner.Draft.Compiled;
    hide Planner.Draft.CanCompile;
    hide Planner.Draft.LinkCommand;
    hide Planner.Draft.LinkAllowed;
    hide Planner.Draft.LinkHosts;
    hide PlanParts.AllPublishable;
    hide PlanParts.ProductsOf;
    hide PlanParts.Squeezed;
    hide PlanParts.IsLinker;
    hide PlanParts.Suffix;
    var compiled := d.Compiled(|d.inputs|).value;
    if cmd in PlanParts.Squeezed(compiled, d.SqueezeTool()) {
      SqueezedParts(compiled, d.SqueezeTool(), cmd);
    } else {
      d.TargetHasSuffix();
      LinkIsLinker(d, |compiled| + 1, PlanParts.ProductsOf(compiled));
    }
  }

  lemma SourcesAreCompiled(d: Planner.Draft)
    requires d.Suffixed() && d.CanDraft()
    ensures d.Compiled(|d.inputs|).Some?
  {
  }

  lemma CompiledIsDrafted(d: Planner.Draft, cmd: Command) returns (i: nat)
    requires d.Suffixed() && d.CanDraft() && cmd in d.Compiled(|d.inputs|).value
    ensures i < |d.Drafted()| && d.Drafted()[i] == cmd
  {
    hide Planner.Draft.Compiled;
    hide Planner.Draft.CanCompile;
    hide Planner.Draft.LinkCommand;
    hide Planner.Draft.LinkAllowed;
    hide Planner.Draft.LinkHosts;
    hide PlanParts.AllPublishable;
    hide PlanParts.ProductsOf;
    hide PlanParts.Squeezed;
    var compiled := d.Compiled(|d.inputs|).value;
    var j :| 0 <= j < |compiled| && compiled[j] == cmd;
    PlanParts.SqueezedHolds(compiled, d.SqueezeTool(), j);
    var squeezed := PlanParts.Squeezed(compiled, d.SqueezeTool());
    i :| 0 <= i < |squeezed| && squeezed[i] == cmd;
  }

  /** A command that compiles is uncut exactly when there is room for the workspace in its tail. */
  lemma CompileIsUncut(d: Planner.Draft, cmd: Command, site: Launch.Site)
    requires PlainTables(d) && d.w.host.Dos? && d.Compiled(|d.inputs|).Some? && cmd in d.Compiled(|d.inputs|).value
    requires !site.unix && Launch.ToolArguments(cmd.arguments, site).Some?
    ensures Launch.Uncut(cmd, site) <==>
      TailLength(cmd.arguments) + WordsOf(d.w, cmd.source) * Growth(site) <= TAIL_LIMIT
  {
    hide PlainTables;
    hide Planner.Draft.Compiled;
    hide PlanParts.IsLinker;
    hide WordsOf;
    hide WordsOnE;
    hide Growth;
    hide TailLength;
    hide Launch.ToolArguments;
    CompiledWords(d, |d.inputs|);
    TranslatedTail(cmd.arguments, site);
  }

  /** On DOS every tool of a plan gets all its words exactly when no compile command has too long a
      tail with the paths of the workspace in place of drive E. */
  lemma PlanIsUncut(d: Planner.Draft, plan: Plan, site: Launch.Site)
    requires d.Suffixed() && d.IsPlan(plan) && PlainTables(d) && d.w.host.Dos? && !site.unix
    requires forall i :: 0 <= i < |plan.commands| ==> Launch.ToolArguments(plan.commands[i].arguments, site).Some?
    ensures Launch.AllUncut(plan.commands, |plan.commands|, site) <==> TailsFit(d, site)
  {
    hide PlanParts.AllPublishable;
    hide PlanParts.Names;
    hide PlanParts.IsLinker;
    hide PlanParts.Printable;
    hide PlanParts.CanSerialise;
    hide PlanNames.FreshResponse;
    hide Planner.Draft.CanDraft;
    hide Planner.Draft.Drafted;
    hide Planner.Draft.Compiled;
    hide PlainTables;
    hide WordsOf;
    hide Growth;
    hide TailLength;
    hide Launch.ToolArguments;
    hide Launch.Uncut;
    SourcesAreCompiled(d);
    var compiled := d.Compiled(|d.inputs|).value;
    forall i | 0 <= i < |plan.commands|
      ensures if d.Drafted()[i] in compiled then plan.commands[i] == d.Drafted()[i]
              else Launch.Uncut(plan.commands[i], site)
    {
      PlanPart(d, plan, i, site);
    }
    forall cmd | cmd in compiled
      ensures exists i :: 0 <= i < |plan.commands| && d.Drafted()[i] == cmd
    {
      var i := CompiledIsDrafted(d, cmd);
    }
    forall cmd, i | cmd in compiled && 0 <= i < |plan.commands| && d.Drafted()[i] == cmd
      ensures Launch.Uncut(plan.commands[i], site) <==>
        TailLength(cmd.arguments) + WordsOf(d.w, cmd.source) * Growth(site) <= TAIL_LIMIT
    {
      CompileIsUncut(d, cmd, site);
    }
  }

  lemma PlanPart(d: Planner.Draft, plan: Plan, i: nat, site: Launch.Site)
    requires d.Suffixed() && d.IsPlan(plan) && PlainTables(d) && d.w.host.Dos? && !site.unix
    requires i < |plan.commands| && Launch.ToolArguments(plan.commands[i].arguments, site).Some?
    ensures if d.Drafted()[i] in d.Compiled(|d.inputs|).value then plan.commands[i] == d.Drafted()[i]
            else Launch.Uncut(plan.commands[i], site)
  {
    hide PlanParts.AllPublishable;
    hide PlanParts.Names;
    hide PlanParts.IsLinker;
    hide PlanParts.Printable;
    hide PlanParts.CanSerialise;
    hide PlanNames.FreshResponse;
    hide Planner.Draft.CanDraft;
    hide Planner.Draft.Drafted;
    hide Planner.Draft.Compiled;
    hide PlainTables;
    hide TailLength;
    hide Launch.ToolArguments;
    var was, now := d.Drafted()[i], plan.commands[i];
    assert was in d.Drafted() && PlanParts.Serialised(was, now);
    DraftedParts(d, was);
    SourcesAreCompiled(d);
    if was in d.Compiled(|d.inputs|).value {
      CompiledWords(d, |d.inputs|);
    } else if PlanParts.IsLinker(was) {
      LinkerTailFits(was, now, site);
    } else {
      ShortTailFits(now.arguments, site);
    }
  }

  /** A command whose tail is cut: it is accepted and run, but the path of the workspace, of 53
      characters, takes the place of drive E. */
  lemma TailIsCut()
    ensures
      var site := Launch.Site(false, DosPath.Letters(53, 'A'), "C:\\AZTEC");
      var cmd := Command(["D:\\BIN\\CC.EXE", "-o", "E:\\u0001.o", DosPath.Letters(100, 'X')], [], "",
                         "E:\\u0001.o", "X.C");
      && PlanParts.Passable(cmd) && Launch.Runnable(cmd, site) && !Launch.Uncut(cmd, site)
      && Launch.Received(Launch.ToolArguments(cmd.arguments, site).value, site) !=
           Launch.ToolArguments(cmd.arguments, site).value
  {
    hide DosPath.Letters;
    hide PlanParts.Printable;
    hide Launch.ToolArguments;
    hide Launch.OwnedName;
    hide Launch.Received;
    hide Growth;
    hide TailLength;
    hide WordsOnE;
    var site, long := Launch.Site(false, DosPath.Letters(53, 'A'), "C:\\AZTEC"), DosPath.Letters(100, 'X');
    var arguments := ["D:\\BIN\\CC.EXE", "-o", "E:\\u0001.o", long];
    CutCommandPasses(long);
    CutCommandRuns(site, long);
    TranslatedTail(arguments, site);
    LongWorkspace(site);
    Launch.ReceivedWhole(Launch.ToolArguments(arguments, site).value, site);
  }

  lemma LongWorkspace(site: Launch.Site)
    requires |site.work| == 53 && site.work[52] == 'A'
    ensures Growth(site) == 51
  {
  }

  lemma CutCommandPasses(long: string)
    requires |long| == 100 && forall i :: 0 <= i < 100 ==> long[i] == 'X'
    ensures
      var arguments := ["D:\\BIN\\CC.EXE", "-o", "E:\\u0001.o", long];
      && TailLength(arguments) == 115 && WordsOnE(arguments[1..]) == 1
      && forall i :: 0 < i < 4 ==> PlanParts.Printable(arguments[i])
  {
    var product, arguments := "E:\\u0001.o", ["D:\\BIN\\CC.EXE", "-o", "E:\\u0001.o", long];
    ThreeWords("-o", product, long);
    assert arguments[1..] == ["-o", product, long];
    assert "-o"[0] == '-' && long[0] == 'X' && product[..3] == "E:\\";
  }

  lemma ThreeWords(a: string, b: string, c: string)
    ensures Lengths([a, b, c]) == |a| + |b| + |c| + 3
    ensures WordsOnE([a, b, c]) == WordsOnE([a]) + WordsOnE([b]) + WordsOnE([c])
    ensures forall word :: WordsOnE([word]) == if OnDriveE(word) then 1 else 0
  {
    assert [a, b, c] == [a] + [b] + [c];
    LengthsOne(a);
    LengthsOne(b);
    LengthsOne(c);
    LengthsConcat([a], [b]);
    LengthsConcat([a] + [b], [c]);
    WordsOnEConcat([a], [b]);
    WordsOnEConcat([a] + [b], [c]);
    forall word
      ensures WordsOnE([word]) == if OnDriveE(word) then 1 else 0
    {
      WordsOnEOne(word);
    }
  }

  lemma CutCommandRuns(site: Launch.Site, long: string)
    requires !site.unix && |site.work| == 53 && site.root == "C:\\AZTEC" && long != "" && long[0] == 'X'
    ensures
      var product := "E:\\u0001.o";
      && Launch.OwnedName(site.work, product, DOS_PATH).Some?
      && Launch.ToolArguments(["D:\\BIN\\CC.EXE", "-o", product, long], site).Some?
  {
    hide Launch.HostWords;
    hide Launch.HostWord;
    var product, tool := "E:\\u0001.o", "D:\\BIN\\CC.EXE";
    var words := ["-o", product, long];
    assert product[3..] == "u0001.o" && product[..3] == "E:\\";
    assert forall c :: c in "u0001.o" ==> c in ['u', '0', '1', '.', 'o'];
    WordOnE("-o", site);
    WordOnE(product, site);
    WordOnE(long, site);
    assert "-o"[0] == '-';
    Launch.HostWordsExactly(words, site);
    assert tool[2] == '\\';
    assert [tool, "-o", product, long][1..] == words;
  }
}
