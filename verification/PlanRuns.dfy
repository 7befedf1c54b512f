/** What planning guarantees to the run of a plan. */
module PlanRuns {
  import opened Basics
  import opened PlanData
  import opened Strings
  import opened Publish
  import PlanNames
  import PlanParts
  import Planner
  import opened PlanWords
  import Disk
  import Launch
  import Execute

  /** The published host files of a plan are distinct, as a run needs them to be. */
  lemma OutputsAreDistinct(d: Planner.Draft, plan: Plan)
    requires d.Suffixed() && d.IsPlan(plan)
    ensures Execute.Distinct(plan.hostOutputs)
  {
    hide PlanParts.AllPublishable;
    hide PlanParts.NamesAt;
    hide PlanParts.Serialised;
    forall i, j | 0 <= i < j < |plan.hostOutputs|
      ensures plan.hostOutputs[i] != plan.hostOutputs[j]
    {
      PlanParts.OutputsDiffer(d.w, d.inputs, d.PlanHosts(), plan.outputs, plan.hostOutputs, i, j);
    }
  }

  /** Every tool of the plan has a host path that is not too long. */
  predicate ToolsFit(plan: Plan, site: Launch.Site)
  {
    forall cmd :: cmd in plan.commands ==> cmd.arguments != [] && Launch.HostTool(cmd.arguments[0], site).Some?
  }

  /** On DOS that depends on the tool root alone. */
  lemma DosToolsFit(d: Planner.Draft, plan: Plan, site: Launch.Site)
    requires d.Suffixed() && d.IsPlan(plan) && !site.unix
    ensures ToolsFit(plan, site) <==> plan.commands == [] || |site.root| + 13 < DOS_PATH
  {
    hide Planner.Draft.IsPlan;
    hide PlanParts.ToolPath;
    hide PlanParts.World.Guest;
    forall i | 0 <= i < |plan.commands|
      ensures plan.commands[i].arguments != [] && LastIndexOf(plan.commands[i].arguments[0], '\\') >= 0
    {
      PlanHasTools(d, plan, i);
      var name :| name in TOOLS && PlanParts.ToolPath(d.w, name) == Some(plan.commands[i].arguments[0]);
      ToolHasSeparator(d.w, name);
    }
    assert plan.commands != [] ==> plan.commands[0] in plan.commands;
  }

  lemma ToolHasSeparator(w: PlanParts.World, name: string)
    requires PlanParts.ToolPath(w, name).Some?
    ensures LastIndexOf(PlanParts.ToolPath(w, name).value, '\\') >= 0
  {
    hide PlanParts.World.Guest;
    var path := w.Join(w.Join(w.anchors.root, "bin").value, name).value;
    PlanParts.GuestHasSeparator(w, path);
  }

  // ---- Words on the drive of the workspace ----

  /** What DOS makes of a word: only one on drive E changes. A name in its root becomes the
      workspace file of that name, and anything else there is refused. */
  lemma WordOnE(word: string, site: Launch.Site)
    requires !site.unix
    ensures !OnDriveE(word) ==> Launch.HostWord(word, site) == Some(word)
    ensures
      OnDriveE(word) ==>
        var name := word[3..];
        && (Launch.HostWord(word, site).None? <==>
              '\\' in name || '/' in name || |site.work| + |name| + 2 > DOS_PATH)
        && (Launch.HostWord(word, site).Some? ==>
              && Launch.HostWord(word, site).value == Launch.DosJoin(site.work, name)
              && (Launch.HostWord(word, site).value == word <==> site.work == "E:\\" || site.work == "E:"))
  {
    if OnDriveE(word) && Launch.HostWord(word, site).Some? {
      var name, path := word[3..], Launch.DosJoin(site.work, word[3..]);
      assert word == "E:\\" + name;
      assert |path| == |word| ==> path[|path| - |name|..] == name;
      if path == word {
        var head := path[..|path| - |name|];
        assert head == "E:\\";
        assert site.work == head || site.work + "\\" == head;
        assert (site.work + "\\")[..|site.work|] == site.work && "E:\\"[..2] == "E:";
      }
    }
  }

  /** So a source in the root of drive E is silently taken from the workspace instead, and one in a
      directory of drive E is refused. */
  lemma SourcesOnE()
    ensures
      var site := Launch.Site(false, "C:\\AAAAAAA", "C:\\AZTEC");
      && Launch.HostWord("E:\\HELLO.C", site) == Some("C:\\AAAAAAA\\HELLO.C")
      && Launch.HostWord("E:\\SRC\\X.C", site) == None
  {
    var site := Launch.Site(false, "C:\\AAAAAAA", "C:\\AZTEC");
    WordOnE("E:\\HELLO.C", site);
    WordOnE("E:\\SRC\\X.C", site);
    assert "E:\\HELLO.C"[3..] == "HELLO.C" && "E:\\SRC\\X.C"[3..] == "SRC\\X.C";
    assert "SRC\\X.C"[3] == '\\' && site.work[|site.work| - 1] == 'A';
    assert forall c :: c in "HELLO.C" ==> c in ['H', 'E', 'L', 'O', '.', 'C'];
    assert "C:\\AAAAAAA" + "\\" + "HELLO.C" == "C:\\AAAAAAA\\HELLO.C";
  }

  /** On DOS a host file is on the drive of the workspace exactly when its canonical path is on
      drive E; on Unix none is. */
  lemma OnDriveEOnly(w: PlanParts.World, path: string)
    requires w.Guest(path).Some?
    ensures OnDriveE(w.Guest(path).value) <==> w.host.Dos? && w.Canonical(path).value[0] == 'E'
  {
    hide PlanParts.World.Guest;
    hide PlanParts.World.Canonical;
    PlanParts.GuestHasSeparator(w, path);
    var guest := w.Guest(path).value;
    assert w.host.Unix? ==> guest[0] == "CD"[0] || guest[0] == "CD"[1];
    assert guest[..3] == [guest[0], ':', '\\'];
  }

  /** The commands of a plan can be run exactly when the tools have host paths and, on DOS, no host
      file lies in a directory of drive E, if the path of the workspace leaves room for 8.3 names. */
  lemma PlanIsRunnable(d: Planner.Draft, plan: Plan, site: Launch.Site)
    requires d.Suffixed() && d.IsPlan(plan) && d.DefaultIsProgram() && |site.work| + 11 <= site.Limit()
    requires site.unix || PlainTables(d)
    ensures Launch.AllRunnable(plan.commands, site) <==>
      ToolsFit(plan, site) && (site.unix || forall word :: HostFile(d, word) ==> Launch.HostWord(word, site).Some?)
    ensures forall i :: 0 <= i < |plan.products| ==> Launch.OwnedName(site.work, plan.products[i], site.Limit()).Some?
  {
    hide PlanParts.AllPublishable;
    hide PlanParts.Names;
    hide PlanParts.Serialised;
    hide PlanNames.InWorkspace;
    hide PlanParts.IsLinker;
    hide Launch.OwnedName;
    hide Launch.Runnable;
    hide Launch.HostWord;
    hide Launch.HostTool;
    hide HostFile;
    hide PlainTables;
    d.DraftedStaysInWorkspace();
    forall i | 0 <= i < |plan.commands| && ToolsFit(plan, site)
      ensures
        site.unix || (forall word :: HostFile(d, word) ==> Launch.HostWord(word, site).Some?) ==>
          Launch.Runnable(plan.commands[i], site)
    {
      assert d.Drafted()[i] in d.Drafted() && plan.commands[i] in plan.commands;
      if site.unix || (forall word :: HostFile(d, word) ==> Launch.HostWord(word, site).Some?) {
        CommandIsRunnable(d, plan, i, site);
      }
    }
    if Launch.AllRunnable(plan.commands, site) {
      RunnableFits(plan, site);
      forall word | HostFile(d, word)
        ensures Launch.HostWord(word, site).Some?
      {
        var k := HostFileIsWord(d, plan, word);
        assert plan.commands[k] in plan.commands;
        RunnableHasWord(plan.commands[k], word, site);
      }
    }
    forall i | 0 <= i < |plan.products|
      ensures Launch.OwnedName(site.work, plan.products[i], site.Limit()).Some?
    {
      WorkspaceNameIsOwned(plan.products[i], site.work, site.Limit());
    }
  }

  lemma RunnableFits(plan: Plan, site: Launch.Site)
    requires Launch.AllRunnable(plan.commands, site)
    ensures ToolsFit(plan, site)
  {
    hide Launch.OwnedName;
    hide Launch.HostWords;
    hide Launch.HostTool;
    forall cmd | cmd in plan.commands
      ensures cmd.arguments != [] && Launch.HostTool(cmd.arguments[0], site).Some?
    {
      assert Launch.Runnable(cmd, site);
    }
  }

  lemma RunnableHasWord(cmd: Command, word: string, site: Launch.Site)
    requires Launch.Runnable(cmd, site) && HasWord(cmd, word)
    ensures Launch.HostWord(word, site).Some?
  {
    hide Launch.OwnedName;
    hide Launch.HostWord;
    hide Launch.HostWords;
    hide Launch.HostTool;
    Launch.HostWordsExactly(Tail(cmd.arguments), site);
    Launch.HostWordsExactly(Tail(cmd.response), site);
  }

  lemma CommandIsRunnable(d: Planner.Draft, plan: Plan, i: nat, site: Launch.Site)
    requires d.Suffixed() && d.IsPlan(plan) && d.DefaultIsProgram() && i < |plan.commands|
    requires |site.work| + 11 <= site.Limit() && ToolsFit(plan, site)
    requires site.unix || (PlainTables(d) && forall word :: HostFile(d, word) ==> Launch.HostWord(word, site).Some?)
    ensures Launch.Runnable(plan.commands[i], site)
  {
    hide PlanParts.AllPublishable;
    hide PlanParts.Names;
    hide PlanParts.IsLinker;
    hide PlanParts.Passable;
    hide PlanParts.CanSerialise;
    hide PlanNames.InWorkspace;
    hide PlanNames.TempName;
    hide Planner.Draft.CanDraft;
    hide Planner.Draft.Drafted;
    hide Launch.OwnedName;
    hide Launch.HostWord;
    hide Launch.HostWords;
    hide Launch.HostTool;
    hide HostFile;
    hide PlainTables;
    hide Known;
    var was, now := d.Drafted()[i], plan.commands[i];
    d.DraftedStaysInWorkspace();
    assert was in d.Drafted() && now in plan.commands && PlanParts.Serialised(was, now);
    WorkspaceNameIsOwned(was.product, site.work, site.Limit());
    if PlanParts.IsLinker(was) {
      ResponseIsOwned(now.responseFile, d.NamesUsed(), site);
    }
    if site.unix {
      Launch.HostWordsExactly(now.arguments[1..], site);
      Launch.HostWordsExactly(Tail(now.response), site);
    } else {
      PlanIsKnown(d, plan, i);
      TailIsHosted(d, now.response, site);
      if Known(d, now.arguments) {
        TailIsHosted(d, now.arguments, site);
      } else {
        PairIsHosted(now.responseFile, site);
      }
    }
    if !PlanParts.IsLinker(was) {
      DraftedHasNoResponse(d, i);
    }
  }

  lemma ResponseIsOwned(file: string, from: nat, site: Launch.Site)
    requires PlanNames.FreshResponse(file, from, PlanNames.TEMP_LIMIT) && |site.work| + 11 <= site.Limit()
    ensures PlanNames.InWorkspace(file) && Launch.OwnedName(site.work, file, site.Limit()).Some?
  {
    hide PlanNames.TempName;
    hide Launch.OwnedName;
    var n :| from < n <= PlanNames.TEMP_LIMIT && n <= PlanNames.TEMP_LIMIT && file == PlanNames.TempName(n, "rsp");
    PlanNames.TempInWorkspace(n, "rsp");
    WorkspaceNameIsOwned(file, site.work, site.Limit());
  }

  lemma PairIsHosted(file: string, site: Launch.Site)
    requires !site.unix && Launch.OwnedName(site.work, file, DOS_PATH).Some?
    ensures Launch.HostWords(["-f", file], site).Some?
  {
    hide Launch.HostWords;
    Launch.HostWordsExactly(["-f", file], site);
    assert "-f"[0] == '-';
  }

  lemma TailIsHosted(d: Planner.Draft, words: seq<string>, site: Launch.Site)
    requires d.Suffixed() && d.CanDraft() && d.DefaultIsProgram() && !site.unix && |site.work| + 11 <= DOS_PATH
    requires Known(d, words) && forall word :: HostFile(d, word) ==> Launch.HostWord(word, site).Some?
    ensures Launch.HostWords(Tail(words), site).Some?
  {
    hide PlanNames.InWorkspace;
    hide Planner.Draft.CanDraft;
    hide Launch.OwnedName;
    hide Launch.HostWords;
    hide HostFile;
    Launch.HostWordsExactly(Tail(words), site);
    forall word | word in Tail(words)
      ensures Launch.HostWord(word, site).Some?
    {
      if OnDriveE(word) && word in d.WorkspaceNames() {
        NamesAreInWorkspace(d, word);
        WorkspaceNameIsOwned(word, site.work, DOS_PATH);
      }
    }
  }

  lemma NamesAreInWorkspace(d: Planner.Draft, name: string)
    requires d.Suffixed() && d.CanDraft() && d.DefaultIsProgram() && name in d.WorkspaceNames()
    ensures PlanNames.InWorkspace(name)
  {
    hide Planner.Draft.Compiled;
    hide Planner.Draft.CanCompile;
    hide Planner.Draft.TargetFits;
    hide Planner.Draft.CanLink;
    hide Planner.Draft.PlanProducts;
    hide PlanParts.AllPublishable;
    hide PlanNames.InWorkspace;
    hide PlanParts.ProductsOf;
    var compiled := d.Compiled(|d.inputs|).value;
    d.DraftedStaysInWorkspace();
    d.CompiledStaysInWorkspace(|d.inputs|);
    if name in PlanParts.ProductsOf(compiled) {
      var j :| 0 <= j < |compiled| && PlanParts.ProductsOf(compiled)[j] == name;
      assert compiled[j] in compiled;
    }
  }

  lemma NoSeparators(digits: string, suffix: string)
    requires |digits| == 4 && forall i :: 0 <= i < 4 ==> '0' <= digits[i] <= '9'
    requires '/' !in suffix && '\\' !in suffix
    ensures var name := "u" + digits + "." + suffix; '/' !in name && '\\' !in name
  {
  }

  lemma WorkspaceNameIsOwned(name: string, work: string, limit: nat)
    requires PlanNames.InWorkspace(name) && |work| + 11 <= limit
    ensures Launch.OwnedName(work, name, limit).Some?
  {
    var n: nat, suffix :| n <= PlanNames.TEMP_LIMIT && |suffix| <= 3 && '/' !in suffix && '\\' !in suffix &&
                          name == PlanNames.TempName(n, suffix);
    hide PlanNames.InWorkspace;
    var digits := [PlanNames.Digit(n / 1000), PlanNames.Digit(n / 100 % 10), PlanNames.Digit(n / 10 % 10),
                   PlanNames.Digit(n % 10)];
    PlanNames.DigitsPrint(n / 1000);
    PlanNames.DigitsPrint(n / 100 % 10);
    PlanNames.DigitsPrint(n / 10 % 10);
    PlanNames.DigitsPrint(n % 10);
    hide PlanNames.Digit;
    NoSeparators(digits, suffix);
    assert name == "E:\\u" + digits + "." + suffix;
    assert name[..3] == "E:\\" && name[3..] == "u" + digits + "." + suffix;
  }

  /** A linker is started with -f and the path of a file whose lines are its words, each as the host has
      it. */
  lemma LinkerReadsWords(was: Command, now: Command, run: Disk.Run, site: Launch.Site)
    requires PlanParts.Serialised(was, now) && PlanParts.IsLinker(was) && Launch.RunOf(run, now, site)
    requires '\r' !in site.work
    ensures
      var arguments := Launch.ToolArguments(now.arguments, site);
      && arguments.Some? && |arguments.value| == 3 && arguments.value[1] == "-f"
      && Launch.HostWord(now.responseFile, site) == Some(arguments.value[2])
      && run.arguments == Launch.Received(arguments.value, site)
    ensures
      && |was.arguments| > 0 && OnDriveE(now.responseFile) && now.responseFile[3..] in run.work
      && var lines := Launch.Lines(run.work[now.responseFile[3..]], "");
         && |lines| == |was.arguments| - 1
         && forall i :: 0 <= i < |lines| ==> Launch.HostWord(was.arguments[i + 1], site) == Some(lines[i])
  {
    assert was.arguments != [] && now.response == was.arguments;
    assert forall i :: 0 < i < |was.arguments| ==> PlanParts.Printable(was.arguments[i]);
    assert now.arguments[1..] == ["-f", now.responseFile];
    hide PlanParts.IsLinker;
    hide PlanParts.Serialised;
    hide Launch.HostWord;
    hide Launch.HostTool;
    hide Launch.Received;
    hide Launch.ResponseText;
    Launch.HostWordsExactly(now.arguments[1..], site);
    Launch.HostWordsExactly(now.response[1..], site);
    var hosted := Launch.HostWords(now.response[1..], site).value;
    OptionIsKept(site);
    forall i | 0 <= i < |hosted|
      ensures '\r' !in hosted[i]
    {
      HostedIsPrintable(was.arguments[i + 1], site);
    }
    Launch.ResponseReadsBack(hosted);
  }

  lemma OptionIsKept(site: Launch.Site)
    ensures Launch.HostWord("-f", site) == Some("-f")
  {
    assert "-f"[0] == '-';
  }

  lemma HostedIsPrintable(word: string, site: Launch.Site)
    requires PlanParts.Printable(word) && '\r' !in site.work && Launch.HostWord(word, site).Some?
    ensures '\r' !in Launch.HostWord(word, site).value
  {
  }

  /** The response file of a serialised linker command gives back its original arguments. */
  lemma ResponseGivesArguments(was: Command, now: Command)
    requires PlanParts.Serialised(was, now) && PlanParts.IsLinker(was)
    ensures was.arguments != [] && now.response == was.arguments
    ensures Launch.Lines(Launch.ResponseText(now.response[1..]), "") == was.arguments[1..]
  {
    assert was.arguments != [];
    hide PlanParts.IsLinker;
    var words := now.response[1..];
    forall i | 0 <= i < |words|
      ensures '\r' !in words[i]
    {
      assert words[i] == was.arguments[i + 1];
      assert PlanParts.Printable(was.arguments[i + 1]);
    }
    Launch.ResponseReadsBack(words);
  }
}
