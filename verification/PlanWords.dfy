/** The words of a plan that lie on the drive of the workspace: which of them are workspace files,
    and which are files of the host. */
module PlanWords {
  import opened Basics
  import opened PlanData
  import opened PlanNames
  import opened PlanParts
  import opened Planner

  predicate PlainWords(words: seq<string>)
  {
    forall word :: word in words ==> !OnDriveE(word)
  }

  predicate PlainRaw(p: Profile, tool: string, options: seq<string>)
  {
    RawWords(p, tool, options).Some? ==> PlainWords(RawWords(p, tool, options).value)
  }

  /** No flag of the tables, raw option or overlay address looks like a file of drive E. */
  predicate PlainTables(d: Draft)
  {
    && PlainWords(d.p.ccFlags) && PlainWords(d.p.asFlags) && PlainWords(d.p.macros) && PlainWords(d.RootOptions())
    && PlainRaw(d.p, "cc", d.r.ccOptions) && PlainRaw(d.p, "as", d.r.asOptions) && PlainRaw(d.p, "ln", d.r.lnOptions)
  }

  /** A file of the host that some command gets as a word of its own: a source, another input of the
      linker, or a file of the installation. */
  ghost predicate HostFile(d: Draft, word: string)
  {
    || (exists i :: SourceWord(d, i, word))
    || (d.r.stage.Link? && (InstalledFile(d, word) || exists i :: LinkedWord(d, i, word)))
  }

  ghost predicate SourceWord(d: Draft, i: int, word: string)
  {
    0 <= i < |d.inputs| && IsSource(d.inputs[i]) && d.w.Guest(d.inputs[i]) == Some(word)
  }

  ghost predicate LinkedWord(d: Draft, i: int, word: string)
  {
    0 <= i < |d.inputs| && !IsSource(d.inputs[i]) && d.EntryFor([], i) == Some(word)
  }

  predicate InstalledFile(d: Draft, word: string)
  {
    || (d.StartupFile().Some? && word in d.StartupFile().value)
    || (d.OverlayFiles().Some? && word in d.OverlayFiles().value)
    || (d.RuntimeFile().Some? && word in d.RuntimeFile().value)
  }

  /** Behind its first word `words` has no file of drive E but files of the workspace and of the host. */
  ghost predicate Known(d: Draft, words: seq<string>)
    requires d.Suffixed() && d.CanDraft()
  {
    forall word :: word in Tail(words) && OnDriveE(word) ==> word in d.WorkspaceNames() || HostFile(d, word)
  }

  // ---- Compile commands ----

  lemma {:induction false} DefinitionsArePlain(args: seq<string>, definitions: seq<string>, isC: bool)
    requires args != [] && PlainWords(args[1..]) && AddDefinitions(args, definitions, isC).Some?
    ensures PlainWords(AddDefinitions(args, definitions, isC).value[1..])
    decreases definitions
  {
    hide Decimal;
    if definitions != [] {
      var word := "-D" + definitions[0];
      assert word[0] == '-' && (args + [word])[1..] == args[1..] + [word];
      DefinitionsArePlain(args + [word], definitions[1..], isC);
    }
  }

  lemma {:induction false} AreasArePlain(w: World, args: seq<string>, areas: seq<string>)
    requires args != [] && PlainWords(args[1..]) && AddAreas(w, args, areas).Some?
    ensures PlainWords(AddAreas(w, args, areas).value[1..])
    decreases areas
  {
    hide World.Guest;
    if areas != [] {
      var word := "-I" + w.Guest(areas[0]).value;
      assert word[0] == '-' && (args + [word])[1..] == args[1..] + [word];
      AreasArePlain(w, args + [word], areas[1..]);
    }
  }

  lemma CompilerIsPlain(d: Draft, input: string)
    requires PlainTables(d) && d.CompilerArguments(input).Some?
    ensures d.CompilerArguments(input).value != [] && PlainWords(d.CompilerArguments(input).value[1..])
  {
    hide AddWords;
    hide AddDefinitions;
    hide AddAreas;
    hide RawWords;
    hide ToolPath;
    hide Classify;
    hide PlainWords;
    var isC := Classify(input).CSource?;
    var tool := ToolPath(d.w, if isC then "cc.exe" else "as.exe").value;
    var flags := if isC then d.p.ccFlags else d.p.asFlags;
    var raw := RawWords(d.p, if isC then "cc" else "as", if isC then d.r.ccOptions else d.r.asOptions).value;
    var args := [tool] + flags + raw + d.p.macros;
    assert args[1..] == flags + raw + d.p.macros;
    PlainSum(flags, raw);
    PlainSum(flags + raw, d.p.macros);
    DefinitionsArePlain(args, d.r.definitions, isC);
    AreasArePlain(d.w, AddDefinitions(args, d.r.definitions, isC).value, d.includes);
  }

  lemma PlainSum(a: seq<string>, b: seq<string>)
    requires PlainWords(a) && PlainWords(b)
    ensures PlainWords(a + b)
  {
  }

  lemma CompileIsKnown(d: Draft, i: nat, n: nat)
    requires d.Suffixed() && d.CanDraft() && PlainTables(d)
    requires i < |d.inputs| && IsSource(d.inputs[i]) && n <= TEMP_LIMIT
    requires d.CompileCommand(d.inputs[i], n).Some? && d.CompileCommand(d.inputs[i], n).value.product in d.WorkspaceNames()
    ensures Known(d, d.CompileCommand(d.inputs[i], n).value.arguments)
  {
    hide Draft.CanDraft;
    hide Draft.WorkspaceNames;
    hide Draft.CompilerArguments;
    hide AddWords;
    hide TempName;
    hide IsSource;
    hide World.Guest;
    hide PlainTables;
    var cmd := d.CompileCommand(d.inputs[i], n).value;
    var head, guest := d.CompilerArguments(d.inputs[i]).value, d.w.Guest(d.inputs[i]).value;
    CompilerIsPlain(d, d.inputs[i]);
    assert Tail(cmd.arguments) == head[1..] + ["-o", cmd.product, guest];
    assert SourceWord(d, i, guest);
  }

  lemma {:induction false} CompiledIsKnown(d: Draft, k: nat)
    requires d.Suffixed() && d.CanDraft() && PlainTables(d) && k <= |d.inputs| && d.Compiled(k).Some?
    requires forall cmd :: cmd in d.Compiled(k).value ==> cmd.product in d.WorkspaceNames()
    ensures forall cmd :: cmd in d.Compiled(k).value ==> Known(d, cmd.arguments)
  {
    hide Draft.CanDraft;
    hide Draft.WorkspaceNames;
    hide Draft.CompileCommand;
    hide IsSource;
    hide PlainTables;
    hide Known;
    if k > 0 {
      var before := d.Compiled(k - 1).value;
      if IsSource(d.inputs[k - 1]) {
        assert d.Compiled(k).value == before + [d.CompileCommand(d.inputs[k - 1], |before| + 1).value];
        assert d.CompileCommand(d.inputs[k - 1], |before| + 1).value in d.Compiled(k).value;
        CompileIsKnown(d, k - 1, |before| + 1);
      }
      assert forall cmd :: cmd in before ==> cmd in d.Compiled(k).value;
      CompiledIsKnown(d, k - 1);
    }
  }

  lemma {:induction false} SqueezedIsKnown(d: Draft, compiled: seq<Command>, tool: Option<string>)
    requires d.Suffixed() && d.CanDraft()
    requires forall cmd :: cmd in compiled ==> Known(d, cmd.arguments) && cmd.product in d.WorkspaceNames()
    ensures forall cmd :: cmd in Squeezed(compiled, tool) ==> Known(d, cmd.arguments)
  {
    hide Draft.CanDraft;
    hide Draft.WorkspaceNames;
    hide HostFile;
    if compiled != [] {
      assert compiled[|compiled| - 1] in compiled;
      SqueezedIsKnown(d, compiled[..|compiled| - 1], tool);
    }
  }

  // ---- The linker command ----

  lemma EntryIsKnown(d: Draft, compiled: seq<string>, i: nat)
    requires d.Suffixed() && d.CanDraft() && d.r.stage.Link? && i < |d.inputs|
    requires d.EntryFor(compiled, i).Some? && forall name :: name in compiled ==> name in d.WorkspaceNames()
    ensures d.EntryFor(compiled, i).value in d.WorkspaceNames() || HostFile(d, d.EntryFor(compiled, i).value)
  {
    hide Draft.CanDraft;
    hide Draft.WorkspaceNames;
    hide IsSource;
    hide Classify;
    hide NamedLibrary;
    hide World.Guest;
    if !IsSource(d.inputs[i]) {
      assert LinkedWord(d, i, d.EntryFor(compiled, i).value);
    }
  }

  lemma LinkIsKnown(d: Draft, n: nat, compiled: seq<string>)
    requires d.Suffixed() && d.CanDraft() && PlainTables(d) && d.r.stage.Link?
    requires n <= TEMP_LIMIT && Suffix(d.LinkOutput()).Some? && d.LinkCommand(n, compiled).Some?
    requires forall name :: name in compiled ==> name in d.WorkspaceNames()
    requires d.LinkCommand(n, compiled).value.product in d.WorkspaceNames()
    ensures Known(d, d.LinkCommand(n, compiled).value.arguments)
  {
    hide Draft.CanDraft;
    hide Draft.WorkspaceNames;
    hide Draft.EntryFor;
    hide Draft.Entries;
    hide Draft.StartupFile;
    hide Draft.OverlayFiles;
    hide Draft.RuntimeFile;
    hide Draft.RootOptions;
    hide RawWords;
    hide ToolPath;
    hide TempName;
    hide Suffix;
    hide Fits;
    var cmd := d.LinkCommand(n, compiled).value;
    var raw, entries := RawWords(d.p, "ln", d.r.lnOptions).value, d.Entries(compiled, |d.inputs|).value;
    var startup, overlay, runtime := d.StartupFile().value, d.OverlayFiles().value, d.RuntimeFile().value;
    assert cmd.arguments[1..] ==
      ["-o", cmd.product] + d.RootOptions() + raw + d.Flag() + startup + entries + overlay + runtime;
    forall word | word in Tail(cmd.arguments) && OnDriveE(word)
      ensures word in d.WorkspaceNames() || HostFile(d, word)
    {
      if word in entries {
        var i :| 0 <= i < |entries| && entries[i] == word;
        EntryIsKnown(d, compiled, i);
      }
    }
  }

  // ---- The plan ----

  lemma DraftedIsKnown(d: Draft)
    requires d.Suffixed() && d.CanDraft() && PlainTables(d)
    ensures forall cmd :: cmd in d.Drafted() ==> Known(d, cmd.arguments)
  {
    hide Draft.Compiled;
    hide Draft.CanCompile;
    hide Draft.LinkWords;
    hide Draft.TargetSuffix;
    hide Draft.LinkAllowed;
    hide Squeezed;
    hide Known;
    hide PlainTables;
    hide AllPublishable;
    hide ProductsOf;
    hide Suffix;
    hide TempName;
    hide Draft.LinkHosts;
    var compiled := d.Compiled(|d.inputs|).value;
    assert forall i :: 0 <= i < |compiled| ==> ProductsOf(compiled)[i] == compiled[i].product;
    assert forall cmd :: cmd in compiled ==> cmd.product in d.WorkspaceNames();
    CompiledIsKnown(d, |d.inputs|);
    SqueezedIsKnown(d, compiled, d.SqueezeTool());
    if d.r.stage.Link? {
      d.TargetHasSuffix();
      assert d.PlanProducts()[0] in d.WorkspaceNames();
      LinkIsKnown(d, |compiled| + 1, ProductsOf(compiled));
    }
  }

  /** All words of a plan that lie on drive E: its own files, and files of the host. */
  lemma PlanIsKnown(d: Draft, plan: Plan, i: nat)
    requires d.Suffixed() && d.IsPlan(plan) && PlainTables(d) && i < |plan.commands|
    ensures Known(d, plan.commands[i].response)
    ensures Known(d, plan.commands[i].arguments) ||
      (IsLinker(d.Drafted()[i]) && Tail(plan.commands[i].arguments) == ["-f", plan.commands[i].responseFile])
  {
    hide AllPublishable;
    hide Names;
    hide IsLinker;
    hide Passable;
    hide FreshResponse;
    hide CanSerialise;
    hide Draft.CanDraft;
    hide Draft.Drafted;
    hide PlainTables;
    hide HostFile;
    DraftedIsKnown(d);
    assert d.Drafted()[i] in d.Drafted();
    assert Serialised(d.Drafted()[i], plan.commands[i]);
    if !IsLinker(d.Drafted()[i]) {
      DraftedHasNoResponse(d, i);
    }
  }

  lemma DraftedHasNoResponse(d: Draft, i: nat)
    requires d.Suffixed() && d.CanDraft() && i < |d.Drafted()|
    ensures d.Drafted()[i].response == []
  {
    hide Draft.Compiled;
    hide Draft.CanCompile;
    hide Draft.TargetFits;
    hide Squeezed;
    hide AllPublishable;
    hide ProductsOf;
    hide Draft.LinkWords;
    hide Draft.LinkHosts;
    hide Draft.TargetSuffix;
    hide TempName;
    hide Suffix;
    var compiled := d.Compiled(|d.inputs|).value;
    CompiledHasNoResponse(d, |d.inputs|);
    SqueezedHasNoResponse(compiled, d.SqueezeTool());
    var squeezed := Squeezed(compiled, d.SqueezeTool());
    if i < |squeezed| {
      assert d.Drafted()[i] == squeezed[i] && squeezed[i] in squeezed;
    }
  }

  lemma {:induction false} CompiledHasNoResponse(d: Draft, k: nat)
    requires k <= |d.inputs| && d.Compiled(k).Some?
    ensures forall cmd :: cmd in d.Compiled(k).value ==> cmd.response == []
  {
    hide IsSource;
    hide Draft.CompilerArguments;
    hide World.Guest;
    hide AddWords;
    hide TempName;
    if k > 0 {
      CompiledHasNoResponse(d, k - 1);
    }
  }

  lemma {:induction false} SqueezedHasNoResponse(compiled: seq<Command>, tool: Option<string>)
    requires forall cmd :: cmd in compiled ==> cmd.response == []
    ensures forall cmd :: cmd in Squeezed(compiled, tool) ==> cmd.response == []
  {
    if compiled != [] {
      assert compiled[|compiled| - 1] in compiled;
      SqueezedHasNoResponse(compiled[..|compiled| - 1], tool);
    }
  }

  // ---- Host files are words ----

  /** `word` is one of the words behind the tool, in the command or in its response file. */
  predicate HasWord(cmd: Command, word: string)
  {
    word in Tail(cmd.arguments) || word in Tail(cmd.response)
  }

  lemma {:induction false} SourceIsCompiled(d: Draft, k: nat, i: nat, word: string) returns (cmd: Command)
    requires i < k <= |d.inputs| && d.Compiled(k).Some? && SourceWord(d, i, word)
    ensures cmd in d.Compiled(k).value && HasWord(cmd, word)
  {
    hide IsSource;
    hide Draft.CompilerArguments;
    hide World.Guest;
    hide AddWords;
    hide TempName;
    if i < k - 1 {
      cmd := SourceIsCompiled(d, k - 1, i, word);
    } else {
      cmd := d.Compiled(k).value[|d.Compiled(k - 1).value|];
      SourceIsLast(d, d.inputs[i], |d.Compiled(k - 1).value| + 1, word);
    }
  }

  lemma SourceIsLast(d: Draft, input: string, n: nat, word: string)
    requires n <= TEMP_LIMIT && d.CompileCommand(input, n).Some? && d.w.Guest(input) == Some(word)
    ensures HasWord(d.CompileCommand(input, n).value, word)
  {
    hide Draft.CompilerArguments;
    hide World.Guest;
    hide AddWords;
    hide TempName;
    var cmd := d.CompileCommand(input, n).value;
    var head := d.CompilerArguments(input).value;
    assert cmd.arguments == head + ["-o", cmd.product, word];
    assert cmd.arguments[1..][|head| + 1] == word;
  }

  lemma HostFileIsDrafted(d: Draft, word: string) returns (k: nat)
    requires d.Suffixed() && d.CanDraft() && HostFile(d, word)
    ensures k < |d.Drafted()| && HasWord(d.Drafted()[k], word)
  {
    hide Draft.Compiled;
    hide Draft.CanCompile;
    hide Draft.TargetFits;
    hide Draft.LinkCommand;
    hide Draft.LinkHosts;
    hide Draft.TargetSuffix;
    hide Squeezed;
    hide AllPublishable;
    hide ProductsOf;
    hide World.Guest;
    hide IsSource;
    hide Suffix;
    hide InstalledFile;
    hide LinkedWord;
    hide HasWord;
    var compiled := d.Compiled(|d.inputs|).value;
    if i :| SourceWord(d, i, word) {
      var cmd := SourceIsCompiled(d, |d.inputs|, i, word);
      var j :| 0 <= j < |compiled| && compiled[j] == cmd;
      SqueezedHolds(compiled, d.SqueezeTool(), j);
      k :| 0 <= k < |Squeezed(compiled, d.SqueezeTool())| && Squeezed(compiled, d.SqueezeTool())[k] == cmd;
    } else {
      k := |d.Drafted()| - 1;
      d.TargetHasSuffix();
      LinkHasWord(d, |compiled| + 1, ProductsOf(compiled), word);
    }
  }

  lemma LinkHasWord(d: Draft, n: nat, compiled: seq<string>, word: string)
    requires n <= TEMP_LIMIT && Suffix(d.LinkOutput()).Some? && d.LinkCommand(n, compiled).Some?
    requires InstalledFile(d, word) || exists i :: LinkedWord(d, i, word)
    ensures HasWord(d.LinkCommand(n, compiled).value, word)
  {
    hide Draft.EntryFor;
    hide Draft.Entries;
    hide Draft.StartupFile;
    hide Draft.OverlayFiles;
    hide Draft.RuntimeFile;
    hide Draft.RootOptions;
    hide RawWords;
    hide ToolPath;
    hide TempName;
    hide Suffix;
    hide Fits;
    var link := d.LinkCommand(n, compiled).value;
    var entries := d.Entries(compiled, |d.inputs|).value;
    assert link.arguments[1..] ==
      ["-o", link.product] + d.RootOptions() + RawWords(d.p, "ln", d.r.lnOptions).value + d.Flag() +
      d.StartupFile().value + entries + d.OverlayFiles().value + d.RuntimeFile().value;
    if !InstalledFile(d, word) {
      var i :| LinkedWord(d, i, word);
      LinkedIsEntry(d, compiled, i, word);
      assert word in entries;
    }
  }

  lemma LinkedIsEntry(d: Draft, compiled: seq<string>, i: int, word: string)
    requires LinkedWord(d, i, word) && d.Entries(compiled, |d.inputs|).Some?
    ensures 0 <= i < |d.inputs| && d.Entries(compiled, |d.inputs|).value[i] == word
  {
    hide IsSource;
    hide Classify;
    hide NamedLibrary;
    hide World.Guest;
    hide Draft.Entries;
    assert d.EntryFor(compiled, i) == Some(d.Entries(compiled, |d.inputs|).value[i]);
  }

  /** Every host file is a word of some command of the plan, or of its response file. */
  lemma HostFileIsWord(d: Draft, plan: Plan, word: string) returns (k: nat)
    requires d.Suffixed() && d.IsPlan(plan) && HostFile(d, word)
    ensures k < |plan.commands| && HasWord(plan.commands[k], word)
  {
    hide AllPublishable;
    hide Names;
    hide IsLinker;
    hide Passable;
    hide FreshResponse;
    hide CanSerialise;
    hide Draft.CanDraft;
    hide Draft.Drafted;
    hide HostFile;
    k := HostFileIsDrafted(d, word);
    assert Serialised(d.Drafted()[k], plan.commands[k]);
    DraftedHasNoResponse(d, k);
  }

  // ---- Tools ----

  const TOOLS := ["cc.exe", "as.exe", "ln.exe", "sqz.exe"]

  /** The first word of `cmd` is the guest path of a tool of the installation. */
  ghost predicate HasTool(d: Draft, cmd: Command)
  {
    cmd.arguments != [] && exists name :: name in TOOLS && ToolPath(d.w, name) == Some(cmd.arguments[0])
  }

  lemma CompilerHasTool(d: Draft, input: string, n: nat)
    requires n <= TEMP_LIMIT && d.CompileCommand(input, n).Some?
    ensures HasTool(d, d.CompileCommand(input, n).value)
  {
    hide AddWords;
    hide AddDefinitions;
    hide AddAreas;
    hide RawWords;
    hide ToolPath;
    hide Classify;
    hide TempName;
    hide World.Guest;
    var name := if Classify(input).CSource? then "cc.exe" else "as.exe";
    var args := d.CompilerArguments(input).value;
    assert [ToolPath(d.w, name).value] <= args;
    assert args[0] == ToolPath(d.w, name).value;
  }

  lemma {:induction false} CompiledHasTools(d: Draft, k: nat)
    requires k <= |d.inputs| && d.Compiled(k).Some?
    ensures forall cmd :: cmd in d.Compiled(k).value ==> HasTool(d, cmd)
  {
    hide IsSource;
    hide Draft.CompileCommand;
    hide HasTool;
    if k > 0 {
      var before := d.Compiled(k - 1).value;
      if IsSource(d.inputs[k - 1]) {
        assert d.Compiled(k).value == before + [d.CompileCommand(d.inputs[k - 1], |before| + 1).value];
        CompilerHasTool(d, d.inputs[k - 1], |before| + 1);
      }
      CompiledHasTools(d, k - 1);
    }
  }

  lemma {:induction false} SqueezedHasTools(d: Draft, compiled: seq<Command>)
    requires forall cmd :: cmd in compiled ==> HasTool(d, cmd)
    ensures forall cmd :: cmd in Squeezed(compiled, d.SqueezeTool()) ==> HasTool(d, cmd)
  {
    hide ToolPath;
    if compiled != [] {
      assert compiled[|compiled| - 1] in compiled;
      SqueezedHasTools(d, compiled[..|compiled| - 1]);
    }
  }

  lemma DraftedHasTools(d: Draft)
    requires d.Suffixed() && d.CanDraft()
    ensures forall cmd :: cmd in d.Drafted() ==> HasTool(d, cmd)
  {
    hide Draft.Compiled;
    hide Draft.CanCompile;
    hide Draft.TargetFits;
    hide Draft.Entries;
    hide Draft.StartupFile;
    hide Draft.OverlayFiles;
    hide Draft.RuntimeFile;
    hide Draft.RootOptions;
    hide Draft.LinkHosts;
    hide Draft.TargetSuffix;
    hide RawWords;
    hide ToolPath;
    hide Squeezed;
    hide AllPublishable;
    hide ProductsOf;
    hide TempName;
    hide Suffix;
    hide Fits;
    CompiledHasTools(d, |d.inputs|);
    SqueezedHasTools(d, d.Compiled(|d.inputs|).value);
  }

  /** Every command of a plan begins with the guest path of a tool. */
  lemma PlanHasTools(d: Draft, plan: Plan, i: nat)
    requires d.Suffixed() && d.IsPlan(plan) && i < |plan.commands|
    ensures HasTool(d, plan.commands[i])
  {
    hide AllPublishable;
    hide Names;
    hide IsLinker;
    hide FreshResponse;
    hide CanSerialise;
    hide Draft.CanDraft;
    hide Draft.Drafted;
    hide ToolPath;
    DraftedHasTools(d);
    assert d.Drafted()[i] in d.Drafted();
    assert Serialised(d.Drafted()[i], plan.commands[i]);
  }
}
