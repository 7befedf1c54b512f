/** Running the commands of a plan: what a tool gets to see, and in what order the tools run. */
module Launch {
  import opened Basics
  import opened Strings
  import opened Disk
  import opened Publish
  import opened PlanData

  /** Where a run takes place: the kind of host, the path of the workspace, and the tool root. */
  datatype Site = Site(unix: bool, work: string, root: string)
  {
    function Limit(): nat
    {
      if unix then UNIX_PATH else DOS_PATH
    }
  }

  // ---- Workspace names ----

  /** The workspace file that guest path `guest` names: E:\NAME, where `work` leaves room for
      NAME within `limit` characters. */
  function OwnedName(work: string, guest: string, limit: nat): Option<string>
  {
    if OnDriveE(guest) && '\\' !in guest[3..] && '/' !in guest[3..] &&
       |work| + |guest[3..]| + 2 <= limit
    then Some(guest[3..])
    else None
  }

  /** A word as a tool gets it: on DOS, where nothing maps drive E, the host path of a workspace
      file stands for its guest path. */
  function HostWord(word: string, site: Site): Option<string>
  {
    if site.unix || !OnDriveE(word) then Some(word)
    else
      var name :- OwnedName(site.work, word, DOS_PATH);
      Some(DosJoin(site.work, name))
  }

  function DosJoin(parent: string, name: string): string
  {
    if parent == "" || parent[|parent| - 1] == '\\' || parent[|parent| - 1] == '/' then parent + name
    else parent + "\\" + name
  }

  function HostWords(words: seq<string>, site: Site): Option<seq<string>>
  {
    if words == [] then Some([])
    else
      var first :- HostWord(words[0], site);
      var rest :- HostWords(words[1..], site);
      Some([first] + rest)
  }

  lemma {:induction false} HostWordsExactly(words: seq<string>, site: Site)
    ensures HostWords(words, site).Some? <==> forall word :: word in words ==> HostWord(word, site).Some?
    ensures
      HostWords(words, site).Some? ==>
        var hosted := HostWords(words, site).value;
        |hosted| == |words| && forall i :: 0 <= i < |words| ==> HostWord(words[i], site) == Some(hosted[i])
    ensures site.unix ==> HostWords(words, site) == Some(words)
  {
    hide HostWord;
    if words != [] {
      HostWordsExactly(words[1..], site);
      assert words == [words[0]] + words[1..];
      OnUnixAsIs(words[0], site);
    }
  }

  lemma OnUnixAsIs(word: string, site: Site)
    ensures site.unix ==> HostWord(word, site) == Some(word)
  {
  }

  function UnixJoin(parent: string, name: string): Option<string>
  {
    if |parent| + |name| + 2 > UNIX_PATH then None else Some(parent + "/" + name)
  }

  /** The host path of the tool that a planned guest path names: the tool root's bin directory has
      it under the last part of that path. */
  function HostTool(guest: string, site: Site): Option<string>
  {
    var slash := LastIndexOf(guest, '\\');
    if slash < 0 then None
    else if site.unix then
      var bin :- UnixJoin(site.root, "bin");
      UnixJoin(bin, guest[slash + 1..])
    else if |site.root| + 13 >= DOS_PATH then None
    else Some(DosJoin(DosJoin(site.root, "bin"), guest[slash + 1..]))
  }

  /** `guest` ends in a backslash and `name`, and `tool` is the file of that name in the directory
      bin of the tool root. */
  predicate InBin(tool: string, guest: string, name: string, site: Site)
  {
    && '\\' !in name && |name| < |guest| && guest[|guest| - |name| - 1..] == "\\" + name
    && tool ==
       (if site.unix then site.root + "/bin/" + name
        else if site.root == "" then "bin\\" + name
        else if site.root[|site.root| - 1] in "\\/" then site.root + "bin\\" + name
        else site.root + "\\bin\\" + name)
  }

  lemma HostToolInBin(guest: string, site: Site)
    requires HostTool(guest, site).Some?
    ensures exists name :: InBin(HostTool(guest, site).value, guest, name, site)
  {
    var slash := LastIndexOf(guest, '\\');
    var name := guest[slash + 1..];
    assert guest[slash..] == "\\" + name;
    if site.unix {
      assert HostTool(guest, site).value == site.root + "/" + "bin" + "/" + name;
      assert site.root + "/" + "bin" + "/" + name == site.root + "/bin/" + name;
    } else {
      var bin := DosJoin(site.root, "bin");
      assert bin[|bin| - 1] == 'n';
      assert HostTool(guest, site).value == bin + "\\" + name;
      BinPath(site.root, name);
    }
    assert InBin(HostTool(guest, site).value, guest, name, site);
  }

  lemma BinPath(root: string, name: string)
    ensures
      DosJoin(root, "bin") + "\\" + name ==
      (if root == "" then "bin\\" + name
       else if root[|root| - 1] in "\\/" then root + "bin\\" + name
       else root + "\\bin\\" + name)
  {
    assert "bin" + "\\" == "bin\\" && "\\" + "bin\\" == "\\bin\\";
  }

  /** What the tool of a command gets: its own path, and the words behind it. */
  function ToolArguments(arguments: seq<string>, site: Site): Option<seq<string>>
  {
    if arguments == [] then None
    else
      var tool :- HostTool(arguments[0], site);
      var tail :- HostWords(arguments[1..], site);
      Some([tool] + tail)
  }

  // ---- Command tails ----

  /** The words that a tool finds in a command tail of which only the first `room` characters are
      left, a blank before each word. */
  function Cut(words: seq<string>, room: nat): seq<string>
  {
    if words == [] then []
    else if |words[0]| + 1 <= room then [words[0]] + Cut(words[1..], room - |words[0]| - 1)
    else if room <= 1 then []
    else [words[0][..room - 1]]
  }

  /** All words are found exactly when the tail fits. */
  lemma {:induction false} CutIsWhole(words: seq<string>, room: nat)
    ensures Cut(words, room) == words <==> Lengths(words) <= room
  {
    if words != [] {
      LengthsCons(words);
      if |words[0]| + 1 <= room {
        var rest := Cut(words[1..], room - |words[0]| - 1);
        CutIsWhole(words[1..], room - |words[0]| - 1);
        assert Cut(words, room)[1..] == rest && words == [words[0]] + words[1..];
      } else if room > 1 {
        assert |Cut(words, room)[0]| < |words[0]|;
      }
    }
  }

  function TailText(words: seq<string>): string
  {
    if words == [] then "" else " " + words[0] + TailText(words[1..])
  }

  /** What is found is what the first `room` characters spell; a blank at their end is lost. */
  lemma {:induction false} CutIsPrefix(words: seq<string>, room: nat)
    requires room <= |TailText(words)|
    ensures
      var text := TailText(Cut(words, room));
      TailText(words)[..room] == text || TailText(words)[..room] == text + " "
  {
    if words != [] {
      var text := TailText(words);
      if |words[0]| + 1 <= room {
        var left := room - |words[0]| - 1;
        CutIsPrefix(words[1..], left);
        assert text[..room] == " " + words[0] + TailText(words[1..])[..left];
        assert Cut(words, room)[1..] == Cut(words[1..], left);
      } else if room > 1 {
        assert [words[0][..room - 1]][1..] == [] && TailText([]) == "";
        assert text[..room] == " " + words[0][..room - 1];
      } else {
        assert room == 1 ==> text[..1] == " ";
      }
    }
  }

  /** What a tool gets of its words: all of them on Unix, and on DOS as much as a command tail
      holds. */
  function Received(arguments: seq<string>, site: Site): seq<string>
  {
    if site.unix || arguments == [] then arguments
    else [arguments[0]] + Cut(arguments[1..], TAIL_LIMIT)
  }

  lemma ReceivedWhole(arguments: seq<string>, site: Site)
    ensures Received(arguments, site) == arguments <==> site.unix || TailLength(arguments) <= TAIL_LIMIT
  {
    if arguments != [] {
      CutIsWhole(arguments[1..], TAIL_LIMIT);
      assert arguments == [arguments[0]] + arguments[1..];
      assert ([arguments[0]] + Cut(arguments[1..], TAIL_LIMIT))[1..] == Cut(arguments[1..], TAIL_LIMIT);
    }
  }

  // ---- Response files ----

  const CRLF := "\r\n"

  function ResponseText(words: seq<string>): string
  {
    if words == [] then "" else words[0] + CRLF + ResponseText(words[1..])
  }

  /** The lines of a text, as a reader that cuts at every CR LF sees them. */
  function Lines(text: string, line: string): seq<string>
    decreases |text|
  {
    if text == "" then if line == "" then [] else [line]
    else if |text| >= 2 && text[..2] == CRLF then [line] + Lines(text[2..], "")
    else Lines(text[1..], line + text[..1])
  }

  lemma {:induction false} LinesOfWord(line: string, word: string, rest: string)
    requires '\r' !in word
    ensures Lines(word + CRLF + rest, line) == [line + word] + Lines(rest, "")
    decreases |word|
  {
    var text := word + CRLF + rest;
    if word == "" {
      assert text[..2] == CRLF && text[2..] == rest && line + word == line;
    } else {
      assert text[1..] == word[1..] + CRLF + rest && text[..1] == word[..1];
      assert word[0] in word && text[..2] != CRLF;
      LinesOfWord(line + word[..1], word[1..], rest);
      assert line + word[..1] + word[1..] == line + word;
    }
  }

  /** Reading a response file gives back the arguments it was written from. */
  lemma {:induction false} ResponseReadsBack(words: seq<string>)
    requires forall i :: 0 <= i < |words| ==> '\r' !in words[i]
    ensures Lines(ResponseText(words), "") == words
  {
    if words != [] {
      ResponseReadsBack(words[1..]);
      LinesOfWord("", words[0], ResponseText(words[1..]));
      assert "" + words[0] == words[0];
    }
  }

  /** The text of a response file with these words, as a tool is to get them. */
  method HostText(words: seq<string>, site: Site) returns (text: Option<string>)
    ensures text.Some? <==> HostWords(words, site).Some?
    ensures text.Some? ==> text.value == ResponseText(HostWords(words, site).value)
  {
    hide HostWord;
    var all, i := "", 0;
    assert words[0..] == words;
    while i < |words|
      invariant i <= |words|
      invariant HostWords(words[i..], site).Some? <==> HostWords(words, site).Some?
      invariant HostWords(words, site).Some? ==>
        all + ResponseText(HostWords(words[i..], site).value) == ResponseText(HostWords(words, site).value)
    {
      assert words[i..][0] == words[i] && words[i..][1..] == words[i + 1..];
      var word :- HostWord(words[i], site);
      all := all + word + CRLF;
      i := i + 1;
    }
    text := Some(all);
  }

  /** Writes the words behind the tool to the response file. */
  method ResponseFile(m: Machine, cmd: Command, site: Site) returns (ok: bool)
    requires m.Valid()
    modifies m`work, m`clock, m`interrupted, m`failures
    ensures m.Valid()
    ensures (old(m.interrupted) != 0 ==> m.interrupted != 0) && old(m.failures) <= m.failures
    ensures ok ==> ResponseThere(cmd, m.work, site)
    ensures ok ==> m.failures == old(m.failures)
    ensures !ok ==> m.failures > old(m.failures) || !CanRespond(cmd, site)
  {
    var name := OwnedName(site.work, cmd.responseFile, site.Limit());
    if name.None? {
      return false;
    }
    var text := HostText(Tail(cmd.response), site);
    if text.None? {
      return false;
    }
    ok := m.WriteWork(name.value, text.value);
  }

  predicate CanRespond(cmd: Command, site: Site)
  {
    OwnedName(site.work, cmd.responseFile, site.Limit()).Some? && HostWords(Tail(cmd.response), site).Some?
  }

  /** The response file of `cmd` is in the workspace `there`, one word per CR LF line. */
  predicate ResponseThere(cmd: Command, there: Files, site: Site)
  {
    && CanRespond(cmd, site)
    && var name := OwnedName(site.work, cmd.responseFile, site.Limit()).value;
    && name in there && there[name] == ResponseText(HostWords(Tail(cmd.response), site).value)
  }

  // ---- The commands ----

  function ProductName(cmd: Command): string
  {
    if |cmd.product| >= 3 then cmd.product[3..] else ""
  }

  function ProductNames(commands: seq<Command>): seq<string>
  {
    if commands == [] then []
    else ProductNames(commands[..|commands| - 1]) + [ProductName(commands[|commands| - 1])]
  }

  /** The host can name the tool, the response file, the product and all workspace words of `cmd`. */
  predicate Runnable(cmd: Command, site: Site)
  {
    && (cmd.response != [] ==> CanRespond(cmd, site)) && ToolArguments(cmd.arguments, site).Some?
    && OwnedName(site.work, cmd.product, site.Limit()).Some?
  }

  /** The tool of `cmd` was run with what it gets of its words, and could read its response file. */
  ghost predicate RunOf(run: Run, cmd: Command, site: Site)
  {
    && ToolArguments(cmd.arguments, site).Some?
    && run.arguments == Received(ToolArguments(cmd.arguments, site).value, site)
    && (cmd.response != [] ==> ResponseThere(cmd, run.work, site))
  }

  /** The words of `cmd` fit the command tail that its tool gets. */
  predicate Uncut(cmd: Command, site: Site)
  {
    site.unix || (ToolArguments(cmd.arguments, site).Some? &&
                  TailLength(ToolArguments(cmd.arguments, site).value) <= TAIL_LIMIT)
  }

  /** No tail of the first `k` commands is cut. */
  ghost predicate AllUncut(commands: seq<Command>, k: nat, site: Site)
  {
    k <= |commands| && forall i :: 0 <= i < k ==> Uncut(commands[i], site)
  }

  /** Each tool got all words of its command. */
  ghost predicate GotAllWords(runs: seq<Run>, commands: seq<Command>, site: Site)
  {
    && |runs| <= |commands|
    && forall i :: 0 <= i < |runs| ==> ToolArguments(commands[i].arguments, site) == Some(runs[i].arguments)
  }

  /** The file that was run is the tool of the command. */
  ghost predicate ToolOf(run: Run, cmd: Command, site: Site)
  {
    && run.arguments != [] && cmd.arguments != []
    && exists name :: InBin(run.arguments[0], cmd.arguments[0], name, site)
  }

  lemma RunOfHasTool(run: Run, cmd: Command, site: Site)
    requires RunOf(run, cmd, site)
    ensures ToolOf(run, cmd, site)
  {
    hide HostTool;
    hide InBin;
    HostToolInBin(cmd.arguments[0], site);
    var arguments := ToolArguments(cmd.arguments, site).value;
    assert arguments[0] == HostTool(cmd.arguments[0], site).value;
    assert run.arguments[0] == arguments[0];
    var name :| InBin(arguments[0], cmd.arguments[0], name, site);
    assert InBin(run.arguments[0], cmd.arguments[0], name, site);
  }

  ghost predicate AllRunnable(commands: seq<Command>, site: Site)
  {
    forall cmd :: cmd in commands ==> Runnable(cmd, site)
  }

  /** All commands were run in order, and returned 0. */
  ghost predicate Went(runs: seq<Run>, commands: seq<Command>, site: Site)
  {
    && |runs| == |commands|
    && forall i :: 0 <= i < |runs| ==> RunOf(runs[i], commands[i], site) && runs[i].status == 0
  }

  /** The first commands were run in order, and all but the last of them returned 0. */
  ghost predicate Started(runs: seq<Run>, commands: seq<Command>, site: Site)
  {
    && |runs| <= |commands|
    && forall i :: 0 <= i < |runs| ==>
         RunOf(runs[i], commands[i], site) && (i < |runs| - 1 ==> runs[i].status == 0)
  }

  lemma NoRuns(commands: seq<Command>, site: Site)
    ensures Went([], commands[..0], site) && Through([], commands, 0, site) && ProductNames(commands[..0]) == []
  {
  }

  lemma WentIsStarted(runs: seq<Run>, commands: seq<Command>, k: nat, site: Site)
    requires k <= |commands| && Went(runs, commands[..k], site)
    ensures Started(runs, commands, site)
  {
    hide RunOf;
  }

  lemma AllThrough(runs: seq<Run>, commands: seq<Command>, site: Site)
    requires Through(runs, commands, |commands|, site)
    ensures Went(runs, commands, site) && AllRunnable(commands, site) && Started(runs, commands, site)
  {
    hide RunOf;
    hide Runnable;
    assert commands[..|commands|] == commands;
  }

  /** The first `k` commands have gone through. */
  ghost predicate Through(runs: seq<Run>, commands: seq<Command>, k: nat, site: Site)
  {
    k <= |commands| && Went(runs, commands[..k], site) && AllRunnable(commands[..k], site)
  }

  lemma ThroughNext(runs: seq<Run>, run: Option<Run>, commands: seq<Command>, k: nat, site: Site)
    requires k < |commands| && Through(runs, commands, k, site)
    requires run.Some? ==> RunOf(run.value, commands[k], site)
    ensures Started(runs + (if run.Some? then [run.value] else []), commands, site)
    ensures
      run.Some? && run.value.status == 0 && Runnable(commands[k], site) ==>
        Through(runs + [run.value], commands, k + 1, site)
    ensures ProductNames(commands[..k + 1]) == ProductNames(commands[..k]) + [ProductName(commands[k])]
    ensures AllRunnable(commands, site) ==> Runnable(commands[k], site)
  {
    hide Runnable;
    hide RunOf;
    assert commands[..k + 1] == commands[..k] + [commands[k]];
    WentIsStarted(runs, commands, k, site);
  }

  lemma WentNames(runs: seq<Run>, commands: seq<Command>, site: Site)
    requires Went(runs, commands, site)
    ensures |runs| == |commands| && Started(runs, commands, site)
    ensures forall i :: 0 <= i < |commands| ==> ToolArguments(commands[i].arguments, site).Some?
  {
    hide ToolArguments;
    forall i | 0 <= i < |commands|
      ensures ToolArguments(commands[i].arguments, site).Some?
    {
      assert RunOf(runs[i], commands[i], site);
    }
  }

  /** The tools got all their words exactly when no tail was cut. On Unix they always do. */
  lemma WordsGot(runs: seq<Run>, commands: seq<Command>, site: Site)
    requires Started(runs, commands, site)
    ensures GotAllWords(runs, commands, site) <==> AllUncut(commands, |runs|, site)
    ensures site.unix ==> GotAllWords(runs, commands, site)
  {
    hide Received;
    hide ToolArguments;
    hide TailLength;
    hide ResponseThere;
    forall i | 0 <= i < |runs|
      ensures ToolArguments(commands[i].arguments, site) == Some(runs[i].arguments) <==> Uncut(commands[i], site)
    {
      assert RunOf(runs[i], commands[i], site);
      ReceivedWhole(ToolArguments(commands[i].arguments, site).value, site);
    }
  }

  /** The last tool that was run returned an error. */
  predicate ToolFailed(runs: seq<Run>)
  {
    runs != [] && runs[|runs| - 1].status != 0
  }

  /** Runs one command and looks for its product. */
  method RunCommand(m: Machine, cmd: Command, site: Site)
    returns (status: nat, ghost run: Option<Run>)
    requires m.Valid()
    modifies m`work, m`left, m`runs, m`verified, m`clock, m`interrupted, m`failures
    ensures m.Valid()
    ensures (old(m.interrupted) != 0 ==> m.interrupted != 0) && old(m.failures) <= m.failures
    ensures m.runs == old(m.runs) + (if run.Some? then [run.value] else [])
    ensures run.Some? ==> RunOf(run.value, cmd, site)
    ensures run.Some? ==> ToolOf(run.value, cmd, site)
    ensures old(m.verified) <= m.verified
    ensures
      status == 0 ==>
        && run.Some? && run.value.status == 0 && m.verified == old(m.verified) + [ProductName(cmd)]
        && m.work == m.left
    ensures
      run.Some? && run.value.status != 0 ==> status == run.value.status
    ensures status == 0 ==> m.failures == old(m.failures) && Runnable(cmd, site)
    ensures status != 0 ==> m.failures > old(m.failures) || m.interrupted != 0 || !Runnable(cmd, site)
  {
    run := None;
    assert OwnedName(site.work, cmd.product, site.Limit()).Some? ==>
      OwnedName(site.work, cmd.product, site.Limit()).value == ProductName(cmd);
    hide OwnedName;
    hide HostTool;
    hide ToolOf;
    hide HostWords;
    hide ResponseText;
    hide Received;
    if cmd.response != [] {
      var written := ResponseFile(m, cmd, site);
      if !written {
        return 1, run;
      }
    }
    var arguments := ToolArguments(cmd.arguments, site);
    if arguments.None? {
      return 1, run;
    }
    status := m.RunTool(Received(arguments.value, site), site.unix);
    run := Some(m.runs[|m.runs| - 1]);
    RunOfHasTool(run.value, cmd, site);
    if status != 0 {
      return;
    }
    var product := OwnedName(site.work, cmd.product, site.Limit());
    if product.None? {
      return 1, run;
    }
    var ok := m.VerifyProduct(product.value);
    if !ok {
      return 1, run;
    }
  }

  /** Runs the commands until one fails, its product is missing, or a signal arrives. */
  method RunCommands(m: Machine, commands: seq<Command>, site: Site)
    returns (status: nat, ghost complete: bool, ghost runs: seq<Run>)
    requires m.Valid() && m.work == m.left
    modifies m`work, m`left, m`runs, m`verified, m`clock, m`interrupted, m`failures
    ensures m.Valid() && m.runs == old(m.runs) + runs && old(m.verified) <= m.verified
    ensures (old(m.interrupted) != 0 ==> m.interrupted != 0) && old(m.failures) <= m.failures
    ensures
      complete ==>
        && Went(runs, commands, site) && status == 0
        && m.verified == old(m.verified) + ProductNames(commands) && m.work == m.left
    ensures !complete ==> status != 0 || m.interrupted != 0
    ensures Started(runs, commands, site)
    ensures ToolFailed(runs) ==> status == runs[|runs| - 1].status
    ensures complete ==> AllRunnable(commands, site)
    ensures !complete ==> m.failures > old(m.failures) || m.interrupted != 0 || !AllRunnable(commands, site)
    ensures status == 0 ==> m.failures == old(m.failures)
  {
    hide RunOf;
    hide Went;
    hide Started;
    hide Through;
    hide AllRunnable;
    hide Runnable;
    hide ProductNames;
    hide ProductName;
    status, complete, runs := 0, false, [];
    ghost var r0, v0 := m.runs, m.verified;
    NoRuns(commands, site);
    assert commands[..|commands|] == commands;
    for i := 0 to |commands|
      invariant m.Valid() && m.runs == r0 + runs && (runs != [] ==> runs[|runs| - 1].status == 0)
      invariant (old(m.interrupted) != 0 ==> m.interrupted != 0) && m.failures == old(m.failures)
      invariant status == 0 && m.work == m.left && Through(runs, commands, i, site)
      invariant m.verified == v0 + ProductNames(commands[..i])
    {
      ThroughNext(runs, None, commands, i, site);
      assert runs + [] == runs;
      if m.interrupted != 0 {
        status := if site.unix then 0 else 1;
        return;
      }
      ghost var run;
      status, run := RunCommand(m, commands[i], site);
      ThroughNext(runs, run, commands, i, site);
      runs := runs + (if run.Some? then [run.value] else []);
      if status != 0 {
        return;
      }
    }
    AllThrough(runs, commands, site);
    complete := true;
  }
}
