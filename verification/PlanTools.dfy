/** The files that a run starts are the tools that the plan names. */
module PlanTools {
  import opened Basics
  import opened Strings
  import opened PlanData
  import opened DosPath
  import opened GuestPath
  import opened PlanParts
  import opened Planner
  import opened PlanWords
  import Disk
  import Launch

  /** The file that was run has the planned tool as its guest path. */
  predicate StartsTool(w: World, run: Disk.Run, cmd: Command)
  {
    run.arguments != [] && cmd.arguments != [] && w.Guest(run.arguments[0]) == Some(cmd.arguments[0])
  }

  // ---- DOS ----

  lemma CanonicalOfSlashes(path: string, current: char, cwd: char -> Option<string>)
    ensures Canonical(Slashes(path), current, cwd) == Canonical(path, current, cwd)
  {
    hide *;
    var rest := WithoutDrive(path);
    DriveOfSlashes(path, current);
    if rest != "" {
      FirstOfSlashes(rest);
    }
    forall parent
      ensures PathJoin(parent, Slashes(rest)) == PathJoin(parent, rest)
      ensures rest != "" ==> PathJoin(parent, Slashes(rest[1..])) == PathJoin(parent, rest[1..])
    {
      JoinSlashes(parent, rest);
      if rest != "" {
        JoinSlashes(parent, rest[1..]);
      }
    }
    SameCombined(path, Slashes(path), current, cwd);
    CanonicalByCombined(path, Slashes(path), current, cwd);
  }

  lemma CanonicalByCombined(path: string, other: string, current: char, cwd: char -> Option<string>)
    requires |path| == |other| && Combined(path, current, cwd) == Combined(other, current, cwd)
    ensures Canonical(path, current, cwd) == Canonical(other, current, cwd)
  {
    hide Folded;
    hide Combined;
  }

  lemma DriveOfSlashes(path: string, current: char)
    ensures DriveOf(Slashes(path), current) == DriveOf(path, current)
    ensures WithoutDrive(Slashes(path)) == Slashes(WithoutDrive(path)) && |Slashes(path)| == |path|
  {
    hide Slashes;
  }

  lemma FirstOfSlashes(rest: string)
    requires rest != ""
    ensures Slashes(rest) != "" && Slashes(rest)[1..] == Slashes(rest[1..])
    ensures Slashes(rest)[0] == SEP <==> rest[0] == SEP || rest[0] == '/'
    ensures Slashes(rest)[0] != '/'
  {
  }

  lemma SameCombined(path: string, slashed: string, current: char, cwd: char -> Option<string>)
    requires DriveOf(slashed, current) == DriveOf(path, current)
    requires
      var rest, tail := WithoutDrive(path), WithoutDrive(slashed);
      && (rest == "" <==> tail == "")
      && (forall parent :: PathJoin(parent, tail) == PathJoin(parent, rest))
      && (rest != "" ==>
            && (tail[0] == SEP || tail[0] == '/' <==> rest[0] == SEP || rest[0] == '/')
            && forall parent :: PathJoin(parent, tail[1..]) == PathJoin(parent, rest[1..]))
    ensures Combined(slashed, current, cwd) == Combined(path, current, cwd)
  {
    hide PathJoin;
    hide DriveOf;
    hide WithoutDrive;
  }

  lemma JoinSlashes(parent: string, name: string)
    ensures PathJoin(parent, Slashes(name)) == PathJoin(parent, name)
  {
    forall head: string
      ensures Slashes(head + Slashes(name)) == Slashes(head + name)
    {
      SlashesTwice(head, name);
    }
  }

  lemma SlashesTwice(head: string, name: string)
    ensures Slashes(head + Slashes(name)) == Slashes(head + name)
    ensures Slashes(Slashes(head) + name) == Slashes(head + name)
  {
    hide Slashes;
  }

  lemma BinDirectory(root: string)
    requires PathJoin(root, "bin").Some?
    ensures PathJoin(root, "bin").value == Slashes(Launch.DosJoin(root, "bin"))
    ensures var bin := Launch.DosJoin(root, "bin"); bin != "" && bin[|bin| - 1] == 'n'
  {
    hide Slashes;
    assert "bin"[2] == 'n';
    assert root + "" + "bin" == root + "bin" && root + [SEP] + "bin" == root + "\\" + "bin";
  }

  lemma JoinedBin(root: string, name: string)
    requires PathJoin(root, "bin").Some? && PathJoin(PathJoin(root, "bin").value, name).Some?
    ensures
      PathJoin(PathJoin(root, "bin").value, name).value == Slashes(Launch.DosJoin(root, "bin") + "\\" + name)
  {
    BinDirectory(root);
    var bin := Launch.DosJoin(root, "bin");
    assert Slashes(bin)[|bin| - 1] == 'n';
    JoinedBelow(Slashes(bin), name);
    hide Slashes;
    hide PathJoin;
    hide Launch.DosJoin;
    SlashesTwice(bin, "\\" + name);
    assert bin + ("\\" + name) == bin + "\\" + name;
  }

  lemma JoinedBelow(directory: string, name: string)
    requires directory != "" && directory[|directory| - 1] == 'n' && PathJoin(directory, name).Some?
    ensures PathJoin(directory, name).value == Slashes(directory + ("\\" + name))
  {
    hide Slashes;
    assert directory + [SEP] + name == directory + ("\\" + name);
  }

  lemma OneLastPart(path: string, a: string, b: string)
    requires SEP !in a && SEP !in b && EndsIn(path, a) && EndsIn(path, b)
    ensures a == b
  {
    SeparatorLength(path, a, b);
    SeparatorLength(path, b, a);
  }

  lemma SeparatorLength(path: string, a: string, b: string)
    requires SEP !in a && SEP !in b && EndsIn(path, a) && EndsIn(path, b)
    ensures |a| >= |b|
  {
    forall i | |path| - |b| <= i < |path|
      ensures path[i] != SEP
    {
      assert path[|path| - |b|..][i - (|path| - |b|)] == path[i];
    }
  }

  lemma EndsInName(path: string, name: string)
    requires |name| < |path| && path[|path| - |name| - 1..] == "\\" + name
    ensures EndsIn(path, name)
  {
    assert path[|path| - |name|..] == path[|path| - |name| - 1..][1..];
  }

  lemma DosStarts(w: World, tool: string, launched: string, name: string, site: Launch.Site)
    requires w.host.Dos? && tool in TOOLS && ToolPath(w, tool).Some? && !site.unix && site.root == w.anchors.root
    requires Launch.InBin(launched, ToolPath(w, tool).value, name, site)
    ensures w.Guest(launched) == ToolPath(w, tool)
  {
    ToolsAreOrdinary(tool);
    InBinOnDos(launched, ToolPath(w, tool).value, name, site);
    hide Launch.InBin;
    hide Slashes;
    hide PathJoin;
    hide EndsIn;
    hide Ordinary;
    hide World.Guest;
    ToolHasName(w, tool);
    OneLastPart(ToolPath(w, tool).value, tool, name);
    JoinedBin(w.anchors.root, tool);
    var path := PathJoin(PathJoin(w.anchors.root, "bin").value, tool).value;
    CanonicalOfSlashes(launched, w.host.current, w.host.directory);
    SameGuest(w, launched, path);
  }

  lemma InBinOnDos(tool: string, guest: string, name: string, site: Launch.Site)
    requires !site.unix && Launch.InBin(tool, guest, name, site)
    ensures EndsIn(guest, name) && SEP !in name && tool == Launch.DosJoin(site.root, "bin") + "\\" + name
  {
    EndsInName(guest, name);
    Launch.BinPath(site.root, name);
  }

  lemma SameGuest(w: World, a: string, b: string)
    requires w.host.Dos?
    requires Canonical(a, w.host.current, w.host.directory) == Canonical(b, w.host.current, w.host.directory)
    ensures w.Guest(a) == w.Guest(b)
  {
    hide Canonical;
    hide GuestFor;
    hide OnDrive;
  }

  lemma ToolsAreOrdinary(tool: string)
    requires tool in TOOLS
    ensures Ordinary(tool) && '/' !in tool && ':' !in tool
  {
    assert |tool| > 4;
  }

  // ---- Unix ----

  /** The tools are files of the tool root itself: no link leads elsewhere. */
  ghost predicate PlainInstallation(w: World)
  {
    && w.anchors.root != "" && w.anchors.root[|w.anchors.root| - 1] !in "\\/"
    && forall tool :: tool in TOOLS ==> KeptTool(w, w.anchors.root + "/bin/" + tool)
  }

  predicate KeptTool(w: World, path: string)
  {
    w.Canonical(path) == Some(path) && path != w.anchors.cwd && path != w.anchors.root
  }

  lemma JoinedOnUnix(w: World, tool: string)
    requires w.host.Unix? && w.anchors.root != "" && w.anchors.root[|w.anchors.root| - 1] !in "\\/"
    requires ToolPath(w, tool).Some?
    ensures w.Guest(w.anchors.root + "/bin/" + tool) == ToolPath(w, tool)
  {
    hide World.Guest;
    var directory := w.Join(w.anchors.root, "bin").value;
    assert directory == w.anchors.root + "/" + "bin" && directory[|directory| - 1] == 'n';
    assert directory + "/" + tool == w.anchors.root + "/bin/" + tool;
  }

  lemma GuestEndsIn(anchors: Anchors, path: string, name: string)
    requires |name| < |path| && path[|path| - |name|..] == name && path[|path| - |name| - 1] == '/' && '/' !in name
    requires name != "" && path != anchors.root && path != anchors.cwd && SEP !in name && GuestOf(anchors, path).Some?
    ensures EndsIn(GuestOf(anchors, path).value, name)
  {
    var g := Locate(anchors, path).value;
    assert GuestOf(anchors, path).value == Slashes(Root(g.drive) + g.relative) by {
      hide Exact;
      hide Locate;
    }
    LocatedBelow(anchors, path, name);
    hide *;
    var n := |path| - |g.relative|;
    BelowSlash(path, n, name);
    RelativeEndsIn(Root(g.drive), g.relative, name);
  }

  lemma LocatedBelow(anchors: Anchors, path: string, name: string)
    requires name != "" && |name| < |path| && path[|path| - |name|..] == name && '/' !in name
    requires path != anchors.root && path != anchors.cwd && Locate(anchors, path).Some?
    ensures
      var relative := Locate(anchors, path).value.relative;
      var n := |path| - |relative|;
      0 < n < |path| && relative == path[n..] && path[n - 1] == '/'
  {
    assert path[|path| - 1] == name[|name| - 1];
    WithinBelow(path, anchors.root);
    WithinBelow(path, anchors.cwd);
  }

  lemma WithinBelow(path: string, root: string)
    requires path != "" && path[|path| - 1] != '/' && path != root
    ensures
      Within(path, root).Some? ==>
        var n := |path| - |Within(path, root).value|;
        0 < n < |path| && Within(path, root).value == path[n..] && path[n - 1] == '/'
  {
  }

  lemma BelowSlash(path: string, n: nat, name: string)
    requires |name| < |path| && path[|path| - |name|..] == name && '/' !in name && 0 < n < |path| && path[n - 1] == '/'
    ensures n <= |path| - |name| && path[n..][|path| - n - |name|..] == name
  {
    forall i | |path| - |name| <= i < |path|
      ensures path[i] != '/'
    {
      assert path[|path| - |name|..][i - (|path| - |name|)] == path[i];
    }
  }

  lemma RelativeEndsIn(root: string, relative: string, name: string)
    requires root != "" && root[|root| - 1] == SEP && '/' !in name
    requires |name| <= |relative| && relative[|relative| - |name|..] == name
    requires |name| < |relative| ==> relative[|relative| - |name| - 1] == '/'
    ensures EndsIn(Slashes(root + relative), name)
  {
    hide *;
    var head := TextEnd(root, relative, name);
    LastSlash(head);
    SlashesConcat(head, name);
    SlashesNothing(name);
    Ending(Slashes(head), name);
  }

  lemma LastSlash(head: string)
    requires head != "" && (head[|head| - 1] == SEP || head[|head| - 1] == '/')
    ensures Slashes(head) != "" && Slashes(head)[|head| - 1] == SEP
  {
    hide Slashes;
  }

  lemma Ending(head: string, name: string)
    requires head != "" && head[|head| - 1] == SEP
    ensures EndsIn(head + name, name)
  {
  }

  lemma TextEnd(root: string, relative: string, name: string) returns (head: string)
    requires |name| <= |relative| && relative[|relative| - |name|..] == name && root != "" && root[|root| - 1] == SEP
    requires |name| < |relative| ==> relative[|relative| - |name| - 1] == '/'
    ensures root + relative == head + name
    ensures head != "" && (head[|head| - 1] == SEP || head[|head| - 1] == '/')
  {
    head := root + relative[..|relative| - |name|];
  }

  lemma UnixStarts(w: World, tool: string, launched: string, name: string, site: Launch.Site)
    requires w.host.Unix? && tool in TOOLS && ToolPath(w, tool).Some? && site.unix && site.root == w.anchors.root
    requires PlainInstallation(w) && Launch.InBin(launched, ToolPath(w, tool).value, name, site)
    ensures w.Guest(launched) == ToolPath(w, tool)
  {
    ToolsAreOrdinary(tool);
    var path := w.anchors.root + "/bin/" + tool;
    assert KeptTool(w, path);
    JoinedOnUnix(w, tool);
    assert path[|path| - |tool|..] == tool && path[|path| - |tool| - 1] == '/';
    hide GuestOf;
    hide EndsIn;
    GuestEndsIn(w.anchors, path, tool);
    EndsInName(ToolPath(w, tool).value, name);
    OneLastPart(ToolPath(w, tool).value, tool, name);
  }

  // ---- A plan ----

  /** On DOS, and on Unix where no links are involved, every run of a planned command starts the tool
      that was planned. */
  lemma RunStartsTool(d: Draft, plan: Plan, i: nat, run: Disk.Run, site: Launch.Site)
    requires d.Suffixed() && d.IsPlan(plan) && i < |plan.commands| && site.unix == d.w.host.Unix?
    requires site.root == plan.root && Launch.RunOf(run, plan.commands[i], site)
    requires d.w.host.Unix? ==> PlainInstallation(d.w)
    ensures StartsTool(d.w, run, plan.commands[i])
  {
    assert plan.root == d.w.anchors.root;
    hide Draft.IsPlan;
    hide Launch.RunOf;
    hide Launch.InBin;
    hide ToolPath;
    hide World.Guest;
    hide PlainInstallation;
    PlanHasTools(d, plan, i);
    Launch.RunOfHasTool(run, plan.commands[i], site);
    var tool :| tool in TOOLS && ToolPath(d.w, tool) == Some(plan.commands[i].arguments[0]);
    var name :| Launch.InBin(run.arguments[0], plan.commands[i].arguments[0], name, site);
    if site.unix {
      UnixStarts(d.w, tool, run.arguments[0], name, site);
    } else {
      DosStarts(d.w, tool, run.arguments[0], name, site);
    }
  }

  lemma RunsStartTools(d: Draft, plan: Plan, runs: seq<Disk.Run>, site: Launch.Site)
    requires d.Suffixed() && d.IsPlan(plan) && site.unix == d.w.host.Unix? && site.root == plan.root
    requires Launch.Went(runs, plan.commands, site) && (d.w.host.Unix? ==> PlainInstallation(d.w))
    ensures AllStartTools(d.w, runs, plan.commands)
  {
    hide Launch.RunOf;
    hide StartsTool;
    hide PlainInstallation;
    hide Draft.IsPlan;
    forall i | 0 <= i < |runs|
      ensures StartsTool(d.w, runs[i], plan.commands[i])
    {
      RunStartsTool(d, plan, i, runs[i], site);
    }
  }

  predicate AllStartTools(w: World, runs: seq<Disk.Run>, commands: seq<Command>)
  {
    |runs| == |commands| && forall i :: 0 <= i < |runs| ==> StartsTool(w, runs[i], commands[i])
  }
}
