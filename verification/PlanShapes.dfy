/** The words of planned commands, place by place. */
module PlanShapes {
  import opened Basics
  import opened Strings
  import opened PlanData
  import opened PlanNames
  import opened PlanParts
  import opened Planner
  import PlanWords

  /** All words of a command, wherever its tool reads them. */
  function Words(cmd: Command): seq<string>
  {
    if cmd.response != [] then cmd.response else cmd.arguments
  }

  // ---- Compiling ----

  /** The words in front of the definitions: flags of the tables, raw options, macros. */
  function TableWords(d: Draft, isC: bool): seq<string>
    requires RawWords(d.p, if isC then "cc" else "as", if isC then d.r.ccOptions else d.r.asOptions).Some?
  {
    (if isC then d.p.ccFlags else d.p.asFlags) +
    RawWords(d.p, if isC then "cc" else "as", if isC then d.r.ccOptions else d.r.asOptions).value +
    d.p.macros
  }

  predicate AreGuests(w: World, areas: seq<string>)
  {
    forall i :: 0 <= i < |areas| ==> w.Guest(areas[i]).Some?
  }

  function DefinitionWords(definitions: seq<string>): (words: seq<string>)
  {
    seq(|definitions|, i requires 0 <= i < |definitions| => "-D" + definitions[i])
  }

  function AreaWords(w: World, areas: seq<string>): (words: seq<string>)
    requires AreGuests(w, areas)
  {
    seq(|areas|, i requires 0 <= i < |areas| => "-I" + w.Guest(areas[i]).value)
  }

  /** `cmd` makes its product from its source: cc.exe for C and as.exe for assembler, then the words of
      the tables, definitions and include areas, and at the end -o, the product and the source. */
  predicate Compiles(d: Draft, cmd: Command)
  {
    var a, isC := Words(cmd), Classify(cmd.source).CSource?;
    && IsSource(cmd.source) && |a| >= 4
    && Some(a[0]) == ToolPath(d.w, if isC then "cc.exe" else "as.exe")
    && d.w.Guest(cmd.source).Some? && a[|a| - 3..] == ["-o", cmd.product, d.w.Guest(cmd.source).value]
    && RawWords(d.p, if isC then "cc" else "as", if isC then d.r.ccOptions else d.r.asOptions).Some?
    && AreGuests(d.w, d.includes)
    && a[1..|a| - 3] == TableWords(d, isC) + DefinitionWords(d.r.definitions) + AreaWords(d.w, d.includes)
  }

  lemma {:induction false} DefinitionsAdded(args: seq<string>, definitions: seq<string>, isC: bool)
    requires AddDefinitions(args, definitions, isC).Some?
    ensures AddDefinitions(args, definitions, isC).value == args + DefinitionWords(definitions)
    decreases definitions
  {
    hide Decimal;
    if definitions != [] {
      DefinitionsAdded(args + ["-D" + definitions[0]], definitions[1..], isC);
      assert DefinitionWords(definitions) == ["-D" + definitions[0]] + DefinitionWords(definitions[1..]);
    }
  }

  lemma {:induction false} AreasAdded(w: World, args: seq<string>, areas: seq<string>)
    requires AddAreas(w, args, areas).Some?
    ensures AreGuests(w, areas) && AddAreas(w, args, areas).value == args + AreaWords(w, areas)
    decreases areas
  {
    hide World.Guest;
    if areas != [] {
      AreasAdded(w, args + ["-I" + w.Guest(areas[0]).value], areas[1..]);
      assert forall i :: 0 < i < |areas| ==> areas[i] == areas[1..][i - 1];
      assert AreaWords(w, areas) == ["-I" + w.Guest(areas[0]).value] + AreaWords(w, areas[1..]);
    }
  }

  lemma CompileCompiles(d: Draft, input: string, n: nat)
    requires n <= TEMP_LIMIT && IsSource(input) && d.CompileCommand(input, n).Some?
    ensures Compiles(d, d.CompileCommand(input, n).value)
  {
    hide AddWords;
    hide AddDefinitions;
    hide AddAreas;
    hide RawWords;
    hide ToolPath;
    hide Classify;
    hide TempName;
    hide World.Guest;
    var isC := Classify(input).CSource?;
    var tool := ToolPath(d.w, if isC then "cc.exe" else "as.exe").value;
    var head := [tool] + TableWords(d, isC);
    AllAdded(d, input);
    var cmd := d.CompileCommand(input, n).value;
    var middle := TableWords(d, isC) + DefinitionWords(d.r.definitions) + AreaWords(d.w, d.includes);
    var tail := ["-o", cmd.product, d.w.Guest(input).value];
    assert cmd.arguments == [tool] + middle + tail;
    Places(tool, middle, tail);
  }

  lemma AllAdded(d: Draft, input: string)
    requires d.CompilerArguments(input).Some?
    ensures
      var isC := Classify(input).CSource?;
      && RawWords(d.p, if isC then "cc" else "as", if isC then d.r.ccOptions else d.r.asOptions).Some?
      && AreGuests(d.w, d.includes) && ToolPath(d.w, if isC then "cc.exe" else "as.exe").Some?
      && d.CompilerArguments(input).value ==
         [ToolPath(d.w, if isC then "cc.exe" else "as.exe").value] +
         (TableWords(d, isC) + DefinitionWords(d.r.definitions) + AreaWords(d.w, d.includes))
  {
    hide *;
    var isC, args := TablesAdded(d, input);
    DefinitionsAdded(args, d.r.definitions, isC);
    AreasAdded(d.w, args + DefinitionWords(d.r.definitions), d.includes);
    Regrouped(ToolPath(d.w, if isC then "cc.exe" else "as.exe").value, TableWords(d, isC),
              DefinitionWords(d.r.definitions), AreaWords(d.w, d.includes));
  }

  lemma TablesAdded(d: Draft, input: string) returns (isC: bool, args: seq<string>)
    requires d.CompilerArguments(input).Some?
    ensures isC == Classify(input).CSource? && ToolPath(d.w, if isC then "cc.exe" else "as.exe").Some?
    ensures RawWords(d.p, if isC then "cc" else "as", if isC then d.r.ccOptions else d.r.asOptions).Some?
    ensures args == [ToolPath(d.w, if isC then "cc.exe" else "as.exe").value] + TableWords(d, isC)
    ensures AddDefinitions(args, d.r.definitions, isC).Some?
    ensures
      var more := AddDefinitions(args, d.r.definitions, isC).value;
      AddAreas(d.w, more, d.includes).Some? && d.CompilerArguments(input) == AddAreas(d.w, more, d.includes)
  {
    hide AddDefinitions;
    hide AddAreas;
    hide RawWords;
    hide ToolPath;
    hide Classify;
    hide AddWords;
    isC := Classify(input).CSource?;
    var tool := ToolPath(d.w, if isC then "cc.exe" else "as.exe").value;
    var raw := RawWords(d.p, if isC then "cc" else "as", if isC then d.r.ccOptions else d.r.asOptions).value;
    args := [tool] + (if isC then d.p.ccFlags else d.p.asFlags) + raw + d.p.macros;
    assert args == [tool] + TableWords(d, isC);
  }

  lemma Regrouped(tool: string, a: seq<string>, b: seq<string>, c: seq<string>)
    ensures [tool] + a + b + c == [tool] + (a + b + c)
  {
  }

  lemma Places(first: string, middle: seq<string>, last: seq<string>)
    requires |last| == 3
    ensures
      var a := [first] + middle + last;
      |a| >= 4 && a[0] == first && a[1..|a| - 3] == middle && a[|a| - 3..] == last
  {
  }

  // ---- The commands of a plan ----

  /** `cmd` squeezes the product of the command before it. */
  predicate Squeezes(d: Draft, cmd: Command, before: Command)
  {
    && ToolPath(d.w, "sqz.exe").Some? && Words(cmd) == [ToolPath(d.w, "sqz.exe").value, before.product]
    && cmd.product == before.product && cmd.source == before.source
  }

  ghost predicate Links(d: Draft, cmd: Command)
    requires d.Compiled(|d.inputs|).Some?
  {
    exists startup, entries, loader, table, runtime ::
      d.AreEntries(entries) && d.LinksWith(Words(cmd), cmd.product, startup, entries, loader, table, runtime)
  }

  lemma {:induction false} CompiledCompile(d: Draft, k: nat)
    requires k <= |d.inputs| && d.Compiled(k).Some?
    ensures forall cmd :: cmd in d.Compiled(k).value ==> Compiles(d, cmd)
  {
    hide IsSource;
    hide Draft.CompileCommand;
    hide Compiles;
    if k > 0 {
      CompiledCompile(d, k - 1);
      if IsSource(d.inputs[k - 1]) {
        CompileCompiles(d, d.inputs[k - 1], |d.Compiled(k - 1).value| + 1);
      }
    }
  }

  lemma {:induction false} SqueezedAt(compiled: seq<Command>, tool: Option<string>, j: nat)
    requires j < |compiled|
    ensures |Squeezed(compiled, tool)| == if tool.Some? then 2 * |compiled| else |compiled|
    ensures
      var squeezed, cmd := Squeezed(compiled, tool), compiled[j];
      if tool.None? then squeezed[j] == cmd
      else
        && squeezed[2 * j] == cmd
        && squeezed[2 * j + 1] == Command([tool.value, cmd.product], [], "", cmd.product, cmd.source)
  {
    var front := compiled[..|compiled| - 1];
    if |front| > 0 {
      SqueezedAt(front, tool, if j < |front| then j else 0);
    } else {
      assert front == [] && Squeezed([], tool) == [];
    }
  }

  /** What was drafted for place `k` is what the tool of the planned command reads. */
  lemma SameWords(d: Draft, plan: Plan, k: nat)
    requires d.Suffixed() && d.IsPlan(plan) && k < |plan.commands| && d.Drafted()[k].response == []
    ensures
      var was, now := d.Drafted()[k], plan.commands[k];
      Words(now) == Words(was) && now.product == was.product && now.source == was.source
  {
    hide AllPublishable;
    hide Names;
    hide IsLinker;
    hide Passable;
    hide Printable;
    hide Fits;
    hide TailLength;
    hide Draft.CanDraft;
    hide Draft.Drafted;
    assert CanSerialise(d.Drafted()[k]) && Serialised(d.Drafted()[k], plan.commands[k]);
  }

  /** The commands for input `i`, a source, begin at place `k` of the plan. */
  predicate SourceAt(d: Draft, plan: Plan, i: nat, k: nat)
    requires i < |d.inputs|
  {
    && k < |plan.commands| && Compiles(d, plan.commands[k]) && plan.commands[k].source == d.inputs[i]
    && (d.r.squeeze ==> k + 1 < |plan.commands| && Squeezes(d, plan.commands[k + 1], plan.commands[k]))
  }

  /** Every word of a plan has its place: the sources in input order, each compiled and perhaps
      squeezed, and behind them the linker command, if there is one. */
  lemma PlanInPlaces(d: Draft, plan: Plan)
    requires d.Suffixed() && d.IsPlan(plan)
    ensures d.Compiled(|d.inputs|).Some?
    ensures
      var m := Sources(d.inputs);
      |plan.commands| == (if d.r.squeeze then 2 * m else m) + (if d.r.stage.Link? then 1 else 0)
    ensures
      forall i :: 0 <= i < |d.inputs| && IsSource(d.inputs[i]) ==>
        var j := Sources(d.inputs[..i]);
        SourceAt(d, plan, i, if d.r.squeeze then 2 * j else j)
    ensures d.r.stage.Link? ==> |plan.commands| > 0 && Links(d, plan.commands[|plan.commands| - 1])
  {
    hide AllPublishable;
    hide Names;
    hide Draft.CanDraft;
    hide Draft.Drafted;
    hide Draft.Compiled;
    hide Serialised;
    hide CanSerialise;
    hide SourceAt;
    hide Links;
    DraftedInPlaces(d);
    forall i | 0 <= i < |d.inputs| && IsSource(d.inputs[i])
      ensures
        var j := Sources(d.inputs[..i]);
        SourceAt(d, plan, i, if d.r.squeeze then 2 * j else j)
    {
      SourceInPlace(d, plan, i);
    }
    if d.r.stage.Link? {
      LinkInPlace(d, plan);
    }
  }

  predicate DraftedAt(d: Draft, i: nat, k: nat)
    requires d.Suffixed() && d.CanDraft() && i < |d.inputs|
  {
    && k < |d.Drafted()| && Compiles(d, d.Drafted()[k]) && d.Drafted()[k].source == d.inputs[i]
    && (d.r.squeeze ==> k + 1 < |d.Drafted()| && Squeezes(d, d.Drafted()[k + 1], d.Drafted()[k]))
  }

  lemma DraftedInPlaces(d: Draft)
    requires d.Suffixed() && d.CanDraft()
    ensures d.Compiled(|d.inputs|).Some?
    ensures
      var m := Sources(d.inputs);
      |d.Drafted()| == (if d.r.squeeze then 2 * m else m) + (if d.r.stage.Link? then 1 else 0)
    ensures forall k :: 0 <= k < |d.Drafted()| ==> d.Drafted()[k].response == []
    ensures
      forall i :: 0 <= i < |d.inputs| && IsSource(d.inputs[i]) ==>
        var j := Sources(d.inputs[..i]);
        DraftedAt(d, i, if d.r.squeeze then 2 * j else j)
  {
    hide Draft.Compiled;
    hide Draft.TargetFits;
    hide Draft.LinkAllowed;
    hide Draft.LinkHosts;
    hide Draft.LinkWords;
    hide Draft.TargetSuffix;
    hide AllPublishable;
    hide ProductsOf;
    hide Squeezed;
    hide Compiles;
    hide ToolPath;
    hide Suffix;
    hide TempName;
    hide IsSource;
    hide Sources;
    var compiled := d.Compiled(|d.inputs|).value;
    d.CompiledInOrder(|d.inputs|);
    assert d.inputs[..|d.inputs|] == d.inputs;
    CompiledCompile(d, |d.inputs|);
    SqueezedSize(compiled, d.SqueezeTool());
    assert compiled != [] && d.r.squeeze ==> d.SqueezeTool().Some?;
    forall k | 0 <= k < |d.Drafted()|
      ensures d.Drafted()[k].response == []
    {
      PlanWords.DraftedHasNoResponse(d, k);
    }
    forall i | 0 <= i < |d.inputs| && IsSource(d.inputs[i])
      ensures
        var j := Sources(d.inputs[..i]);
        DraftedAt(d, i, if d.r.squeeze then 2 * j else j)
    {
      var j := Sources(d.inputs[..i]);
      assert CompilesAt(compiled, d.inputs[i], j);
      SqueezedAt(compiled, d.SqueezeTool(), j);
      assert compiled[j] in compiled;
    }
  }

  lemma SqueezedSize(compiled: seq<Command>, tool: Option<string>)
    ensures |Squeezed(compiled, tool)| == if tool.Some? then 2 * |compiled| else |compiled|
  {
    if compiled != [] {
      SqueezedAt(compiled, tool, 0);
    }
  }

  lemma SourceInPlace(d: Draft, plan: Plan, i: nat)
    requires d.Suffixed() && d.IsPlan(plan) && i < |d.inputs| && IsSource(d.inputs[i])
    ensures
      var j := Sources(d.inputs[..i]);
      SourceAt(d, plan, i, if d.r.squeeze then 2 * j else j)
  {
    hide AllPublishable;
    hide Names;
    hide Draft.CanDraft;
    hide Draft.Drafted;
    hide Draft.Compiled;
    hide Serialised;
    hide CanSerialise;
    hide Words;
    hide IsSource;
    hide Sources;
    hide ToolPath;
    hide Classify;
    DraftedInPlaces(d);
    var j := Sources(d.inputs[..i]);
    var k := if d.r.squeeze then 2 * j else j;
    assert DraftedAt(d, i, k);
    SameWords(d, plan, k);
    if d.r.squeeze {
      SameWords(d, plan, k + 1);
    }
  }

  lemma LinkInPlace(d: Draft, plan: Plan)
    requires d.Suffixed() && d.IsPlan(plan) && d.r.stage.Link? && d.Compiled(|d.inputs|).Some?
    ensures |plan.commands| > 0 && Links(d, plan.commands[|plan.commands| - 1])
  {
    hide AllPublishable;
    hide Names;
    hide Draft.CanDraft;
    hide Draft.Compiled;
    hide Serialised;
    hide CanSerialise;
    hide Draft.AreEntries;
    hide Draft.LinksWith;
    DraftedInPlaces(d);
    hide Draft.Drafted;
    d.PlanLinksInOrder();
    SameWords(d, plan, |plan.commands| - 1);
    var link := d.Drafted()[|plan.commands| - 1];
    var startup, entries, loader, table, runtime :|
      d.AreEntries(entries) && d.LinksWith(link.arguments, link.product, startup, entries, loader, table, runtime);
  }
}
