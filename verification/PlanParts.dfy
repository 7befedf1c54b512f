/** What planning works on: word lists, inputs, the request and the installation, outputs. */
module PlanParts {
  import opened Basics
  import opened Strings
  import opened DosPath
  import opened GuestPath
  import opened PlanData
  import opened PlanNames

  const WORD_LIMIT: nat := 128

  // ---- Words ----

  function AddWord(words: seq<string>, text: string): (r: Option<seq<string>>)
    ensures r.Some? ==> r.value == words + [text]
  {
    if |words| == WORD_LIMIT || |text| >= LIMIT then None else Some(words + [text])
  }

  function AddWords(words: seq<string>, more: seq<string>): (r: Option<seq<string>>)
    ensures r.Some? ==> r.value == words + more
    decreases more
  {
    if more == [] then Some(words)
    else
      var longer :- AddWord(words, more[0]);
      AddWords(longer, more[1..])
  }

  /** The words make one argument list. */
  predicate Fits(words: seq<string>)
  {
    |words| <= WORD_LIMIT && forall i :: 0 <= i < |words| ==> |words[i]| < LIMIT
  }

  lemma {:induction false} AddWordsExactly(words: seq<string>, more: seq<string>)
    requires Fits(words)
    ensures AddWords(words, more) == if Fits(words + more) then Some(words + more) else None
    decreases more
  {
    if more == [] {
      assert words + more == words;
    } else {
      var all := words + more;
      assert all[|words|] == more[0];
      assert words + [more[0]] + more[1..] == all;
      if |words| < WORD_LIMIT && |more[0]| < LIMIT {
        AddWordsExactly(words + [more[0]], more[1..]);
      }
    }
  }

  lemma FitsPart(words: seq<string>, more: seq<string>)
    requires Fits(words + more)
    ensures Fits(words)
  {
    assert forall i :: 0 <= i < |words| ==> (words + more)[i] == words[i];
  }

  lemma NothingFits()
    ensures Fits([])
  {
  }

  // ---- Inputs ----

  datatype Kind = Unknown | CSource | AsmSource | Object | Library | LibraryName | List

  /** The position behind the last separator or drive colon. */
  function BaseStart(path: string): (n: nat)
    ensures n <= |path|
  {
    if path == "" then 0
    else if path[|path| - 1] in "/\\:" then |path|
    else BaseStart(path[..|path| - 1])
  }

  function Basename(path: string): string
  {
    path[BaseStart(path)..]
  }

  lemma {:induction false} BasenameAtEnd(path: string, name: string)
    requires EndsIn(path, name) && '/' !in name && SEP !in name && ':' !in name
    ensures Basename(path) == name
  {
    if name == "" {
      assert path[|path|..] == "";
    } else {
      var last := name[|name| - 1];
      assert last in name && path[|path| - 1] == last;
      var shorter, front := path[..|path| - 1], name[..|name| - 1];
      assert shorter[|shorter| - |front|..] == front;
      BasenameAtEnd(shorter, front);
      assert BaseStart(path) == BaseStart(shorter);
    }
  }

  /** The part of the last component from its last dot on. */
  function Suffix(path: string): Option<string>
  {
    var dot := LastIndexOf(Basename(path), '.');
    if dot < 0 then None else Some(Basename(path)[dot..])
  }

  lemma SuffixShape(path: string)
    requires Suffix(path).Some?
    ensures Suffix(path).value != "" && '.' !in Suffix(path).value[1..]
  {
  }

  function Classify(path: string): Kind
  {
    if "-l" <= path then LibraryName
    else if Suffix(path).None? then Unknown
    else
      var suffix := Suffix(path).value;
      if PathEqual(suffix, ".c") then CSource
      else if PathEqual(suffix, ".asm") || PathEqual(suffix, ".s") then AsmSource
      else if PathEqual(suffix, ".o") then Object
      else if PathEqual(suffix, ".lib") then Library
      else if PathEqual(suffix, ".inp") then List
      else Unknown
  }

  lemma LibraryNameHasPrefix(path: string)
    requires Classify(path).LibraryName?
    ensures |path| >= 2
  {
    hide PathEqual;
    hide Suffix;
  }

  predicate IsSource(path: string)
  {
    Classify(path).CSource? || Classify(path).AsmSource?
  }

  lemma SourceHasDot(input: string)
    requires IsSource(input)
    ensures LastIndexOf(Basename(input), '.') >= 0
  {
    hide LastIndexOf;
    hide PathEqual;
  }

  /** How many sources there are among the inputs. */
  function Sources(inputs: seq<string>): (n: nat)
    ensures n <= |inputs|
  {
    if inputs == [] then 0
    else Sources(inputs[..|inputs| - 1]) + if IsSource(inputs[|inputs| - 1]) then 1 else 0
  }

  lemma {:induction false} SourcesGrow(inputs: seq<string>, i: nat)
    requires i < |inputs| && IsSource(inputs[i])
    ensures Sources(inputs[..i]) < Sources(inputs)
  {
    if i < |inputs| - 1 {
      SourcesGrow(inputs[..|inputs| - 1], i);
      assert inputs[..|inputs| - 1][..i] == inputs[..i];
    }
  }

  lemma SourcesSnoc(inputs: seq<string>, input: string)
    ensures Sources(inputs + [input]) == Sources(inputs) + if IsSource(input) then 1 else 0
    ensures forall i :: 0 <= i <= |inputs| ==> (inputs + [input])[..i] == inputs[..i]
  {
    assert (inputs + [input])[..|inputs|] == inputs;
  }

  /** A target suffix is never that of a file beside the output. */
  lemma TargetSuffixes(suffix: string)
    requires PathEqual(suffix, ".cmd") || PathEqual(suffix, ".exe") || PathEqual(suffix, ".com") || PathEqual(suffix, ".ovr")
    ensures |suffix| == 4 && suffix[1..] != "dbg" && suffix[1..] != "rsm" && '/' !in suffix && '\\' !in suffix
  {
    assert LowerAll(suffix)[0] == Lower(suffix[0]);
    assert |suffix| == 4;
    assert LowerAll(suffix)[1] == Lower(suffix[1]) && LowerAll(suffix)[2] == Lower(suffix[2]) && LowerAll(suffix)[3] == Lower(suffix[3]);
    assert LowerAll(".cmd")[2] == 'm' && LowerAll(".exe")[2] == 'x' && LowerAll(".com")[2] == 'o' && LowerAll(".ovr")[2] == 'v';
    assert suffix[1..][1] == suffix[2];
  }

  // ---- The request and the installation ----

  datatype Stage = Link | ToObject | ToAssembly

  datatype Request = Request(stage: Stage, debug: bool, squeeze: bool, noStart: bool, noStdlib: bool,
                             output: Option<string>, overlayRoot: Option<(string, string)>,
                             overlayTable: Option<string>, definitions: seq<string>,
                             ccOptions: seq<string>, asOptions: seq<string>, lnOptions: seq<string>)

  /** What the tables of target profiles and raw options say for a request. */
  datatype Profile = Profile(ccFlags: seq<string>, asFlags: seq<string>, macros: seq<string>,
                             executable: string, startup: string, runtime: string, mathLibrary: string,
                             dosTarget: bool, dos2: bool, smallModel: bool,
                             raw: (string, string) -> Option<seq<string>>, isRuntime: string -> bool)

  type DriveLetter = c: char | 'A' <= c <= 'Z' witness 'A'

  /** The kind of host, and how it makes paths canonical: Unix resolves links, DOS folds text from
      the current drive and the directory that each drive is in. */
  datatype Host = Unix(resolve: string -> Option<string>) | Dos(current: DriveLetter, directory: char -> Option<string>)

  /** The file system as planning probes it. */
  datatype World = World(host: Host, anchors: Anchors, isDirectory: string -> bool, readable: string -> bool,
                         sameFile: (string, string) -> bool)
  {
    /** The canonical path of a file whose directory must be there. */
    function Canonical(path: string): (c: Option<string>)
      ensures c.Some? && host.Dos? ==> OnDrive(c.value)
    {
      match host
      case Unix(resolve) => resolve(path)
      case Dos(current, directory) =>
        var c :- DosPath.Canonical(path, current, directory);
        CanonicalShape(path, current, directory);
        if |c| > 3 && !isDirectory(Parent(c)) then None else Some(c)
    }

    function Guest(path: string): Option<string>
    {
      var resolved :- Canonical(path);
      GuestFor(host.Unix?, anchors, resolved)
    }

    /** `parent` and `name` with the host's separator between them. */
    function Join(parent: string, name: string): Option<string>
    {
      if host.Dos? then PathJoin(parent, name)
      else if |parent| + |name| + 2 > LIMIT then None
      else if parent != "" && parent[|parent| - 1] != '/' && parent[|parent| - 1] != '\\' then
        Some(parent + "/" + name)
      else Some(parent + name)
    }
  }

  /** The directory of a canonical path on DOS; that of a file in the root is the root itself. */
  function Parent(path: string): string
  {
    var slash := LastIndexOf(path, SEP);
    if slash == 2 then path[..3] else if slash < 0 then path else path[..slash]
  }

  lemma GuestHasSeparator(w: World, path: string)
    requires w.Guest(path).Some?
    ensures
      var guest := w.Guest(path).value;
      && |guest| >= 3 && guest[1] == ':' && guest[2] == SEP && |guest| <= DOS_PATH_LIMIT
      && (if w.host.Unix? then guest[0] in "CD" else w.Canonical(path) == Some(guest))
  {
    hide GuestFor;
    hide OnDrive;
    GuestHasDrive(w.host.Unix?, w.anchors, w.Canonical(path).value);
  }

  function ToolPath(w: World, name: string): Option<string>
  {
    var directory :- w.Join(w.anchors.root, "bin");
    var path :- w.Join(directory, name);
    w.Guest(path)
  }

  /** On DOS the guest path of a tool has the name of the tool. */
  lemma ToolHasName(w: World, name: string)
    requires w.host.Dos? && ToolPath(w, name).Some? && Ordinary(name) && '/' !in name && ':' !in name
    ensures Basename(ToolPath(w, name).value) == name && EndsIn(ToolPath(w, name).value, name)
  {
    hide Canonical;
    hide Exact;
    hide EndsIn;
    hide Basename;
    hide World.Join;
    var directory := w.Join(w.anchors.root, "bin").value;
    var path := w.Join(directory, name).value;
    ToolPathEnds(w, name);
    CanonicalEndsIn(path, name, w.host.current, w.host.directory);
    GuestHasSeparator(w, path);
    BasenameAtEnd(ToolPath(w, name).value, name);
  }

  lemma ToolPathEnds(w: World, name: string)
    requires w.host.Dos? && '/' !in name
    requires w.Join(w.anchors.root, "bin").Some? && w.Join(w.Join(w.anchors.root, "bin").value, name).Some?
    ensures
      var path := w.Join(w.Join(w.anchors.root, "bin").value, name).value;
      EndsIn(path, name) && |name| + 3 < |path|
  {
    hide Slashes;
    var directory := w.Join(w.anchors.root, "bin").value;
    var path := w.Join(directory, name).value;
    assert "bin"[2] == 'n';
    assert |directory| >= 3 && directory[|directory| - 1] == 'n';
    SlashesNothing(name);
    assert path[|path| - |name|..] == name && path[|path| - |name| - 1] == SEP;
  }

  /** The guest path of a file of the installation, which must be there. */
  function StockPath(w: World, name: string): Option<string>
  {
    var directory :- w.Join(w.anchors.root, "lib");
    var path :- w.Join(directory, name);
    if w.readable(path) then w.Guest(path) else None
  }

  /** The guest paths of all `hosts`, if they have them. */
  function Guests(w: World, hosts: seq<string>): Option<seq<string>>
  {
    if hosts == [] then Some([])
    else
      var before :- Guests(w, hosts[..|hosts| - 1]);
      var last :- w.Guest(hosts[|hosts| - 1]);
      Some(before + [last])
  }

  lemma {:induction false} GuestsNeed(w: World, hosts: seq<string>, k: nat)
    requires k <= |hosts| && Guests(w, hosts).Some?
    ensures Guests(w, hosts[..k]).Some? && |Guests(w, hosts).value| == |hosts|
    ensures Guests(w, hosts[..k]).value == Guests(w, hosts).value[..k]
  {
    hide World.Guest;
    if hosts != [] {
      var shorter := hosts[..|hosts| - 1];
      GuestsNeed(w, shorter, if k < |hosts| then k else k - 1);
      assert k < |hosts| ==> shorter[..k] == hosts[..k];
    }
    assert hosts[..|hosts|] == hosts;
  }

  function OneFile(path: Option<string>): Option<seq<string>>
  {
    var found :- path;
    Some([found])
  }

  /** The first library NAME.lib in the library areas. */
  function UserLibrary(w: World, libraries: seq<string>, name: string): Option<string>
    decreases libraries
  {
    if libraries == [] then None
    else
      var path :- w.Join(libraries[0], name + ".lib");
      if w.readable(path) then Some(path) else UserLibrary(w, libraries[1..], name)
  }

  function NamedLibrary(w: World, p: Profile, libraries: seq<string>, name: string): Option<string>
  {
    if name == "m" then StockPath(w, p.mathLibrary)
    else if p.isRuntime(name) || name == "" || (exists c :: c in name && c in "/\\:.") || |name| + 5 >= LIMIT then None
    else
      var path :- UserLibrary(w, libraries, name);
      w.Guest(path)
  }

  /** The name that ln gives the file beside `output` with suffix `suffix`. */
  function Sibling(output: string, suffix: string): Option<string>
  {
    var dot := LastIndexOf(output, '.');
    if dot < BaseStart(output) || dot + 5 >= LIMIT then None else Some(output[..dot] + suffix)
  }

  /** The words for raw options, if all are allowed. */
  function RawWords(p: Profile, tool: string, options: seq<string>): Option<seq<string>>
  {
    if options == [] then Some([])
    else
      var words :- p.raw(tool, options[0]);
      var rest :- RawWords(p, tool, options[1..]);
      Some(words + rest)
  }

  predicate Decimal(text: string)
  {
    text != "" && forall i :: 0 <= i < |text| ==> '0' <= text[i] <= '9'
  }

  /** The -D words; an assembler definition NAME=VALUE must have a decimal value. */
  function AddDefinitions(args: seq<string>, definitions: seq<string>, isC: bool): (r: Option<seq<string>>)
    ensures r.Some? ==> args <= r.value
    decreases definitions
  {
    if definitions == [] then Some(args)
    else
      var d := definitions[0];
      if !isC && !(exists i :: 0 <= i < |d| && d[i] == '=' && '=' !in d[..i] && Decimal(d[i + 1..])) then None
      else
        var longer :- AddWord(args, "-D" + d);
        AddDefinitions(longer, definitions[1..], isC)
  }

  function AddAreas(w: World, args: seq<string>, areas: seq<string>): (r: Option<seq<string>>)
    ensures r.Some? ==> args <= r.value
    decreases areas
  {
    if areas == [] then Some(args)
    else
      var guest :- w.Guest(areas[0]);
      var longer :- AddWord(args, "-I" + guest);
      AddAreas(w, longer, areas[1..])
  }

  // ---- Outputs ----

  /** `host` may become an output: it is no directory, DOS can name it, and it is no input. */
  predicate MayPublish(w: World, inputs: seq<string>, host: string)
  {
    && !w.isDirectory(host) && w.Guest(host).Some?
    && forall i :: 0 <= i < |inputs| ==> NotInput(w, inputs[i], host)
  }

  predicate NotInput(w: World, input: string, host: string)
  {
    Classify(input).LibraryName? ||
    (w.Guest(input).Some? && !SameName(w, input, host) && !(w.host.Unix? && w.sameFile(host, input)))
  }

  /** DOS takes both for the same file. */
  predicate SameName(w: World, one: string, other: string)
  {
    w.Guest(one).Some? && w.Guest(other).Some? && PathEqual(w.Guest(one).value, w.Guest(other).value)
  }

  /** `hosts` may all be outputs of one plan. */
  predicate AllPublishable(w: World, inputs: seq<string>, hosts: seq<string>)
  {
    && |hosts| <= WORD_LIMIT
    && (forall i :: 0 <= i < |hosts| ==> MayPublish(w, inputs, hosts[i]))
    && (forall i, j :: 0 <= i < j < |hosts| ==> !SameName(w, hosts[i], hosts[j]))
  }

  /** The guest names and the canonical names of `hosts`. */
  ghost predicate Names(w: World, hosts: seq<string>, outputs: seq<string>, hostOutputs: seq<string>)
  {
    && |outputs| == |hostOutputs| == |hosts|
    && forall i :: 0 <= i < |hosts| ==> NamesAt(w, hosts[i], outputs[i], hostOutputs[i])
  }

  ghost predicate NamesAt(w: World, host: string, output: string, hostOutput: string)
  {
    w.Guest(host) == Some(output) && w.Canonical(host) == Some(hostOutput)
  }

  lemma NamesAreParallel(w: World, hosts: seq<string>, outputs: seq<string>, hostOutputs: seq<string>)
    requires Names(w, hosts, outputs, hostOutputs)
    ensures |outputs| == |hostOutputs| == |hosts|
  {
  }

  lemma PublishableSnoc(w: World, inputs: seq<string>, hosts: seq<string>, host: string)
    ensures AllPublishable(w, inputs, hosts + [host]) <==>
      && AllPublishable(w, inputs, hosts) && |hosts| < WORD_LIMIT && MayPublish(w, inputs, host)
      && forall i :: 0 <= i < |hosts| ==> !SameName(w, hosts[i], host)
  {
    hide MayPublish;
    hide SameName;
    var all := hosts + [host];
    assert all[|hosts|] == host && forall i :: 0 <= i < |hosts| ==> all[i] == hosts[i];
  }

  lemma PublishablePart(w: World, inputs: seq<string>, hosts: seq<string>, more: seq<string>)
    requires AllPublishable(w, inputs, hosts + more)
    ensures AllPublishable(w, inputs, hosts)
  {
    hide MayPublish;
    hide SameName;
    var all := hosts + more;
    assert forall i :: 0 <= i < |hosts| ==> all[i] == hosts[i];
  }

  /** The outputs of a plan are distinct, as guest files and as the host files to be published. */
  lemma OutputsDiffer(w: World, inputs: seq<string>, hosts: seq<string>, outputs: seq<string>, hostOutputs: seq<string>,
                      i: nat, j: nat)
    requires AllPublishable(w, inputs, hosts) && Names(w, hosts, outputs, hostOutputs) && i < j < |hosts|
    ensures !PathEqual(outputs[i], outputs[j]) && hostOutputs[i] != hostOutputs[j]
  {
    hide World.Canonical;
    hide GuestFor;
    hide MayPublish;
    assert NamesAt(w, hosts[i], outputs[i], hostOutputs[i]) && NamesAt(w, hosts[j], outputs[j], hostOutputs[j]);
    assert !SameName(w, hosts[i], hosts[j]);
    assert PathEqual(outputs[i], outputs[i]);
  }

  // ---- Compile commands ----

  function ProductsOf(commands: seq<Command>): (products: seq<string>)
    ensures |products| == |commands|
    ensures forall i :: 0 <= i < |commands| ==> products[i] == commands[i].product
  {
    if commands == [] then []
    else ProductsOf(commands[..|commands| - 1]) + [commands[|commands| - 1].product]
  }

  lemma ObjectCount(compiled: seq<Command>)
    ensures |ProductsOf(compiled)| == |compiled|
  {
  }

  /** The compile commands, each with its squeeze command behind it if one is asked for. */
  function Squeezed(compiled: seq<Command>, tool: Option<string>): seq<Command>
  {
    if compiled == [] then []
    else
      var last := compiled[|compiled| - 1];
      Squeezed(compiled[..|compiled| - 1], tool) + [last] +
      if tool.None? then []
      else [Command([tool.value, last.product], [], "", last.product, last.source)]
  }

  lemma SqueezedOne(cmd: Command, tool: Option<string>)
    ensures Squeezed([cmd], tool) ==
      [cmd] + if tool.None? then [] else [Command([tool.value, cmd.product], [], "", cmd.product, cmd.source)]
  {
    assert [cmd][..0] == [];
  }

  lemma SqueezedSnoc(compiled: seq<Command>, cmd: Command, tool: Option<string>)
    ensures Squeezed(compiled + [cmd], tool) == Squeezed(compiled, tool) + Squeezed([cmd], tool)
    ensures ProductsOf(compiled + [cmd]) == ProductsOf(compiled) + [cmd.product]
  {
    SqueezedOne(cmd, tool);
    assert (compiled + [cmd])[..|compiled|] == compiled;
  }

  /** `compiled` holds one command for every source, in order, each with its own product. */
  ghost predicate CompilesSources(compiled: seq<Command>, inputs: seq<string>, suffix: string)
  {
    && |compiled| == Sources(inputs) <= TEMP_LIMIT
    && (forall i :: 0 <= i < |inputs| ==> CompilesAt(compiled, inputs[i], Sources(inputs[..i])))
    && (forall j :: 0 <= j < |compiled| ==> compiled[j].product == TempName(j + 1, suffix))
  }

  predicate CompilesAt(compiled: seq<Command>, input: string, j: nat)
  {
    IsSource(input) ==> j < |compiled| && compiled[j].source == input
  }

  lemma NothingCompiled(suffix: string, tool: Option<string>)
    ensures CompilesSources([], [], suffix) && Squeezed([], tool) == [] && ProductsOf([]) == []
  {
  }

  lemma CompilesSnoc(compiled: seq<Command>, cmd: Command, inputs: seq<string>, input: string, suffix: string)
    requires CompilesSources(compiled, inputs, suffix) && IsSource(input) && cmd.source == input
    requires |compiled| < TEMP_LIMIT && cmd.product == TempName(|compiled| + 1, suffix)
    ensures CompilesSources(compiled + [cmd], inputs + [input], suffix)
  {
    hide TempName;
    hide IsSource;
    hide Sources;
    SourcesSnoc(inputs, input);
    var all := inputs + [input];
    forall i | 0 <= i < |all|
      ensures CompilesAt(compiled + [cmd], all[i], Sources(all[..i]))
    {
      assert all[..i] == inputs[..i];
      if i < |inputs| {
        assert CompilesAt(compiled, inputs[i], Sources(inputs[..i]));
      } else {
        assert inputs[..i] == inputs;
      }
    }
  }

  lemma CompilesOther(compiled: seq<Command>, inputs: seq<string>, input: string, suffix: string)
    requires CompilesSources(compiled, inputs, suffix) && !IsSource(input)
    ensures CompilesSources(compiled, inputs + [input], suffix)
  {
    hide TempName;
    hide IsSource;
    hide Sources;
    SourcesSnoc(inputs, input);
    var all := inputs + [input];
    forall i | 0 <= i < |all|
      ensures CompilesAt(compiled, all[i], Sources(all[..i]))
    {
      assert all[..i] == inputs[..i];
      if i < |inputs| {
        assert CompilesAt(compiled, inputs[i], Sources(inputs[..i]));
      }
    }
  }

  /** A command as it is drafted: its product stays in the workspace, and it has no response file. */
  ghost predicate StaysInWorkspace(cmd: Command)
  {
    InWorkspace(cmd.product) && cmd.response == []
  }

  /** Squeezing keeps the products. */
  lemma {:induction false} SqueezedAlike(compiled: seq<Command>, tool: Option<string>)
    requires forall cmd :: cmd in compiled ==> StaysInWorkspace(cmd)
    ensures forall cmd :: cmd in Squeezed(compiled, tool) ==> StaysInWorkspace(cmd)
  {
    hide InWorkspace;
    if compiled != [] {
      SqueezedAlike(compiled[..|compiled| - 1], tool);
      assert compiled[|compiled| - 1] in compiled;
    }
  }

  lemma {:induction false} SqueezedHolds(compiled: seq<Command>, tool: Option<string>, j: nat)
    requires j < |compiled|
    ensures exists k :: 0 <= k < |Squeezed(compiled, tool)| && Squeezed(compiled, tool)[k] == compiled[j]
  {
    var shorter := compiled[..|compiled| - 1];
    if j < |shorter| {
      SqueezedHolds(shorter, tool, j);
      var k :| 0 <= k < |Squeezed(shorter, tool)| && Squeezed(shorter, tool)[k] == compiled[j];
      assert Squeezed(compiled, tool)[k] == compiled[j];
    } else {
      assert Squeezed(compiled, tool)[|Squeezed(shorter, tool)|] == compiled[j];
    }
  }

  /** The products of the compile commands differ from each other and from later response files. */
  lemma CompileNamesDiffer(compiled: seq<Command>, inputs: seq<string>, suffix: string, file: string)
    requires CompilesSources(compiled, inputs, suffix)
    ensures NoRepeats(ProductsOf(compiled))
    ensures FreshResponse(file, |compiled|, TEMP_LIMIT) ==> file !in ProductsOf(compiled)
  {
    hide TempName;
    hide CompilesSources;
    hide NoRepeats;
    hide FreshResponse;
    hide NamedBy;
    hide ProductsOf;
    var keys: seq<(nat, string)> := CompileKeys(|compiled|, suffix);
    CompiledNamed(compiled, inputs, suffix);
    assert NoRepeats(keys) by {
      CompileKeysDiffer(|compiled|, suffix);
    }
    NamesDifferAsKeys(ProductsOf(compiled), keys);
    if FreshResponse(file, |compiled|, TEMP_LIMIT) {
      ResponseIsNew(ProductsOf(compiled), keys, file, |compiled|);
    }
  }

  lemma CompiledNamed(compiled: seq<Command>, inputs: seq<string>, suffix: string)
    requires CompilesSources(compiled, inputs, suffix)
    ensures NamedBy(ProductsOf(compiled), CompileKeys(|compiled|, suffix))
  {
    hide TempName;
    hide Sources;
    hide CompilesAt;
    hide ProductsOf;
    forall i | 0 <= i < |compiled|
      ensures NamedAs(ProductsOf(compiled)[i], CompileKeys(|compiled|, suffix)[i])
    {
      assert compiled[i].product == TempName(i + 1, suffix);
    }
    hide NamedAs;
  }

  lemma LinkNamesDiffer(compiled: seq<Command>, inputs: seq<string>, suffix: string, target: string,
                        debug: bool, root: bool, products: seq<string>, file: string)
    requires CompilesSources(compiled, inputs, suffix) && |compiled| < TEMP_LIMIT
    requires target != "dbg" && target != "rsm"
    requires products == [TempName(|compiled| + 1, target)] +
      (if debug then [TempName(|compiled| + 1, "dbg")] else []) + (if root then [TempName(|compiled| + 1, "rsm")] else [])
    ensures NoRepeats(ProductsOf(compiled) + products)
    ensures FreshResponse(file, |compiled| + 1, TEMP_LIMIT) ==> file !in ProductsOf(compiled) + products
  {
    hide TempName;
    hide Sources;
    hide CompilesAt;
    hide FreshResponse;
    hide NamedBy;
    hide CompileKeys;
    hide LinkKeys;
    hide NoRepeats;
    hide ProductsOf;
    var n := |compiled| + 1;
    var names := ProductsOf(compiled) + products;
    var keys: seq<(nat, string)> := CompileKeys(|compiled|, suffix) + LinkKeys(n, target, debug, root);
    CompiledNamed(compiled, inputs, suffix);
    LinkNamed(n, target, debug, root);
    NamedByConcat(ProductsOf(compiled), CompileKeys(|compiled|, suffix), products, LinkKeys(n, target, debug, root));
    KeysDiffer(|compiled|, suffix, target, debug, root);
    NamesDifferAsKeys(names, keys);
    if FreshResponse(file, n, TEMP_LIMIT) {
      ResponseIsNew(names, keys, file, n);
    }
  }

  // ---- Serialised commands ----

  predicate Printable(word: string)
  {
    forall i :: 0 <= i < |word| ==> word[i] > ' ' && word[i] as int != 127
  }

  predicate IsLinker(cmd: Command)
  {
    cmd.arguments != [] && PathEqual(Basename(cmd.arguments[0]), "ln.exe")
  }

  /** A command that DOS passes on unchanged. */
  predicate Passable(cmd: Command)
  {
    && cmd.arguments != [] && TailLength(cmd.arguments) <= TAIL_LIMIT
    && forall i :: 0 < i < |cmd.arguments| ==> Printable(cmd.arguments[i])
  }

  /** `now` is `was` made ready to run: a linker command reads its arguments from a new response
      file, any other command is as it was. */
  predicate Serialised(was: Command, now: Command)
  {
    && Passable(now) && now.product == was.product && now.source == was.source
    && (if IsLinker(was) then
          && now.response == was.arguments && now.arguments == [was.arguments[0], "-f", now.responseFile]
          && (forall i :: 0 < i < |was.arguments| ==> Printable(was.arguments[i]))
        else now == was)
  }

  /** `cmd` can be made ready to run, if there is a number left for its response file. */
  predicate CanSerialise(cmd: Command)
  {
    && cmd.arguments != [] && (forall i :: 0 < i < |cmd.arguments| ==> Printable(cmd.arguments[i]))
    && (if IsLinker(cmd) then Fits(cmd.arguments) else TailLength(cmd.arguments) <= TAIL_LIMIT)
  }

  /** How many of the commands are linker commands. */
  function Linkers(commands: seq<Command>): (n: nat)
    ensures n <= |commands|
  {
    if commands == [] then 0
    else Linkers(commands[..|commands| - 1]) + if IsLinker(commands[|commands| - 1]) then 1 else 0
  }

  lemma {:induction false} LinkersGrow(commands: seq<Command>, i: nat)
    requires i < |commands|
    ensures Linkers(commands[..i + 1]) == Linkers(commands[..i]) + if IsLinker(commands[i]) then 1 else 0
    ensures Linkers(commands[..i + 1]) <= Linkers(commands)
  {
    hide IsLinker;
    assert commands[..i + 1][..i] == commands[..i];
    if i == |commands| - 1 {
      assert commands[..i + 1] == commands;
    } else {
      var shorter := commands[..|commands| - 1];
      LinkersGrow(shorter, i);
      assert shorter[..i + 1] == commands[..i + 1] && shorter[..i] == commands[..i];
    }
  }

  lemma NoLinkers(commands: seq<Command>)
    ensures Linkers(commands[..0]) == 0
  {
  }

  lemma ResponseTail(tool: string, n: nat)
    requires n <= TEMP_LIMIT
    ensures var arguments := [tool, "-f", TempName(n, "rsp")]; TailLength(arguments) == 16
    ensures Printable("-f") && Printable(TempName(n, "rsp"))
  {
    var name := TempName(n, "rsp");
    var arguments := [tool, "-f", name];
    assert |name| == 12;
    assert arguments[1..] == ["-f"] + [name];
    LengthsOne("-f");
    LengthsOne(name);
    LengthsConcat(["-f"], [name]);
    DigitsPrint(n / 1000);
    DigitsPrint(n / 100 % 10);
    DigitsPrint(n / 10 % 10);
    DigitsPrint(n % 10);
  }
}
