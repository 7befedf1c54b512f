/** Planning: from a validated request to backend commands. */
module Planner {
  import opened Basics
  import opened Strings
  import opened DosPath
  import opened GuestPath
  import opened PlanData
  import opened PlanNames
  import opened PlanParts

  /** A plan in the making, with the search areas and inputs that validation found. */
  class Draft {
    const r: Request
    const p: Profile
    const w: World
    const includes: seq<string>
    const libraries: seq<string>
    const inputs: seq<string>
    var commands: seq<Command>
    var outputs: seq<string>
    var products: seq<string>
    var hostOutputs: seq<string>
    var objects: seq<string>
    var temps: nat
    /** The host paths registered as outputs, as they were given. */
    ghost var hosts: seq<string>

    ghost predicate Valid()
      reads this
    {
      && temps <= TEMP_LIMIT && |objects| <= WORD_LIMIT && |products| == |hosts|
      && Names(w, hosts, outputs, hostOutputs) && AllPublishable(w, inputs, hosts)
    }

    ghost predicate Blank()
      reads this
    {
      commands == [] && outputs == [] && products == [] && hostOutputs == [] && objects == [] && hosts == [] && temps == 0
    }

    constructor (r: Request, p: Profile, w: World, includes: seq<string>, libraries: seq<string>, inputs: seq<string>)
      ensures Valid() && Blank()
      ensures this.r == r && this.p == p && this.w == w && this.inputs == inputs && this.libraries == libraries
    {
      this.r, this.p, this.w := r, p, w;
      this.includes, this.libraries, this.inputs := includes, libraries, inputs;
      commands, outputs, products, hostOutputs, objects, hosts, temps := [], [], [], [], [], [], 0;
    }

    method NextTemp(suffix: string) returns (name: Option<string>)
      requires Valid()
      modifies `temps
      ensures Valid()
      ensures name.Some? <==> old(temps) < TEMP_LIMIT
      ensures name.Some? ==> temps == old(temps) + 1 && name.value == TempName(temps, suffix)
      ensures name.None? ==> temps == old(temps)
    {
      if temps == TEMP_LIMIT {
        return None;
      }
      temps := temps + 1;
      return Some(TempName(temps, suffix));
    }

    /** Registers host path `host` as an output made of `product`. */
    method OutputPath(host: string, product: string) returns (done: Option<()>)
      requires Valid()
      modifies `outputs, `products, `hostOutputs, `hosts
      ensures Valid()
      ensures done.Some? <==> |product| < LIMIT && AllPublishable(w, inputs, old(hosts) + [host])
      ensures done.Some? ==> products == old(products) + [product] && hosts == old(hosts) + [host]
      ensures done.None? ==> products == old(products) && hosts == old(hosts)
    {
      hide World.Canonical;
      hide GuestFor;
      hide PathEqual;
      hide Classify;
      hide AllPublishable;
      PublishableSnoc(w, inputs, hosts, host);
      if w.isDirectory(host) {
        return None;
      }
      var guest :- w.Guest(host);
      for i := 0 to |outputs|
        invariant forall k :: 0 <= k < i ==> !SameName(w, hosts[k], host)
      {
        assert NamesAt(w, hosts[i], outputs[i], hostOutputs[i]);
        if PathEqual(outputs[i], guest) {
          return None;
        }
      }
      for i := 0 to |inputs|
        invariant forall k :: 0 <= k < i ==> NotInput(w, inputs[k], host)
      {
        if Classify(inputs[i]).LibraryName? {
          continue;
        }
        assert MayPublish(w, inputs, host) ==> NotInput(w, inputs[i], host);
        var source :- w.Guest(inputs[i]);
        if PathEqual(source, guest) || (w.host.Unix? && w.sameFile(host, inputs[i])) {
          return None;
        }
      }
      var resolved := w.Canonical(host).value;
      if |outputs| >= WORD_LIMIT || |product| >= LIMIT {
        return None;
      }
      assert NamesAt(w, host, guest, resolved);
      outputs, products, hostOutputs := outputs + [guest], products + [product], hostOutputs + [resolved];
      hosts := hosts + [host];
      return Some(());
    }

    /** The tool, flags, definitions and include areas of a compile command. */
    function CompilerArguments(input: string): Option<seq<string>>
    {
      var isC := Classify(input).CSource?;
      var tool :- ToolPath(w, if isC then "cc.exe" else "as.exe");
      var args :- AddWords([tool], if isC then p.ccFlags else p.asFlags);
      var raw :- RawWords(p, if isC then "cc" else "as", if isC then r.ccOptions else r.asOptions);
      var withRaw :- AddWords(args, raw);
      var withMacros :- AddWords(withRaw, p.macros);
      var withDefinitions :- AddDefinitions(withMacros, r.definitions, isC);
      AddAreas(w, withDefinitions, includes)
    }

    function ProductSuffix(): string
    {
      if r.stage.ToAssembly? then "asm" else "o"
    }

    function SqueezeTool(): Option<string>
    {
      if r.squeeze then ToolPath(w, "sqz.exe") else None
    }

    /** The command that makes temporary number `n` from one source. */
    function CompileCommand(input: string, n: nat): Option<Command>
      requires n <= TEMP_LIMIT
    {
      var product := TempName(n, ProductSuffix());
      var args :- CompilerArguments(input);
      var guest :- w.Guest(input);
      var all :- AddWords(args, ["-o", product, guest]);
      Some(Command(all, [], "", product, input))
    }

    /** Where a product that is not linked goes. */
    function OutputName(input: string): string
      requires IsSource(input)
    {
      if r.output.Some? then r.output.value
      else
        SourceHasDot(input);
        Basename(input)[..LastIndexOf(Basename(input), '.')] + if r.stage.ToAssembly? then ".asm" else ".o"
    }

    /** Plans the command for one source, and publishes its product unless it is to be linked. */
    method CompileInput(input: string) returns (done: Option<()>)
      requires Valid() && IsSource(input)
      modifies this
      ensures
        done.Some? <==>
          && old(temps) < TEMP_LIMIT && CompileCommand(input, old(temps) + 1).Some?
          && (r.squeeze ==> SqueezeTool().Some?)
          && (if r.stage.Link? then |old(objects)| < WORD_LIMIT
              else AllPublishable(w, inputs, old(hosts) + [OutputName(input)]))
      ensures
        done.Some? ==>
          var cmd := CompileCommand(input, old(temps) + 1).value;
          && Valid() && temps == old(temps) + 1
          && commands == old(commands) + Squeezed([cmd], SqueezeTool())
          && (if r.stage.Link? then
                objects == old(objects) + [cmd.product] && products == old(products) && hosts == old(hosts)
              else
                objects == old(objects) && products == old(products) + [cmd.product] &&
                hosts == old(hosts) + [OutputName(input)])
    {
      hide AllPublishable;
      hide Names;
      hide World.Canonical;
      hide GuestFor;
      hide TempName;
      hide Classify;
      hide Squeezed;
      hide CompilerArguments;
      hide ToolPath;
      hide AddWords;
      hide Basename;
      hide LastIndexOf;
      var name := NextTemp(if r.stage.ToAssembly? then "asm" else "o");
      var product :- name;
      TempIsShort(temps, ProductSuffix());
      var args :- CompilerArguments(input);
      var guest :- w.Guest(input);
      args :- AddWords(args, ["-o", product, guest]);
      var compile := Command(args, [], "", product, input);
      commands := commands + [compile];
      if r.squeeze {
        var tool :- ToolPath(w, "sqz.exe");
        commands := commands + [Command([tool, product], [], "", product, input)];
      }
      SqueezedOne(compile, SqueezeTool());
      if r.stage.Link? {
        objects :- AddWord(objects, product);
        return Some(());
      }
      var output;
      if r.output.Some? {
        output := r.output.value;
      } else {
        SourceHasDot(input);
        output := Basename(input)[..LastIndexOf(Basename(input), '.')] +
          if r.stage.ToAssembly? then ".asm" else ".o";
      }
      done := OutputPath(output, product);
    }

    // ---- The link command ----

    function LinkOutput(): string
    {
      if r.output.Some? then r.output.value else p.executable
    }

    /** The output suffix selects the system: .cmd is CP/M-86, .exe and .com are DOS. An overlay
        is checked when it is linked. */
    predicate TargetFits()
    {
      r.overlayTable.Some? || r.output.None? ||
      (Suffix(r.output.value).Some? &&
       var suffix := Suffix(r.output.value).value;
       if p.dosTarget then PathEqual(suffix, ".exe") || PathEqual(suffix, ".com") else PathEqual(suffix, ".cmd"))
    }

    predicate LinkAllowed(suffix: string)
    {
      && !(r.overlayRoot.Some? && PathEqual(suffix, ".com"))
      && (r.overlayTable.Some? ==> PathEqual(suffix, ".ovr"))
      && (p.smallModel || (p.dos2 && PathEqual(suffix, ".exe")))
    }

    /** The output of ln and the files it writes beside it. */
    function LinkHosts(): Option<seq<string>>
    {
      var dbg :- if r.debug then OneFile(Sibling(LinkOutput(), ".dbg")) else Some([]);
      var rsm :- if r.overlayRoot.Some? then OneFile(Sibling(LinkOutput(), ".rsm")) else Some([]);
      Some([LinkOutput()] + dbg + rsm)
    }

    /** Their workspace products. */
    function LinkProducts(n: nat, suffix: string): seq<string>
      requires n <= TEMP_LIMIT
    {
      [TempName(n, suffix)] +
      (if r.debug then [TempName(n, "dbg")] else []) +
      (if r.overlayRoot.Some? then [TempName(n, "rsm")] else [])
    }

    /** Registers the output of ln and the files it writes beside it. */
    method LinkOutputs(product: string, suffix: string) returns (done: Option<()>)
      requires Valid() && '.' !in suffix && product == TempName(temps, suffix)
      modifies `outputs, `products, `hostOutputs, `hosts
      ensures Valid()
      ensures
        done.Some? <==>
          |product| < LIMIT && LinkHosts().Some? && AllPublishable(w, inputs, old(hosts) + LinkHosts().value)
      ensures
        done.Some? ==>
          products == old(products) + LinkProducts(temps, suffix) && hosts == old(hosts) + LinkHosts().value
    {
      hide AllPublishable;
      hide Names;
      hide World.Canonical;
      hide GuestFor;
      hide Sibling;
      hide TempName;
      hide Classify;
      hide LastIndexOf;
      ghost var before := hosts;
      var output := LinkOutput();
      if LinkHosts().Some? && AllPublishable(w, inputs, before + LinkHosts().value) {
        LinkHostParts(before);
      }
      var _ :- OutputPath(output, product);
      var stem := LastIndexOf(product, '.');
      StemOfTemp(temps, suffix);
      TempIsShort(temps, "dbg");
      TempIsShort(temps, "rsm");
      if r.debug {
        var beside :- Sibling(output, ".dbg");
        var _ :- OutputPath(beside, product[..stem] + ".dbg");
      }
      if r.overlayRoot.Some? {
        var beside :- Sibling(output, ".rsm");
        var _ :- OutputPath(beside, product[..stem] + ".rsm");
      }
      assert hosts == before + LinkHosts().value;
      return Some(());
    }

    lemma LinkHostParts(before: seq<string>)
      requires LinkHosts().Some? && AllPublishable(w, inputs, before + LinkHosts().value)
      ensures AllPublishable(w, inputs, before + [LinkOutput()])
      ensures r.debug ==> AllPublishable(w, inputs, before + [LinkOutput()] + [Sibling(LinkOutput(), ".dbg").value])
      ensures r.overlayRoot.Some? ==>
        var rsm := Sibling(LinkOutput(), ".rsm").value;
        if r.debug then AllPublishable(w, inputs, before + [LinkOutput()] + [Sibling(LinkOutput(), ".dbg").value] + [rsm])
        else AllPublishable(w, inputs, before + [LinkOutput()] + [rsm])
    {
      hide AllPublishable;
      hide Sibling;
      var first := before + [LinkOutput()];
      var dbg := if r.debug then [Sibling(LinkOutput(), ".dbg").value] else [];
      var rsm := if r.overlayRoot.Some? then [Sibling(LinkOutput(), ".rsm").value] else [];
      assert before + LinkHosts().value == first + dbg + rsm;
      assert first + [] == first && first + dbg + [] == first + dbg;
      assert first + dbg + rsm == first + (dbg + rsm);
      PublishablePart(w, inputs, first, dbg + rsm);
      PublishablePart(w, inputs, first + dbg, rsm);
    }

    /** What the linker is given for one input, where `compiled` are the objects in order. */
    function EntryFor(compiled: seq<string>, i: nat): Option<string>
      requires i < |inputs|
    {
      if IsSource(inputs[i]) then
        if Sources(inputs[..i]) < |compiled| then Some(compiled[Sources(inputs[..i])]) else None
      else if Classify(inputs[i]).LibraryName? then
        LibraryNameHasPrefix(inputs[i]);
        NamedLibrary(w, p, libraries, inputs[i][2..])
      else w.Guest(inputs[i])
    }

    /** One entry for each of the first `k` inputs, in input order. */
    function Entries(compiled: seq<string>, k: nat): (entries: Option<seq<string>>)
      requires k <= |inputs|
      ensures entries.Some? ==> |entries.value| == k
      ensures entries.Some? ==> forall i :: 0 <= i < k ==> EntryFor(compiled, i) == Some(entries.value[i])
    {
      if k == 0 then Some([])
      else
        var before :- Entries(compiled, k - 1);
        var entry :- EntryFor(compiled, k - 1);
        Some(before + [entry])
    }

    lemma EntriesNone(args: seq<string>)
      ensures Entries(objects, 0) == Some([]) && args + [] == args && Sources(inputs[..0]) == 0
    {
    }

    lemma {:induction false} EntriesNeed(compiled: seq<string>, k: nat)
      requires k <= |inputs| && Entries(compiled, |inputs|).Some?
      ensures Entries(compiled, k).Some? && Entries(compiled, k).value == Entries(compiled, |inputs|).value[..k]
      decreases |inputs| - k
    {
      hide EntryFor;
      if k < |inputs| {
        EntriesNeed(compiled, k + 1);
      } else {
        assert Entries(compiled, k).value[..k] == Entries(compiled, k).value;
      }
    }

    /** One word for every input, in input order. */
    method AddEntries(args: seq<string>) returns (longer: Option<seq<string>>)
      requires |objects| == Sources(inputs) && Fits(args)
      ensures
        longer.Some? <==>
          Entries(objects, |inputs|).Some? && Fits(args + Entries(objects, |inputs|).value)
      ensures longer.Some? ==> longer.value == args + Entries(objects, |inputs|).value
    {
      hide World.Canonical;
      hide GuestFor;
      hide Classify;
      hide NamedLibrary;
      hide IsSource;
      hide Sources;
      hide Fits;
      hide Entries;
      hide AddWord;
      var all, next := args, 0;
      EntriesNone(args);
      ghost var entries := [];
      for i := 0 to |inputs|
        invariant next == Sources(inputs[..i]) && all == args + entries && Fits(all)
        invariant Entries(objects, i) == Some(entries)
      {
        var name := inputs[i];
        assert inputs[..i + 1] == inputs[..i] + [name];
        assert Entries(objects, |inputs|).Some? ==> EntryFor(objects, i).Some?;
        SourcesSnoc(inputs[..i], name);
        var entry;
        if IsSource(name) {
          SourcesGrow(inputs, i);
          entry := objects[next];
          next := next + 1;
        } else if Classify(name).LibraryName? {
          LibraryNameHasPrefix(name);
          entry :- NamedLibrary(w, p, libraries, name[2..]);
        } else {
          entry :- w.Guest(name);
        }
        EntryStep(args, i, entry);
        all :- AddWord(all, entry);
        entries := entries + [entry];
      }
      longer := Some(all);
    }

    lemma EntryStep(args: seq<string>, i: nat, entry: string)
      requires i < |inputs| && Entries(objects, i).Some? && EntryFor(objects, i) == Some(entry)
      requires Fits(args + Entries(objects, i).value)
      ensures
        var entries := Entries(objects, i).value;
        && Entries(objects, i + 1) == Some(entries + [entry])
        && args + (entries + [entry]) == args + entries + [entry]
        && (AddWord(args + entries, entry).Some? ==> Fits(args + entries + [entry]))
        && (AddWord(args + entries, entry).None? && Entries(objects, |inputs|).Some? ==>
              !Fits(args + Entries(objects, |inputs|).value))
    {
      hide EntryFor;
      var all := args + Entries(objects, i).value;
      assert (all + [entry])[|all|] == entry;
      if Entries(objects, |inputs|).Some? {
        EntriesNeed(objects, i + 1);
        var whole := Entries(objects, |inputs|).value;
        assert args + whole == all + [entry] + whole[i + 1..];
        if Fits(args + whole) {
          FitsPart(all + [entry], whole[i + 1..]);
        }
      }
    }

    /** The files behind the inputs: the overlay loader, or the overlay's root table and start. */
    function OverlayFiles(): Option<seq<string>>
    {
      var loader :- if r.overlayRoot.Some? then OneFile(StockPath(w, "ovld.o")) else Some([]);
      match r.overlayTable
      case None => Some(loader)
      case Some(table) =>
        if Suffix(table).None? || !PathEqual(Suffix(table).value, ".rsm") || !w.readable(table) then None
        else
          var guest :- w.Guest(table);
          var start :- StockPath(w, "ovbgn.o");
          Some(loader + [guest, start])
    }

    function StartupFile(): Option<seq<string>>
    {
      if r.overlayRoot.None? && r.overlayTable.None? && !r.noStart && !r.noStdlib
      then OneFile(StockPath(w, p.startup))
      else Some([])
    }

    function RuntimeFile(): Option<seq<string>>
    {
      if r.overlayTable.None? && !r.noStdlib then OneFile(StockPath(w, p.runtime)) else Some([])
    }

    function RootOptions(): seq<string>
    {
      match r.overlayRoot
      case None => []
      case Some((code, data)) => ["+c", code, "+d", data, "-r"]
    }

    /** The order in which the linker is given its words. */
    function LinkOrder(tool: string, product: string, raw: seq<string>, startup: seq<string>, entries: seq<string>,
                       overlay: seq<string>, runtime: seq<string>): seq<string>
    {
      [tool, "-o", product] + RootOptions() + raw + Flag() + startup + entries + overlay + runtime
    }

    function Flag(): seq<string>
    {
      if r.debug then ["-g"] else []
    }

    /** The words of the linker command that makes `product`, if all its files are there. */
    function LinkWords(product: string, compiled: seq<string>): Option<seq<string>>
    {
      var tool :- ToolPath(w, "ln.exe");
      var raw :- RawWords(p, "ln", r.lnOptions);
      var startup :- StartupFile();
      var entries :- Entries(compiled, |inputs|);
      var overlay :- OverlayFiles();
      var runtime :- RuntimeFile();
      var words := LinkOrder(tool, product, raw, startup, entries, overlay, runtime);
      if Fits(words) then Some(words) else None
    }

    /** Collects the words of the linker command, up to the first that is missing or too much. */
    method LinkArguments(product: string) returns (all: Option<seq<string>>)
      requires |objects| == Sources(inputs)
      ensures all == LinkWords(product, objects)
    {
      hide World.Canonical;
      hide GuestFor;
      hide ToolPath;
      hide OverlayFiles;
      hide StartupFile;
      hide RuntimeFile;
      hide RootOptions;
      hide EntryFor;
      hide Entries;
      hide AddWords;
      hide RawWords;
      hide Fits;
      hide Sources;
      if LinkWords(product, objects).Some? {
        LinkPrefixesFit(product);
      }
      var tool :- ToolPath(w, "ln.exe");
      NothingFits();
      AddWordsExactly([], [tool, "-o", product]);
      assert [] + [tool, "-o", product] == [tool, "-o", product];
      var args :- AddWords([], [tool, "-o", product]);
      AddWordsExactly(args, RootOptions());
      args :- AddWords(args, RootOptions());
      var raw :- RawWords(p, "ln", r.lnOptions);
      AddWordsExactly(args, raw);
      args :- AddWords(args, raw);
      // -g applies to every file behind it.
      AddWordsExactly(args, Flag());
      args :- AddWords(args, if r.debug then ["-g"] else []);
      var startup :- StartupFile();
      AddWordsExactly(args, startup);
      args :- AddWords(args, startup);
      var filled := AddEntries(args);
      args :- filled;
      var overlay :- OverlayFiles();
      AddWordsExactly(args, overlay);
      args :- AddWords(args, overlay);
      var runtime :- RuntimeFile();
      AddWordsExactly(args, runtime);
      all := AddWords(args, runtime);
    }

    lemma LinkPrefixesFit(product: string)
      requires LinkWords(product, objects).Some?
      ensures ToolPath(w, "ln.exe").Some? && RawWords(p, "ln", r.lnOptions).Some? && StartupFile().Some?
      ensures Entries(objects, |inputs|).Some? && OverlayFiles().Some? && RuntimeFile().Some?
      ensures
        var first := [ToolPath(w, "ln.exe").value, "-o", product];
        var second := first + RootOptions();
        var third := second + RawWords(p, "ln", r.lnOptions).value;
        var fourth := third + Flag();
        var fifth := fourth + StartupFile().value;
        var sixth := fifth + Entries(objects, |inputs|).value;
        var seventh := sixth + OverlayFiles().value;
        Fits(first) && Fits(second) && Fits(third) && Fits(fourth) && Fits(fifth) && Fits(sixth) && Fits(seventh)
    {
      hide ToolPath;
      hide RawWords;
      hide StartupFile;
      hide OverlayFiles;
      hide RuntimeFile;
      hide Entries;
      hide RootOptions;
      hide Flag;
      hide Fits;
      var first := [ToolPath(w, "ln.exe").value, "-o", product];
      var second := first + RootOptions();
      var third := second + RawWords(p, "ln", r.lnOptions).value;
      var fourth := third + Flag();
      var fifth := fourth + StartupFile().value;
      var sixth := fifth + Entries(objects, |inputs|).value;
      var seventh := sixth + OverlayFiles().value;
      FitsPart(seventh, RuntimeFile().value);
      FitsPart(sixth, OverlayFiles().value);
      FitsPart(fifth, Entries(objects, |inputs|).value);
      FitsPart(fourth, StartupFile().value);
      FitsPart(third, Flag());
      FitsPart(second, RawWords(p, "ln", r.lnOptions).value);
      FitsPart(first, RootOptions());
    }

    /** The suffix that the linked product shares with the output. */
    function TargetSuffix(): (suffix: string)
      requires Suffix(LinkOutput()).Some?
      ensures '.' !in suffix
    {
      SuffixShape(LinkOutput());
      Suffix(LinkOutput()).value[1..]
    }

    /** The output can be linked as temporary number `n` from the objects in `compiled`. */
    predicate CanLink(n: nat, compiled: seq<string>)
      requires Suffix(LinkOutput()).Some?
    {
      && LinkAllowed(Suffix(LinkOutput()).value) && LinkHosts().Some?
      && n <= TEMP_LIMIT && LinkCommand(n, compiled).Some?
    }

    /** The linker command, which makes temporary number `n`. */
    function LinkCommand(n: nat, compiled: seq<string>): Option<Command>
      requires n <= TEMP_LIMIT && Suffix(LinkOutput()).Some?
    {
      var product := TempName(n, TargetSuffix());
      var words :- LinkWords(product, compiled);
      Some(Command(words, [], "", product, LinkOutput()))
    }

    /** Plans the linker command. */
    method LinkInputs() returns (done: Option<()>)
      requires Valid() && r.stage.Link? && |objects| == Sources(inputs)
      requires Suffix(LinkOutput()).Some?
      modifies this
      ensures objects == old(objects)
      ensures
        done.Some? <==>
          CanLink(old(temps) + 1, objects) && AllPublishable(w, inputs, old(hosts) + LinkHosts().value)
      ensures
        done.Some? ==>
          && Valid() && temps == old(temps) + 1
          && commands == old(commands) + [LinkCommand(temps, objects).value]
          && hosts == old(hosts) + LinkHosts().value
          && products == old(products) + LinkProducts(temps, TargetSuffix())
    {
      hide AllPublishable;
      hide Names;
      hide World.Canonical;
      hide GuestFor;
      hide TempName;
      hide Suffix;
      hide LinkWords;
      hide LinkAllowed;
      hide LinkHosts;
      hide LinkProducts;
      hide Sources;
      var suffix := Suffix(LinkOutput()).value;
      if !LinkAllowed(suffix) {
        return None;
      }
      SuffixShape(LinkOutput());
      assert suffix[1..] == TargetSuffix();
      var name := NextTemp(suffix[1..]);
      var product :- name;
      if LinkWords(product, objects).Some? {
        ProductIsShort(product);
      }
      var _ :- LinkOutputs(product, suffix[1..]);
      var args := LinkArguments(product);
      var complete :- args;
      commands := commands + [Command(complete, [], "", product, LinkOutput())];
      done := Some(());
    }

    lemma ProductIsShort(product: string)
      requires LinkWords(product, objects).Some?
      ensures |product| < LIMIT
    {
      hide LinkWords;
      hide ToolPath;
      hide RawWords;
      hide StartupFile;
      hide OverlayFiles;
      hide RuntimeFile;
      hide Entries;
      hide RootOptions;
      hide Flag;
      LinkPrefixesFit(product);
      var first := [ToolPath(w, "ln.exe").value, "-o", product];
      assert Fits(first) && first[2] == product;
    }

    // ---- Serialisation ----

    /** The tail that `arguments` make; nothing if one of them cannot be passed on unquoted. */
    method MeasureTail(arguments: seq<string>) returns (length: Option<nat>)
      ensures length.Some? <==> forall i :: 0 < i < |arguments| ==> Printable(arguments[i])
      ensures length.Some? ==> length.value == TailLength(arguments)
    {
      var total, i := 0, 1;
      while i < |arguments|
        invariant 1 <= i && (i <= |arguments| || |arguments| == 0)
        invariant |arguments| > 0 ==> total == TailLength(arguments[..i])
        invariant |arguments| == 0 ==> total == 0
        invariant forall k :: 0 < k < i && k < |arguments| ==> Printable(arguments[k])
      {
        var printable := IsPrintable(arguments[i]);
        if !printable {
          return None;
        }
        assert arguments[..i + 1][1..] == arguments[..i][1..] + [arguments[i]];
        total := total + |arguments[i]| + 1;
        i := i + 1;
      }
      assert |arguments| > 0 ==> arguments[..|arguments|] == arguments;
      return Some(total);
    }

    method IsPrintable(word: string) returns (ok: bool)
      ensures ok == Printable(word)
    {
      for i := 0 to |word|
        invariant forall k :: 0 <= k < i ==> word[k] > ' ' && word[k] as int != 127
      {
        if word[i] <= ' ' || word[i] as int == 127 {
          return false;
        }
      }
      return true;
    }

    /** Makes one command ready to run. */
    method Serialise(cmd: Command) returns (now: Option<Command>)
      requires Valid() && cmd.arguments != []
      modifies `temps
      ensures Valid()
      ensures now.Some? <==> CanSerialise(cmd) && (IsLinker(cmd) ==> old(temps) < TEMP_LIMIT)
      ensures now.Some? ==> Serialised(cmd, now.value)
      ensures now.Some? ==> temps == old(temps) + if IsLinker(cmd) then 1 else 0
      ensures now.Some? && IsLinker(cmd) ==> now.value.responseFile == TempName(temps, "rsp")
    {
      hide TempName;
      hide PathEqual;
      hide Basename;
      hide TailLength;
      hide Printable;
      hide AddWords;
      hide Fits;
      hide AllPublishable;
      hide Names;
      var tail := MeasureTail(cmd.arguments);
      var length :- tail;
      if !PathEqual(Basename(cmd.arguments[0]), "ln.exe") {
        return if length > TAIL_LIMIT then None else Some(cmd);
      }
      NothingFits();
      AddWordsExactly([], cmd.arguments);
      assert [] + cmd.arguments == cmd.arguments;
      var response :- AddWords([], cmd.arguments);
      var name := NextTemp("rsp");
      var file :- name;
      ResponseTail(response[0], temps);
      return Some(cmd.(arguments := [response[0], "-f", file], response := response, responseFile := file));
    }

    /** Makes every command ready to run. */
    method SerialiseCommands() returns (done: Option<()>)
      requires Valid() && forall i :: 0 <= i < |commands| ==> commands[i].arguments != []
      modifies `commands, `temps
      ensures Valid()
      ensures
        done.Some? <==>
          && old(temps) + Linkers(old(commands)) <= TEMP_LIMIT
          && forall i :: 0 <= i < |old(commands)| ==> CanSerialise(old(commands)[i])
      ensures
        done.Some? ==>
          && |commands| == |old(commands)| && temps == old(temps) + Linkers(old(commands))
          && (forall i :: 0 <= i < |commands| ==> Serialised(old(commands)[i], commands[i]))
          && (forall i, j :: 0 <= i < j < |commands| && IsLinker(old(commands)[i]) && IsLinker(old(commands)[j]) ==>
                commands[i].responseFile != commands[j].responseFile)
          && (forall i :: 0 <= i < |commands| && IsLinker(old(commands)[i]) ==>
                FreshResponse(commands[i].responseFile, old(temps), temps))
    {
      hide Serialised;
      hide CanSerialise;
      hide IsLinker;
      hide TempName;
      hide Linkers;
      hide AllPublishable;
      hide Names;
      hide FreshResponse;
      ghost var was, first := commands, temps;
      NoLinkers(was);
      for n := 0 to |commands|
        invariant Valid() && |commands| == |was|
        invariant temps == first + Linkers(was[..n])
        invariant forall i :: n <= i < |was| ==> commands[i] == was[i]
        invariant forall i :: 0 <= i < n ==> Serialised(was[i], commands[i]) && CanSerialise(was[i])
        invariant forall i :: 0 <= i < n && IsLinker(was[i]) ==> FreshResponse(commands[i].responseFile, first, temps)
        invariant forall i, j :: 0 <= i < j < n && IsLinker(was[i]) && IsLinker(was[j]) ==>
          commands[i].responseFile != commands[j].responseFile
      {
        ghost var before := temps;
        LinkersGrow(was, n);
        var ready := Serialise(commands[n]);
        var now :- ready;
        forall i | 0 <= i < n && IsLinker(was[i])
          ensures FreshResponse(commands[i].responseFile, first, temps)
          ensures IsLinker(was[n]) ==> commands[i].responseFile != now.responseFile
        {
          FreshStaysFresh(commands[i].responseFile, first, before, temps, now.responseFile, IsLinker(was[n]));
        }
        if IsLinker(was[n]) {
          NewIsFresh(now.responseFile, first, temps);
        }
        commands := commands[n := now];
      }
      assert was[..|was|] == was;
      return Some(());
    }

    // ---- The whole plan ----

    /** The commands for the sources among the first `k` inputs, in order. */
    function Compiled(k: nat): Option<seq<Command>>
      requires k <= |inputs|
    {
      if k == 0 then Some([])
      else
        var before :- Compiled(k - 1);
        if !IsSource(inputs[k - 1]) then Some(before)
        else if |before| >= TEMP_LIMIT then None
        else
          var cmd :- CompileCommand(inputs[k - 1], |before| + 1);
          Some(before + [cmd])
    }

    /** Where their products go if they are not linked. */
    function OutputNames(k: nat): seq<string>
      requires k <= |inputs|
    {
      if k == 0 then []
      else OutputNames(k - 1) + if IsSource(inputs[k - 1]) then [OutputName(inputs[k - 1])] else []
    }

    /** The sources among the first `k` inputs can be compiled. */
    predicate CanCompile(k: nat): (can: bool)
      requires k <= |inputs|
      ensures can ==> Compiled(k).Some?
    {
      && Compiled(k).Some? && (r.squeeze && Compiled(k).value != [] ==> SqueezeTool().Some?)
      && (if r.stage.Link? then |Compiled(k).value| <= WORD_LIMIT else AllPublishable(w, inputs, OutputNames(k)))
    }

    lemma CompileStep(k: nat)
      requires k < |inputs| && CanCompile(k)
      ensures CanCompile(k + 1) <==> (IsSource(inputs[k]) ==>
        var n := |Compiled(k).value|;
        && n < TEMP_LIMIT && CompileCommand(inputs[k], n + 1).Some? && (r.squeeze ==> SqueezeTool().Some?)
        && (if r.stage.Link? then n < WORD_LIMIT else AllPublishable(w, inputs, OutputNames(k) + [OutputName(inputs[k])])))
    {
      hide AllPublishable;
      hide CompileCommand;
      hide OutputName;
      hide SqueezeTool;
      hide IsSource;
      CompiledNext(k);
    }

    lemma {:induction false} CanCompileLess(k: nat)
      requires k <= |inputs| && CanCompile(|inputs|)
      ensures CanCompile(k)
      decreases |inputs| - k
    {
      hide AllPublishable;
      hide CompileCommand;
      hide OutputName;
      hide SqueezeTool;
      hide IsSource;
      if k < |inputs| {
        CanCompileLess(k + 1);
        CompiledNext(k);
        if IsSource(inputs[k]) && !r.stage.Link? {
          PublishablePart(w, inputs, OutputNames(k), [OutputName(inputs[k])]);
        }
      }
    }

    /** `compiled` holds one command for every source, in order, each with its own product. */
    lemma {:induction false} CompiledInOrder(k: nat)
      requires k <= |inputs| && Compiled(k).Some?
      ensures CompilesSources(Compiled(k).value, inputs[..k], ProductSuffix())
    {
      hide IsSource;
      hide CompilerArguments;
      hide TempName;
      hide AddWords;
      hide CompilesSources;
      hide World.Canonical;
      hide GuestFor;
      if k == 0 {
        NothingCompiled(ProductSuffix(), None);
        assert inputs[..0] == [];
      } else {
        CompiledInOrder(k - 1);
        assert inputs[..k] == inputs[..k - 1] + [inputs[k - 1]];
        var before := Compiled(k - 1).value;
        if IsSource(inputs[k - 1]) {
          CompilesSnoc(before, Compiled(k).value[|before|], inputs[..k - 1], inputs[k - 1], ProductSuffix());
        } else {
          CompilesOther(before, inputs[..k - 1], inputs[k - 1], ProductSuffix());
        }
      }
    }

    /** Plans one command for every source, in input order. */
    method CompileInputs() returns (done: Option<()>)
      requires Valid() && Blank()
      modifies this
      ensures done.Some? <==> CanCompile(|inputs|)
      ensures
        done.Some? ==>
          var compiled := Compiled(|inputs|).value;
          && Valid() && temps == |compiled|
          && commands == Squeezed(compiled, SqueezeTool())
          && (forall i :: 0 <= i < |commands| ==> commands[i].arguments != [])
          && (if r.stage.Link? then objects == ProductsOf(compiled) && products == [] && hosts == []
              else products == ProductsOf(compiled) && hosts == OutputNames(|inputs|))
    {
      hide Names;
      hide AllPublishable;
      hide CanCompile;
      hide Compiled;
      hide OutputNames;
      hide Squeezed;
      hide SqueezeTool;
      hide ProductsOf;
      hide CompileCommand;
      hide OutputName;
      hide IsSource;
      ghost var compiled := [];
      NothingCompiled(ProductSuffix(), SqueezeTool());
      CompiledNone();
      for i := 0 to |inputs|
        invariant CanCompile(i) && Compiled(i) == Some(compiled)
        invariant Valid() && temps == |compiled|
        invariant commands == Squeezed(compiled, SqueezeTool())
        invariant forall k :: 0 <= k < |commands| ==> commands[k].arguments != []
        invariant
          if r.stage.Link? then objects == ProductsOf(compiled) && products == [] && hosts == []
          else products == ProductsOf(compiled) && hosts == OutputNames(i)
      {
        CompileStep(i);
        if CanCompile(|inputs|) {
          CanCompileLess(i + 1);
        }
        CompiledNext(i);
        ObjectCount(compiled);
        if IsSource(inputs[i]) {
          ghost var before := commands;
          var _ :- CompileInput(inputs[i]);
          ghost var cmd := CompileCommand(inputs[i], temps).value;
          CommandHasArguments(inputs[i], temps);
          SqueezedOne(cmd, SqueezeTool());
          SqueezedSnoc(compiled, cmd, SqueezeTool());
          compiled := compiled + [cmd];
          assert commands == before + Squeezed([cmd], SqueezeTool());
        }
      }
      done := Some(());
    }

    lemma CompiledNone()
      ensures Compiled(0) == Some([]) && OutputNames(0) == [] && CanCompile(0)
    {
    }

    lemma CompiledNext(k: nat)
      requires k < |inputs| && Compiled(k).Some?
      ensures
        if IsSource(inputs[k]) then
          && OutputNames(k + 1) == OutputNames(k) + [OutputName(inputs[k])]
          && (|Compiled(k).value| < TEMP_LIMIT && CompileCommand(inputs[k], |Compiled(k).value| + 1).Some? ==>
                Compiled(k + 1) == Some(Compiled(k).value + [CompileCommand(inputs[k], |Compiled(k).value| + 1).value]))
        else Compiled(k + 1) == Compiled(k) && OutputNames(k + 1) == OutputNames(k)
    {
      hide CompileCommand;
      hide OutputName;
      hide IsSource;
    }

    lemma CommandHasArguments(input: string, n: nat)
      requires n <= TEMP_LIMIT && CompileCommand(input, n).Some?
      ensures CompileCommand(input, n).value.arguments != []
    {
      hide CompilerArguments;
      hide World.Canonical;
      hide GuestFor;
      hide TempName;
      hide AddWords;
    }

    /** What the linker is given for one input: for a source, the product of its own compile
        command. */
    ghost predicate EntryOf(compiled: seq<Command>, i: nat, entry: string)
      requires i < |inputs|
    {
      if IsSource(inputs[i]) then
        exists j :: 0 <= j < |compiled| && compiled[j].source == inputs[i] && entry == compiled[j].product &&
                    j == Sources(inputs[..i])
      else if Classify(inputs[i]).LibraryName? then
        |inputs[i]| >= 2 && NamedLibrary(w, p, libraries, inputs[i][2..]) == Some(entry)
      else w.Guest(inputs[i]) == Some(entry)
    }

    /** The linker takes, in input order, the products of `compiled` and the other inputs. */
    lemma EntriesAreOwnProducts(i: nat)
      requires i < |inputs| && Compiled(|inputs|).Some?
      requires Entries(ProductsOf(Compiled(|inputs|).value), |inputs|).Some?
      ensures
        var compiled := Compiled(|inputs|).value;
        EntryOf(compiled, i, Entries(ProductsOf(compiled), |inputs|).value[i])
    {
      hide IsSource;
      hide Classify;
      hide NamedLibrary;
      hide World.Canonical;
      hide GuestFor;
      hide Sources;
      hide Entries;
      hide Compiled;
      hide TempName;
      hide ProductsOf;
      var compiled := Compiled(|inputs|).value;
      var entry := Entries(ProductsOf(compiled), |inputs|).value[i];
      CompiledInOrder(|inputs|);
      assert inputs[..|inputs|] == inputs;
      assert EntryFor(ProductsOf(compiled), i) == Some(entry);
      assert CompilesAt(compiled, inputs[i], Sources(inputs[..i]));
      if !IsSource(inputs[i]) && Classify(inputs[i]).LibraryName? {
        LibraryNameHasPrefix(inputs[i]);
      }
    }

    /** The default output has a suffix, and an overlay is not linked to an output without one.
        (Any other output without a suffix is refused.) */
    predicate Suffixed()
    {
      r.stage.Link? && (r.output.None? || r.overlayTable.Some?) ==> Suffix(LinkOutput()).Some?
    }

    lemma TargetHasSuffix()
      requires Suffixed() && r.stage.Link? && TargetFits()
      ensures Suffix(LinkOutput()).Some?
    {
      hide Suffix;
    }

    /** The request can be planned, apart from making the commands ready to run. */
    predicate CanDraft()
      requires Suffixed()
    {
      && CanCompile(|inputs|)
      && (r.stage.Link? ==>
            && TargetFits()
            && CanLink(|Compiled(|inputs|).value| + 1, ProductsOf(Compiled(|inputs|).value))
            && AllPublishable(w, inputs, LinkHosts().value))
    }

    /** The commands of the plan, before they are made ready to run. */
    function Drafted(): seq<Command>
      requires Suffixed() && CanDraft()
    {
      var compiled := Compiled(|inputs|).value;
      Squeezed(compiled, SqueezeTool()) +
      if r.stage.Link? then [LinkCommand(|compiled| + 1, ProductsOf(compiled)).value] else []
    }

    /** What the plan publishes, as host paths and as workspace products. */
    function PlanHosts(): seq<string>
      requires Suffixed() && CanDraft()
    {
      if r.stage.Link? then LinkHosts().value else OutputNames(|inputs|)
    }

    function PlanProducts(): seq<string>
      requires Suffixed() && CanDraft()
    {
      var compiled := Compiled(|inputs|).value;
      if r.stage.Link? then LinkProducts(|compiled| + 1, TargetSuffix()) else ProductsOf(compiled)
    }

    /** How many workspace names the drafted commands use. */
    function NamesUsed(): nat
      requires Suffixed() && CanDraft()
    {
      |Compiled(|inputs|).value| + if r.stage.Link? then 1 else 0
    }

    /** Plans all commands. */
    method DraftCommands() returns (done: Option<()>)
      requires Valid() && Blank() && Suffixed()
      modifies this
      ensures done.Some? <==> CanDraft()
      ensures
        done.Some? ==>
          && Valid() && commands == Drafted() && temps == NamesUsed()
          && hosts == PlanHosts() && products == PlanProducts()
          && (forall i :: 0 <= i < |commands| ==> commands[i].arguments != [])
    {
      hide Names;
      hide AllPublishable;
      hide CanCompile;
      hide Compiled;
      hide TargetFits;
      hide LinkAllowed;
      hide LinkCommand;
      hide LinkHosts;
      hide LinkProducts;
      hide Squeezed;
      hide SqueezeTool;
      hide ProductsOf;
      hide OutputNames;
      hide Suffix;
      if r.stage.Link? && !TargetFits() {
        return None;
      }
      var planned := CompileInputs();
      var _ :- planned;
      if r.stage.Link? {
        TargetHasSuffix();
        ObjectCount(Compiled(|inputs|).value);
        CompiledCount();
        if LinkHosts().Some? {
          assert [] + LinkHosts().value == LinkHosts().value;
        }
        planned := LinkInputs();
        var _ :- planned;
        LinkerHasArguments(temps, objects);
      }
      done := Some(());
    }

    lemma CompiledCount()
      requires Compiled(|inputs|).Some?
      ensures |Compiled(|inputs|).value| == Sources(inputs)
    {
      hide Compiled;
      hide Sources;
      hide IsSource;
      hide CompilesAt;
      hide TempName;
      CompiledInOrder(|inputs|);
      assert inputs[..|inputs|] == inputs;
    }

    lemma LinkerHasArguments(n: nat, compiled: seq<string>)
      requires n <= TEMP_LIMIT && Suffix(LinkOutput()).Some? && LinkCommand(n, compiled).Some?
      ensures LinkCommand(n, compiled).value.arguments != []
    {
      hide ToolPath;
      hide RawWords;
      hide StartupFile;
      hide OverlayFiles;
      hide RuntimeFile;
      hide Entries;
      hide RootOptions;
      hide Flag;
      hide Fits;
      hide TempName;
      hide Suffix;
    }

    /** There is a plan for the request. */
    predicate CanPlan(): (can: bool)
      requires Suffixed()
      ensures can ==> CanDraft()
    {
      && CanDraft() && LibraryGuests().Some? && NamesUsed() + Linkers(Drafted()) <= TEMP_LIMIT
      && forall i :: 0 <= i < |Drafted()| ==> CanSerialise(Drafted()[i])
    }

    /** The guest paths of the library areas, if they all have one and make one list. */
    function LibraryGuests(): Option<seq<string>>
    {
      var guests :- Guests(w, libraries);
      if Fits(guests) then Some(guests) else None
    }

    /** Maps the library areas for the tools' environment. */
    method MapLibraries() returns (areas: Option<seq<string>>)
      ensures areas == LibraryGuests()
    {
      hide World.Guest;
      var all := [];
      assert libraries[..0] == [] && Guests(w, []) == Some([]);
      for i := 0 to |libraries|
        invariant Guests(w, libraries[..i]) == Some(all) && Fits(all)
      {
        var next := libraries[..i + 1];
        assert next[..|next| - 1] == libraries[..i] && next[|next| - 1] == libraries[i];
        if Guests(w, libraries).Some? {
          GuestsNeed(w, libraries, i + 1);
          var whole := Guests(w, libraries).value;
          if Fits(whole) {
            assert whole == whole[..i + 1] + whole[i + 1..];
            FitsPart(whole[..i + 1], whole[i + 1..]);
          }
        }
        var guest :- w.Guest(libraries[i]);
        assert (all + [guest])[|all|] == guest;
        all :- AddWord(all, guest);
      }
      assert libraries[..|libraries|] == libraries;
      areas := Some(all);
    }

    /** `plan` publishes what the request asks for, and its commands are the drafted ones, made
        ready to run with response files of their own. */
    ghost predicate IsPlan(plan: Plan)
      requires Suffixed()
    {
      && CanPlan() && plan.products == PlanProducts() && |plan.products| == |PlanHosts()|
      && plan.root == w.anchors.root && Some(plan.libraries) == LibraryGuests()
      && AllPublishable(w, inputs, PlanHosts())
      && Names(w, PlanHosts(), plan.outputs, plan.hostOutputs)
      && |plan.commands| == |Drafted()|
      && (forall i :: 0 <= i < |Drafted()| ==> Serialised(Drafted()[i], plan.commands[i]))
      && (forall i :: 0 <= i < |Drafted()| && IsLinker(Drafted()[i]) ==>
            FreshResponse(plan.commands[i].responseFile, NamesUsed(), TEMP_LIMIT))
      && (forall i, j :: 0 <= i < j < |Drafted()| && IsLinker(Drafted()[i]) && IsLinker(Drafted()[j]) ==>
            plan.commands[i].responseFile != plan.commands[j].responseFile)
    }

    /** Plans all commands and makes them ready to run. */
    method BuildPlan() returns (plan: Option<Plan>)
      requires Valid() && Blank() && Suffixed()
      modifies this
      ensures plan.Some? <==> CanPlan()
      ensures plan.Some? ==> plan.value.Parallel() && IsPlan(plan.value)
    {
      hide Names;
      hide AllPublishable;
      hide CanDraft;
      hide Drafted;
      hide PlanHosts;
      hide PlanProducts;
      hide NamesUsed;
      hide Linkers;
      hide IsLinker;
      hide Serialised;
      hide CanSerialise;
      hide FreshResponse;
      hide Suffixed;
      var mapped := MapLibraries();
      var areas :- mapped;
      var done := DraftCommands();
      var _ :- done;
      ghost var first := temps;
      var serialised := SerialiseCommands();
      var _ :- serialised;
      forall i | 0 <= i < |commands| && FreshResponse(commands[i].responseFile, first, temps)
        ensures FreshResponse(commands[i].responseFile, first, TEMP_LIMIT)
      {
        FreshWithin(commands[i].responseFile, first, temps);
      }
      NamesAreParallel(w, hosts, outputs, hostOutputs);
      plan := Some(Plan(commands, outputs, products, hostOutputs, w.anchors.root, areas));
    }

    /** `words` is the one file `name` of the installation. */
    predicate IsStock(name: string, words: seq<string>)
    {
      StockPath(w, name).Some? && words == [StockPath(w, name).value]
    }

    /** The words of a linker command, from the tool to the runtime. */
    predicate LinksWith(words: seq<string>, product: string, startup: seq<string>, entries: seq<string>,
                        loader: seq<string>, table: seq<string>, runtime: seq<string>)
    {
      && ToolPath(w, "ln.exe").Some? && RawWords(p, "ln", r.lnOptions).Some?
      && words ==
         [ToolPath(w, "ln.exe").value, "-o", product] +
         (if r.overlayRoot.None? then [] else ["+c", r.overlayRoot.value.0, "+d", r.overlayRoot.value.1, "-r"]) +
         RawWords(p, "ln", r.lnOptions).value + (if r.debug then ["-g"] else []) +
         startup + entries + (loader + table) + runtime
      && (if r.noStart || r.noStdlib || r.overlayRoot.Some? || r.overlayTable.Some? then startup == []
          else IsStock(p.startup, startup))
      && (if r.overlayRoot.None? then loader == [] else IsStock("ovld.o", loader))
      && (if r.overlayTable.None? then table == []
          else
            && |table| == 2 && w.Guest(r.overlayTable.value) == Some(table[0]) && IsStock("ovbgn.o", table[1..]))
      && (if r.noStdlib || r.overlayTable.Some? then runtime == [] else IsStock(p.runtime, runtime))
    }

    /** The entries stand in input order, a source's own product in its place. */
    ghost predicate AreEntries(entries: seq<string>)
      requires Compiled(|inputs|).Some?
    {
      && |entries| == |inputs|
      && forall i :: 0 <= i < |inputs| ==> EntryOf(Compiled(|inputs|).value, i, entries[i])
    }

    /** The last command of a link plan links the compiled objects and the other inputs, each at
        the place of its input, between the startup file and the runtime. */
    lemma PlanLinksInOrder()
      requires Suffixed() && CanDraft() && r.stage.Link?
      ensures CompilesSources(Compiled(|inputs|).value, inputs, "o")
      ensures
        var link := Drafted()[|Drafted()| - 1];
        && link.product == PlanProducts()[0] && link.source == LinkOutput()
        && exists startup, entries, loader, table, runtime ::
             AreEntries(entries) && LinksWith(link.arguments, link.product, startup, entries, loader, table, runtime)
    {
      hide Compiled;
      hide CompilesSources;
      hide EntryOf;
      hide Entries;
      hide TempName;
      hide TargetSuffix;
      hide Squeezed;
      hide LinkWords;
      hide AllPublishable;
      hide ProductsOf;
      hide LinksWith;
      TargetHasSuffix();
      var compiled := Compiled(|inputs|).value;
      CompiledInOrder(|inputs|);
      assert inputs[..|inputs|] == inputs;
      var link := Drafted()[|Drafted()| - 1];
      assert Some(link.arguments) == LinkWords(link.product, ProductsOf(compiled));
      var startup, entries, loader, table, runtime := WordsLinkWith(link.product, ProductsOf(compiled));
      forall i | 0 <= i < |inputs|
        ensures EntryOf(compiled, i, entries[i])
      {
        EntriesAreOwnProducts(i);
      }
      assert AreEntries(entries);
    }

    lemma WordsLinkWith(product: string, compiled: seq<string>)
      returns (startup: seq<string>, entries: seq<string>, loader: seq<string>, table: seq<string>, runtime: seq<string>)
      requires LinkWords(product, compiled).Some?
      ensures Entries(compiled, |inputs|) == Some(entries)
      ensures LinksWith(LinkWords(product, compiled).value, product, startup, entries, loader, table, runtime)
    {
      hide Entries;
      hide RawWords;
      hide ToolPath;
      hide StockPath;
      hide Suffix;
      hide PathEqual;
      hide Fits;
      hide World.Guest;
      startup, entries, runtime := StartupFile().value, Entries(compiled, |inputs|).value, RuntimeFile().value;
      loader := if r.overlayRoot.Some? then [StockPath(w, "ovld.o").value] else [];
      table := if r.overlayTable.None? then [] else [w.Guest(r.overlayTable.value).value, StockPath(w, "ovbgn.o").value];
      assert OverlayFiles().value == loader + table;
      assert table != [] ==> table[1..] == [StockPath(w, "ovbgn.o").value];
    }

    /** The default output, if it is linked, has the suffix of a program. */
    predicate DefaultIsProgram()
    {
      r.stage.Link? && r.output.None? ==>
        Suffix(p.executable).Some? &&
        (PathEqual(Suffix(p.executable).value, ".cmd") || PathEqual(Suffix(p.executable).value, ".exe"))
    }

    /** All drafted commands leave their products in the workspace. */
    lemma DraftedStaysInWorkspace()
      requires Suffixed() && CanDraft() && DefaultIsProgram()
      ensures forall cmd :: cmd in Drafted() ==> StaysInWorkspace(cmd)
      ensures forall i :: 0 <= i < |PlanProducts()| ==> InWorkspace(PlanProducts()[i])
    {
      hide Compiled;
      hide TempName;
      hide Suffix;
      hide TargetSuffix;
      hide PathEqual;
      hide InWorkspace;
      hide Squeezed;
      hide AllPublishable;
      hide LinkWords;
      hide ProductsOf;
      var compiled := Compiled(|inputs|).value;
      CompiledStaysInWorkspace(|inputs|);
      SqueezedAlike(compiled, SqueezeTool());
      if r.stage.Link? {
        var n := |compiled| + 1;
        TargetIsPlain();
        TempInWorkspace(n, TargetSuffix());
        TempInWorkspace(n, "dbg");
        TempInWorkspace(n, "rsm");
      } else {
        assert forall i :: 0 <= i < |compiled| ==> compiled[i] in compiled;
      }
    }

    lemma TargetIsPlain()
      requires Suffixed() && r.stage.Link? && TargetFits() && LinkAllowed(Suffix(LinkOutput()).value) && DefaultIsProgram()
      ensures |TargetSuffix()| == 3 && '/' !in TargetSuffix() && '\\' !in TargetSuffix()
    {
      hide Suffix;
      hide PathEqual;
      TargetSuffixes(Suffix(LinkOutput()).value);
    }

    lemma {:induction false} CompiledStaysInWorkspace(k: nat)
      requires k <= |inputs| && Compiled(k).Some?
      ensures forall cmd :: cmd in Compiled(k).value ==> StaysInWorkspace(cmd)
    {
      hide IsSource;
      hide CompilerArguments;
      hide World.Canonical;
      hide GuestFor;
      hide TempName;
      hide AddWords;
      hide InWorkspace;
      if k > 0 {
        CompiledStaysInWorkspace(k - 1);
        var n := |Compiled(k - 1).value| + 1;
        if n <= TEMP_LIMIT {
          TempInWorkspace(n, ProductSuffix());
        }
      }
    }

    /** The workspace files that the commands of the plan make. */
    function WorkspaceNames(): seq<string>
      requires Suffixed() && CanDraft()
    {
      ProductsOf(Compiled(|inputs|).value) + if r.stage.Link? then PlanProducts() else []
    }

    /** All workspace files of a plan differ: the compiled products, the product of ln and the files
        beside it, and the response files. */
    lemma WorkspaceNamesDiffer(plan: Plan)
      requires Suffixed() && IsPlan(plan) && DefaultIsProgram()
      ensures NoRepeats(WorkspaceNames())
      ensures forall i :: 0 <= i < |plan.commands| && IsLinker(Drafted()[i]) ==>
        plan.commands[i].responseFile !in WorkspaceNames()
      ensures forall i, j :: 0 <= i < j < |plan.commands| && IsLinker(Drafted()[i]) && IsLinker(Drafted()[j]) ==>
        plan.commands[i].responseFile != plan.commands[j].responseFile
    {
      hide CanDraft;
      hide WorkspaceNames;
      hide NoRepeats;
      hide FreshResponse;
      hide IsLinker;
      hide Serialised;
      hide AllPublishable;
      hide Names;
      DraftedNamesDiffer("");
      forall i | 0 <= i < |plan.commands| && IsLinker(Drafted()[i])
        ensures plan.commands[i].responseFile !in WorkspaceNames()
      {
        DraftedNamesDiffer(plan.commands[i].responseFile);
      }
    }

    lemma DraftedNamesDiffer(file: string)
      requires Suffixed() && CanDraft() && DefaultIsProgram()
      ensures NoRepeats(WorkspaceNames())
      ensures FreshResponse(file, NamesUsed(), TEMP_LIMIT) ==> file !in WorkspaceNames()
    {
      hide Compiled;
      hide CanCompile;
      hide CompilesSources;
      hide TempName;
      hide Suffix;
      hide PathEqual;
      hide NoRepeats;
      hide FreshResponse;
      hide LinkCommand;
      hide LinkHosts;
      hide AllPublishable;
      hide ProductsOf;
      var compiled := Compiled(|inputs|).value;
      CompiledInOrder(|inputs|);
      assert inputs[..|inputs|] == inputs;
      if r.stage.Link? {
        var suffix := Suffix(LinkOutput()).value;
        TargetSuffixes(suffix);
        DraftHasRoom();
        LinkNamesDiffer(compiled, inputs, ProductSuffix(), suffix[1..], r.debug, r.overlayRoot.Some?, PlanProducts(), file);
      } else {
        assert ProductsOf(compiled) + [] == ProductsOf(compiled);
        CompileNamesDiffer(compiled, inputs, ProductSuffix(), file);
      }
    }

    /** `name` is a file that ln writes beside `product`. */
    ghost predicate Beside(name: string, product: string)
    {
      exists n, suffix :: IsBeside(name, product, n, suffix)
    }

    ghost predicate IsBeside(name: string, product: string, n: nat, suffix: string)
    {
      && n <= TEMP_LIMIT && product == TempName(n, suffix)
      && ((r.debug && name == TempName(n, "dbg")) || (r.overlayRoot.Some? && name == TempName(n, "rsm")))
    }

    ghost predicate Makes(cmd: Command, name: string)
    {
      cmd.product == name || Beside(name, cmd.product)
    }

    /** Everything that a plan publishes is made by one of its commands, or is a file that the
        linker writes beside its product. */
    lemma ProductsAreMade(plan: Plan, i: nat)
      requires Suffixed() && IsPlan(plan) && i < |plan.products|
      ensures exists k :: 0 <= k < |plan.commands| && Makes(plan.commands[k], plan.products[i])
    {
      hide AllPublishable;
      hide Names;
      hide IsLinker;
      hide Passable;
      hide FreshResponse;
      hide TempName;
      hide TargetSuffix;
      hide Compiled;
      hide CanSerialise;
      hide LinkWords;
      hide ProductsOf;
      hide Squeezed;
      hide Suffix;
      hide CanCompile;
      hide TargetFits;
      hide LinkHosts;
      hide OutputNames;
      var compiled, drafted := Compiled(|inputs|).value, Drafted();
      if r.stage.Link? {
        var k := |drafted| - 1;
        TargetHasSuffix();
        assert Serialised(drafted[k], plan.commands[k]);
        assert i > 0 ==> IsBeside(plan.products[i], plan.commands[k].product, |compiled| + 1, TargetSuffix());
        assert Makes(plan.commands[k], plan.products[i]);
      } else {
        SqueezedHolds(compiled, SqueezeTool(), i);
        assert drafted == Squeezed(compiled, SqueezeTool());
        var k :| 0 <= k < |drafted| && drafted[k] == compiled[i];
        assert Serialised(drafted[k], plan.commands[k]);
        assert Makes(plan.commands[k], plan.products[i]);
      }
    }

    lemma DraftHasRoom()
      requires Suffixed() && CanDraft() && r.stage.Link?
      ensures |Compiled(|inputs|).value| < TEMP_LIMIT
    {
    }
  }
}
