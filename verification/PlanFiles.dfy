/** The files that a request means: kinds and names by suffix, outputs, and the installation. */
module PlanFiles {
  import opened Basics
  import opened Strings
  import opened DosPath
  import opened GuestPath
  import opened PlanData
  import opened PlanNames
  import opened PlanParts
  import opened Planner

  // ---- Suffixes ----

  predicate NoSeparator(name: string)
  {
    '/' !in name && '\\' !in name && ':' !in name
  }

  /** A suffix: a dot, and behind it no other dot. */
  predicate PlainSuffix(suffix: string)
  {
    suffix != "" && suffix[0] == '.' && '.' !in suffix[1..] && NoSeparator(suffix)
  }

  predicate Directory(head: string)
  {
    head == "" || head[|head| - 1] in "/\\:"
  }

  lemma {:induction false} BasenameBehind(head: string, name: string)
    requires Directory(head) && NoSeparator(name)
    ensures BaseStart(head + name) == |head| && Basename(head + name) == name
  {
    if name == "" {
      assert head + name == head;
    } else {
      var last := |name| - 1;
      assert (head + name)[..|head + name| - 1] == head + name[..last];
      assert name[last] in name && (head + name)[|head + name| - 1] == name[last];
      BasenameBehind(head, name[..last]);
    }
  }

  lemma LastDot(base: string, suffix: string)
    requires PlainSuffix(suffix)
    ensures LastIndexOf(base + suffix, '.') == |base|
  {
    var name := base + suffix;
    assert name[|base|] == '.';
    forall j | |base| < j < |name|
      ensures name[j] != '.'
    {
      assert name[j] == suffix[1..][j - |base| - 1];
    }
  }

  lemma SuffixAtEnd(head: string, base: string, suffix: string)
    requires Directory(head) && NoSeparator(base) && PlainSuffix(suffix)
    ensures Suffix(head + (base + suffix)) == Some(suffix) && Basename(head + (base + suffix)) == base + suffix
  {
    BasenameBehind(head, base + suffix);
    LastDot(base, suffix);
  }

  /** The suffix decides what kind of input a file is, in small or in capital letters. */
  lemma KindBySuffix(head: string, base: string, suffix: string)
    requires Directory(head) && NoSeparator(base) && PlainSuffix(suffix) && !("-l" <= head + (base + suffix))
    ensures
      var kind := Classify(head + (base + suffix));
      && (kind.CSource? <==> LowerAll(suffix) == ".c")
      && (kind.AsmSource? <==> LowerAll(suffix) == ".asm" || LowerAll(suffix) == ".s")
      && (kind.Object? <==> LowerAll(suffix) == ".o") && (kind.Library? <==> LowerAll(suffix) == ".lib")
  {
    SuffixAtEnd(head, base, suffix);
    hide *;
    KindOf(head + (base + suffix), suffix);
  }

  lemma KindOf(path: string, suffix: string)
    requires !("-l" <= path) && Suffix(path) == Some(suffix)
    ensures
      var kind := Classify(path);
      && (kind.CSource? <==> LowerAll(suffix) == ".c")
      && (kind.AsmSource? <==> LowerAll(suffix) == ".asm" || LowerAll(suffix) == ".s")
      && (kind.Object? <==> LowerAll(suffix) == ".o") && (kind.Library? <==> LowerAll(suffix) == ".lib")
  {
    hide Suffix;
    SmallSuffixes();
    hide LowerAll;
    assert ".c"[1] == 'c' && ".s"[1] == 's' && ".o"[1] == 'o' && ".asm"[1] == 'a' && ".lib"[1] == 'l' && ".inp"[1] == 'i';
  }

  lemma SmallSuffixes()
    ensures LowerAll(".c") == ".c" && LowerAll(".s") == ".s" && LowerAll(".o") == ".o"
    ensures LowerAll(".asm") == ".asm" && LowerAll(".lib") == ".lib" && LowerAll(".inp") == ".inp"
  {
  }

  /** The suffix of the output names the system: .cmd is CP/M-86, .exe and .com are DOS. A root of
      overlays is no .com program, an overlay is an .ovr file, and other models than small need an .exe
      of DOS 2. */
  lemma TargetBySuffix(d: Draft, head: string, base: string, suffix: string)
    requires Directory(head) && NoSeparator(base) && PlainSuffix(suffix) && d.r.output == Some(head + (base + suffix))
    ensures
      d.TargetFits() <==>
        d.r.overlayTable.Some? ||
        (if d.p.dosTarget then LowerAll(suffix) in [".exe", ".com"] else LowerAll(suffix) == ".cmd")
    ensures
      d.LinkAllowed(suffix) <==>
        && (d.r.overlayRoot.Some? ==> LowerAll(suffix) != ".com") && (d.r.overlayTable.Some? ==> LowerAll(suffix) == ".ovr")
        && (!d.p.smallModel ==> d.p.dos2 && LowerAll(suffix) == ".exe")
  {
    SuffixAtEnd(head, base, suffix);
    hide *;
    TargetOf(d, head + (base + suffix), suffix);
  }

  lemma TargetOf(d: Draft, output: string, suffix: string)
    requires d.r.output == Some(output) && Suffix(output) == Some(suffix)
    ensures
      d.TargetFits() <==>
        d.r.overlayTable.Some? ||
        (if d.p.dosTarget then LowerAll(suffix) in [".exe", ".com"] else LowerAll(suffix) == ".cmd")
    ensures
      d.LinkAllowed(suffix) <==>
        && (d.r.overlayRoot.Some? ==> LowerAll(suffix) != ".com") && (d.r.overlayTable.Some? ==> LowerAll(suffix) == ".ovr")
        && (!d.p.smallModel ==> d.p.dos2 && LowerAll(suffix) == ".exe")
  {
    hide Suffix;
    SmallTargets();
    hide LowerAll;
  }

  lemma SmallTargets()
    ensures LowerAll(".exe") == ".exe" && LowerAll(".com") == ".com" && LowerAll(".cmd") == ".cmd"
    ensures LowerAll(".ovr") == ".ovr"
  {
  }

  // ---- Outputs ----

  /** A source without -o goes to the current directory, under its own name with the suffix of what is
      made from it. */
  lemma OutputNamed(d: Draft, head: string, base: string, suffix: string)
    requires Directory(head) && NoSeparator(base) && PlainSuffix(suffix) && IsSource(head + (base + suffix))
    ensures
      d.OutputName(head + (base + suffix)) ==
      if d.r.output.Some? then d.r.output.value else if d.r.stage.ToAssembly? then base + ".asm" else base + ".o"
  {
    SuffixAtEnd(head, base, suffix);
    LastDot(base, suffix);
    assert (base + suffix)[..|base|] == base;
  }

  /** The files beside a linked program have its name with suffixes of their own. */
  lemma SiblingNamed(head: string, base: string, suffix: string, other: string)
    requires Directory(head) && NoSeparator(base) && PlainSuffix(suffix) && |head + base| + 5 < LIMIT
    ensures Sibling(head + (base + suffix), other) == Some(head + base + other)
  {
    BasenameBehind(head, base + suffix);
    LastDot(head + base, suffix);
    Stems(head, base, suffix);
  }

  lemma Stems(head: string, base: string, suffix: string)
    ensures head + base + suffix == head + (base + suffix) && (head + (base + suffix))[..|head + base|] == head + base
  {
  }

  // ---- The installation ----

  /** On Unix the stock files are those of the tool root's directory lib. */
  lemma StockOnUnix(w: World, name: string)
    requires w.host.Unix? && w.anchors.root != "" && w.anchors.root[|w.anchors.root| - 1] !in "\\/"
    requires |w.anchors.root| + |name| + 8 <= LIMIT
    ensures
      var path := w.anchors.root + "/lib/" + name;
      StockPath(w, name) == if w.readable(path) then w.Guest(path) else None
  {
    hide World.Guest;
    var directory := w.Join(w.anchors.root, "lib").value;
    assert directory == w.anchors.root + "/" + "lib" && directory[|directory| - 1] == 'b';
    assert directory + "/" + name == w.anchors.root + "/lib/" + name;
  }

  /** The same on DOS. */
  lemma StockOnDos(w: World, name: string)
    requires w.host.Dos? && w.anchors.root != "" && w.anchors.root[|w.anchors.root| - 1] !in "\\/"
    requires |w.anchors.root| + |name| + 8 <= LIMIT && '/' !in w.anchors.root && '/' !in name
    ensures
      var path := w.anchors.root + "\\lib\\" + name;
      StockPath(w, name) == if w.readable(path) then w.Guest(path) else None
  {
    JoinedLib(w.anchors.root, name);
    hide World.Guest;
    hide PathJoin;
  }

  lemma JoinedLib(root: string, name: string)
    requires root != "" && root[|root| - 1] !in "\\/" && '/' !in root && '/' !in name && |root| + |name| + 8 <= LIMIT
    ensures PathJoin(root, "lib").Some?
    ensures PathJoin(PathJoin(root, "lib").value, name) == Some(root + "\\lib\\" + name)
  {
    assert Gap(root) == [SEP] && '/' !in "lib";
    SlashesNothing("lib");
    SlashesNothing(name);
    Joined(root, "lib");
    var lib := root + [SEP] + "lib";
    assert lib[|root| + 3] == 'b' && Gap(lib) == [SEP];
    assert '/' !in lib;
    hide *;
    Joined(lib, name);
    LibText(root, name);
  }

  lemma LibText(root: string, name: string)
    ensures root + [SEP] + "lib" + [SEP] + name == root + "\\lib\\" + name
  {
    assert [SEP] + "lib" + [SEP] == "\\lib\\";
    assert root + [SEP] + "lib" + [SEP] + name == root + ([SEP] + "lib" + [SEP]) + name;
  }

  /** A named library is the first file NAME.lib of the library areas; the name m stands for the math
      library of the profile, and the runtime itself cannot be named. */
  lemma {:induction false} LibraryIsFirst(w: World, libraries: seq<string>, name: string, i: nat)
    requires i < |libraries| && w.Join(libraries[i], name + ".lib").Some?
    requires w.readable(w.Join(libraries[i], name + ".lib").value)
    requires forall j :: 0 <= j < i ==>
      w.Join(libraries[j], name + ".lib").Some? && !w.readable(w.Join(libraries[j], name + ".lib").value)
    ensures UserLibrary(w, libraries, name) == w.Join(libraries[i], name + ".lib")
    decreases i
  {
    hide World.Join;
    if i > 0 {
      assert forall j :: 0 <= j < i - 1 ==> libraries[1..][j] == libraries[j + 1];
      LibraryIsFirst(w, libraries[1..], name, i - 1);
    }
  }

  lemma LibraryByName(w: World, p: Profile, libraries: seq<string>, name: string)
    ensures NamedLibrary(w, p, libraries, "m") == StockPath(w, p.mathLibrary)
    ensures name != "m" && p.isRuntime(name) ==> NamedLibrary(w, p, libraries, name) == None
    ensures
      name != "m" && name != "" && !p.isRuntime(name) && NoSeparator(name) && '.' !in name && |name| + 5 < LIMIT ==>
        var file := UserLibrary(w, libraries, name);
        NamedLibrary(w, p, libraries, name) == if file.Some? then w.Guest(file.value) else None
  {
    hide UserLibrary;
    hide StockPath;
    hide World.Guest;
  }

  /** The library areas keep their order. */
  lemma {:induction false} AreasInOrder(w: World, areas: seq<string>)
    ensures Guests(w, areas).Some? <==> forall i :: 0 <= i < |areas| ==> w.Guest(areas[i]).Some?
    ensures
      Guests(w, areas).Some? ==>
        && |Guests(w, areas).value| == |areas|
        && forall i :: 0 <= i < |areas| ==> w.Guest(areas[i]) == Some(Guests(w, areas).value[i])
  {
    hide World.Guest;
    if areas != [] {
      AreasInOrder(w, areas[..|areas| - 1]);
    }
  }

  /** So do the words of raw options. */
  lemma {:induction false} RawInOrder(p: Profile, tool: string, options: seq<string>, more: seq<string>)
    ensures
      var a, b, all := RawWords(p, tool, options), RawWords(p, tool, more), RawWords(p, tool, options + more);
      && (all.Some? <==> a.Some? && b.Some?) && (all.Some? ==> all.value == a.value + b.value)
    ensures forall option :: RawWords(p, tool, [option]) == p.raw(tool, option)
  {
    forall option
      ensures RawWords(p, tool, [option]) == p.raw(tool, option)
    {
      assert [option][1..] == [] && RawWords(p, tool, []) == Some([]);
      if p.raw(tool, option).Some? {
        assert p.raw(tool, option).value + [] == p.raw(tool, option).value;
      }
    }
    if options == [] {
      assert options + more == more;
    } else {
      assert (options + more)[1..] == options[1..] + more;
      RawInOrder(p, tool, options[1..], more);
    }
  }

  // ---- What is published ----

  /** Without linking, every source has its own output, made from its own product. */
  lemma SourceIsPublished(d: Draft, plan: Plan, i: nat)
    requires d.Suffixed() && d.IsPlan(plan) && !d.r.stage.Link? && i < |d.inputs| && IsSource(d.inputs[i])
    ensures
      var j := Sources(d.inputs[..i]);
      && j < |plan.outputs| == |plan.products| == |plan.hostOutputs| == Sources(d.inputs)
      && d.w.Guest(d.OutputName(d.inputs[i])) == Some(plan.outputs[j])
      && d.w.Canonical(d.OutputName(d.inputs[i])) == Some(plan.hostOutputs[j])
      && plan.products[j] == TempName(j + 1, d.ProductSuffix())
  {
    hide AllPublishable;
    hide Draft.CompileCommand;
    hide Draft.OutputName;
    hide Serialised;
    hide CanSerialise;
    hide IsSource;
    hide TempName;
    hide World.Guest;
    hide World.Canonical;
    hide Draft.Drafted;
    hide Sources;
    d.CompiledInOrder(|d.inputs|);
    assert d.inputs[..|d.inputs|] == d.inputs;
    OutputOf(d, i, |d.inputs|);
    var j := Sources(d.inputs[..i]);
    assert NamesAt(d.w, d.PlanHosts()[j], plan.outputs[j], plan.hostOutputs[j]);
  }

  lemma {:induction false} OutputOf(d: Draft, i: nat, k: nat)
    requires i < k <= |d.inputs| && IsSource(d.inputs[i])
    ensures
      var j := Sources(d.inputs[..i]);
      |d.OutputNames(k)| == Sources(d.inputs[..k]) > j && d.OutputNames(k)[j] == d.OutputName(d.inputs[i])
  {
    hide IsSource;
    hide Draft.OutputName;
    assert d.inputs[..k][..k - 1] == d.inputs[..k - 1];
    OutputCount(d, k);
    OutputCount(d, k - 1);
    if i < k - 1 {
      OutputOf(d, i, k - 1);
    }
  }

  lemma {:induction false} OutputCount(d: Draft, k: nat)
    requires k <= |d.inputs|
    ensures |d.OutputNames(k)| == Sources(d.inputs[..k])
  {
    hide IsSource;
    hide Draft.OutputName;
    if k > 0 {
      assert d.inputs[..k][..k - 1] == d.inputs[..k - 1];
      OutputCount(d, k - 1);
    }
  }

  /** A linked program is published from the product of ln, and its .dbg and .rsm files from those beside
      that product. */
  lemma ProgramIsPublished(d: Draft, plan: Plan)
    requires d.Suffixed() && d.IsPlan(plan) && d.r.stage.Link?
    ensures
      var n := Sources(d.inputs) + 1;
      && n <= TEMP_LIMIT && Suffix(d.LinkOutput()).Some? && Suffix(d.LinkOutput()).value != ""
      && plan.products == [TempName(n, Suffix(d.LinkOutput()).value[1..])] + (if d.r.debug then [TempName(n, "dbg")] else []) +
                          (if d.r.overlayRoot.Some? then [TempName(n, "rsm")] else [])
      && |plan.hostOutputs| == |plan.products| && d.w.Canonical(d.LinkOutput()) == Some(plan.hostOutputs[0])
      && (d.r.debug ==> Sibling(d.LinkOutput(), ".dbg").Some? &&
                        d.w.Canonical(Sibling(d.LinkOutput(), ".dbg").value) == Some(plan.hostOutputs[1]))
      && (d.r.overlayRoot.Some? ==>
            Sibling(d.LinkOutput(), ".rsm").Some? &&
            d.w.Canonical(Sibling(d.LinkOutput(), ".rsm").value) == Some(plan.hostOutputs[|plan.hostOutputs| - 1]))
  {
    hide AllPublishable;
    hide Serialised;
    hide CanSerialise;
    hide TempName;
    hide Sibling;
    hide Draft.LinkWords;
    hide Draft.Drafted;
    hide Draft.Compiled;
    hide Draft.CanCompile;
    hide ProductsOf;
    hide Suffix;
    hide World.Guest;
    hide World.Canonical;
    d.TargetHasSuffix();
    SuffixShape(d.LinkOutput());
    d.CompiledCount();
    forall i | 0 <= i < |plan.hostOutputs|
      ensures d.w.Canonical(d.PlanHosts()[i]) == Some(plan.hostOutputs[i])
    {
      assert NamesAt(d.w, d.PlanHosts()[i], plan.outputs[i], plan.hostOutputs[i]);
    }
  }
}
