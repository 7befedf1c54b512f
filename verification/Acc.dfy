/** One invocation of the Aztec driver, from a parsed request to the published files. */
module Acc {
  import opened Basics
  import opened Disk
  import opened PlanData
  import opened Publish
  import opened Launch
  import opened Execute
  import PlanParts
  import Planner
  import PlanWords
  import PlanRuns
  import PlanTails
  import PlanTools
  import PrintPlan

  /** The files after a successful invocation: each output is what the tools made for it, and
      nothing else changed. */
  ghost predicate Delivered(d: Planner.Draft, before: Files, now: Files, built: Files)
    requires d.Suffixed() && d.CanDraft() && |d.PlanProducts()| == |d.PlanHosts()|
  {
    && (forall i :: 0 <= i < |d.PlanHosts()| ==>
          DeliveredAs(d.w, d.PlanHosts()[i], Content(built, d.PlanProducts()[i]), now))
    && (forall name :: !IsOutput(d.w, d.PlanHosts(), name) ==> SameAt(before, now, name))
  }

  ghost predicate DeliveredAs(w: PlanParts.World, host: string, product: Data, now: Files)
  {
    product != "" && w.Canonical(host).Some? && HeldUnder(now, {w.Canonical(host).value}, product)
  }

  ghost predicate IsOutput(w: PlanParts.World, hosts: seq<string>, name: string)
  {
    exists i :: 0 <= i < |hosts| && w.Canonical(hosts[i]) == Some(name)
  }

  lemma PlanIsDelivered(d: Planner.Draft, plan: Plan, before: Files, built: Files)
    requires d.Suffixed() && d.IsPlan(plan) && plan.Parallel() && Made(plan, built, |plan.hostOutputs|)
    ensures Delivered(d, before, Execute.Published(before, plan, built, |plan.hostOutputs|), built)
  {
    hide PlanParts.AllPublishable;
    hide PlanParts.Serialised;
    hide Execute.Published;
    hide Content;
    PlanRuns.OutputsAreDistinct(d, plan);
    var n, hosts := |plan.hostOutputs|, d.PlanHosts();
    var now := Execute.Published(before, plan, built, n);
    forall i | 0 <= i < n
      ensures DeliveredAs(d.w, hosts[i], Content(built, plan.products[i]), now)
    {
      assert PlanParts.NamesAt(d.w, hosts[i], plan.outputs[i], plan.hostOutputs[i]);
      PublishedAt(before, plan, built, n, i);
    }
    forall name | !IsOutput(d.w, hosts, name)
      ensures SameAt(before, now, name)
    {
      forall i | 0 <= i < n
        ensures plan.hostOutputs[i] != name
      {
        assert PlanParts.NamesAt(d.w, hosts[i], plan.outputs[i], plan.hostOutputs[i]);
      }
      PublishedElsewhere(before, plan, built, n, name);
    }
  }

  /** All outputs lie in directories that leave room for a temporary name. */
  ghost predicate UnixPlaces(w: PlanParts.World, hosts: seq<string>)
  {
    forall i :: 0 <= i < |hosts| ==> w.Canonical(hosts[i]).Some? && UnixPlace(w.Canonical(hosts[i]).value)
  }

  ghost predicate DosPlaces(w: PlanParts.World, hosts: seq<string>)
  {
    forall i :: 0 <= i < |hosts| ==> w.Canonical(hosts[i]).Some? && DosPlace(w.Canonical(hosts[i]).value)
  }

  lemma OutputsAreCanonical(d: Planner.Draft, plan: Plan)
    requires d.Suffixed() && d.IsPlan(plan)
    ensures d.CanDraft() && |d.PlanHosts()| == |plan.hostOutputs| == |plan.products|
    ensures forall i :: 0 <= i < |plan.hostOutputs| ==> d.w.Canonical(d.PlanHosts()[i]) == Some(plan.hostOutputs[i])
  {
    hide PlanParts.AllPublishable;
    hide PlanParts.Serialised;
    forall i | 0 <= i < |plan.hostOutputs|
      ensures d.w.Canonical(d.PlanHosts()[i]) == Some(plan.hostOutputs[i])
    {
      assert PlanParts.NamesAt(d.w, d.PlanHosts()[i], plan.outputs[i], plan.hostOutputs[i]);
    }
  }

  lemma PlanFitsUnix(d: Planner.Draft, plan: Plan, work: string)
    requires d.Suffixed() && d.IsPlan(plan) && plan.Parallel() && d.DefaultIsProgram() && |work| + 11 <= UNIX_PATH
    ensures UnixFits(plan, work) <==>
      && LibraryVariable(plan.libraries).Some? && PlanRuns.ToolsFit(plan, UnixSite(plan, work))
      && UnixPlaces(d.w, d.PlanHosts())
  {
    hide PlanParts.AllPublishable;
    hide PlanParts.Serialised;
    hide UnixPlace;
    hide OwnedName;
    hide AllRunnable;
    hide PlanRuns.ToolsFit;
    hide LibraryVariable;
    PlanRuns.PlanIsRunnable(d, plan, UnixSite(plan, work));
    OutputsAreCanonical(d, plan);
    hide Planner.Draft.IsPlan;
  }

  /** Each host file on drive E lies in its root, and the workspace path of its name is not too long. */
  ghost predicate HostFilesFit(d: Planner.Draft, work: string)
  {
    forall word :: PlanWords.HostFile(d, word) ==> HostWord(word, Site(false, work, d.w.anchors.root)).Some?
  }

  lemma PlanFitsDos(d: Planner.Draft, plan: Plan, work: string)
    requires d.Suffixed() && d.IsPlan(plan) && plan.Parallel() && d.DefaultIsProgram() && PlanWords.PlainTables(d)
    requires |work| + 11 <= DOS_PATH
    ensures DosFits(plan, work) <==>
      && DosLibraryVariable(plan.libraries).Some? && |plan.root| + 5 <= DOS_PATH
      && (plan.commands == [] || |plan.root| + 13 < DOS_PATH)
      && HostFilesFit(d, work) && DosPlaces(d.w, d.PlanHosts())
  {
    hide PlanParts.AllPublishable;
    hide PlanParts.Serialised;
    hide DosPlace;
    hide OwnedName;
    hide AllRunnable;
    hide PlanRuns.ToolsFit;
    hide DosLibraryVariable;
    hide HostWord;
    hide PlanWords.HostFile;
    hide PlanWords.PlainTables;
    PlanRuns.PlanIsRunnable(d, plan, DosSite(plan, work));
    PlanRuns.DosToolsFit(d, plan, DosSite(plan, work));
    OutputsAreCanonical(d, plan);
    hide Planner.Draft.IsPlan;
  }

  /** An invocation on Unix. A status other than 0 means that there is no plan, that a call or a
      tool failed, that a signal came, or that the host cannot take some path. After a single
      failure, or a signal, the files are those after some number of publications. */
  method InvokeUnix(d: Planner.Draft, m: Machine, out: PrintPlan.Stream, settings: PrintPlan.Settings,
                    verbose: bool, saveTemps: bool, work: string)
    returns (status: nat, ghost plan: Plan, ghost runs: seq<Run>)
    requires d.Valid() && d.Blank() && d.Suffixed() && m.Valid() && d.w.host.Unix?
    modifies d, m, out
    ensures m.Valid() && old(m.history) <= m.history
    ensures plan.Parallel() && (d.CanPlan() ==> d.IsPlan(plan))
    ensures out.text == old(out.text) +
      if d.CanPlan() && (settings.dryRun || verbose) then PrintPlan.Text(settings, plan) else ""
    ensures
      settings.dryRun || !d.CanPlan() ==>
        m.files == old(m.files) && m.history == old(m.history) && (status == 0 <==> d.CanPlan())
    ensures
      status == 0 && !settings.dryRun ==>
        && d.CanPlan() && m.failures == old(m.failures) && m.interrupted == 0 && (saveTemps || !m.hasWork)
        && Delivered(d, old(m.files), m.files, m.left)
    // Nothing is published unless every tool was run with all its words and returned 0.
    ensures
      m.history != old(m.history) || (status == 0 && !settings.dryRun) ==>
        && m.runs == old(m.runs) + runs && Went(runs, plan.commands, UnixSite(plan, work))
        && GotAllWords(runs, plan.commands, UnixSite(plan, work))
        && (d.CanPlan() && PlanTools.PlainInstallation(d.w) ==> PlanTools.AllStartTools(d.w, runs, plan.commands))
    ensures forall i :: |old(m.history)| <= i < |m.history| ==> UnixPrefix(old(m.files), m.history[i], plan, m.left)
    // What makes a run fail, if no call, tool or signal does, can be read off the plan.
    ensures
      d.CanPlan() && d.DefaultIsProgram() && !settings.dryRun && |work| + 11 <= UNIX_PATH ==>
        var fits := LibraryVariable(plan.libraries).Some? && PlanRuns.ToolsFit(plan, UnixSite(plan, work)) &&
                    UnixPlaces(d.w, d.PlanHosts());
        if status == 0 then fits else m.failures > old(m.failures) || m.interrupted != 0 || !fits
    ensures OneMishap(old(m.failures), m.failures, m.interrupted) ==> Settled(old(m.files), m.files, plan, m.left)
  {
    hide Settled;
    hide DosSettled;
    hide Planner.Draft.IsPlan;
    hide Planner.Draft.CanPlan;
    hide Delivered;
    hide Went;
    hide Started;
    hide GotAllWords;
    hide PlanTools.AllStartTools;
    hide PlanTools.PlainInstallation;
    hide UnixPoint;
    hide UnixFits;
    hide UnixPrefix;
    hide UnixPlaces;
    hide LibraryVariable;
    hide PlanRuns.ToolsFit;
    hide Distinct;
    hide Made;
    hide PrintPlan.Text;
    hide Execute.Published;
    plan, runs := Plan([], [], [], [], "", []), [];
    NothingPublished(m.files, plan, m.left);
    var planned := d.BuildPlan();
    if planned.None? {
      return 1, plan, runs;
    }
    plan := planned.value;
    NothingPublished(m.files, plan, m.left);
    if settings.dryRun || verbose {
      out.PrintPlan(settings, planned.value);
    }
    status := 0;
    if settings.dryRun {
      return;
    }
    ghost var complete, start := false, m.files;
    status, complete, runs := ExecuteUnix(m, planned.value, work, saveTemps);
    if complete && PlanTools.PlainInstallation(d.w) {
      PlanTools.RunsStartTools(d, plan, runs, UnixSite(plan, work));
    }
    PlanRuns.OutputsAreDistinct(d, plan);
    forall i | |old(m.history)| <= i < |m.history|
      ensures UnixPrefix(start, m.history[i], plan, m.left)
    {
      UnixChangesPrefix(start, m.history[i], plan, m.left);
    }
    if status == 0 {
      PlanIsDelivered(d, plan, start, m.left);
    }
    if d.DefaultIsProgram() && |work| + 11 <= UNIX_PATH {
      PlanFitsUnix(d, plan, work);
    }
  }

  /** An invocation on DOS, where the output on its way may be incomplete in the states between. */
  method InvokeDos(d: Planner.Draft, m: Machine, out: PrintPlan.Stream, settings: PrintPlan.Settings,
                   verbose: bool, saveTemps: bool, work: string)
    returns (status: nat, ghost plan: Plan, ghost runs: seq<Run>)
    requires d.Valid() && d.Blank() && d.Suffixed() && m.Valid() && d.w.host.Dos?
    modifies d, m, out
    ensures m.Valid() && old(m.history) <= m.history
    ensures plan.Parallel() && (d.CanPlan() ==> d.IsPlan(plan))
    ensures out.text == old(out.text) +
      if d.CanPlan() && (settings.dryRun || verbose) then PrintPlan.Text(settings, plan) else ""
    ensures
      settings.dryRun || !d.CanPlan() ==>
        m.files == old(m.files) && m.history == old(m.history) && (status == 0 <==> d.CanPlan())
    ensures
      status == 0 && !settings.dryRun ==>
        && d.CanPlan() && m.failures == old(m.failures) && (saveTemps || !m.hasWork)
        && Delivered(d, old(m.files), m.files, m.left)
    // Nothing is published unless every tool was run and returned 0. The tools got all their words
    // exactly when the tails of the compile commands have room for the workspace.
    ensures
      m.history != old(m.history) || (status == 0 && !settings.dryRun) ==>
        && m.runs == old(m.runs) + runs && Went(runs, plan.commands, DosSite(plan, work))
        && (d.CanPlan() ==> PlanTools.AllStartTools(d.w, runs, plan.commands))
        && (d.CanPlan() && PlanWords.PlainTables(d) ==>
              (GotAllWords(runs, plan.commands, DosSite(plan, work)) <==> PlanTails.TailsFit(d, DosSite(plan, work))))
    ensures forall i :: |old(m.history)| <= i < |m.history| ==> DosPrefix(old(m.files), m.history[i], plan, m.left)
    // What makes a run fail, if no call, tool or signal does, can be read off the plan.
    ensures
      d.CanPlan() && d.DefaultIsProgram() && PlanWords.PlainTables(d) && !settings.dryRun && |work| + 11 <= DOS_PATH ==>
        var fits := DosLibraryVariable(plan.libraries).Some? && |plan.root| + 5 <= DOS_PATH &&
                    (plan.commands == [] || |plan.root| + 13 < DOS_PATH) && HostFilesFit(d, work) &&
                    DosPlaces(d.w, d.PlanHosts());
        if status == 0 then fits else m.failures > old(m.failures) || m.interrupted != 0 || !fits
    ensures m.failures <= old(m.failures) + 1 ==> DosSettled(old(m.files), m.files, plan, m.left)
  {
    hide Settled;
    hide DosSettled;
    hide Planner.Draft.IsPlan;
    hide Planner.Draft.CanPlan;
    hide Delivered;
    hide Went;
    hide Started;
    hide GotAllWords;
    hide PlanTools.AllStartTools;
    hide AllUncut;
    hide PlanTails.TailsFit;
    hide DosPoint;
    hide DosFits;
    hide DosPrefix;
    hide DosPlaces;
    hide PlanWords.PlainTables;
    hide HostFilesFit;
    hide DosLibraryVariable;
    hide Distinct;
    hide Made;
    hide PrintPlan.Text;
    hide Execute.Published;
    plan, runs := Plan([], [], [], [], "", []), [];
    NothingPublished(m.files, plan, m.left);
    var planned := d.BuildPlan();
    if planned.None? {
      return 1, plan, runs;
    }
    plan := planned.value;
    NothingPublished(m.files, plan, m.left);
    if settings.dryRun || verbose {
      out.PrintPlan(settings, planned.value);
    }
    status := 0;
    if settings.dryRun {
      return;
    }
    ghost var complete, start := false, m.files;
    status, complete, runs := ExecuteDos(m, planned.value, work, saveTemps);
    if complete {
      PlanTools.RunsStartTools(d, plan, runs, DosSite(plan, work));
    }
    if complete && PlanWords.PlainTables(d) {
      WentNames(runs, plan.commands, DosSite(plan, work));
      PlanTails.PlanIsUncut(d, plan, DosSite(plan, work));
    }
    PlanRuns.OutputsAreDistinct(d, plan);
    forall i | |old(m.history)| <= i < |m.history|
      ensures DosPrefix(start, m.history[i], plan, m.left)
    {
      DosChangesPrefix(start, m.history[i], plan, m.left);
    }
    if status == 0 {
      PlanIsDelivered(d, plan, start, m.left);
    }
    if d.DefaultIsProgram() && PlanWords.PlainTables(d) && |work| + 11 <= DOS_PATH {
      PlanFitsDos(d, plan, work);
    }
  }
}
