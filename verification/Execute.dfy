/** Running a plan: every command first, then every publication. */
module Execute {
  import opened Basics
  import opened Disk
  import opened Publish
  import opened PlanData
  import opened Launch

  // ---- Where a run may stop ----

  /** The content that a planned product has in the workspace. */
  function Content(work: Files, product: string): Data
  {
    if |product| >= 3 && product[3..] in work then work[product[3..]] else ""
  }

  lemma ContentOfProduct(work: Files, name: string)
    ensures Content(work, "E:\\" + name) == if name in work then work[name] else ""
  {
    assert ("E:\\" + name)[3..] == name;
  }

  /** The host files after the first `k` publications. */
  function Published(before: Files, plan: Plan, work: Files, k: nat): Files
    requires plan.Parallel() && k <= |plan.hostOutputs|
  {
    if k == 0 then before
    else Published(before, plan, work, k - 1)[plan.hostOutputs[k - 1] := Content(work, plan.products[k - 1])]
  }

  /** On Unix: apart from temporary files, the state after some number of publications. */
  ghost predicate UnixPoint(before: Files, now: Files, plan: Plan, work: Files)
    requires plan.Parallel()
  {
    exists k: nat, temps ::
      k <= |plan.hostOutputs| && UnixPointAt(before, now, plan, work, k, temps)
  }

  ghost predicate UnixPointAt(before: Files, now: Files, plan: Plan, work: Files, k: nat, temps: set<string>)
    requires plan.Parallel() && k <= |plan.hostOutputs|
  {
    && |temps| <= 1 && Unused(temps, Published(before, plan, work, k), plan.hostOutputs)
    && SameBut(Published(before, plan, work, k), now, temps)
  }

  /** On DOS: the state after some number of publications, or a safe state within the next. */
  ghost predicate DosPoint(before: Files, now: Files, plan: Plan, work: Files)
    requires plan.Parallel()
  {
    exists k: nat, temps ::
      k <= |plan.hostOutputs| && DosPointAt(before, now, plan, work, k, temps)
  }

  ghost predicate DosPointAt(before: Files, now: Files, plan: Plan, work: Files, k: nat, temps: set<string>)
    requires plan.Parallel() && k <= |plan.hostOutputs|
  {
    var done := Published(before, plan, work, k);
    now == done ||
    (k < |plan.hostOutputs| && |temps| <= 2 && Unused(temps, done, plan.hostOutputs) &&
     DosSafe(done, now, plan.hostOutputs[k], temps, Content(work, plan.products[k])))
  }

  /** The first `k` products have been made. */
  predicate Made(plan: Plan, work: Files, k: nat)
    requires plan.Parallel() && k <= |plan.hostOutputs|
  {
    forall i :: 0 <= i < k ==> Content(work, plan.products[i]) != ""
  }

  /** Some number of outputs is published, and nothing else differs. */
  ghost predicate Settled(before: Files, now: Files, plan: Plan, work: Files)
    requires plan.Parallel()
  {
    exists k: nat :: k <= |plan.hostOutputs| && now == Published(before, plan, work, k)
  }

  /** As above, or the old content of the last output is left in a backup. */
  ghost predicate DosSettled(before: Files, now: Files, plan: Plan, work: Files)
    requires plan.Parallel()
  {
    exists k: nat, temps :: k <= |plan.hostOutputs| && DosSettledAt(before, now, plan, work, k, temps)
  }

  ghost predicate DosSettledAt(before: Files, now: Files, plan: Plan, work: Files, k: nat, temps: set<string>)
    requires plan.Parallel() && k <= |plan.hostOutputs|
  {
    var done := Published(before, plan, work, k);
    now == done ||
    (k < |plan.hostOutputs| && Unused(temps, done, plan.hostOutputs) &&
     BackupLeft(done, now, plan.hostOutputs[k], temps, Content(work, plan.products[k])))
  }

  lemma SettledAt(before: Files, plan: Plan, work: Files, k: nat)
    requires plan.Parallel() && k <= |plan.hostOutputs|
    ensures Settled(before, Published(before, plan, work, k), plan, work)
    ensures DosSettled(before, Published(before, plan, work, k), plan, work)
  {
    assert DosSettledAt(before, Published(before, plan, work, k), plan, work, k, {});
  }

  lemma UndoneIsSettled(before: Files, plan: Plan, work: Files, k: nat, now: Files, temps: set<string>)
    requires plan.Parallel() && k < |plan.hostOutputs| && Unused(temps, Published(before, plan, work, k), plan.hostOutputs)
    requires Undone(Published(before, plan, work, k), now, plan.hostOutputs[k], temps, Content(work, plan.products[k]))
    ensures DosSettled(before, now, plan, work)
  {
    hide BackupLeft;
    hide Unused;
    assert DosSettledAt(before, now, plan, work, k, temps);
  }

  ghost predicate Distinct(names: seq<string>)
  {
    forall i, j :: 0 <= i < j < |names| ==> names[i] != names[j]
  }

  lemma {:induction false} PublishedAt(before: Files, plan: Plan, work: Files, k: nat, j: nat)
    requires plan.Parallel() && Distinct(plan.hostOutputs) && k <= |plan.hostOutputs| && j < |plan.hostOutputs|
    ensures
      var done := Published(before, plan, work, k);
      if j < k then plan.hostOutputs[j] in done && done[plan.hostOutputs[j]] == Content(work, plan.products[j])
      else SameAt(before, done, plan.hostOutputs[j])
  {
    if k > 0 {
      PublishedAt(before, plan, work, k - 1, j);
    }
  }

  lemma {:induction false} PublishedElsewhere(before: Files, plan: Plan, work: Files, k: nat, name: string)
    requires plan.Parallel() && k <= |plan.hostOutputs| && name !in plan.hostOutputs
    ensures SameAt(before, Published(before, plan, work, k), name)
  {
    if k > 0 {
      PublishedElsewhere(before, plan, work, k - 1, name);
    }
  }

  /** The first `k` planned destinations hold their complete new content, all later ones and all
      files that are not planned are as before. */
  ghost predicate FirstChanged(before: Files, now: Files, plan: Plan, work: Files, k: nat)
    requires plan.Parallel()
  {
    && k <= |plan.hostOutputs|
    && (forall j :: 0 <= j < k ==> HeldUnder(now, {plan.hostOutputs[j]}, Content(work, plan.products[j])))
    && (forall j :: k <= j < |plan.hostOutputs| ==> SameAt(before, now, plan.hostOutputs[j]))
    && (forall name :: name in before && name !in plan.hostOutputs ==> SameAt(before, now, name))
  }

  ghost predicate UnixPrefix(before: Files, now: Files, plan: Plan, work: Files)
    requires plan.Parallel()
  {
    exists k: nat :: FirstChanged(before, now, plan, work, k)
  }

  /** As above, but the destination behind the first `k` may be on its way, and then its old
      content is whole under some unplanned name. */
  ghost predicate FirstChanging(before: Files, now: Files, plan: Plan, work: Files, k: nat)
    requires plan.Parallel()
  {
    && k <= |plan.hostOutputs|
    && (forall j :: 0 <= j < k ==> HeldUnder(now, {plan.hostOutputs[j]}, Content(work, plan.products[j])))
    && (k < |plan.hostOutputs| ==>
          OnItsWay(before, now, plan.hostOutputs[k], plan.hostOutputs, Content(work, plan.products[k])))
    && (forall j :: k < j < |plan.hostOutputs| ==> SameAt(before, now, plan.hostOutputs[j]))
    && (forall name :: name in before && name !in plan.hostOutputs ==> SameAt(before, now, name))
  }

  ghost predicate DosPrefix(before: Files, now: Files, plan: Plan, work: Files)
    requires plan.Parallel()
  {
    exists k: nat :: FirstChanging(before, now, plan, work, k)
  }

  ghost predicate OnItsWay(before: Files, now: Files, destination: string, planned: seq<string>, product: Data)
  {
    || SameAt(before, now, destination)
    || HeldUnder(now, {destination}, product)
    || (destination in before && exists b :: b !in planned && HeldUnder(now, {b}, before[destination]))
  }

  /** In every state of a Unix run the changed destinations are a prefix of the planned ones. */
  lemma UnixChangesPrefix(before: Files, now: Files, plan: Plan, work: Files)
    requires plan.Parallel() && Distinct(plan.hostOutputs) && UnixPoint(before, now, plan, work)
    ensures UnixPrefix(before, now, plan, work)
  {
    var k: nat, temps :| k <= |plan.hostOutputs| && UnixPointAt(before, now, plan, work, k, temps);
    var done := Published(before, plan, work, k);
    forall j | 0 <= j < |plan.hostOutputs|
      ensures j < k ==> HeldUnder(now, {plan.hostOutputs[j]}, Content(work, plan.products[j]))
      ensures j >= k ==> SameAt(before, now, plan.hostOutputs[j])
    {
      PublishedAt(before, plan, work, k, j);
      assert plan.hostOutputs[j] !in temps;
      assert SameAt(done, now, plan.hostOutputs[j]);
    }
    forall name | name in before && name !in plan.hostOutputs
      ensures SameAt(before, now, name)
    {
      PublishedElsewhere(before, plan, work, k, name);
      assert SameAt(done, now, name);
    }
    assert FirstChanged(before, now, plan, work, k);
  }

  /** In every state of a DOS run the changed destinations are a prefix of the planned ones, and
      at most the last of them is incomplete. */
  lemma DosChangesPrefix(before: Files, now: Files, plan: Plan, work: Files)
    requires plan.Parallel() && Distinct(plan.hostOutputs) && DosPoint(before, now, plan, work)
    ensures DosPrefix(before, now, plan, work)
  {
    var k: nat, temps :| k <= |plan.hostOutputs| && DosPointAt(before, now, plan, work, k, temps);
    var done := Published(before, plan, work, k);
    forall j | 0 <= j < |plan.hostOutputs| && j != k
      ensures j < k ==> HeldUnder(now, {plan.hostOutputs[j]}, Content(work, plan.products[j]))
      ensures j > k ==> SameAt(before, now, plan.hostOutputs[j])
    {
      PublishedAt(before, plan, work, k, j);
      assert now == done || SameAt(done, now, plan.hostOutputs[j]);
    }
    forall name | name in before && name !in plan.hostOutputs
      ensures SameAt(before, now, name)
    {
      PublishedElsewhere(before, plan, work, k, name);
      assert now == done || SameAt(done, now, name);
    }
    if k < |plan.hostOutputs| {
      PublishedAt(before, plan, work, k, k);
      InterruptedAt(before, done, now, plan, k, temps, Content(work, plan.products[k]));
    }
    assert FirstChanging(before, now, plan, work, k);
  }

  lemma InterruptedAt(before: Files, done: Files, now: Files, plan: Plan, k: nat, temps: set<string>, product: Data)
    requires k < |plan.hostOutputs| && SameAt(before, done, plan.hostOutputs[k])
    requires now == done ||
      (Unused(temps, done, plan.hostOutputs) && DosSafe(done, now, plan.hostOutputs[k], temps, product))
    ensures OnItsWay(before, now, plan.hostOutputs[k], plan.hostOutputs, product)
  {
    var destination := plan.hostOutputs[k];
    if now != done && destination !in now && destination in done {
      var b :| b in temps && b in now && now[b] == done[destination];
      assert b !in plan.hostOutputs && HeldUnder(now, {b}, before[destination]);
    }
  }

  // ---- The run ----

  function UnixSite(plan: Plan, work: string): Site
  {
    Site(true, work, plan.root)
  }

  function DosSite(plan: Plan, work: string): Site
  {
    Site(false, work, plan.root)
  }

  /** The CLIB variable for the library areas, each with a backslash at its end. */
  function LibraryVariable(areas: seq<string>): Option<string>
  {
    if areas == [] then Some("CLIB=")
    else
      var variable :- LibraryVariable(areas[..|areas| - 1]);
      var area := areas[|areas| - 1];
      if |variable| + |area| + 3 > UNIX_PATH then None
      else
        Some(variable + (if |areas| > 1 then ";" else "") + area +
             if area != "" && area[|area| - 1] != '\\' then "\\" else "")
  }

  /** The same on DOS, where an empty area gets a backslash as well. */
  function DosLibraryVariable(areas: seq<string>): Option<string>
  {
    if areas == [] then Some("CLIB=")
    else
      var variable :- DosLibraryVariable(areas[..|areas| - 1]);
      var area := areas[|areas| - 1];
      if |variable| + |area| + 3 >= UNIX_PATH then None
      else
        var longer := variable + (if |areas| > 1 then ";" else "") + area;
        Some(longer + if longer == "" || longer[|longer| - 1] != '\\' then "\\" else "")
  }

  /** The parts of a text between its semicolons. */
  function Fields(text: string, field: string): seq<string>
    decreases |text|
  {
    if text == "" then [field]
    else if text[0] == ';' then [field] + Fields(text[1..], "")
    else Fields(text[1..], field + text[..1])
  }

  lemma {:induction false} FieldsOf(field: string, part: string, rest: string)
    requires ';' !in part
    ensures Fields(part + rest, field) == Fields(rest, field + part)
    decreases |part|
  {
    if part == "" {
      assert part + rest == rest && field + part == field;
    } else {
      assert (part + rest)[1..] == part[1..] + rest && (part + rest)[..1] == part[..1] && part[0] in part;
      FieldsOf(field + part[..1], part[1..], rest);
      assert field + part[..1] + part[1..] == field + part;
    }
  }

  lemma {:induction false} FieldsSnoc(text: string, field: string, part: string)
    requires ';' !in part
    ensures Fields(text + ";" + part, field) == Fields(text, field) + [part]
    decreases |text|
  {
    var all := text + ";" + part;
    if text == "" {
      assert all[0] == ';' && all[1..] == part && part + "" == part && "" + part == part;
      FieldsOf("", part, "");
    } else {
      assert all[1..] == text[1..] + ";" + part && all[..1] == text[..1] && all[0] == text[0];
      if text[0] == ';' {
        FieldsSnoc(text[1..], "", part);
      } else {
        FieldsSnoc(text[1..], field + text[..1], part);
      }
    }
  }

  function Closed(area: string): string
  {
    if area != "" && area[|area| - 1] == '\\' then area else area + "\\"
  }

  function ClosedAll(areas: seq<string>): seq<string>
  {
    if areas == [] then [] else ClosedAll(areas[..|areas| - 1]) + [Closed(areas[|areas| - 1])]
  }

  predicate PlainAreas(areas: seq<string>)
  {
    forall i :: 0 <= i < |areas| ==> areas[i] != "" && ';' !in areas[i]
  }

  /** Cut at its semicolons, the variable gives the library areas in order, each closed with a
      backslash. */
  lemma {:induction false} AreasReadBack(areas: seq<string>)
    requires areas != [] && PlainAreas(areas)
    ensures
      LibraryVariable(areas).Some? ==>
        "CLIB=" <= LibraryVariable(areas).value && Fields(LibraryVariable(areas).value[5..], "") == ClosedAll(areas)
    ensures
      DosLibraryVariable(areas).Some? ==>
        "CLIB=" <= DosLibraryVariable(areas).value && Fields(DosLibraryVariable(areas).value[5..], "") == ClosedAll(areas)
  {
    var front, part := areas[..|areas| - 1], Closed(areas[|areas| - 1]);
    assert ClosedAll(areas) == ClosedAll(front) + [part];
    if front == [] {
      FirstArea(areas, part);
      hide LibraryVariable;
      hide DosLibraryVariable;
      OnlyField(part);
    } else {
      NextArea(areas, front, part);
      hide LibraryVariable;
      hide DosLibraryVariable;
      AreasReadBack(front);
      if LibraryVariable(areas).Some? {
        FieldBehind(LibraryVariable(front).value, part);
      }
      if DosLibraryVariable(areas).Some? {
        FieldBehind(DosLibraryVariable(front).value, part);
      }
    }
  }

  lemma OnlyField(part: string)
    requires ';' !in part
    ensures "CLIB=" <= "CLIB=" + part && Fields(("CLIB=" + part)[5..], "") == [part]
  {
    FieldsOf("", part, "");
    assert part + "" == part && "" + part == part && ("CLIB=" + part)[5..] == part;
  }

  lemma FieldBehind(before: string, part: string)
    requires "CLIB=" <= before && ';' !in part
    ensures
      var text := before + ";" + part;
      "CLIB=" <= text && Fields(text[5..], "") == Fields(before[5..], "") + [part]
  {
    FieldsSnoc(before[5..], "", part);
    assert (before + ";" + part)[5..] == before[5..] + ";" + part;
  }

  lemma NextArea(areas: seq<string>, front: seq<string>, part: string)
    requires |areas| > 1 && areas[|areas| - 1] != "" && front == areas[..|areas| - 1] && part == Closed(areas[|areas| - 1])
    ensures
      LibraryVariable(areas).Some? ==>
        LibraryVariable(front).Some? && LibraryVariable(areas).value == LibraryVariable(front).value + ";" + part
    ensures
      DosLibraryVariable(areas).Some? ==>
        DosLibraryVariable(front).Some? && DosLibraryVariable(areas).value == DosLibraryVariable(front).value + ";" + part
  {
    var area := areas[|areas| - 1];
    if DosLibraryVariable(areas).Some? {
      var longer := DosLibraryVariable(front).value + ";" + area;
      assert longer[|longer| - 1] == area[|area| - 1];
    }
  }

  lemma FirstArea(areas: seq<string>, part: string)
    requires |areas| == 1 && areas[0] != "" && part == Closed(areas[0])
    ensures LibraryVariable(areas).Some? ==> LibraryVariable(areas).value == "CLIB=" + part
    ensures DosLibraryVariable(areas).Some? ==> DosLibraryVariable(areas).value == "CLIB=" + part
  {
    assert areas[..0] == [];
  }

  /** The tools' environment on DOS can hold the tool directory, the library areas and the
      workspace. */
  predicate DosEnvironmentFits(plan: Plan, work: string)
  {
    |plan.root| + |"bin"| + 2 <= DOS_PATH && DosLibraryVariable(plan.libraries).Some? && |work| + 8 < DOS_PATH
  }

  /** The first `k` outputs have names within the limits of a Unix host. */
  predicate UnixTakes(plan: Plan, work: string, k: nat)
    requires plan.Parallel() && k <= |plan.hostOutputs|
  {
    forall i :: 0 <= i < k ==> OwnedName(work, plan.products[i], UNIX_PATH).Some? && UnixPlace(plan.hostOutputs[i])
  }

  /** The first `k` outputs have names within the limits of a DOS host. */
  predicate DosTakes(plan: Plan, work: string, k: nat)
    requires plan.Parallel() && k <= |plan.hostOutputs|
  {
    forall i :: 0 <= i < k ==> OwnedName(work, plan.products[i], DOS_PATH).Some? && DosPlace(plan.hostOutputs[i])
  }

  /** All names of the plan are within the limits of a Unix host. */
  ghost predicate UnixFits(plan: Plan, work: string)
    requires plan.Parallel()
  {
    && LibraryVariable(plan.libraries).Some? && AllRunnable(plan.commands, UnixSite(plan, work))
    && UnixTakes(plan, work, |plan.hostOutputs|)
  }

  /** All names of the plan are within the limits of a DOS host. */
  ghost predicate DosFits(plan: Plan, work: string)
    requires plan.Parallel()
  {
    && DosEnvironmentFits(plan, work) && AllRunnable(plan.commands, DosSite(plan, work))
    && DosTakes(plan, work, |plan.hostOutputs|)
  }

  lemma UnixStep(before: Files, plan: Plan, work: Files, k: nat, now: Files, temps: set<string>)
    requires plan.Parallel() && k < |plan.hostOutputs|
    requires var done := Published(before, plan, work, k);
      && |temps| <= 1 && Unused(temps, done, plan.hostOutputs)
      && UnixSafe(done, now, plan.hostOutputs[k], temps, Content(work, plan.products[k]))
    ensures UnixPoint(before, now, plan, work)
  {
    if SameBut(Published(before, plan, work, k), now, temps) {
      assert UnixPointAt(before, now, plan, work, k, temps);
    } else {
      assert UnixPointAt(before, now, plan, work, k + 1, temps);
    }
  }

  lemma DosStep(before: Files, plan: Plan, work: Files, k: nat, now: Files, temps: set<string>)
    requires plan.Parallel() && k < |plan.hostOutputs|
    requires var done := Published(before, plan, work, k);
      && |temps| <= 2 && Unused(temps, done, plan.hostOutputs)
      && DosSafe(done, now, plan.hostOutputs[k], temps, Content(work, plan.products[k]))
    ensures DosPoint(before, now, plan, work)
  {
    assert DosPointAt(before, now, plan, work, k, temps);
  }

  /** Publishes the products in order until one step fails; on Unix also until a signal arrives. */
  method PublishUnix(m: Machine, plan: Plan, work: string) returns (status: nat)
    requires m.Valid() && plan.Parallel()
    modifies m`files, m`history, m`verified, m`clock, m`interrupted, m`failures
    ensures m.Valid() && old(m.history) <= m.history && old(m.verified) <= m.verified
    ensures (old(m.interrupted) != 0 ==> m.interrupted != 0) && old(m.failures) <= m.failures
    ensures forall i :: |old(m.history)| <= i < |m.history| ==> UnixPoint(old(m.files), m.history[i], plan, m.work)
    ensures UnixPoint(old(m.files), m.files, plan, m.work)
    ensures status == 0 && m.interrupted == 0 ==> m.files == Published(old(m.files), plan, m.work, |plan.hostOutputs|)
    ensures status == 0 ==> m.failures == old(m.failures)
    ensures
      status == 0 && m.interrupted == 0 ==>
        UnixTakes(plan, work, |plan.hostOutputs|) && Made(plan, m.work, |plan.hostOutputs|)
    ensures status != 0 ==> m.failures > old(m.failures) || m.interrupted != 0 || !UnixTakes(plan, work, |plan.hostOutputs|)
    ensures OneMishap(old(m.failures), m.failures, m.interrupted) ==> Settled(old(m.files), m.files, plan, m.work)
  {
    hide Settled;
    hide DosSettled;
    hide Published;
    hide UnixPoint;
    hide UnixSafe;
    hide Unused;
    status := 0;
    ghost var start := m.files;
    NothingPublished(start, plan, m.work);
    var i := 0;
    while status == 0 && m.interrupted == 0 && i < |plan.hostOutputs|
      invariant m.Valid() && old(m.history) <= m.history && old(m.verified) <= m.verified && i <= |plan.hostOutputs|
      invariant (old(m.interrupted) != 0 ==> m.interrupted != 0) && old(m.failures) <= m.failures
      invariant forall j :: |old(m.history)| <= j < |m.history| ==> UnixPoint(start, m.history[j], plan, m.work)
      invariant UnixPoint(start, m.files, plan, m.work)
      invariant status == 0 ==> m.files == Published(start, plan, m.work, i)
      invariant status == 0 ==> m.failures == old(m.failures) && UnixTakes(plan, work, i) && Made(plan, m.work, i)
      invariant status != 0 ==> m.failures > old(m.failures) || m.interrupted != 0 || !UnixTakes(plan, work, |plan.hostOutputs|)
      invariant OneMishap(old(m.failures), m.failures, m.interrupted) ==> Settled(start, m.files, plan, m.work)
      decreases |plan.hostOutputs| - i
    {
      var product := OwnedName(work, plan.products[i], UNIX_PATH);
      var ok := product.Some?;
      if ok {
        ok := m.VerifyProduct(product.value);
      }
      if ok {
        assert m.work[product.value] == Content(m.work, plan.products[i]);
        ghost var first, temps, finish := |m.history|, {}, None;
        ok, temps, finish := UnixPublish(m, product.value, plan.hostOutputs[i], plan.hostOutputs);
        forall j | first <= j < |m.history|
          ensures UnixPoint(start, m.history[j], plan, m.work)
        {
          UnixStep(start, plan, m.work, i, m.history[j], temps);
        }
        UnixStep(start, plan, m.work, i, m.files, temps);
        OneMorePublished(start, plan, m.work, i);
        SettledAt(start, plan, m.work, i);
        SettledAt(start, plan, m.work, i + 1);
      }
      if !ok {
        status := 1;
      }
      i := i + 1;
    }
  }

  lemma NothingPublished(before: Files, plan: Plan, work: Files)
    requires plan.Parallel()
    ensures Published(before, plan, work, 0) == before
    ensures UnixPoint(before, before, plan, work) && Settled(before, before, plan, work)
    ensures DosPoint(before, before, plan, work) && DosSettled(before, before, plan, work)
  {
    hide DosSafe;
    hide UnixSafe;
    assert UnixPointAt(before, before, plan, work, 0, {}) && DosPointAt(before, before, plan, work, 0, {});
    SettledAt(before, plan, work, 0);
  }

  lemma OneMorePublished(before: Files, plan: Plan, work: Files, k: nat)
    requires plan.Parallel() && k < |plan.hostOutputs|
    ensures Published(before, plan, work, k + 1) ==
      Published(before, plan, work, k)[plan.hostOutputs[k] := Content(work, plan.products[k])]
  {
  }

  method PublishDos(m: Machine, plan: Plan, work: string) returns (status: nat)
    requires m.Valid() && plan.Parallel()
    modifies m`files, m`history, m`verified, m`clock, m`interrupted, m`failures
    ensures m.Valid() && old(m.history) <= m.history && old(m.verified) <= m.verified
    ensures forall i :: |old(m.history)| <= i < |m.history| ==> DosPoint(old(m.files), m.history[i], plan, m.work)
    ensures DosPoint(old(m.files), m.files, plan, m.work)
    ensures status == 0 ==> m.files == Published(old(m.files), plan, m.work, |plan.hostOutputs|)
    ensures old(m.failures) <= m.failures
    ensures
      status == 0 ==>
        && m.failures == old(m.failures) && DosTakes(plan, work, |plan.hostOutputs|)
        && Made(plan, m.work, |plan.hostOutputs|)
    ensures status != 0 ==> m.failures > old(m.failures) || !DosTakes(plan, work, |plan.hostOutputs|)
    ensures m.failures <= old(m.failures) + 1 ==> DosSettled(old(m.files), m.files, plan, m.work)
  {
    hide Settled;
    hide DosSettled;
    hide Undone;
    hide Published;
    hide DosPoint;
    hide DosSafe;
    hide Unused;
    hide OldKept;
    status := 0;
    ghost var start := m.files;
    NothingPublished(start, plan, m.work);
    var i := 0;
    while status == 0 && i < |plan.hostOutputs|
      invariant m.Valid() && old(m.history) <= m.history && old(m.verified) <= m.verified && i <= |plan.hostOutputs|
      invariant forall j :: |old(m.history)| <= j < |m.history| ==> DosPoint(start, m.history[j], plan, m.work)
      invariant DosPoint(start, m.files, plan, m.work)
      invariant status == 0 ==> m.files == Published(start, plan, m.work, i)
      invariant old(m.failures) <= m.failures
      invariant status == 0 ==> m.failures == old(m.failures) && DosTakes(plan, work, i) && Made(plan, m.work, i)
      invariant status != 0 ==> m.failures > old(m.failures) || !DosTakes(plan, work, |plan.hostOutputs|)
      invariant m.failures <= old(m.failures) + 1 ==> DosSettled(start, m.files, plan, m.work)
      decreases |plan.hostOutputs| - i
    {
      var product := OwnedName(work, plan.products[i], DOS_PATH);
      var ok := product.Some?;
      if ok {
        ok := m.VerifyProduct(product.value);
      }
      if ok {
        assert m.work[product.value] == Content(m.work, plan.products[i]);
        ghost var first, temps := |m.history|, {};
        ghost var swap;
        ok, temps, swap := DosPublish(m, product.value, plan.hostOutputs[i], plan.hostOutputs);
        forall j | first <= j < |m.history|
          ensures DosPoint(start, m.history[j], plan, m.work)
        {
          DosStep(start, plan, m.work, i, m.history[j], temps);
        }
        DosStep(start, plan, m.work, i, m.files, temps);
        OneMorePublished(start, plan, m.work, i);
        if ok {
          SettledAt(start, plan, m.work, i + 1);
        } else if m.failures <= old(m.failures) + 1 {
          UndoneIsSettled(start, plan, m.work, i, m.files, temps);
        }
      }
      if !ok {
        status := 1;
      }
      i := i + 1;
    }
  }

  /** The whole run on Unix. */
  method ExecuteUnix(m: Machine, plan: Plan, work: string, saveTemps: bool)
    returns (status: nat, ghost complete: bool, ghost runs: seq<Run>)
    requires m.Valid() && plan.Parallel()
    modifies m
    ensures m.Valid() && old(m.history) <= m.history
    // Without the success of every command nothing is published.
    ensures m.runs == old(m.runs) + runs && Started(runs, plan.commands, UnixSite(plan, work))
    ensures
      complete ==>
        Went(runs, plan.commands, UnixSite(plan, work)) && old(m.verified) + ProductNames(plan.commands) <= m.verified
    ensures GotAllWords(runs, plan.commands, UnixSite(plan, work))
    ensures !complete ==> m.history == old(m.history) && m.files == old(m.files) && status != 0
    // Otherwise the destinations change one after the other, in the planned order.
    ensures forall i :: |old(m.history)| <= i < |m.history| ==> UnixPoint(old(m.files), m.history[i], plan, m.left)
    ensures UnixPoint(old(m.files), m.files, plan, m.left)
    ensures
      status == 0 ==>
        && m.files == Published(old(m.files), plan, m.left, |plan.hostOutputs|) && Made(plan, m.left, |plan.hostOutputs|)
        && (saveTemps || !m.hasWork)
    ensures m.interrupted != 0 ==> status == 1 || status == 128 + m.interrupted
    ensures ToolFailed(runs) && m.interrupted == 0 ==> status == runs[|runs| - 1].status
    // No failure is passed over, and there is no other cause of one.
    ensures status == 0 ==> m.failures == old(m.failures) && m.interrupted == 0 && UnixFits(plan, work)
    ensures status != 0 ==> m.failures > old(m.failures) || m.interrupted != 0 || !UnixFits(plan, work)
    // A single failure, or a signal, leaves nothing but complete outputs.
    ensures OneMishap(old(m.failures), m.failures, m.interrupted) ==> Settled(old(m.files), m.files, plan, m.left)
  {
    hide AllRunnable;
    hide UnixTakes;
    hide LibraryVariable;
    hide Made;
    hide Settled;
    hide DosSettled;
    hide Published;
    hide UnixPoint;
    hide Went;
    hide Started;
    hide GotAllWords;
    NoRuns(plan.commands, UnixSite(plan, work));
    WentIsStarted([], plan.commands, 0, UnixSite(plan, work));
    WordsGot([], plan.commands, UnixSite(plan, work));
    complete, runs := false, [];
    ghost var start := m.files;
    NothingPublished(start, plan, m.left);
    var emulator := m.Try();
    if !emulator {
      return 1, complete, runs;
    }
    var libraries := LibraryVariable(plan.libraries);
    if libraries.None? {
      return 1, complete, runs;
    }
    m.interrupted := 0;
    status, complete, runs := RunAndPublish(m, plan, work, saveTemps);
    WordsGot(runs, plan.commands, UnixSite(plan, work));
    if m.interrupted != 0 {
      status := 128 + m.interrupted;
    }
  }

  /** The part of a run during which signals are caught. */
  method RunAndPublish(m: Machine, plan: Plan, work: string, saveTemps: bool)
    returns (status: nat, ghost complete: bool, ghost runs: seq<Run>)
    requires m.Valid() && plan.Parallel() && LibraryVariable(plan.libraries).Some?
    modifies m
    ensures m.Valid() && old(m.history) <= m.history
    ensures m.runs == old(m.runs) + runs && Started(runs, plan.commands, UnixSite(plan, work))
    ensures
      complete ==>
        Went(runs, plan.commands, UnixSite(plan, work)) && old(m.verified) + ProductNames(plan.commands) <= m.verified
    ensures !complete ==> m.history == old(m.history) && m.files == old(m.files) && (status != 0 || m.interrupted != 0)
    ensures forall i :: |old(m.history)| <= i < |m.history| ==> UnixPoint(old(m.files), m.history[i], plan, m.left)
    ensures UnixPoint(old(m.files), m.files, plan, m.left)
    ensures
      status == 0 && m.interrupted == 0 ==>
        && m.files == Published(old(m.files), plan, m.left, |plan.hostOutputs|) && Made(plan, m.left, |plan.hostOutputs|)
        && (saveTemps || !m.hasWork)
    ensures ToolFailed(runs) && m.interrupted == 0 ==> status == runs[|runs| - 1].status
    ensures status == 0 ==> m.failures == old(m.failures)
    ensures status == 0 && m.interrupted == 0 ==> UnixFits(plan, work)
    ensures OneMishap(old(m.failures), m.failures, m.interrupted) ==> Settled(old(m.files), m.files, plan, m.left)
    ensures status != 0 ==> m.failures > old(m.failures) || m.interrupted != 0 || !UnixFits(plan, work)
  {
    hide AllRunnable;
    hide UnixTakes;
    hide LibraryVariable;
    hide Made;
    hide ProductNames;
    hide Content;
    hide Settled;
    hide DosSettled;
    hide Published;
    hide UnixPoint;
    hide Went;
    hide Started;
    NoRuns(plan.commands, UnixSite(plan, work));
    WentIsStarted([], plan.commands, 0, UnixSite(plan, work));
    status, complete, runs := 0, false, [];
    ghost var start := m.files;
    NothingPublished(start, plan, m.left);
    var installed := InstallHandlers(m);
    var made := false;
    if installed < 3 {
      status := 1;
    } else {
      made := m.MakeWorkspace();
      if !made {
        status := 1;
      } else {
        status, complete, runs := RunCommands(m, plan.commands, UnixSite(plan, work));
        NothingPublished(start, plan, m.left);
        if status == 0 && m.interrupted == 0 {
          status := PublishUnix(m, plan, work);
        }
      }
    }
    if made && !saveTemps {
      var removed := m.RemoveWorkspace();
      if !removed && status == 0 {
        status := 1;
      }
    }
    var restored := RestoreHandlers(m, installed);
    if !restored && status == 0 {
      status := 1;
    }
  }

  /** Catches three signals, up to the first failure. */
  method InstallHandlers(m: Machine) returns (installed: nat)
    requires m.Valid()
    modifies m`clock, m`interrupted, m`failures
    ensures m.Valid() && installed <= 3 && m.failures == old(m.failures) + if installed < 3 then 1 else 0
    ensures (old(m.interrupted) != 0 ==> m.interrupted != 0) && old(m.failures) <= m.failures
  {
    installed := 0;
    while installed < 3
      invariant m.Valid() && installed <= 3 && m.failures == old(m.failures)
      invariant (old(m.interrupted) != 0 ==> m.interrupted != 0) && old(m.failures) <= m.failures
    {
      var handled := m.Try();
      if !handled {
        return;
      }
      installed := installed + 1;
    }
  }

  method RestoreHandlers(m: Machine, installed: nat) returns (ok: bool)
    requires m.Valid()
    modifies m`clock, m`interrupted, m`failures
    ensures m.Valid() && (ok <==> m.failures == old(m.failures))
    ensures (old(m.interrupted) != 0 ==> m.interrupted != 0) && old(m.failures) <= m.failures
  {
    ok := true;
    for i := 0 to installed
      invariant m.Valid() && (ok <==> m.failures == old(m.failures)) && old(m.failures) <= m.failures
      invariant (old(m.interrupted) != 0 ==> m.interrupted != 0) && old(m.failures) <= m.failures
    {
      var restored := m.Try();
      ok := ok && restored;
    }
  }

  /** The whole run on DOS. */
  method ExecuteDos(m: Machine, plan: Plan, work: string, saveTemps: bool)
    returns (status: nat, ghost complete: bool, ghost runs: seq<Run>)
    requires m.Valid() && plan.Parallel()
    modifies m
    ensures m.Valid() && old(m.history) <= m.history
    ensures m.runs == old(m.runs) + runs && Started(runs, plan.commands, DosSite(plan, work))
    ensures
      complete ==>
        Went(runs, plan.commands, DosSite(plan, work)) && old(m.verified) + ProductNames(plan.commands) <= m.verified
    // The tools got all their words exactly when no command tail was cut.
    ensures
      GotAllWords(runs, plan.commands, DosSite(plan, work)) <==>
        AllUncut(plan.commands, |runs|, DosSite(plan, work))
    ensures !complete ==> m.history == old(m.history) && m.files == old(m.files) && status != 0
    ensures forall i :: |old(m.history)| <= i < |m.history| ==> DosPoint(old(m.files), m.history[i], plan, m.left)
    ensures DosPoint(old(m.files), m.files, plan, m.left)
    ensures
      status == 0 ==>
        && m.files == Published(old(m.files), plan, m.left, |plan.hostOutputs|) && Made(plan, m.left, |plan.hostOutputs|)
        && (saveTemps || !m.hasWork)
    ensures ToolFailed(runs) ==> status == runs[|runs| - 1].status
    ensures status == 0 ==> m.failures == old(m.failures) && DosFits(plan, work)
    ensures status != 0 ==> m.failures > old(m.failures) || m.interrupted != 0 || !DosFits(plan, work)
    // A single failure leaves nothing but complete outputs and at most one backup.
    ensures m.failures <= old(m.failures) + 1 ==> DosSettled(old(m.files), m.files, plan, m.left)
  {
    hide Settled;
    hide DosSettled;
    hide AllRunnable;
    hide DosTakes;
    hide DosEnvironmentFits;
    hide Made;
    hide Published;
    hide DosPoint;
    hide Went;
    hide Started;
    hide GotAllWords;
    hide AllUncut;
    hide ProductNames;
    hide Content;
    hide Distinct;
    hide ProductName;
    hide LibraryVariable;
    hide DosLibraryVariable;
    NoRuns(plan.commands, DosSite(plan, work));
    WentIsStarted([], plan.commands, 0, DosSite(plan, work));
    WordsGot([], plan.commands, DosSite(plan, work));
    status, complete, runs := 0, false, [];
    ghost var start := m.files;
    NothingPublished(start, plan, m.left);
    var made := m.MakeWorkspace();
    if !made {
      return 1, complete, runs;
    }
    NothingPublished(start, plan, m.left);
    var environment := DosEnvironmentFits(plan, work);
    if environment {
      environment := m.Try();
    }
    if !environment {
      var removed := m.RemoveWorkspace();
      return 1, complete, runs;
    }
    m.interrupted := 0;
    status, complete, runs := RunCommands(m, plan.commands, DosSite(plan, work));
    WordsGot(runs, plan.commands, DosSite(plan, work));
    NothingPublished(start, plan, m.left);
    complete := complete && m.interrupted == 0;
    if status == 0 && m.interrupted != 0 {
      status := 1;
    }
    if status == 0 {
      status := PublishDos(m, plan, work);
    }
    if !saveTemps {
      var removed := m.RemoveWorkspace();
      if !removed && status == 0 {
        status := 1;
      }
    }
  }
}
