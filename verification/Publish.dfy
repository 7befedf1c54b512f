/** Publishing a product of the workspace as a host file, on DOS and on Unix. */
module Publish {
  import opened Basics
  import opened Strings
  import opened Disk

  const DOS_PATH: nat := 64
  const UNIX_PATH: nat := 1024

  // ---- What no failure may break ----

  /** Only the files in `names` differ between the two states. */
  ghost predicate SameBut(before: Files, now: Files, names: set<string>)
  {
    forall n :: n !in names ==> SameAt(before, now, n)
  }

  ghost predicate SameAt(before: Files, now: Files, name: string)
  {
    (name in before <==> name in now) && (name in before ==> now[name] == before[name])
  }

  ghost predicate HeldUnder(now: Files, names: set<string>, data: Data)
  {
    exists b :: b in names && b in now && now[b] == data
  }

  /** A state in which a publication of `product` as `destination` may stop: the destination is
      its old or the complete new content, or the old content is whole under a temporary name. */
  ghost predicate DosSafe(before: Files, now: Files, destination: string, temps: set<string>, product: Data)
  {
    && SameBut(before, now, {destination} + temps)
    && (destination in now ==>
        now[destination] == product || (destination in before && now[destination] == before[destination]))
    && (destination in before && destination !in now ==> HeldUnder(now, temps, before[destination]))
  }

  /** After a failure nothing is lost: a new destination is not there, and the content of an
      existing one is whole under its own or a temporary name. */
  ghost predicate OldKept(before: Files, now: Files, destination: string, temps: set<string>)
  {
    if destination !in before then destination !in now
    else HeldUnder(now, {destination} + temps, before[destination])
  }

  /** Names that nothing else uses. */
  ghost predicate Unused(temps: set<string>, before: Files, planned: seq<string>)
  {
    forall t :: t in temps ==> t !in before && t !in planned
  }

  lemma TempRemoved(before: Files, now: Files, temp: string)
    requires SameBut(before, now, {temp}) && temp !in before
    ensures now - {temp} == before
  {
    forall n | n != temp
      ensures SameAt(before, now, n)
    {
    }
    assert forall n :: n in now - {temp} <==> n in before by {
      forall n
        ensures n in now - {temp} <==> n in before
      {
        if n != temp {
          assert SameAt(before, now, n);
        }
      }
    }
    assert forall n :: n in before ==> SameAt(before, now, n);
  }

  /** Everything is as before, or all is done but for a backup that is left. */
  ghost predicate Undone(before: Files, now: Files, destination: string, temps: set<string>, product: Data)
  {
    now == before || BackupLeft(before, now, destination, temps, product)
  }

  /** The new content is published and the old one is in a file of its own. */
  ghost predicate BackupLeft(before: Files, now: Files, destination: string, temps: set<string>, product: Data)
  {
    destination in before && exists b :: b in temps && now == before[destination := product][b := before[destination]]
  }

  // ---- DOS ----

  /** The destination names a directory that leaves room for temporary names. */
  predicate DosPlace(destination: string)
  {
    0 <= LastIndexOf(destination, '\\') <= DOS_PATH - |"AXXXXXX.TMP"| - 2
  }

  /** Copies the product to the new file `staged`, at most 512 bytes at a time. */
  method DosCopy(m: Machine, source: string, staged: string) returns (ok: bool)
    requires m.Valid() && source in m.work && staged in m.files && m.files[staged] == []
    modifies m`files, m`history, m`clock, m`interrupted, m`failures
    ensures m.Valid() && old(m.history) <= m.history
    ensures (old(m.interrupted) != 0 ==> m.interrupted != 0) && old(m.failures) <= m.failures
    ensures ok ==> m.failures == old(m.failures)
    ensures staged in m.files
    ensures forall i :: |old(m.history)| <= i < |m.history| ==> SameBut(old(m.files), m.history[i], {staged})
    ensures SameBut(old(m.files), m.files, {staged})
    ensures ok ==> m.files == old(m.files)[staged := m.work[source]]
    ensures !ok ==> m.failures > old(m.failures)
  {
    ok := true;
    var product, done := m.work[source], 0;
    ghost var start := m.files;
    assert product[..0] == [] && start == start[staged := []];
    while true
      invariant m.Valid() && old(m.history) <= m.history && ok && m.work[source] == product
      invariant (old(m.interrupted) != 0 ==> m.interrupted != 0) && m.failures == old(m.failures)
      invariant done <= |product| && m.files == start[staged := product[..done]]
      invariant forall i :: |old(m.history)| <= i < |m.history| ==> SameBut(start, m.history[i], {staged})
      decreases |product| - done
    {
      var amount, again := m.Read(source, done, 512);
      if amount < 0 {
        ok := false;
        m.failures := m.failures + if again then 1 else 0;
      }
      if amount <= 0 {
        break;
      }
      ok := DosWrite(m, staged, start, product, done, amount);
      if !ok {
        break;
      }
      done := done + amount;
    }
    assert product[..|product|] == product;
    var closedIn := m.Try();
    if !closedIn {
      ok := false;
    } else {
      var closedOut := m.Try();
      if !closedOut {
        ok := false;
      }
    }
  }

  /** Appends `product[done..done + amount]` to `staged`, whose content is `product[..done]`. */
  method DosWrite(m: Machine, staged: string, ghost start: Files, product: Data, done: nat, amount: nat)
    returns (ok: bool)
    requires m.Valid() && done + amount <= |product| && staged in m.files
    requires m.files == start[staged := product[..done]]
    modifies m`files, m`history, m`clock, m`interrupted, m`failures
    ensures m.Valid() && old(m.history) <= m.history
    ensures (old(m.interrupted) != 0 ==> m.interrupted != 0) && old(m.failures) <= m.failures
    ensures forall i :: |old(m.history)| <= i < |m.history| ==> SameBut(start, m.history[i], {staged})
    ensures SameBut(start, m.files, {staged}) && staged in m.files
    ensures if ok then m.failures == old(m.failures) else m.failures > old(m.failures)
    ensures ok ==> m.files == start[staged := product[..done + amount]]
  {
    var offset := 0;
    while offset < amount
      invariant m.Valid() && old(m.history) <= m.history
      invariant (old(m.interrupted) != 0 ==> m.interrupted != 0) && m.failures == old(m.failures)
      invariant 0 <= offset <= amount && m.files == start[staged := product[..done + offset]]
      invariant forall i :: |old(m.history)| <= i < |m.history| ==> SameBut(start, m.history[i], {staged})
    {
      var rest := product[done + offset..done + amount];
      var wrote, again := m.Write(staged, rest);
      if wrote <= 0 {
        // On DOS a call that has to be tried again is a failed one.
        m.failures := m.failures + if again then 1 else 0;
        return false;
      }
      assert product[..done + offset] + rest[..wrote] == product[..done + offset + wrote];
      offset := offset + wrote;
    }
    return true;
  }

  method DosPublish(m: Machine, source: string, destination: string, planned: seq<string>)
    returns (ok: bool, ghost temps: set<string>, ghost swap: Option<Swap>)
    requires m.Valid() && source in m.work && destination in planned
    modifies m`files, m`history, m`clock, m`interrupted, m`failures
    ensures m.Valid() && old(m.history) <= m.history
    ensures (old(m.interrupted) != 0 ==> m.interrupted != 0) && old(m.failures) <= m.failures
    ensures ok ==> m.failures == old(m.failures)
    ensures Unused(temps, old(m.files), planned) && |temps| <= 2
    ensures !ok && swap.None? ==> SameAt(old(m.files), m.files, destination)
    ensures swap.Some? ==>
      && destination in old(m.files) && swap.value.Fits(old(m.files), temps)
      && SwapEnd(old(m.files), destination, swap.value, m.work[source], m.script).Is(ok, m.files)
    ensures forall i :: |old(m.history)| <= i < |m.history| ==>
      DosSafe(old(m.files), m.history[i], destination, temps, m.work[source])
    ensures DosSafe(old(m.files), m.files, destination, temps, m.work[source])
    ensures ok ==> m.files == old(m.files)[destination := m.work[source]]
    ensures !ok ==> OldKept(old(m.files), m.files, destination, temps)
    // A single failure is rolled back, unless it is that of removing the backup.
    ensures !ok && m.failures <= old(m.failures) + 1 ==> Undone(old(m.files), m.files, destination, temps, m.work[source])
    // A failure preserves the old destination exactly when it was not moved away or came back.
    ensures
      !ok && destination in old(m.files) && m.work[source] != old(m.files)[destination] ==>
        (SameAt(old(m.files), m.files, destination) <==> swap.None? || swap.value.Preserves(m.script))
    ensures if ok then DosPlace(destination) else m.failures > old(m.failures) || !DosPlace(destination)
  {
    hide SameBut;
    hide DosSafe;
    hide OldKept;
    hide Undone;
    hide SwapEnd;
    hide SameAt;
    temps, swap := {}, None;
    UnchangedIsSafe(m.files, destination, {}, m.work[source]);
    ghost var start, product := m.files, m.work[source];
    var slash := LastIndexOf(destination, '\\');
    if slash < 0 {
      return false, temps, swap;
    }
    var staged;
    staged, temps := DosStage(m, source, destination, planned, slash);
    UnchangedIsSafe(start, destination, temps, product);
    if staged.None? {
      return false, temps, swap;
    }
    ghost var copied, first := |m.history|, temps;
    ok, temps, swap := DosReplace(m, staged.value, destination, slash, planned, start, product);
    if swap.Some? && product != start[destination] {
      SwapPreserves(start, destination, swap.value, product, m.script);
    }
    forall i | |old(m.history)| <= i < copied
      ensures DosSafe(start, m.history[i], destination, temps, product)
    {
      MoreTemps(start, m.history[i], destination, first, temps, product);
    }
  }

  /** Makes a complete copy of the product beside the destination; on a failure nothing stays but
      a copy that cannot be removed. */
  method DosStage(m: Machine, source: string, destination: string, planned: seq<string>, slash: nat)
    returns (staged: Option<string>, ghost temps: set<string>)
    requires m.Valid() && source in m.work && destination in planned
    modifies m`files, m`history, m`clock, m`interrupted, m`failures
    ensures m.Valid() && old(m.history) <= m.history
    ensures (old(m.interrupted) != 0 ==> m.interrupted != 0) && old(m.failures) <= m.failures
    ensures Unused(temps, old(m.files), planned) && |temps| <= 1
    ensures forall i :: |old(m.history)| <= i < |m.history| ==>
      DosSafe(old(m.files), m.history[i], destination, temps, m.work[source])
    ensures
      staged.Some? ==>
        && temps == {staged.value} && m.files == old(m.files)[staged.value := m.work[source]]
        && m.failures == old(m.failures) && slash + 13 <= DOS_PATH
    ensures
      staged.None? ==>
        && SafeFailure(old(m.files), m.files, destination, temps, m.work[source])
        && SameAt(old(m.files), m.files, destination)
        && (m.failures > old(m.failures) || slash + 13 > DOS_PATH)
        && (m.failures <= old(m.failures) + 1 ==> m.files == old(m.files))
  {
    hide SameBut;
    hide DosSafe;
    hide OldKept;
    staged, temps := None, {};
    UnchangedIsSafe(m.files, destination, {}, m.work[source]);
    ghost var start, product := m.files, m.work[source];
    var isOpen := m.Try();
    if !isOpen || slash + |"AXXXXXX.TMP"| + 2 > DOS_PATH {
      return;
    }
    var name := m.FreshName(planned);
    if name.None? {
      return;
    }
    temps := {name.value};
    UnchangedIsSafe(start, destination, temps, product);
    StagedOver(start, name.value, []);
    CopyingIsSafe(start, start[name.value := []], destination, name.value, product);
    var created := m.CreateExclusive(name.value);
    if !created {
      return;
    }
    ghost var first := |m.history|;
    var ok := DosCopy(m, source, name.value);
    CopyingIsSafe(start, m.files, destination, name.value, product);
    forall i | first <= i < |m.history|
      ensures DosSafe(start, m.history[i], destination, temps, product)
    {
      CopyingIsSafe(start, m.history[i], destination, name.value, product);
    }
    if !ok {
      var removed := m.Unlink(name.value);
      return;
    }
    staged := name;
  }

  /** Puts the complete copy `staged` in the place of `destination`. */
  method DosReplace(m: Machine, staged: string, destination: string, slash: nat, planned: seq<string>,
                    ghost start: Files, ghost product: Data)
    returns (ok: bool, ghost temps: set<string>, ghost swap: Option<Swap>)
    requires m.Valid() && m.files == start[staged := product]
    requires staged !in start && staged !in planned && destination in planned
    modifies m`files, m`history, m`clock, m`interrupted, m`failures
    ensures m.Valid() && old(m.history) <= m.history
    ensures (old(m.interrupted) != 0 ==> m.interrupted != 0) && old(m.failures) <= m.failures
    ensures ok ==> m.failures == old(m.failures)
    ensures staged in temps && Unused(temps, start, planned) && |temps| <= 2
    ensures !ok && swap.None? ==> SameAt(start, m.files, destination)
    ensures swap.Some? ==>
      && destination in start && swap.value.Fits(start, temps)
      && SwapEnd(start, destination, swap.value, product, m.script).Is(ok, m.files)
    ensures forall i :: |old(m.history)| <= i < |m.history| ==>
      DosSafe(start, m.history[i], destination, temps, product)
    ensures DosSafe(start, m.files, destination, temps, product)
    ensures ok ==> m.files == start[destination := product]
    ensures !ok && m.failures <= old(m.failures) + 1 && slash + 13 <= DOS_PATH ==>
      Undone(start, m.files, destination, temps, product)
    ensures !ok ==> OldKept(start, m.files, destination, temps) && (m.failures > old(m.failures) || slash + 13 > DOS_PATH)
  {
    hide SameBut;
    hide DosSafe;
    hide OldKept;
    hide Undone;
    hide SwapEnd;
    temps, swap := {staged}, None;
    UnchangedIsSafe(start, destination, temps, product);
    StagedOver(start, staged, product);
    CopyingIsSafe(start, m.files, destination, staged, product);
    if destination !in start {
      NewStates(start, destination, staged, product);
    }
    var hadOld := m.Exists(destination);
    if !hadOld {
      ok := m.Rename(staged, destination, false);
      if !ok {
        var removed := m.Unlink(staged);
      }
      return ok, temps, swap;
    }
    var name := None;
    if slash + |"AXXXXXX.BAK"| + 2 <= DOS_PATH {
      name := m.FreshName(planned);
    }
    if name.None? {
      var removed := m.Unlink(staged);
      return false, temps, swap;
    }
    var backup := name.value;
    temps, swap := {staged, backup}, Some(Swap(staged, backup, m.clock));
    ok := DosSwap(m, staged, destination, backup, start, product);
  }

  /** A swap of the staged copy and the old destination: the temporary names, and the number of its
      first call. */
  datatype Swap = Swap(staged: string, backup: string, first: nat)
  {
    ghost predicate Fits(before: Files, temps: set<string>)
    {
      staged !in before && backup !in before && staged != backup && temps == {staged, backup}
    }

    /** The old destination stayed in its place or came back to it. */
    predicate Preserves(script: seq<Event>)
    {
      Fails(script, first) || (Fails(script, first + 1) && !Fails(script, first + 2))
    }
  }

  datatype Outcome = Outcome(ok: bool, files: Files)
  {
    predicate Is(ok: bool, files: Files)
    {
      this.ok == ok && this.files == files
    }
  }

  /** How a swap ends: its result and the files, from which of its calls fail. */
  function SwapEnd(before: Files, destination: string, swap: Swap, product: Data, script: seq<Event>): Outcome
    requires destination in before
  {
    var Swap(staged, backup, c) := swap;
    var copied, moved := before[staged := product], Moved(before, destination, backup);
    if Fails(script, c) then Outcome(false, if Fails(script, c + 1) then copied else before)
    else if Fails(script, c + 1) then
      if Fails(script, c + 2) then Outcome(false, if Fails(script, c + 3) then moved[staged := product] else moved)
      else Outcome(false, if Fails(script, c + 3) then copied else before)
    else if Fails(script, c + 2) then Outcome(false, moved[destination := product])
    else Outcome(true, before[destination := product])
  }

  /** The old destination survives a failed swap exactly when it was not moved away, or was moved
      away and came back: the copy could not take its place, and restoring did not fail. */
  lemma SwapPreserves(before: Files, destination: string, swap: Swap, product: Data, script: seq<Event>)
    requires destination in before && swap.Fits(before, {swap.staged, swap.backup})
    requires product != before[destination]
    ensures
      SameAt(before, SwapEnd(before, destination, swap, product, script).files, destination) <==> swap.Preserves(script)
  {
  }

  /** A failed swap in which just one call fails undoes itself, unless that is the removal of the
      backup. */
  lemma SwapUndone(before: Files, destination: string, swap: Swap, product: Data, script: seq<Event>)
    requires destination in before && swap.Fits(before, {swap.staged, swap.backup})
    ensures
      var c := swap.first;
      var Outcome(ok, now) := SwapEnd(before, destination, swap, product, script);
      && (ok <==> !Fails(script, c) && !Fails(script, c + 1) && !Fails(script, c + 2))
      && (Fails(script, c) && !Fails(script, c + 1) ==> now == before)
      && (!Fails(script, c) && Fails(script, c + 1) && !Fails(script, c + 2) && !Fails(script, c + 3) ==> now == before)
      && (!ok && !Fails(script, c) && !Fails(script, c + 1) ==>
            now == before[destination := product][swap.backup := before[destination]])
  {
  }

  /** A failure that does not preserve the destination: the backup cannot be removed. */
  lemma RemovalFails()
    ensures
      var before: Files := map["A.O" := "old"];
      var Outcome(ok, now) := SwapEnd(before, "A.O", Swap("A1.TMP", "A1.BAK", 0), "new", [SMOOTH, SMOOTH, FAILURE]);
      !ok && now == map["A.O" := "new", "A1.BAK" := "old"] && !SameAt(before, now, "A.O")
  {
  }

  /** Another one: neither the copy nor the backup can be renamed. */
  lemma RestoringFails()
    ensures
      var before: Files := map["A.O" := "old"];
      var Outcome(ok, now) := SwapEnd(before, "A.O", Swap("A1.TMP", "A1.BAK", 0), "new", [SMOOTH, FAILURE, FAILURE]);
      !ok && now == map["A1.BAK" := "old"] && !SameAt(before, now, "A.O")
  {
    var before: Files := map["A.O" := "old"];
    assert Moved(before, "A.O", "A1.BAK") == map["A1.BAK" := "old"];
  }

  /** Renames the old destination to `backup`, the copy to the destination, and removes the
      backup; the old destination comes back if the second step fails. */
  method DosSwap(m: Machine, staged: string, destination: string, backup: string,
                 ghost start: Files, ghost product: Data)
    returns (ok: bool)
    requires m.Valid() && m.files == start[staged := product] && destination in start
    requires staged !in start && backup !in start && staged != backup
    modifies m`files, m`history, m`clock, m`interrupted, m`failures
    ensures m.Valid() && old(m.history) <= m.history
    ensures (old(m.interrupted) != 0 ==> m.interrupted != 0) && old(m.failures) <= m.failures
    ensures ok ==> m.failures == old(m.failures)
    ensures forall i :: |old(m.history)| <= i < |m.history| ==>
      DosSafe(start, m.history[i], destination, {staged, backup}, product)
    ensures DosSafe(start, m.files, destination, {staged, backup}, product)
    ensures SwapEnd(start, destination, Swap(staged, backup, old(m.clock)), product, m.script).Is(ok, m.files)
    ensures ok ==> m.files == start[destination := product]
    ensures !ok && m.failures <= old(m.failures) + 1 ==> Undone(start, m.files, destination, {staged, backup}, product)
    ensures !ok ==> OldKept(start, m.files, destination, {staged, backup}) && m.failures > old(m.failures)
  {
    ghost var temps := {staged, backup};
    hide DosSafe;
    hide OldKept;
    hide Undone;
    hide Moved;
    hide Fails;
    hide Machine.After;
    m.CallsInOrder(m.clock);
    SwapStates(start, destination, staged, backup, product);
    SwapSteps(start, destination, staged, backup, product);
    ok := m.Rename(destination, backup, false);
    if !ok {
      var removed := m.Unlink(staged);
      return false;
    }
    ok := m.Rename(staged, destination, false);
    if !ok {
      var restored := m.Rename(backup, destination, false);
      var removed := m.Unlink(staged);
      return false;
    }
    ok := m.Unlink(backup);
  }

  lemma SwapSteps(start: Files, destination: string, staged: string, backup: string, product: Data)
    requires destination in start && staged !in start && backup !in start && staged != backup
    ensures
      var copied, moved := start[staged := product], Moved(start, destination, backup);
      && copied - {staged} == start && destination in copied && backup !in copied
      && backup in moved[staged := product] && destination !in moved[staged := product]
      && Moved(copied, destination, backup) == moved[staged := product]
      && moved[staged := product] - {staged} == moved
      && Moved(moved[staged := product], staged, destination) == moved[destination := product]
      && Moved(moved[staged := product], backup, destination) == copied
      && moved[destination := product] - {backup} == start[destination := product]
      && Undone(start, moved[destination := product], destination, {staged, backup}, product)
      && Undone(start, start, destination, {staged, backup}, product)
  {
  }

  /** The states that replacing an existing destination can pass through. */
  lemma SwapStates(start: Files, destination: string, staged: string, backup: string, product: Data)
    requires destination in start && staged !in start && backup !in start && staged != backup
    ensures
      var temps, moved := {staged, backup}, Moved(start, destination, backup);
      && SafeFailure(start, start[staged := product], destination, temps, product)
      && SafeFailure(start, start, destination, temps, product)
      && SafeFailure(start, moved[staged := product], destination, temps, product)
      && SafeFailure(start, moved, destination, temps, product)
      && SafeFailure(start, moved[destination := product], destination, temps, product)
      && DosSafe(start, start[destination := product], destination, temps, product)
  {
    var moved := Moved(start, destination, backup);
    assert moved[backup] == start[destination];
  }

  ghost predicate SafeFailure(before: Files, now: Files, destination: string, temps: set<string>, product: Data)
  {
    DosSafe(before, now, destination, temps, product) && OldKept(before, now, destination, temps)
  }

  lemma CopyingIsSafe(start: Files, now: Files, destination: string, staged: string, product: Data)
    requires SameBut(start[staged := []], now, {staged}) && staged !in start && staged != destination
    ensures SafeFailure(start, now, destination, {staged}, product)
    ensures now - {staged} == start && SameAt(start, now, destination)
  {
    StagingIsSafe(start, now, staged);
    TempRemoved(start, now, staged);
    assert SameAt(start, now, destination);
  }

  lemma StagedOver(start: Files, staged: string, product: Data)
    ensures SameBut(start[staged := []], start[staged := product], {staged})
  {
  }

  lemma MoreTemps(before: Files, now: Files, destination: string, temps: set<string>, more: set<string>, product: Data)
    requires DosSafe(before, now, destination, temps, product) && temps <= more
    ensures DosSafe(before, now, destination, more, product)
  {
    hide SameAt;
  }

  lemma UnchangedIsSafe(files: Files, destination: string, temps: set<string>, product: Data)
    ensures SafeFailure(files, files, destination, temps, product)
    ensures Undone(files, files, destination, temps, product) && SameAt(files, files, destination)
  {
  }

  /** The states that publishing a new destination can pass through. */
  lemma NewStates(start: Files, destination: string, staged: string, product: Data)
    requires destination !in start && staged !in start && staged != destination
    ensures
      var copied, temps := start[staged := product], {staged};
      && SafeFailure(start, copied, destination, temps, product) && copied - {staged} == start
      && Moved(copied, staged, destination) == start[destination := product]
      && DosSafe(start, start[destination := product], destination, temps, product)
  {
    CopyingIsSafe(start, start[staged := product], destination, staged, product);
  }

  // ---- Unix ----

  /** A state in which a publication on Unix may stop: nothing but a temporary file differs from
      the state before it, or from the state after it. */
  ghost predicate UnixSafe(before: Files, now: Files, destination: string, temps: set<string>, product: Data)
  {
    SameBut(before, now, temps) || SameBut(before[destination := product], now, temps)
  }

  /** At most one call fails, or else a signal may come. */
  predicate OneMishap(failuresBefore: nat, failures: nat, interrupted: nat)
  {
    failures == failuresBefore || (failures == failuresBefore + 1 && interrupted == 0)
  }

  /** The destination is absolute, and its directory leaves room for a temporary name. */
  predicate UnixPlace(destination: string)
  {
    var slash := LastIndexOf(destination, '/');
    slash >= 0 && (if slash == 0 then 1 else slash) + |".acc.XXXXXX"| + 2 <= UNIX_PATH
  }

  /** The last calls of a publication, from the rename on: the name of the complete copy, and the
      number of the rename. */
  datatype Finish = Finish(staged: string, first: nat)

  /** How a publication ends with a complete copy: its result and the files, from which of the
      rename, the close of the product, and the removal of the copy fail. */
  function FinishEnd(before: Files, destination: string, finish: Finish, product: Data, script: seq<Event>): Outcome
  {
    var Finish(staged, c) := finish;
    if Fails(script, c) then Outcome(false, if Fails(script, c + 2) then before[staged := product] else before)
    else Outcome(!Fails(script, c + 1), before[destination := product])
  }

  /** The old destination survives exactly when the rename fails. The publication may fail without
      that, if closing the product does. */
  lemma FinishPreserves(before: Files, destination: string, finish: Finish, product: Data, script: seq<Event>)
    requires finish.staged !in before && finish.staged != destination
    requires destination in before ==> product != before[destination]
    ensures
      var Outcome(ok, now) := FinishEnd(before, destination, finish, product, script);
      && (SameAt(before, now, destination) <==> Fails(script, finish.first))
      && (!ok && !SameAt(before, now, destination) <==>
            !Fails(script, finish.first) && Fails(script, finish.first + 1))
  {
  }

  /** A failure that does not preserve the destination: the product cannot be closed. */
  lemma ClosingFails()
    ensures
      var before: Files := map["/a.o" := "old"];
      var Outcome(ok, now) := FinishEnd(before, "/a.o", Finish("/.acc.1", 0), "new", [SMOOTH, FAILURE]);
      !ok && now == map["/a.o" := "new"] && !SameAt(before, now, "/a.o")
  {
  }

  /** Copies the product to `staged` unless a call fails or a signal arrives. */
  method UnixCopy(m: Machine, source: string, staged: string) returns (ok: bool)
    requires m.Valid() && source in m.work && staged in m.files && m.files[staged] == []
    modifies m`files, m`history, m`clock, m`interrupted, m`failures
    ensures m.Valid() && old(m.history) <= m.history
    ensures (old(m.interrupted) != 0 ==> m.interrupted != 0) && old(m.failures) <= m.failures
    ensures ok ==> m.failures == old(m.failures)
    ensures forall i :: |old(m.history)| <= i < |m.history| ==> SameBut(old(m.files), m.history[i], {staged})
    ensures SameBut(old(m.files), m.files, {staged}) && staged in m.files
    ensures ok ==> m.files == old(m.files)[staged := m.work[source]]
    ensures !ok ==> m.failures > old(m.failures) || m.interrupted != 0
  {
    var product, done := m.work[source], 0;
    ghost var start := m.files;
    assert product[..0] == [] && start == start[staged := []];
    while true
      invariant m.Valid() && old(m.history) <= m.history && m.work[source] == product
      invariant (old(m.interrupted) != 0 ==> m.interrupted != 0) && m.failures == old(m.failures)
      invariant done <= |product| && m.files == start[staged := product[..done]]
      invariant forall i :: |old(m.history)| <= i < |m.history| ==> SameBut(start, m.history[i], {staged})
      decreases |m.script| - m.clock, |product| - done
    {
      if m.interrupted != 0 {
        return false;
      }
      var size, again := m.Read(source, done, 16384);
      if again {
        continue;
      }
      if size == -1 {
        return false;
      }
      if size == 0 {
        break;
      }
      ok := UnixWrite(m, staged, start, product, done, size);
      if !ok {
        return false;
      }
      done := done + size;
    }
    assert product[..|product|] == product;
    return true;
  }

  /** Appends `product[done..done + size]` to `staged`, whose content is `product[..done]`. */
  method UnixWrite(m: Machine, staged: string, ghost start: Files, product: Data, done: nat, size: nat)
    returns (ok: bool)
    requires m.Valid() && done + size <= |product| && staged in m.files
    requires m.files == start[staged := product[..done]]
    modifies m`files, m`history, m`clock, m`interrupted, m`failures
    ensures m.Valid() && old(m.history) <= m.history && old(m.clock) <= m.clock
    ensures (old(m.interrupted) != 0 ==> m.interrupted != 0) && old(m.failures) <= m.failures
    ensures ok ==> m.failures == old(m.failures)
    ensures forall i :: |old(m.history)| <= i < |m.history| ==> SameBut(start, m.history[i], {staged})
    ensures SameBut(start, m.files, {staged}) && staged in m.files
    ensures ok ==> m.files == start[staged := product[..done + size]]
    ensures !ok ==> m.failures > old(m.failures) || m.interrupted != 0
  {
    var offset := 0;
    while offset < size
      invariant m.Valid() && old(m.history) <= m.history && old(m.clock) <= m.clock
      invariant (old(m.interrupted) != 0 ==> m.interrupted != 0) && m.failures == old(m.failures)
      invariant 0 <= offset <= size && m.files == start[staged := product[..done + offset]]
      invariant forall i :: |old(m.history)| <= i < |m.history| ==> SameBut(start, m.history[i], {staged})
      decreases size - offset, |m.script| - m.clock
    {
      var rest := product[done + offset..done + size];
      var written, again := m.Write(staged, rest);
      if again {
        if m.interrupted != 0 {
          return false;
        }
        continue;
      }
      if written <= 0 {
        return false;
      }
      assert product[..done + offset] + rest[..written] == product[..done + offset + written];
      offset := offset + written;
    }
    return true;
  }

  /** The rename of `finish` was the last call, and if it failed the complete copy is there. */
  ghost predicate Finishing(m: Machine, before: Files, product: Data, finish: Finish)
    reads m
  {
    && m.clock == m.After(finish.first) && finish.staged !in before
    && (Fails(m.script, finish.first) ==> m.files == before[finish.staged := product])
  }

  /** The part of a publication that one failure ends: `ok` says that the destination was
      replaced, `staged` names a temporary file that is left, and `isOpen` says whether it is
      still open. */
  method Stage(m: Machine, source: string, destination: string, planned: seq<string>, parent: nat)
    returns (ok: bool, staged: Option<string>, isOpen: bool, ghost temps: set<string>, ghost finish: Option<Finish>)
    requires m.Valid() && source in m.work && destination in planned
    modifies m`files, m`history, m`clock, m`interrupted, m`failures
    ensures m.Valid() && old(m.history) <= m.history
    ensures (old(m.interrupted) != 0 ==> m.interrupted != 0) && old(m.failures) <= m.failures
    ensures ok ==> m.failures == old(m.failures)
    ensures Unused(temps, old(m.files), planned) && |temps| <= 1
    ensures staged.Some? ==> staged.value in temps
    ensures forall i :: |old(m.history)| <= i < |m.history| ==>
      UnixSafe(old(m.files), m.history[i], destination, temps, m.work[source])
    ensures !ok ==> SameBut(old(m.files), m.files, temps)
    ensures !ok && staged.None? ==> m.files == old(m.files)
    ensures staged.Some? ==> m.files - {staged.value} == old(m.files) && (m.failures > old(m.failures) || m.interrupted != 0)
    ensures ok ==> parent + |".acc.XXXXXX"| + 2 <= UNIX_PATH
    ensures finish.None? ==> !ok
    ensures finish.Some? ==> Finishing(m, old(m.files), m.work[source], finish.value) && !isOpen
    ensures finish.Some? ==> temps == {finish.value.staged} && (ok <==> !Fails(m.script, finish.value.first))
    ensures finish.Some? && !ok ==> staged == Some(finish.value.staged)
    ensures ok ==> staged == None && !isOpen && m.files == old(m.files)[destination := m.work[source]]
    ensures
      !ok ==>
        m.failures > old(m.failures) || m.interrupted != 0 || m.work[source] == [] || parent + |".acc.XXXXXX"| + 2 > UNIX_PATH
  {
    ok, staged, isOpen, temps, finish := false, None, false, {}, None;
    var regular := m.Try();
    if !regular || m.work[source] == [] {
      return;
    }
    if parent + |".acc.XXXXXX"| + 2 > UNIX_PATH {
      return;
    }
    var name := m.FreshName(planned);
    if name.None? {
      return;
    }
    temps := {name.value};
    ghost var start := m.files;
    var created := m.CreateExclusive(name.value);
    if !created {
      return;
    }
    assert SameBut(start, m.files, temps);
    hide SameBut;
    ghost var renamed;
    ok, isOpen, renamed := FillAndRename(m, source, name.value, destination, start);
    finish := if renamed.Some? then Some(Finish(name.value, renamed.value)) else None;
    staged := if ok then None else name;
    if !ok {
      TempRemoved(start, m.files, name.value);
    }
  }

  /** Fills the new file `staged` and renames it to the destination. */
  method FillAndRename(m: Machine, source: string, staged: string, destination: string, ghost start: Files)
    returns (ok: bool, isOpen: bool, ghost renamed: Option<nat>)
    requires m.Valid() && source in m.work && m.files == start[staged := []]
    requires staged !in start && staged != destination
    modifies m`files, m`history, m`clock, m`interrupted, m`failures
    ensures m.Valid() && old(m.history) <= m.history
    ensures (old(m.interrupted) != 0 ==> m.interrupted != 0) && old(m.failures) <= m.failures
    ensures ok ==> m.failures == old(m.failures)
    ensures forall i :: |old(m.history)| <= i < |m.history| ==>
      UnixSafe(start, m.history[i], destination, {staged}, m.work[source])
    ensures !ok ==> SameBut(start, m.files, {staged})
    ensures ok ==> !isOpen && m.files == start[destination := m.work[source]]
    ensures renamed.None? ==> !ok
    ensures renamed.Some? ==> Finishing(m, start, m.work[source], Finish(staged, renamed.value)) && !isOpen
    ensures renamed.Some? ==> (ok <==> !Fails(m.script, renamed.value))
    ensures !ok ==> m.failures > old(m.failures) || m.interrupted != 0
  {
    hide SameBut;
    ok, isOpen, renamed := false, true, None;
    var copied := UnixCopy(m, source, staged);
    forall i | |old(m.history)| <= i < |m.history|
      ensures SameBut(start, m.history[i], {staged})
    {
      StagingIsSafe(start, m.history[i], staged);
    }
    StagingIsSafe(start, m.files, staged);
    if !copied {
      return;
    }
    assert m.files == start[staged := m.work[source]];
    var finished := m.Try();
    if !finished {
      return;
    }
    isOpen := false;
    var closed := m.Try();
    if !closed || m.interrupted != 0 {
      return;
    }
    NothingChanged(start[destination := m.work[source]], {staged});
    renamed := Some(m.clock);
    ok := m.Rename(staged, destination, true);
    assert ok ==> m.files == start[destination := m.work[source]];
  }

  lemma StagingIsSafe(start: Files, now: Files, staged: string)
    requires SameBut(start[staged := []], now, {staged})
    ensures SameBut(start, now, {staged})
  {
    forall n | n != staged
      ensures SameAt(start, now, n)
    {
      assert SameAt(start[staged := []], now, n);
    }
  }

  method UnixPublish(m: Machine, source: string, destination: string, planned: seq<string>)
    returns (ok: bool, ghost temps: set<string>, ghost finish: Option<Finish>)
    requires m.Valid() && source in m.work && destination in planned
    modifies m`files, m`history, m`clock, m`interrupted, m`failures
    ensures m.Valid() && old(m.history) <= m.history
    ensures (old(m.interrupted) != 0 ==> m.interrupted != 0) && old(m.failures) <= m.failures
    ensures ok ==> m.failures == old(m.failures)
    ensures Unused(temps, old(m.files), planned) && |temps| <= 1
    ensures forall i :: |old(m.history)| <= i < |m.history| ==>
      UnixSafe(old(m.files), m.history[i], destination, temps, m.work[source])
    ensures UnixSafe(old(m.files), m.files, destination, temps, m.work[source])
    ensures ok ==> m.files == old(m.files)[destination := m.work[source]]
    // A single failure, or a signal, leaves no temporary file behind.
    ensures
      OneMishap(old(m.failures), m.failures, m.interrupted) ==>
        m.files == old(m.files) || m.files == old(m.files)[destination := m.work[source]]
    // A failure preserves the old destination exactly when there was no rename, or the rename failed.
    ensures finish.None? ==> !ok && SameAt(old(m.files), m.files, destination)
    ensures finish.Some? ==>
      && finish.value.staged !in old(m.files) && finish.value.staged != destination
      && FinishEnd(old(m.files), destination, finish.value, m.work[source], m.script).Is(ok, m.files)
    ensures
      !ok && (destination in old(m.files) ==> m.work[source] != old(m.files)[destination]) ==>
        (SameAt(old(m.files), m.files, destination) <==> finish.None? || Fails(m.script, finish.value.first))
    ensures ok ==> UnixPlace(destination)
    ensures !ok ==> m.failures > old(m.failures) || m.interrupted != 0 || m.work[source] == [] || !UnixPlace(destination)
  {
    hide SameBut;
    hide SameAt;
    temps, finish := {}, None;
    NothingChanged(m.files, temps);
    var slash := LastIndexOf(destination, '/');
    if slash < 0 {
      return false, temps, finish;
    }
    var isOpen := m.Try();
    if !isOpen {
      return false, temps, finish;
    }
    var staged;
    ghost var start := m.files;
    ok, staged, isOpen, temps, finish := Stage(m, source, destination, planned, if slash == 0 then 1 else slash);
    if ok {
      NothingChanged(m.files, temps);
    }
    ghost var before := m.files;
    ok := CleanUp(m, ok, staged, isOpen);
    if staged.Some? {
      RemovingTemp(start, before, staged.value, temps);
    }
    if finish.Some? {
      m.CallsInOrder(finish.value.first);
      if destination in start ==> m.work[source] != start[destination] {
        FinishPreserves(start, destination, finish.value, m.work[source], m.script);
      }
    } else {
      UnchangedElsewhere(start, m.files, temps, destination);
    }
  }

  /** Closes what is still open, and removes the temporary file if it is still there. */
  method CleanUp(m: Machine, done: bool, staged: Option<string>, isOpen: bool) returns (ok: bool)
    requires m.Valid()
    modifies m`files, m`history, m`clock, m`interrupted, m`failures
    ensures m.Valid() && old(m.history) <= m.history
    ensures (old(m.interrupted) != 0 ==> m.interrupted != 0) && old(m.failures) <= m.failures
    ensures ok ==> done && m.failures == old(m.failures)
    ensures done && !ok ==> m.failures > old(m.failures)
    ensures staged.None? ==> m.files == old(m.files) && m.history == old(m.history)
    ensures staged.Some? ==> m.files == old(m.files) || m.files == old(m.files) - {staged.value}
    ensures staged.Some? && m.failures == old(m.failures) ==> m.files == old(m.files) - {staged.value}
    ensures forall i :: |old(m.history)| <= i < |m.history| ==> m.history[i] == m.files
    ensures !isOpen && staged.None? ==> (ok <==> done && !Fails(m.script, old(m.clock)))
    ensures
      !isOpen && staged.Some? ==>
        m.files == if Fails(m.script, m.After(old(m.clock))) then old(m.files) else old(m.files) - {staged.value}
  {
    ok := done;
    var closed := m.Try();
    if !closed {
      ok := false;
    }
    if isOpen {
      closed := m.Try();
      if !closed {
        ok := false;
      }
    }
    if staged.Some? {
      var removed := m.Unlink(staged.value);
      if !removed {
        ok := false;
      }
    }
  }

  lemma UnchangedElsewhere(before: Files, now: Files, temps: set<string>, name: string)
    requires SameBut(before, now, temps) && name !in temps
    ensures SameAt(before, now, name)
  {
  }

  lemma NothingChanged(files: Files, temps: set<string>)
    ensures SameBut(files, files, temps)
  {
  }

  lemma RemovingTemp(before: Files, now: Files, staged: string, temps: set<string>)
    requires SameBut(before, now, temps) && staged in temps
    ensures SameBut(before, now - {staged}, temps)
  {
    forall n | n !in temps
      ensures SameAt(before, now - {staged}, n)
    {
      assert SameAt(before, now, n);
    }
  }
}
