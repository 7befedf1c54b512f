/** The part of the operating system that running a plan uses: host files, the private
    workspace, failing calls, and signals that arrive between calls. */
module Disk {
  import opened Basics

  // The content of a file, one character a byte.
  type Data = string
  type Files = map<string, Data>

  /** What the environment decides about one call: whether it fails or has to be tried again,
      how much it transfers, which signal arrives meanwhile (0: none), and for a tool run its
      exit status and the workspace it leaves. */
  datatype Event = Event(fails: bool, again: bool, amount: nat, signal: nat, status: nat,
                         name: string, left: Files)

  /** A tool run: its words, the workspace it finds, and its exit status. */
  datatype Run = Run(arguments: seq<string>, work: Files, status: nat)

  const SMOOTH := Event(false, false, 0, 0, 0, "", map[])
  const FAILURE := SMOOTH.(fails := true)

  /** The decision about call number `c`; behind the end of the script all goes well. */
  function EventAt(script: seq<Event>, c: nat): Event
  {
    if c < |script| then script[c] else SMOOTH
  }

  predicate Fails(script: seq<Event>, c: nat)
  {
    EventAt(script, c).fails
  }

  /** The files when `from` is renamed to `to`. */
  function Moved(files: Files, from: string, to: string): Files
    requires from in files
  {
    (files - {from})[to := files[from]]
  }

  class Machine {
    var files: Files
    var work: Files
    var hasWork: bool
    var interrupted: nat
    const script: seq<Event>
    var clock: nat
    /** The host files after every call so far. */
    ghost var history: seq<Files>
    /** The tools run so far. */
    ghost var runs: seq<Run>
    /** The workspace as it was made, or as the last tool left it. */
    ghost var left: Files
    /** How many calls the environment let fail, tools returned an error, or products were missing. */
    ghost var failures: nat
    /** The products found to exist so far. */
    ghost var verified: seq<string>

    ghost predicate Valid()
      reads this
    {
      clock <= |script| && history != [] && history[|history| - 1] == files
    }

    constructor (files: Files, script: seq<Event>)
      ensures Valid() && this.files == files && this.script == script
      ensures history == [files] && runs == [] && verified == [] && !hasWork && failures == 0
    {
      this.files, this.script := files, script;
      work, hasWork, interrupted, clock := map[], false, 0, 0;
      history, runs, verified, failures, left := [files], [], [], 0, map[];
    }

    /** The number of the call behind call number `c`. All calls behind the end of the script are
        alike and share one number. */
    function After(c: nat): nat
    {
      if c < |script| then c + 1 else c
    }

    lemma CallsInOrder(c: nat)
      ensures Fails(script, After(c)) == Fails(script, c + 1)
      ensures Fails(script, After(After(c))) == Fails(script, c + 2)
      ensures Fails(script, After(After(After(c)))) == Fails(script, c + 3)
    {
    }

    /** The next decision of the environment. */
    method Next() returns (e: Event)
      requires clock <= |script|
      modifies `clock, `interrupted
      ensures old(clock) <= clock <= |script| && clock == After(old(clock))
      ensures e.fails || e.again ==> old(clock) < clock
      ensures old(interrupted) != 0 ==> interrupted != 0
      ensures e == EventAt(script, old(clock))
    {
      e := SMOOTH;
      if clock < |script| {
        e := script[clock];
        clock := clock + 1;
      }
      if e.signal != 0 {
        interrupted := e.signal;
      }
    }

    /** A call that only succeeds or fails. */
    method Try() returns (ok: bool)
      requires clock <= |script|
      modifies `clock, `interrupted, `failures
      ensures old(clock) <= clock <= |script| && failures == old(failures) + if !ok then 1 else 0
      ensures old(interrupted) != 0 ==> interrupted != 0
      ensures clock == After(old(clock)) && (ok <==> !Fails(script, old(clock)))
    {
      var e := Next();
      ok := !e.fails;
      failures := failures + if !ok then 1 else 0;
    }

    /** A name that no file has and that is not planned as an output, if one can be made. */
    method FreshName(planned: seq<string>) returns (name: Option<string>)
      requires clock <= |script|
      modifies `clock, `interrupted, `failures
      ensures old(clock) <= clock <= |script|
      ensures old(interrupted) != 0 ==> interrupted != 0
      ensures name.Some? ==> name.value !in files && name.value !in planned
      ensures failures == old(failures) + if name.None? then 1 else 0
    {
      var e := Next();
      if e.fails || e.name in files || e.name in planned {
        failures := failures + 1;
        return None;
      }
      return Some(e.name);
    }

    method CreateExclusive(name: string) returns (ok: bool)
      requires Valid()
      modifies `files, `history, `clock, `interrupted, `failures
      ensures Valid() && old(clock) <= clock && history == old(history) + [files]
      ensures old(interrupted) != 0 ==> interrupted != 0
      ensures ok <==> !Fails(script, old(clock)) && name !in old(files)
      ensures ok ==> files == old(files)[name := []]
      ensures !ok ==> files == old(files)
      ensures failures == old(failures) + if Fails(script, old(clock)) then 1 else 0
    {
      var e := Next();
      ok := !e.fails && name !in files;
      if ok {
        files := files[name := []];
      }
      failures := failures + if e.fails then 1 else 0;
      history := history + [files];
    }

    /** Reads from workspace file `name`; 0 bytes only at its end. */
    method Read(name: string, offset: nat, limit: nat) returns (size: int, again: bool)
      requires Valid() && name in work && offset <= |work[name]| && limit > 0
      modifies `clock, `interrupted, `failures
      ensures Valid() && old(clock) <= clock
      ensures old(interrupted) != 0 ==> interrupted != 0
      ensures -1 <= size <= limit && size <= |work[name]| - offset
      ensures size == 0 ==> offset == |work[name]|
      ensures again ==> size == -1 && old(clock) < clock
      ensures failures == old(failures) + if size == -1 && !again then 1 else 0
    {
      var e := Next();
      if e.fails || e.again {
        failures := failures + if !e.again then 1 else 0;
        return -1, e.again;
      }
      var most := if |work[name]| - offset < limit then |work[name]| - offset else limit;
      size := if most == 0 then 0 else 1 + e.amount % most;
      again := false;
    }

    /** Appends a part of `bytes` to `name`. */
    method Write(name: string, bytes: Data) returns (wrote: int, again: bool)
      requires Valid() && name in files && bytes != []
      modifies `files, `history, `clock, `interrupted, `failures
      ensures Valid() && old(clock) <= clock && history == old(history) + [files]
      ensures old(interrupted) != 0 ==> interrupted != 0
      ensures -1 <= wrote <= |bytes|
      ensures wrote > 0 ==> files == old(files)[name := old(files)[name] + bytes[..wrote]]
      ensures wrote <= 0 ==> files == old(files)
      ensures again ==> wrote == -1 && old(clock) < clock
      ensures failures == old(failures) + if wrote <= 0 && !again then 1 else 0
    {
      var e := Next();
      if e.fails || e.again {
        wrote, again := -1, e.again;
      } else {
        wrote, again := e.amount % (|bytes| + 1), false;
        if wrote > 0 {
          files := files[name := files[name] + bytes[..wrote]];
        }
      }
      failures := failures + if wrote <= 0 && !again then 1 else 0;
      history := history + [files];
    }

    /** True only for an existing file. */
    method Exists(name: string) returns (found: bool)
      requires Valid()
      modifies `clock, `interrupted, `failures
      ensures Valid() && old(clock) <= clock
      ensures old(interrupted) != 0 ==> interrupted != 0
      ensures found ==> name in files
      ensures failures == old(failures) + if !found && name in files then 1 else 0
    {
      var e := Next();
      found := !e.fails && name in files;
      failures := failures + if !found && name in files then 1 else 0;
    }

    /** Renames a file; an existing file of the new name is replaced only if `replacing`. */
    method Rename(from: string, to: string, replacing: bool) returns (ok: bool)
      requires Valid() && from != to
      modifies `files, `history, `clock, `interrupted, `failures
      ensures Valid() && clock == After(old(clock)) && history == old(history) + [files]
      ensures old(interrupted) != 0 ==> interrupted != 0
      ensures ok <==> !Fails(script, old(clock)) && from in old(files) && (replacing || to !in old(files))
      ensures ok ==> files == Moved(old(files), from, to)
      ensures !ok ==> files == old(files)
      ensures failures == old(failures) + if Fails(script, old(clock)) then 1 else 0
    {
      var e := Next();
      ok := !e.fails && from in files && (replacing || to !in files);
      if ok {
        files := Moved(files, from, to);
      }
      failures := failures + if e.fails then 1 else 0;
      history := history + [files];
    }

    method Unlink(name: string) returns (ok: bool)
      requires Valid()
      modifies `files, `history, `clock, `interrupted, `failures
      ensures Valid() && clock == After(old(clock)) && history == old(history) + [files]
      ensures old(interrupted) != 0 ==> interrupted != 0
      ensures ok == !Fails(script, old(clock))
      ensures files == if ok then old(files) - {name} else old(files)
      ensures failures == old(failures) + if !ok then 1 else 0
    {
      var e := Next();
      ok := !e.fails;
      failures := failures + if !ok then 1 else 0;
      if ok {
        files := files - {name};
      }
      history := history + [files];
    }

    // ---- The workspace ----

    method MakeWorkspace() returns (ok: bool)
      requires Valid()
      modifies `work, `left, `hasWork, `clock, `interrupted, `failures
      ensures Valid() && hasWork == (ok || old(hasWork)) && failures == old(failures) + if !ok then 1 else 0
      ensures if ok then work == left == map[] else left == old(left)
      ensures old(interrupted) != 0 ==> interrupted != 0
    {
      var e := Next();
      ok := !e.fails;
      failures := failures + if !ok then 1 else 0;
      if ok {
        work, left, hasWork := map[], map[], true;
      }
    }

    method RemoveWorkspace() returns (ok: bool)
      requires Valid()
      modifies `work, `hasWork, `clock, `interrupted, `failures
      ensures Valid() && (ok ==> !hasWork) && failures == old(failures) + if !ok then 1 else 0
      ensures old(interrupted) != 0 ==> interrupted != 0
    {
      var e := Next();
      ok := !e.fails;
      failures := failures + if !ok then 1 else 0;
      if ok {
        work, hasWork := map[], false;
      }
    }

    /** Writes workspace file `name`. */
    method WriteWork(name: string, bytes: Data) returns (ok: bool)
      requires Valid()
      modifies `work, `clock, `interrupted, `failures
      ensures Valid() && old(clock) <= clock
      ensures old(interrupted) != 0 ==> interrupted != 0
      ensures ok ==> work == old(work)[name := bytes]
      ensures failures == old(failures) + if !ok then 1 else 0
    {
      var e := Next();
      ok := !e.fails;
      failures := failures + if !ok then 1 else 0;
      work := if ok then work[name := bytes] else work[name := bytes[..e.amount % (|bytes| + 1)]];
    }

    /** Runs a tool, which leaves the workspace as it likes; the host files stay as they are.
        Where signals are `forwarded`, one that has arrived decides the status. */
    method RunTool(arguments: seq<string>, forwarded: bool) returns (status: nat)
      requires Valid()
      modifies `work, `left, `runs, `clock, `interrupted, `failures
      ensures Valid() && runs == old(runs) + [Run(arguments, old(work), status)] && left == work
      ensures (old(interrupted) != 0 ==> interrupted != 0) && old(failures) <= failures
      ensures forwarded && interrupted != 0 ==> status == 128 + interrupted
      ensures status != 0 ==> failures > old(failures) || interrupted != 0
      ensures status == 0 ==> failures == old(failures)
    {
      var e := Next();
      status := if forwarded && interrupted != 0 then 128 + interrupted else if e.fails then 1 else e.status;
      failures := failures + if e.fails || e.status != 0 then 1 else 0;
      runs := runs + [Run(arguments, work, status)];
      work, left := e.left, e.left;
    }

    /** A product counts only if it exists and is not empty. */
    method VerifyProduct(name: string) returns (ok: bool)
      requires Valid()
      modifies `verified, `clock, `interrupted, `failures
      ensures Valid() && verified == old(verified) + if ok then [name] else []
      ensures old(interrupted) != 0 ==> interrupted != 0
      ensures ok ==> name in work && work[name] != []
      ensures failures == old(failures) + if !ok then 1 else 0
    {
      var e := Next();
      ok := !e.fails && name in work && work[name] != [];
      failures := failures + if !ok then 1 else 0;
      verified := verified + if ok then [name] else [];
    }
  }
}
