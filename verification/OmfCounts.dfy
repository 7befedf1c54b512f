/** What the tool counts, in terms of the fixups that the records hold. */
module OmfCounts {
  import opened Basics
  import opened OmfFormat
  import opened OmfFixups
  import opened OmfMeaning

  // ---- When the tool keeps step with the format ----

  /** A target thread that is used with a displacement must be defined: for an undefined one the tool
      does not pass over the displacement. */
  predicate Passed(tables: Tables, sub: Subrecord)
  {
    sub.Fixup? && sub.target.Via? && sub.displacement.Some? ==>
      sub.target.thread < 4 && tables.target[sub.target.thread].Some?
  }

  predicate AllPassed(tables: Tables, subs: seq<Subrecord>)
    decreases subs
  {
    subs == [] || (Passed(tables, subs[0]) && AllPassed(Defining(tables, subs[0]), subs[1..]))
  }

  /** The tool finds the subrecords of all FIXUPP records where they are. */
  predicate InStep(rs: seq<Record>)
  {
    Splits(rs) &&
    (rs == [] ||
     (var front, last := rs[..|rs| - 1], rs[|rs| - 1];
      && InStep(front)
      && (last.kind == FIXUPP ==> AllPassed(Meaning(front).tables, Subrecords(last.payload).value))))
  }

  // ---- One FIXUPP record ----

  /** How many subrecords are fixups, and how many of these use a thread. */
  function FixupCount(subs: seq<Subrecord>): nat
  {
    if subs == [] then 0 else (if subs[0].Fixup? then 1 else 0) + FixupCount(subs[1..])
  }

  predicate UsesThread(sub: Subrecord)
  {
    sub.Fixup? && (sub.frame.Via? || sub.target.Via?)
  }

  function ThreadUses(subs: seq<Subrecord>): nat
  {
    if subs == [] then 0 else (if UsesThread(subs[0]) then 1 else 0) + ThreadUses(subs[1..])
  }

  lemma PassedStep(tables: Tables, s: seq<Byte>)
    requires s != [] && ReadSubrecord(s).Read? && Passed(tables, ReadSubrecord(s).value)
    ensures
      var r := ReadSubrecord(s);
      && Size(tables, s) <= |s| && s[Size(tables, s)..] == r.rest && TablesAfter(tables, s) == Defining(tables, r.value)
      && (s[0] >= 128 <==> r.value.Fixup?) && (s[0] < 128 ==> !UsesThread(r.value))
      && (s[0] >= 128 ==> |s| >= 3 && (ViaThread(s) <==> UsesThread(r.value)))
  {
    if s[0] >= 128 {
      FixupStep(tables, s);
    }
  }

  lemma FixupStep(tables: Tables, s: seq<Byte>)
    requires s != [] && s[0] >= 128 && ReadFixup(s).Read? && Passed(tables, ReadFixup(s).value)
    ensures Size(tables, s) <= |s| && s[Size(tables, s)..] == ReadFixup(s).rest
  {
    var fix := s[2];
    var afterFrame := ReadFrame(fix, s[3..]).rest;
    assert afterFrame == s[TargetAt(fix)..];
    var afterTarget := ReadTarget(fix, afterFrame).rest;
    var n := if !TargetBit(fix) && HasTargetDatum(TargetField(fix)) then 1 else 0;
    assert afterTarget == s[TargetAt(fix) + n..];
    DisplacementBit(fix);
    assert ReadFixup(s).rest == s[TargetAt(fix) + n + (if NoDisplacementBit(fix) then 0 else 2)..];
  }

  lemma {:induction false} ExpandCounts(tables: Tables, s: seq<Byte>)
    requires Subrecords(s).Some? && AllPassed(tables, Subrecords(s).value)
    ensures InBounds(tables, s)
    ensures
      var subs, x := Subrecords(s).value, Expand(tables, s);
      x.tables == Fixups(tables, subs).tables && x.fixups == FixupCount(subs) && x.expanded == ThreadUses(subs)
    decreases |s|
  {
    hide Rewritten;
    hide Size;
    hide ViaThread;
    hide UsesThread;
    if s != [] {
      var r := ReadSubrecord(s);
      var subs := Subrecords(s).value;
      assert subs[0] == r.value && subs[1..] == Subrecords(r.rest).value;
      PassedStep(tables, s);
      ExpandCounts(Defining(tables, r.value), r.rest);
    }
  }

  // ---- A record list ----

  /** How many fixups of the records use a thread. */
  function AllThreadUses(rs: seq<Record>): nat
    requires Splits(rs)
  {
    if rs == [] then 0
    else
      var last := rs[|rs| - 1];
      AllThreadUses(rs[..|rs| - 1]) + if last.kind == FIXUPP then ThreadUses(Subrecords(last.payload).value) else 0
  }

  /** A FIXUPP record without any fixup. */
  predicate OnlyThreads(r: Record)
  {
    r.kind == FIXUPP && Subrecords(r.payload).Some? && forall sub :: sub in Subrecords(r.payload).value ==> !sub.Fixup?
  }

  function ThreadRecords(rs: seq<Record>): nat
  {
    if rs == [] then 0
    else ThreadRecords(rs[..|rs| - 1]) + if OnlyThreads(rs[|rs| - 1]) then 1 else 0
  }

  lemma {:induction false} NoFixups(subs: seq<Subrecord>)
    ensures FixupCount(subs) == 0 <==> forall sub :: sub in subs ==> !sub.Fixup?
  {
    if subs != [] {
      NoFixups(subs[1..]);
      assert subs == [subs[0]] + subs[1..];
      assert forall sub :: sub in subs <==> sub == subs[0] || sub in subs[1..];
    }
  }

  /** Where the tool keeps step, it expands every fixup that uses a thread and drops every FIXUPP record
      that holds no fixup, and it counts them. */
  lemma {:induction false} ExpansionCounts(rs: seq<Record>)
    requires InStep(rs)
    ensures AllInBounds(rs)
    ensures
      var w := ExpandRecords(rs);
      w.tables == Meaning(rs).tables && w.expanded == AllThreadUses(rs) && w.removed == ThreadRecords(rs)
  {
    hide Subrecords;
    hide Fixups;
    hide Expand;
    hide InBounds;
    hide AllPassed;
    if rs != [] {
      var front, last := rs[..|rs| - 1], rs[|rs| - 1];
      ExpansionCounts(front);
      if last.kind == FIXUPP {
        ExpandCounts(ExpandRecords(front).tables, last.payload);
        NoFixups(Subrecords(last.payload).value);
      }
    }
  }

  /** The counts depend on the FIXUPP records alone. */
  lemma {:induction false} SameCounts(rs: seq<Record>, gs: seq<Record>)
    requires |rs| == |gs| && InStep(rs)
    requires forall i :: 0 <= i < |rs| ==> gs[i].kind == rs[i].kind && (rs[i].kind == FIXUPP ==> gs[i] == rs[i])
    ensures InStep(gs) && Meaning(gs).tables == Meaning(rs).tables
    ensures AllThreadUses(gs) == AllThreadUses(rs) && ThreadRecords(gs) == ThreadRecords(rs)
  {
    hide Subrecords;
    hide Fixups;
    hide AllPassed;
    if rs != [] {
      SameCounts(rs[..|rs| - 1], gs[..|gs| - 1]);
    }
  }
}
