/** The loops that rewrite FIXUPP records, with the thread tables updated in place. */
module OmfExpand {
  import opened Basics
  import opened OmfFormat
  import opened OmfBuffers
  import opened OmfFixups
  import opened OmfMeaning

  // ---- The loops of the tool ----

  /** The frame of the fixup at `idx`, and the position of its target fields. */
  method ParseFrame(payload: seq<Byte>, idx: nat, frameThreads: array<Option<Reference>>,
                    targetThreads: array<Option<Reference>>)
    returns (frame: Reference, next: nat)
    requires frameThreads.Length == 4 && targetThreads.Length == 4
    requires idx < |payload| && payload[idx] >= 128
    requires Size(Tables(frameThreads[..], targetThreads[..]), payload[idx..]) <= |payload| - idx
    ensures frame == WrittenFrame(Tables(frameThreads[..], targetThreads[..]), payload[idx..])
    ensures next == idx + TargetAt(payload[idx + 2])
  {
    var fix := payload[idx + 2];
    next := idx + 3;
    if !FrameBit(fix) {
      frame := Reference(FrameField(fix), None);
      if frame.way <= 2 {
        frame := frame.(datum := Some(payload[next]));
        next := next + 1;
      }
    } else {
      match frameThreads[FrameField(fix) % 4]
      case None => frame := Reference(TARGET_FRAME, None);
      case Some(r) => frame := r;
    }
  }

  /** The target and displacement of the fixup at `idx`, and the position behind them. */
  method ParseTarget(payload: seq<Byte>, idx: nat, at: nat, frameThreads: array<Option<Reference>>,
                     targetThreads: array<Option<Reference>>)
    returns (target: Reference, displacement: Option<(Byte, Byte)>, next: nat)
    requires frameThreads.Length == 4 && targetThreads.Length == 4
    requires idx < |payload| && payload[idx] >= 128
    requires Size(Tables(frameThreads[..], targetThreads[..]), payload[idx..]) <= |payload| - idx
    requires at == idx + TargetAt(payload[idx + 2])
    ensures target == WrittenTarget(Tables(frameThreads[..], targetThreads[..]), payload[idx..])
    ensures displacement == WrittenDisplacement(Tables(frameThreads[..], targetThreads[..]), payload[idx..])
    ensures next == idx + Size(Tables(frameThreads[..], targetThreads[..]), payload[idx..])
  {
    var fix := payload[idx + 2];
    next := at;
    target, displacement := Reference(UNKNOWN_TARGET, None), None;
    if !TargetBit(fix) {
      target := Reference(TargetField(fix), None);
      if target.way <= 6 {
        target := target.(datum := Some(payload[next]));
        next := next + 1;
      }
      if target.way <= 3 {
        displacement := Some((payload[next], payload[next + 1]));
        next := next + 2;
      }
    } else {
      match targetThreads[TargetField(fix) % 4]
      case None =>
      case Some(r) =>
        if NoDisplacementBit(fix) {
          target := Reference(r.way + 4, r.datum);
        } else {
          target := r;
          displacement := Some((payload[next], payload[next + 1]));
          next := next + 2;
        }
    }
  }

  method AppendFixup(fixups: ByteBuf, hi: Byte, lo: Byte, frame: Reference, target: Reference,
                     displacement: Option<(Byte, Byte)>)
    requires fixups.Valid()
    modifies fixups, fixups.data
    ensures fixups.Valid() && (fixups.data == old(fixups.data) || fresh(fixups.data))
    ensures fixups.Contents() == old(fixups.Contents()) + FixupBytes(hi, lo, frame, target, displacement)
  {
    hide DatumBytes;
    fixups.Append([hi, lo, frame.way % 8 * 16 + target.way % 8]);
    AppendDatum(fixups, frame.way <= 2, frame.datum);
    AppendDatum(fixups, target.way <= 6, target.datum);
    if displacement.Some? {
      fixups.Append([displacement.value.0, displacement.value.1]);
    }
  }

  method AppendDatum(fixups: ByteBuf, wanted: bool, datum: Option<Byte>)
    requires fixups.Valid()
    modifies fixups, fixups.data
    ensures fixups.Valid() && (fixups.data == old(fixups.data) || fresh(fixups.data))
    ensures fixups.Contents() == old(fixups.Contents()) + DatumBytes(wanted, datum)
  {
    if wanted && datum.Some? {
      fixups.Push(datum.value);
    }
  }

  ghost function TablesOf(frameThreads: array<Option<Reference>>, targetThreads: array<Option<Reference>>): Tables
    reads frameThreads, targetThreads
    requires frameThreads.Length == 4 && targetThreads.Length == 4
  {
    Tables(frameThreads[..], targetThreads[..])
  }

  /** The tool has dealt with `payload[..idx]`; `bytes`, `fixups` and `expanded` are its results. */
  ghost predicate ExpandedUpTo(start: Tables, payload: seq<Byte>, idx: nat, now: Tables,
                               bytes: seq<Byte>, fixups: nat, expanded: nat)
    requires InBounds(start, payload)
  {
    && idx <= |payload| && InBounds(now, payload[idx..])
    && var all, rest := Expand(start, payload), Expand(now, payload[idx..]);
       && all.bytes == bytes + rest.bytes && all.tables == rest.tables
       && all.fixups == fixups + rest.fixups && all.expanded == expanded + rest.expanded
  }

  lemma ExpandedFirst(start: Tables, payload: seq<Byte>)
    requires InBounds(start, payload)
    ensures ExpandedUpTo(start, payload, 0, start, [], 0, 0)
  {
    assert payload[0..] == payload;
  }

  lemma ExpandedNext(start: Tables, payload: seq<Byte>, idx: nat, now: Tables,
                     bytes: seq<Byte>, fixups: nat, expanded: nat)
    requires InBounds(start, payload) && ExpandedUpTo(start, payload, idx, now, bytes, fixups, expanded)
    requires idx < |payload|
    ensures Size(now, payload[idx..]) <= |payload| - idx
    ensures
      var s := payload[idx..];
      var next := idx + Size(now, s);
      if s[0] < 128 then ExpandedUpTo(start, payload, next, TablesAfter(now, s), bytes, fixups, expanded)
      else
        ExpandedUpTo(start, payload, next, now, bytes + Rewritten(now, s), fixups + 1,
                     expanded + if ViaThread(s) then 1 else 0)
  {
    hide Rewritten;
    var s := payload[idx..];
    assert s[Size(now, s)..] == payload[idx + Size(now, s)..];
  }

  lemma ExpandedLast(start: Tables, payload: seq<Byte>, now: Tables,
                     bytes: seq<Byte>, fixups: nat, expanded: nat)
    requires InBounds(start, payload)
    requires ExpandedUpTo(start, payload, |payload|, now, bytes, fixups, expanded)
    ensures Expand(start, payload) == Expansion(bytes, now, fixups, expanded)
  {
  }

  method ExpandPayload(payload: seq<Byte>, frameThreads: array<Option<Reference>>,
                       targetThreads: array<Option<Reference>>)
    returns (fixups: ByteBuf, hasFixups: bool, expanded: nat)
    requires frameThreads.Length == 4 && targetThreads.Length == 4 && frameThreads != targetThreads
    requires InBounds(TablesOf(frameThreads, targetThreads), payload)
    modifies frameThreads, targetThreads
    ensures fresh(fixups) && fresh(fixups.data) && fixups.Valid()
    ensures
      var x := Expand(old(TablesOf(frameThreads, targetThreads)), payload);
      && fixups.Contents() == x.bytes && TablesOf(frameThreads, targetThreads) == x.tables
      && hasFixups == (x.fixups > 0) && expanded == x.expanded
  {
    hide Expand;
    hide InBounds;
    hide ExpandedUpTo;
    hide Size;
    hide Rewritten;
    fixups := new ByteBuf();
    hasFixups, expanded := false, 0;
    ghost var start, count := TablesOf(frameThreads, targetThreads), 0;
    var idx := 0;
    ExpandedFirst(start, payload);
    while idx < |payload|
      invariant idx <= |payload|
      invariant fresh(fixups) && fresh(fixups.data) && fixups.Valid()
      invariant hasFixups == (count > 0)
      invariant ExpandedUpTo(start, payload, idx, TablesOf(frameThreads, targetThreads), fixups.Contents(), count, expanded)
    {
      ExpandedNext(start, payload, idx, TablesOf(frameThreads, targetThreads), fixups.Contents(), count, expanded);
      if payload[idx] >= 128 {
        hasFixups := true;
        var viaThread;
        idx, viaThread := ExpandFixup(payload, idx, frameThreads, targetThreads, fixups);
        expanded := expanded + if viaThread then 1 else 0;
        count := count + 1;
      } else {
        idx := DefineThread(payload, idx, frameThreads, targetThreads);
      }
    }
    ExpandedLast(start, payload, TablesOf(frameThreads, targetThreads), fixups.Contents(), count, expanded);
  }

  method ExpandFixup(payload: seq<Byte>, idx: nat, frameThreads: array<Option<Reference>>,
                     targetThreads: array<Option<Reference>>, fixups: ByteBuf)
    returns (next: nat, viaThread: bool)
    requires frameThreads.Length == 4 && targetThreads.Length == 4 && fixups.Valid()
    requires fixups.data as object != frameThreads && fixups.data as object != targetThreads
    requires idx < |payload| && payload[idx] >= 128
    requires Size(TablesOf(frameThreads, targetThreads), payload[idx..]) <= |payload| - idx
    modifies fixups, fixups.data
    ensures fixups.Valid() && (fixups.data == old(fixups.data) || fresh(fixups.data))
    ensures next == idx + Size(TablesOf(frameThreads, targetThreads), payload[idx..])
    ensures viaThread == ViaThread(payload[idx..])
    ensures
      fixups.Contents() ==
      old(fixups.Contents()) + Rewritten(TablesOf(frameThreads, targetThreads), payload[idx..])
  {
    hide WrittenFrame;
    hide WrittenTarget;
    hide WrittenDisplacement;
    hide FixupBytes;
    var frame, at := ParseFrame(payload, idx, frameThreads, targetThreads);
    var target, displacement;
    target, displacement, next := ParseTarget(payload, idx, at, frameThreads, targetThreads);
    AppendFixup(fixups, payload[idx], payload[idx + 1], frame, target, displacement);
    viaThread := FrameBit(payload[idx + 2]) || TargetBit(payload[idx + 2]);
  }

  /** Records the thread defined at `idx` and returns the position behind it. */
  method DefineThread(payload: seq<Byte>, idx: nat, frameThreads: array<Option<Reference>>,
                      targetThreads: array<Option<Reference>>)
    returns (next: nat)
    requires frameThreads.Length == 4 && targetThreads.Length == 4 && frameThreads != targetThreads
    requires idx < |payload| && payload[idx] < 128
    requires Size(TablesOf(frameThreads, targetThreads), payload[idx..]) <= |payload| - idx
    modifies frameThreads, targetThreads
    ensures next == idx + Size(old(TablesOf(frameThreads, targetThreads)), payload[idx..])
    ensures
      TablesOf(frameThreads, targetThreads) ==
      TablesAfter(old(TablesOf(frameThreads, targetThreads)), payload[idx..])
  {
    var way := payload[idx] / 4 % 8;
    var entry := Reference(way, None);
    next := idx + 1;
    if way <= 2 {
      entry := entry.(datum := Some(payload[next]));
      next := next + 1;
    }
    // Bit 6 set defines a frame thread; clear defines a target thread.
    if payload[idx] / 64 % 2 == 1 {
      frameThreads[payload[idx] % 4] := Some(entry);
    } else {
      targetThreads[payload[idx] % 4] := Some(entry);
    }
  }

  method ExpandFixuppThreads(records: RecordList, out: RecordList) returns (expanded: nat, removed: nat)
    requires records.Valid() && out.Valid() && out.Contents() == []
    requires records != out && records.items != out.items
    requires AllInBounds(records.Contents())
    modifies out, out.items
    ensures out.Valid() && (out.items == old(out.items) || fresh(out.items))
    ensures
      var w := ExpandRecords(records.Contents());
      out.Contents() == w.records && expanded == w.expanded && removed == w.removed
  {
    hide InBounds;
    hide Expand;
    var frameThreads := new Option<Reference>[4](_ => None);
    var targetThreads := new Option<Reference>[4](_ => None);
    assert TablesOf(frameThreads, targetThreads) == NO_THREADS;
    expanded, removed := 0, 0;
    ghost var rs := records.Contents();
    assert rs[..|rs|] == rs;
    for ri := 0 to records.count
      invariant out.Valid() && (out.items == old(out.items) || fresh(out.items))
      invariant records.Contents() == rs
      invariant AllInBounds(rs[..ri]) &&
        ExpandRecords(rs[..ri]) == Rewriting(out.Contents(), TablesOf(frameThreads, targetThreads), expanded, removed)
    {
      var rec := records.items[ri];
      BoundsOfFront(rs, ri + 1);
      assert rs[..ri + 1][..ri] == rs[..ri] && rs[..ri + 1][ri] == rec;
      if rec.kind != FIXUPP {
        out.Push(rec.kind, rec.payload);
        continue;
      }
      var fixups, hasFixups, here := ExpandPayload(rec.payload, frameThreads, targetThreads);
      expanded := expanded + here;
      if hasFixups {
        out.Push(FIXUPP, fixups.data[..fixups.len]);
      } else {
        removed := removed + 1;
      }
    }
  }

  lemma {:induction false} BoundsOfFront(rs: seq<Record>, n: nat)
    requires AllInBounds(rs) && n <= |rs|
    ensures AllInBounds(rs[..n])
  {
    if n == |rs| {
      assert rs[..n] == rs;
    } else {
      BoundsOfFront(rs[..|rs| - 1], n);
      assert rs[..|rs| - 1][..n] == rs[..n];
    }
  }
}
