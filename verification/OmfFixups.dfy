/** FIXUPP records: the subrecords of the format, what they mean, and the rewriting of
    thread references into explicit ones. */
module OmfFixups {
  import opened Basics
  import opened OmfFormat

  /** A frame or target: its method, and its one-byte datum where the method has one. */
  datatype Reference = Reference(way: nat, datum: Option<Byte>)

  datatype Source = Explicit(reference: Reference) | Via(thread: nat)

  datatype Subrecord =
    | Thread(isFrame: bool, thread: nat, reference: Reference)
    | Fixup(hi: Byte, lo: Byte, frame: Source, target: Source, displacement: Option<(Byte, Byte)>)

  type Table = t: seq<Option<Reference>> | |t| == 4 witness [None, None, None, None]

  datatype Tables = Tables(frame: Table, target: Table)

  const NO_THREADS := Tables([None, None, None, None], [None, None, None, None])

  // ---- The format ----

  datatype Read<+T> = Short | Read(value: T, rest: seq<Byte>)

  function ReadDatum(present: bool, s: seq<Byte>): (r: Read<Option<Byte>>)
    ensures r.Read? ==> |r.rest| <= |s|
  {
    if !present then Read(None, s)
    else if s == [] then Short
    else Read(Some(s[0]), s[1..])
  }

  function ReadDisplacement(present: bool, s: seq<Byte>): (r: Read<Option<(Byte, Byte)>>)
    ensures r.Read? ==> |r.rest| <= |s|
  {
    if !present then Read(None, s)
    else if |s| < 2 then Short
    else Read(Some((s[0], s[1])), s[2..])
  }

  // The bit fields of the fix-data byte of a fixup subrecord.
  predicate FrameBit(fix: Byte) { fix / 128 == 1 }
  function FrameField(fix: Byte): nat { fix / 16 % 8 }
  predicate TargetBit(fix: Byte) { fix / 8 % 2 == 1 }
  predicate NoDisplacementBit(fix: Byte) { fix / 4 % 2 == 1 }
  function TargetField(fix: Byte): nat { fix % 8 }

  predicate HasFrameDatum(way: nat) { way <= 2 }
  predicate HasTargetDatum(way: nat) { way <= 6 }
  predicate HasDisplacement(way: nat) { way <= 3 }

  function ReadFrame(fix: Byte, s: seq<Byte>): (r: Read<Source>)
    ensures r.Read? ==> |r.rest| <= |s|
  {
    if FrameBit(fix) then Read(Via(FrameField(fix) % 4), s)
    else
      match ReadDatum(HasFrameDatum(FrameField(fix)), s)
      case Short => Short
      case Read(datum, rest) => Read(Explicit(Reference(FrameField(fix), datum)), rest)
  }

  function ReadTarget(fix: Byte, s: seq<Byte>): (r: Read<Source>)
    ensures r.Read? ==> |r.rest| <= |s|
  {
    if TargetBit(fix) then Read(Via(TargetField(fix) % 4), s)
    else
      match ReadDatum(HasTargetDatum(TargetField(fix)), s)
      case Short => Short
      case Read(datum, rest) => Read(Explicit(Reference(TargetField(fix), datum)), rest)
  }

  function ReadThread(s: seq<Byte>): (r: Read<Subrecord>)
    requires s != []
    ensures r.Read? ==> |r.rest| < |s|
  {
    var way := s[0] / 4 % 8;
    match ReadDatum(HasFrameDatum(way), s[1..])
    case Short => Short
    case Read(datum, rest) => Read(Thread(s[0] / 64 % 2 == 1, s[0] % 4, Reference(way, datum)), rest)
  }

  function ReadFixup(s: seq<Byte>): (r: Read<Subrecord>)
    ensures r.Read? ==> |r.rest| < |s|
  {
    if |s| < 3 then Short
    else
      match ReadFrame(s[2], s[3..])
      case Short => Short
      case Read(frame, afterFrame) =>
        match ReadTarget(s[2], afterFrame)
        case Short => Short
        case Read(target, afterTarget) =>
          match ReadDisplacement(!NoDisplacementBit(s[2]), afterTarget)
          case Short => Short
          case Read(displacement, rest) => Read(Fixup(s[0], s[1], frame, target, displacement), rest)
  }

  function ReadSubrecord(s: seq<Byte>): (r: Read<Subrecord>)
    requires s != []
    ensures r.Read? ==> |r.rest| < |s|
  {
    if s[0] >= 128 then ReadFixup(s) else ReadThread(s)
  }

  /** The subrecords of a FIXUPP payload, if it splits exactly into subrecords. */
  function Subrecords(payload: seq<Byte>): Option<seq<Subrecord>>
    decreases |payload|
  {
    if payload == [] then Some([])
    else
      match ReadSubrecord(payload)
      case Short => None
      case Read(sub, rest) =>
        match Subrecords(rest)
        case None => None
        case Some(subs) => Some([sub] + subs)
  }

  // ---- What fixups mean ----

  /** The threads defined after `sub`. */
  function Defining(tables: Tables, sub: Subrecord): Tables
  {
    if sub.Thread? && sub.thread < 4 then
      if sub.isFrame
      then tables.(frame := tables.frame[sub.thread := Some(sub.reference)])
      else tables.(target := tables.target[sub.thread := Some(sub.reference)])
    else tables
  }

  function ResolveFrame(tables: Tables, frame: Source): Option<Reference>
  {
    match frame
    case Explicit(reference) => Some(reference)
    case Via(n) => if n < 4 then tables.frame[n] else None
  }

  /** A target thread gives the method without its displacement bit, which the fixup supplies. */
  function ResolveTarget(tables: Tables, target: Source, displaced: bool): Option<Reference>
  {
    match target
    case Explicit(reference) => Some(reference)
    case Via(n) =>
      if n < 4 && tables.target[n].Some? then
        var r := tables.target[n].value;
        Some(Reference(if displaced then r.way else r.way + 4, r.datum))
      else None
  }

  /** A located fixup, or a record that is not a FIXUPP record. */
  datatype Item =
    | Plain(record: Record)
    | Located(hi: Byte, lo: Byte, frame: Option<Reference>, target: Option<Reference>,
              displacement: Option<(Byte, Byte)>)

  function Locate(tables: Tables, sub: Subrecord): Item
    requires sub.Fixup?
  {
    Located(sub.hi, sub.lo, ResolveFrame(tables, sub.frame),
            ResolveTarget(tables, sub.target, sub.displacement.Some?), sub.displacement)
  }

  datatype Reading = Reading(items: seq<Item>, tables: Tables)

  function Fixups(tables: Tables, subs: seq<Subrecord>): Reading
    decreases subs
  {
    if subs == [] then Reading([], tables)
    else
      var tail := Fixups(Defining(tables, subs[0]), subs[1..]);
      if subs[0].Fixup? then tail.(items := [Locate(tables, subs[0])] + tail.items) else tail
  }

  /** A module as a linker reads it: its records in order, with each FIXUPP record replaced by
      its fixups. Threads stay defined from one FIXUPP record to the next. */
  function Meaning(rs: seq<Record>): Reading
    requires Splits(rs)
  {
    if rs == [] then Reading([], NO_THREADS)
    else
      var before, last := Meaning(rs[..|rs| - 1]), rs[|rs| - 1];
      if last.kind != FIXUPP then before.(items := before.items + [Plain(last)])
      else
        var here := Fixups(before.tables, Subrecords(last.payload).value);
        Reading(before.items + here.items, here.tables)
  }

  predicate Splits(rs: seq<Record>)
  {
    forall i :: 0 <= i < |rs| && rs[i].kind == FIXUPP ==> Subrecords(rs[i].payload).Some?
  }

  // ---- Which references can be made explicit ----

  /** A target thread can be made explicit if its method has a datum, or if it needs none
      because the fixup is without displacement and the method is 3. */
  predicate Expandable(tables: Tables, sub: Subrecord)
  {
    sub.Fixup? && sub.target.Via? ==>
      && sub.target.thread < 4
      && tables.target[sub.target.thread].Some?
      && var way := tables.target[sub.target.thread].value.way;
         way <= 2 || (way == 3 && sub.displacement.None?)
  }

  predicate FrameDefined(tables: Tables, sub: Subrecord)
  {
    sub.Fixup? ==> ResolveFrame(tables, sub.frame).Some?
  }

  predicate AllExpandable(tables: Tables, subs: seq<Subrecord>)
    decreases subs
  {
    subs == [] || (Expandable(tables, subs[0]) && AllExpandable(Defining(tables, subs[0]), subs[1..]))
  }

  predicate FramesDefined(tables: Tables, subs: seq<Subrecord>)
    decreases subs
  {
    subs == [] || (FrameDefined(tables, subs[0]) && FramesDefined(Defining(tables, subs[0]), subs[1..]))
  }

  // ---- The rewriting, as the tool does it in one pass over the bytes ----

  // The method the tool falls back to for an undefined frame or target thread.
  const TARGET_FRAME: nat := 5
  const UNKNOWN_TARGET: nat := 4

  /** The number of bytes the tool reads for the subrecord at the front of `s`. */
  function Size(tables: Tables, s: seq<Byte>): (n: nat)
    requires s != []
    ensures n > 0
  {
    if s[0] < 128 then if HasFrameDatum(s[0] / 4 % 8) then 2 else 1
    else if |s| < 3 then 3
    else
      var fix := s[2];
      var frame := if !FrameBit(fix) && HasFrameDatum(FrameField(fix)) then 1 else 0;
      var target :=
        if !TargetBit(fix) then
          (if HasTargetDatum(TargetField(fix)) then 1 else 0) +
          (if HasDisplacement(TargetField(fix)) then 2 else 0)
        else if tables.target[TargetField(fix) % 4].Some? && !NoDisplacementBit(fix) then 2
        else 0;
      3 + frame + target
  }

  /** The frame the tool writes for the fixup subrecord at the front of `s`. */
  function WrittenFrame(tables: Tables, s: seq<Byte>): Reference
    requires s != [] && s[0] >= 128 && Size(tables, s) <= |s|
  {
    var fix := s[2];
    if FrameBit(fix) then
      match tables.frame[FrameField(fix) % 4]
      case None => Reference(TARGET_FRAME, None)
      case Some(r) => r
    else Reference(FrameField(fix), if HasFrameDatum(FrameField(fix)) then Some(s[3]) else None)
  }

  /** The position of the target fields, behind an explicit frame datum. */
  function TargetAt(fix: Byte): nat
  {
    if !FrameBit(fix) && HasFrameDatum(FrameField(fix)) then 4 else 3
  }

  function WrittenTarget(tables: Tables, s: seq<Byte>): Reference
    requires s != [] && s[0] >= 128 && Size(tables, s) <= |s|
  {
    var fix := s[2];
    if TargetBit(fix) then
      match tables.target[TargetField(fix) % 4]
      case None => Reference(UNKNOWN_TARGET, None)
      case Some(r) => Reference(if NoDisplacementBit(fix) then r.way + 4 else r.way, r.datum)
    else Reference(TargetField(fix), if HasTargetDatum(TargetField(fix)) then Some(s[TargetAt(fix)]) else None)
  }

  function WrittenDisplacement(tables: Tables, s: seq<Byte>): Option<(Byte, Byte)>
    requires s != [] && s[0] >= 128 && Size(tables, s) <= |s|
  {
    var fix, n := s[2], Size(tables, s);
    var present :=
      if TargetBit(fix) then tables.target[TargetField(fix) % 4].Some? && !NoDisplacementBit(fix)
      else HasDisplacement(TargetField(fix));
    if present then Some((s[n - 2], s[n - 1])) else None
  }

  function DatumBytes(wanted: bool, datum: Option<Byte>): seq<Byte>
  {
    if wanted && datum.Some? then [datum.value] else []
  }

  function DisplacementBytes(displacement: Option<(Byte, Byte)>): seq<Byte>
  {
    match displacement
    case None => []
    case Some((lo, hi)) => [lo, hi]
  }

  /** The bytes of a fixup with an explicit frame and target. */
  function FixupBytes(hi: Byte, lo: Byte, frame: Reference, target: Reference,
                      displacement: Option<(Byte, Byte)>): seq<Byte>
  {
    [hi, lo, frame.way % 8 * 16 + target.way % 8] +
    DatumBytes(HasFrameDatum(frame.way), frame.datum) +
    DatumBytes(HasTargetDatum(target.way), target.datum) +
    DisplacementBytes(displacement)
  }

  function Rewritten(tables: Tables, s: seq<Byte>): seq<Byte>
    requires s != [] && s[0] >= 128 && Size(tables, s) <= |s|
  {
    FixupBytes(s[0], s[1], WrittenFrame(tables, s), WrittenTarget(tables, s), WrittenDisplacement(tables, s))
  }

  function ThreadEntry(s: seq<Byte>): Reference
    requires s != [] && (HasFrameDatum(s[0] / 4 % 8) ==> |s| >= 2)
  {
    var way := s[0] / 4 % 8;
    Reference(way, if HasFrameDatum(way) then Some(s[1]) else None)
  }

  function TablesAfter(tables: Tables, s: seq<Byte>): Tables
    requires s != [] && Size(tables, s) <= |s|
  {
    if s[0] >= 128 then tables
    else if s[0] / 64 % 2 == 1 then tables.(frame := tables.frame[s[0] % 4 := Some(ThreadEntry(s))])
    else tables.(target := tables.target[s[0] % 4 := Some(ThreadEntry(s))])
  }

  /** The tool reads no byte past the end of the payload. */
  predicate InBounds(tables: Tables, s: seq<Byte>)
    decreases |s|
  {
    s == [] ||
    (Size(tables, s) <= |s| && InBounds(TablesAfter(tables, s), s[Size(tables, s)..]))
  }

  datatype Expansion = Expansion(bytes: seq<Byte>, tables: Tables, fixups: nat, expanded: nat)

  predicate ViaThread(s: seq<Byte>)
    requires |s| >= 3
  {
    FrameBit(s[2]) || TargetBit(s[2])
  }

  function Expand(tables: Tables, s: seq<Byte>): Expansion
    requires InBounds(tables, s)
    decreases |s|
  {
    if s == [] then Expansion([], tables, 0, 0)
    else
      var tail := Expand(TablesAfter(tables, s), s[Size(tables, s)..]);
      if s[0] < 128 then tail
      else
        Expansion(Rewritten(tables, s) + tail.bytes, tail.tables, tail.fixups + 1,
                  tail.expanded + if ViaThread(s) then 1 else 0)
  }

  // ---- The rewriting of a record list ----

  datatype Rewriting = Rewriting(records: seq<Record>, tables: Tables, expanded: nat, removed: nat)

  function Extended(w: Rewriting, last: Record): Rewriting
    requires last.kind == FIXUPP ==> InBounds(w.tables, last.payload)
  {
    if last.kind != FIXUPP then w.(records := w.records + [last])
    else
      var x := Expand(w.tables, last.payload);
      if x.fixups > 0
      then Rewriting(w.records + [Record(FIXUPP, x.bytes)], x.tables, w.expanded + x.expanded, w.removed)
      else Rewriting(w.records, x.tables, w.expanded + x.expanded, w.removed + 1)
  }

  predicate AllInBounds(rs: seq<Record>)
    decreases |rs|, 0
  {
    rs == [] ||
    (var front, last := rs[..|rs| - 1], rs[|rs| - 1];
     AllInBounds(front) && (last.kind == FIXUPP ==> InBounds(ExpandRecords(front).tables, last.payload)))
  }

  function ExpandRecords(rs: seq<Record>): Rewriting
    requires AllInBounds(rs)
    decreases |rs|, 1
  {
    if rs == [] then Rewriting([], NO_THREADS, 0, 0)
    else
      Extended(ExpandRecords(rs[..|rs| - 1]), rs[|rs| - 1])
  }
}
