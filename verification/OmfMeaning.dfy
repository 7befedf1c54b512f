/** Making thread references explicit keeps what every fixup means. */
module OmfMeaning {
  import opened Basics
  import opened OmfFormat
  import opened OmfFixups

  predicate ProperReference(r: Option<Reference>)
  {
    r.Some? ==> r.value.way < 8 && (HasFrameDatum(r.value.way) <==> r.value.datum.Some?)
  }

  /** Defined threads have a datum exactly when their method has one. */
  predicate Proper(tables: Tables)
  {
    forall n :: 0 <= n < 4 ==> ProperReference(tables.frame[n]) && ProperReference(tables.target[n])
  }

  // ---- One subrecord ----

  function FrameOrFallback(tables: Tables, frame: Source): Reference
  {
    match ResolveFrame(tables, frame)
    case None => Reference(TARGET_FRAME, None)
    case Some(r) => r
  }

  /** The fixup with its threads replaced by what they stand for. */
  function Detached(tables: Tables, sub: Subrecord): Subrecord
    requires sub.Fixup? && Expandable(tables, sub)
  {
    sub.(frame := Explicit(FrameOrFallback(tables, sub.frame)),
         target := Explicit(ResolveTarget(tables, sub.target, sub.displacement.Some?).value))
  }

  /** A fixup whose fields agree with its methods, as every explicit fixup read from bytes does. */
  predicate Consistent(sub: Subrecord)
  {
    && sub.Fixup? && sub.hi >= 128 && sub.frame.Explicit? && sub.target.Explicit?
    && sub.frame.reference.way < 8 && sub.target.reference.way < 8
    && (HasFrameDatum(sub.frame.reference.way) <==> sub.frame.reference.datum.Some?)
    && (HasTargetDatum(sub.target.reference.way) <==> sub.target.reference.datum.Some?)
    && (HasDisplacement(sub.target.reference.way) <==> sub.displacement.Some?)
  }

  function Bytes(sub: Subrecord): seq<Byte>
    requires Consistent(sub)
  {
    FixupBytes(sub.hi, sub.lo, sub.frame.reference, sub.target.reference, sub.displacement)
  }

  lemma DatumBack(present: bool, datum: Option<Byte>, tail: seq<Byte>)
    requires present <==> datum.Some?
    ensures ReadDatum(present, DatumBytes(present, datum) + tail) == Read(datum, tail)
  {
  }

  lemma DisplacementBack(displacement: Option<(Byte, Byte)>, tail: seq<Byte>)
    ensures ReadDisplacement(displacement.Some?, DisplacementBytes(displacement) + tail) == Read(displacement, tail)
  {
  }

  lemma ReadsBack(sub: Subrecord, tail: seq<Byte>)
    requires Consistent(sub)
    ensures ReadSubrecord(Bytes(sub) + tail) == Read(sub, tail)
  {
    hide ReadDatum;
    hide ReadDisplacement;
    hide DatumBytes;
    hide DisplacementBytes;
    var s := Bytes(sub) + tail;
    var frame, target := sub.frame.reference, sub.target.reference;
    FixFields(frame.way, target.way);
    var fix: Byte := frame.way % 8 * 16 + target.way % 8;
    hide FrameBit;
    hide TargetBit;
    hide FrameField;
    hide TargetField;
    hide NoDisplacementBit;
    var third := DisplacementBytes(sub.displacement) + tail;
    var second := DatumBytes(HasTargetDatum(target.way), target.datum) + third;
    var first := DatumBytes(HasFrameDatum(frame.way), frame.datum) + second;
    assert s == [sub.hi, sub.lo, fix] + first && s[3..] == first && s[2] == fix;
    DatumBack(HasFrameDatum(frame.way), frame.datum, second);
    DatumBack(HasTargetDatum(target.way), target.datum, third);
    DisplacementBack(sub.displacement, tail);
  }

  lemma FixFields(frame: nat, target: nat)
    requires frame < 8 && target < 8
    ensures
      var fix := frame % 8 * 16 + target % 8;
      && !FrameBit(fix) && !TargetBit(fix) && FrameField(fix) == frame && TargetField(fix) == target
      && (NoDisplacementBit(fix) <==> !HasDisplacement(target))
  {
    var fix := frame * 16 + target;
    assert fix / 8 == 2 * frame && fix / 16 == frame && fix / 4 == 4 * frame + target / 4;
  }

  /** The one pass over the bytes takes the same step as the reader of the format. */
  lemma StepThread(tables: Tables, s: seq<Byte>)
    requires Proper(tables) && s != [] && s[0] < 128 && ReadThread(s).Read?
    ensures
      var r := ReadThread(s);
      && Size(tables, s) <= |s| && s[Size(tables, s)..] == r.rest
      && TablesAfter(tables, s) == Defining(tables, r.value)
      && Proper(TablesAfter(tables, s))
  {
  }

  lemma StepFixupSize(tables: Tables, s: seq<Byte>)
    requires s != [] && s[0] >= 128 && ReadFixup(s).Read? && Expandable(tables, ReadFixup(s).value)
    ensures Size(tables, s) <= |s| && s[Size(tables, s)..] == ReadFixup(s).rest
    ensures WrittenFrame(tables, s) == FrameOrFallback(tables, ReadFixup(s).value.frame)
    ensures WrittenDisplacement(tables, s) == ReadFixup(s).value.displacement
  {
    var fix := s[2];
    var afterFrame := ReadFrame(fix, s[3..]).rest;
    assert afterFrame == s[TargetAt(fix)..];
    var afterTarget := ReadTarget(fix, afterFrame).rest;
    var n := if !TargetBit(fix) && HasTargetDatum(TargetField(fix)) then 1 else 0;
    assert afterTarget == s[TargetAt(fix) + n..];
    DisplacementBit(fix);
    assert ReadFixup(s).rest == s[TargetAt(fix) + n + (if NoDisplacementBit(fix) then 0 else 2)..];
  }

  lemma DisplacementBit(fix: Byte)
    ensures HasDisplacement(TargetField(fix)) <==> !NoDisplacementBit(fix)
  {
  }

  lemma StepFixup(tables: Tables, s: seq<Byte>)
    requires Proper(tables) && s != [] && s[0] >= 128 && ReadFixup(s).Read?
    requires Expandable(tables, ReadFixup(s).value)
    ensures
      var r := ReadFixup(s);
      && Size(tables, s) <= |s| && s[Size(tables, s)..] == r.rest
      && Consistent(Detached(tables, r.value))
      && Rewritten(tables, s) == Bytes(Detached(tables, r.value))
  {
    StepFixupSize(tables, s);
    var sub := ReadFixup(s).value;
    var fix := s[2];
    DisplacementBit(fix);
    assert ReadFrame(fix, s[3..]).rest == s[TargetAt(fix)..];
    assert WrittenTarget(tables, s) == Detached(tables, sub).target.reference;
  }

  // ---- One FIXUPP record ----

  function DetachedAll(tables: Tables, subs: seq<Subrecord>): seq<Subrecord>
    requires AllExpandable(tables, subs)
    decreases subs
  {
    if subs == [] then []
    else
      var tail := DetachedAll(Defining(tables, subs[0]), subs[1..]);
      if subs[0].Fixup? then [Detached(tables, subs[0])] + tail else tail
  }

  lemma {:induction false} ExpandReadsBack(tables: Tables, s: seq<Byte>)
    requires Proper(tables) && Subrecords(s).Some? && AllExpandable(tables, Subrecords(s).value)
    ensures InBounds(tables, s)
    ensures
      var subs, x := Subrecords(s).value, Expand(tables, s);
      && x.tables == Fixups(tables, subs).tables && Proper(x.tables)
      && Subrecords(x.bytes) == Some(DetachedAll(tables, subs))
      && x.fixups == |DetachedAll(tables, subs)|
    decreases |s|
  {
    if s != [] {
      var r := ReadSubrecord(s);
      var subs := Subrecords(s).value;
      assert subs[0] == r.value && subs[1..] == Subrecords(r.rest).value;
      if s[0] >= 128 {
        StepFixup(tables, s);
        ExpandReadsBack(tables, r.rest);
        SubrecordsCons(Detached(tables, r.value), Expand(tables, r.rest).bytes);
      } else {
        StepThread(tables, s);
        ExpandReadsBack(TablesAfter(tables, s), r.rest);
      }
    }
  }

  lemma SubrecordsCons(sub: Subrecord, tail: seq<Byte>)
    requires Consistent(sub) && Subrecords(tail).Some?
    ensures Subrecords(Bytes(sub) + tail) == Some([sub] + Subrecords(tail).value)
  {
    ReadsBack(sub, tail);
  }

  /** Under any thread tables, the detached fixups mean what the original ones mean exactly
      when the frame threads used are defined. */
  lemma {:induction false} DetachedMeansTheSame(tables: Tables, subs: seq<Subrecord>, others: Tables)
    requires AllExpandable(tables, subs)
    ensures
      var before, after := Fixups(tables, subs), Fixups(others, DetachedAll(tables, subs));
      && after.tables == others
      && |after.items| == |before.items|
      && (after.items == before.items <==> FramesDefined(tables, subs))
    decreases subs
  {
    if subs != [] {
      DetachedMeansTheSame(Defining(tables, subs[0]), subs[1..], others);
      if subs[0].Fixup? {
        var d := Detached(tables, subs[0]);
        var all := DetachedAll(tables, subs);
        assert all[0] == d && all[1..] == DetachedAll(Defining(tables, subs[0]), subs[1..]);
        var before, after := Fixups(tables, subs).items, Fixups(others, all).items;
        assert after[0] == before[0] <==> FrameDefined(tables, subs[0]);
        assert before == [before[0]] + before[1..] && after == [after[0]] + after[1..];
      }
    }
  }

  // ---- The expanded form ----

  /** Every subrecord is a fixup with an explicit frame and target; there is no thread. */
  predicate AllExplicit(s: seq<Byte>)
    decreases |s|
  {
    s == [] ||
    (s[0] >= 128 && Size(NO_THREADS, s) <= |s| && !ViaThread(s) && AllExplicit(s[Size(NO_THREADS, s)..]))
  }

  lemma AllExplicitCons(sub: Subrecord, tail: seq<Byte>)
    requires Consistent(sub) && AllExplicit(tail)
    ensures AllExplicit(Bytes(sub) + tail)
  {
    var s := Bytes(sub) + tail;
    ReadsBack(sub, tail);
    FixFields(sub.frame.reference.way, sub.target.reference.way);
    StepFixupSize(NO_THREADS, s);
    assert s[Size(NO_THREADS, s)..] == tail;
  }

  lemma {:induction false} ExpandIsExplicit(tables: Tables, s: seq<Byte>)
    requires Proper(tables) && Subrecords(s).Some? && AllExpandable(tables, Subrecords(s).value)
    ensures InBounds(tables, s) && AllExplicit(Expand(tables, s).bytes)
    decreases |s|
  {
    if s != [] {
      var r := ReadSubrecord(s);
      var subs := Subrecords(s).value;
      assert subs[0] == r.value && subs[1..] == Subrecords(r.rest).value;
      if s[0] >= 128 {
        StepFixup(tables, s);
        ExpandIsExplicit(tables, r.rest);
        AllExplicitCons(Detached(tables, r.value), Expand(tables, r.rest).bytes);
      } else {
        StepThread(tables, s);
        ExpandIsExplicit(TablesAfter(tables, s), r.rest);
      }
    }
  }

  /** Expanding the explicit form again changes nothing. */
  lemma {:induction false} ExplicitIsFixed(tables: Tables, s: seq<Byte>)
    requires AllExplicit(s)
    ensures InBounds(tables, s)
    ensures
      var x := Expand(tables, s);
      x.bytes == s && x.tables == tables && x.expanded == 0 && (x.fixups == 0 <==> s == [])
    decreases |s|
  {
    hide Rewritten;
    if s != [] {
      SizeWithoutThreads(tables, s);
      hide Size;
      var n := Size(tables, s);
      ExplicitIsFixed(tables, s[n..]);
      RewritesToItself(tables, s);
      assert s == s[..n] + s[n..];
    }
  }

  lemma SizeWithoutThreads(tables: Tables, s: seq<Byte>)
    requires s != [] && s[0] >= 128 && Size(NO_THREADS, s) <= |s| && !ViaThread(s)
    ensures Size(tables, s) == Size(NO_THREADS, s) >= 3
  {
  }

  lemma RewritesToItself(tables: Tables, s: seq<Byte>)
    requires s != [] && s[0] >= 128 && Size(tables, s) <= |s| && !ViaThread(s)
    ensures Rewritten(tables, s) == s[..Size(tables, s)]
  {
    var fix, n := s[2], Size(tables, s);
    FixFromFields(fix);
    hide FrameBit;
    hide TargetBit;
    hide FrameField;
    hide TargetField;
    var frame := DatumBytes(HasFrameDatum(FrameField(fix)), WrittenFrame(tables, s).datum);
    var target := DatumBytes(HasTargetDatum(TargetField(fix)), WrittenTarget(tables, s).datum);
    var at := TargetAt(fix);
    assert frame == s[3..at];
    assert target == s[at..at + |target|];
    assert DisplacementBytes(WrittenDisplacement(tables, s)) == s[at + |target|..n];
    assert s[..n] == s[..3] + s[3..at] + s[at..at + |target|] + s[at + |target|..n];
  }

  lemma FixFromFields(fix: Byte)
    requires !FrameBit(fix) && !TargetBit(fix)
    ensures fix == FrameField(fix) % 8 * 16 + TargetField(fix) % 8
  {
    var frame, rest := fix / 16, fix % 16;
    assert fix == 16 * frame + rest && frame < 8 && frame % 8 == frame;
    assert fix / 8 == 2 * frame + rest / 8 && rest < 8 && fix % 8 == rest;
  }

  /** The expanded payload is at most five thirds as long. */
  lemma {:induction false} ExpandGrowsLittle(tables: Tables, s: seq<Byte>)
    requires InBounds(tables, s)
    ensures 3 * |Expand(tables, s).bytes| <= 5 * |s|
    decreases |s|
  {
    if s != [] {
      ExpandGrowsLittle(TablesAfter(tables, s), s[Size(tables, s)..]);
      if s[0] >= 128 {
        RewrittenGrowsLittle(tables, s);
      }
    }
  }

  lemma RewrittenGrowsLittle(tables: Tables, s: seq<Byte>)
    requires s != [] && s[0] >= 128 && Size(tables, s) <= |s|
    ensures 3 * |Rewritten(tables, s)| <= 5 * Size(tables, s)
  {
  }

  // ---- Which fixups survive ----

  /** The number of bytes that the format assigns to a fixup subrecord. */
  function FixupSize(fix: Byte): nat
  {
    3 + (if !FrameBit(fix) && HasFrameDatum(FrameField(fix)) then 1 else 0)
      + (if !TargetBit(fix) && HasTargetDatum(TargetField(fix)) then 1 else 0)
      + (if NoDisplacementBit(fix) then 0 else 2)
  }

  lemma ReadsFixupSize(s: seq<Byte>)
    requires ReadFixup(s).Read?
    ensures |ReadFixup(s).rest| + FixupSize(s[2]) == |s|
  {
  }

  /** The target is explicit, or it comes from a defined thread with a method below 3, or from
      one of method 3 for a fixup without displacement. */
  predicate Rewritable(tables: Tables, fix: Byte)
  {
    var thread := tables.target[TargetField(fix) % 4];
    TargetBit(fix) ==>
      thread.Some? && (thread.value.way <= 2 || (thread.value.way == 3 && NoDisplacementBit(fix)))
  }

  lemma RewritableSurvives(tables: Tables, s: seq<Byte>, tail: seq<Byte>)
    requires Proper(tables) && s != [] && s[0] >= 128 && Size(tables, s) <= |s| && Rewritable(tables, s[2])
    ensures
      var r := ReadSubrecord(Rewritten(tables, s) + tail);
      r.Read? && r.rest == tail
  {
    hide ReadSubrecord;
    DisplacementBit(s[2]);
    var sub := Fixup(s[0], s[1], Explicit(WrittenFrame(tables, s)), Explicit(WrittenTarget(tables, s)),
                     WrittenDisplacement(tables, s));
    assert Consistent(sub);
    ReadsBack(sub, tail);
  }

  lemma LengthOfBytes(s: seq<Byte>, frame: Reference, target: Reference, displacement: Option<(Byte, Byte)>)
    requires |s| >= 2 && frame.way < 8 && (HasFrameDatum(frame.way) <==> frame.datum.Some?)
    ensures
      var w := FixupBytes(s[0], s[1], frame, target, displacement);
      FixupSize(w[2]) == |w| <==>
        (if HasTargetDatum(target.way % 8) then 1 else 0) + (if HasDisplacement(target.way % 8) then 2 else 0) ==
        |DatumBytes(HasTargetDatum(target.way), target.datum)| + |DisplacementBytes(displacement)|
  {
    hide FrameBit;
    hide TargetBit;
    hide FrameField;
    hide TargetField;
    hide NoDisplacementBit;
    FixFields(frame.way, target.way % 8);
    var w := FixupBytes(s[0], s[1], frame, target, displacement);
    assert w[2] == frame.way % 8 * 16 + target.way % 8 % 8;
  }

  lemma OtherLengthDiffers(tables: Tables, s: seq<Byte>)
    requires Proper(tables) && s != [] && s[0] >= 128 && Size(tables, s) <= |s| && !Rewritable(tables, s[2])
    ensures var w := Rewritten(tables, s); FixupSize(w[2]) != |w|
  {
    hide FixupBytes;
    hide FixupSize;
    LengthOfBytes(s, WrittenFrame(tables, s), WrittenTarget(tables, s), WrittenDisplacement(tables, s));
  }

  /** Read at the front of any bytes, the rewritten fixup ends where it should exactly when it
      is rewritable. */
  lemma SurvivesExactly(tables: Tables, s: seq<Byte>, tail: seq<Byte>)
    requires Proper(tables) && s != [] && s[0] >= 128 && Size(tables, s) <= |s|
    ensures
      var r := ReadSubrecord(Rewritten(tables, s) + tail);
      (r.Read? && r.rest == tail) <==> Rewritable(tables, s[2])
  {
    if Rewritable(tables, s[2]) {
      RewritableSurvives(tables, s, tail);
    } else {
      OtherLengthDiffers(tables, s);
      var w := Rewritten(tables, s);
      if ReadFixup(w + tail).Read? {
        ReadsFixupSize(w + tail);
      }
    }
  }

  // ---- Fixups that cannot be made explicit ----

  /** What is read where the target of a fixup cannot be made explicit never means that fixup. */
  lemma UnusableDiffers(tables: Tables, s: seq<Byte>, tail: seq<Byte>, others: Tables)
    requires Proper(tables) && s != [] && s[0] >= 128 && ReadFixup(s).Read?
    requires !Expandable(tables, ReadFixup(s).value) && Size(tables, s) <= |s|
    requires ReadSubrecord(Rewritten(tables, s) + tail).Read?
    ensures
      var sub := ReadSubrecord(Rewritten(tables, s) + tail).value;
      sub.Fixup? && Locate(others, sub) != Locate(tables, ReadFixup(s).value)
  {
    assert |s| >= 3;
    hide FixupBytes;
    hide Size;
    hide Proper;
    hide ReadFixup;
    hide WrittenFrame;
    hide WrittenTarget;
    hide WrittenDisplacement;
    hide ResolveTarget;
    hide Expandable;
    hide Locate;
    hide FrameBit;
    hide TargetBit;
    hide FrameField;
    hide TargetField;
    hide NoDisplacementBit;
    var target, w := WrittenTarget(tables, s), Rewritten(tables, s);
    UnusableTarget(tables, s);
    WrittenIsExplicit(s, WrittenFrame(tables, s), target, WrittenDisplacement(tables, s));
    assert (w + tail)[0] == w[0] && (w + tail)[2] == w[2];
    ReadsExplicit(w + tail, target.way % 8);
    LocatedDiffers(others, ReadSubrecord(w + tail).value, tables, ReadFixup(s).value);
  }

  lemma LocatedDiffers(others: Tables, sub: Subrecord, tables: Tables, meant: Subrecord)
    requires sub.Fixup? && meant.Fixup? && sub.target.Explicit?
    requires ResolveTarget(tables, meant.target, meant.displacement.Some?) != Some(sub.target.reference) ||
      sub.displacement != meant.displacement
    ensures Locate(others, sub) != Locate(tables, meant)
  {
  }

  /** How a fixup with an explicit target is read. */
  lemma ReadsExplicit(s: seq<Byte>, way: nat)
    requires |s| >= 3 && ReadFixup(s).Read? && !TargetBit(s[2]) && TargetField(s[2]) == way < 8
    requires NoDisplacementBit(s[2]) <==> !HasDisplacement(way)
    ensures
      var sub := ReadFixup(s).value;
      && sub.Fixup? && sub.target.Explicit? && sub.target.reference.way == way
      && (HasTargetDatum(way) ==> sub.target.reference.datum.Some?)
      && (sub.displacement.Some? <==> HasDisplacement(way))
  {
    hide FrameBit;
    hide FrameField;
  }

  lemma WrittenIsExplicit(s: seq<Byte>, frame: Reference, target: Reference, displacement: Option<(Byte, Byte)>)
    requires |s| >= 2 && frame.way < 8
    ensures
      var w := FixupBytes(s[0], s[1], frame, target, displacement);
      && |w| >= 3 && w[0] == s[0] && !TargetBit(w[2]) && TargetField(w[2]) == target.way % 8
      && (NoDisplacementBit(w[2]) <==> !HasDisplacement(target.way % 8))
  {
    FixFields(frame.way, target.way % 8);
    hide FrameBit;
    hide TargetBit;
    hide FrameField;
    hide TargetField;
    hide NoDisplacementBit;
    var w := FixupBytes(s[0], s[1], frame, target, displacement);
    assert w[2] == frame.way % 8 * 16 + target.way % 8 % 8;
  }

  /** An unusable target: no thread, or a method that does not fit the bits it is written in, or a
      method that is read with a datum or without a displacement. */
  lemma UnusableTarget(tables: Tables, s: seq<Byte>)
    requires Proper(tables) && s != [] && s[0] >= 128 && ReadFixup(s).Read?
    requires !Expandable(tables, ReadFixup(s).value) && Size(tables, s) <= |s|
    ensures
      var sub, target := ReadFixup(s).value, WrittenTarget(tables, s);
      var meant := ResolveTarget(tables, sub.target, sub.displacement.Some?);
      && WrittenFrame(tables, s).way < 8
      && (meant.None? ||
          (meant.value == target && target.datum.None? &&
           (target.way >= 8 || HasTargetDatum(target.way) || (target.way == 7 && sub.displacement.Some?))))
  {
  }

  ghost predicate Differ(a: seq<Item>, b: seq<Item>)
  {
    exists j :: 0 <= j < |a| && j < |b| && a[j] != b[j]
  }

  /** So the expansion of a record with such a fixup means something else, if it can be read. */
  lemma {:induction false} UnusablePayloadDiffers(tables: Tables, s: seq<Byte>, others: Tables)
    requires Proper(tables) && Subrecords(s).Some? && InBounds(tables, s)
    requires !AllExpandable(tables, Subrecords(s).value)
    ensures Expand(tables, s).fixups > 0
    ensures
      var x := Expand(tables, s);
      Subrecords(x.bytes).Some? ==>
        Differ(Fixups(others, Subrecords(x.bytes).value).items, Fixups(tables, Subrecords(s).value).items)
    decreases |s|
  {
    var r := ReadSubrecord(s);
    var subs := Subrecords(s).value;
    assert subs[0] == r.value && subs[1..] == Subrecords(r.rest).value;
    var x := Expand(tables, s);
    if s[0] < 128 {
      StepThread(tables, s);
      UnusablePayloadDiffers(TablesAfter(tables, s), r.rest, others);
    } else if Expandable(tables, r.value) {
      StepFixup(tables, s);
      UnusablePayloadDiffers(tables, r.rest, others);
      var tail := Expand(tables, r.rest).bytes;
      ReadsBack(Detached(tables, r.value), tail);
      if Subrecords(x.bytes).Some? {
        FirstOfMore(others, tables, Detached(tables, r.value), Subrecords(tail).value, subs);
      }
    } else if Subrecords(x.bytes).Some? {
      var tail := Expand(TablesAfter(tables, s), s[Size(tables, s)..]).bytes;
      UnusableDiffers(tables, s, tail, others);
      var read := Subrecords(x.bytes).value;
      assert Fixups(others, read).items[0] != Fixups(tables, subs).items[0];
    }
  }

  lemma FirstOfMore(others: Tables, tables: Tables, first: Subrecord, tail: seq<Subrecord>, subs: seq<Subrecord>)
    requires first.Fixup? && subs != [] && subs[0].Fixup?
    requires Differ(Fixups(others, tail).items, Fixups(tables, subs[1..]).items)
    ensures Differ(Fixups(others, [first] + tail).items, Fixups(tables, subs).items)
  {
    var a, b := Fixups(others, tail).items, Fixups(tables, subs[1..]).items;
    var j :| 0 <= j < |a| && j < |b| && a[j] != b[j];
    assert ([first] + tail)[1..] == tail;
    assert Fixups(others, [first] + tail).items[j + 1] == a[j] && Fixups(tables, subs).items[j + 1] == b[j];
  }
}
