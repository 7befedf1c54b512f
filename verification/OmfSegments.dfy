/** Growing SEGDEF lengths until they cover the data that LEDATA records place in the segments. */
module OmfSegments {
  import opened Basics
  import opened OmfFormat
  import opened OmfBuffers

  const SEGMENTS := 256

  /** LEDATA and SEGDEF payloads are read at fixed offsets 0 to 2. */
  predicate FixedFieldsPresent(rs: seq<Record>)
  {
    forall i :: 0 <= i < |rs| && rs[i].kind in {LEDATA, SEGDEF} ==> |rs[i].payload| >= 3
  }

  // ---- What the data requires ----

  /** One past the last byte that LEDATA record `r` writes in its segment. */
  function DataEnd(r: Record): nat
    requires |r.payload| >= 3
  {
    Word(r.payload[1], r.payload[2]) + |r.payload| - 3
  }

  /** The offset is little-endian, and the data stands behind it. */
  lemma DataEndsAt(segment: Byte, lo: Byte, hi: Byte, data: seq<Byte>)
    ensures DataEnd(Record(LEDATA, [segment, lo, hi] + data)) == lo + 0x100 * hi + |data|
  {
  }

  predicate PlacesDataIn(r: Record, segment: nat)
  {
    r.kind == LEDATA && |r.payload| >= 3 && r.payload[0] == segment
  }

  /** The extent that the scan finds for `segment`: -1 when no data was seen. */
  function Extent(rs: seq<Record>, segment: nat): (e: int)
    ensures e >= -1
  {
    if rs == [] then -1
    else
      var e := Extent(rs[..|rs| - 1], segment);
      var r := rs[|rs| - 1];
      if PlacesDataIn(r, segment) && (e < 0 || DataEnd(r) > e) then DataEnd(r) else e
  }

  /** The extent is the least number that no data record of the segment passes. */
  lemma {:induction false} ExtentIsMaximum(rs: seq<Record>, segment: nat)
    ensures forall i :: 0 <= i < |rs| && PlacesDataIn(rs[i], segment) ==> DataEnd(rs[i]) <= Extent(rs, segment)
    ensures
      Extent(rs, segment) >= 0 ==>
        exists i :: 0 <= i < |rs| && PlacesDataIn(rs[i], segment) && DataEnd(rs[i]) == Extent(rs, segment)
  {
    if rs != [] {
      var front, last := rs[..|rs| - 1], rs[|rs| - 1];
      ExtentIsMaximum(front, segment);
      assert forall i :: 0 <= i < |front| ==> rs[i] == front[i];
      if PlacesDataIn(last, segment) && (Extent(front, segment) < 0 || DataEnd(last) > Extent(front, segment)) {
        assert rs[|rs| - 1] == last;
      } else if Extent(front, segment) >= 0 {
        var i :| 0 <= i < |front| && PlacesDataIn(front[i], segment) && DataEnd(front[i]) == Extent(front, segment);
        assert rs[i] == front[i];
      }
    }
  }

  // ---- The patch ----

  /** How many SEGDEF records there are in `rs`. */
  function SegdefCount(rs: seq<Record>): nat
  {
    if rs == [] then 0
    else SegdefCount(rs[..|rs| - 1]) + if rs[|rs| - 1].kind == SEGDEF then 1 else 0
  }

  function Length(r: Record): (w: nat)
    requires |r.payload| >= 3
    ensures w < 0x1_0000
  {
    Word(r.payload[1], r.payload[2])
  }

  function WithLength(r: Record, length: nat): Record
    requires |r.payload| >= 3
  {
    r.(payload := r.payload[1 := length % 256][2 := length / 256 % 256])
  }

  /** The length wanted for the SEGDEF with 1-based number `number`, before it is cut to 16 bits. */
  function Wanted(r: Record, number: nat, sizes: seq<int>): nat
    requires |r.payload| >= 3 && |sizes| == SEGMENTS
  {
    if number < SEGMENTS && sizes[number] > Length(r) then sizes[number] else Length(r)
  }

  function PatchRecord(r: Record, number: nat, sizes: seq<int>): Record
    requires |sizes| == SEGMENTS
    requires r.kind == SEGDEF ==> |r.payload| >= 3
  {
    if r.kind == SEGDEF && Wanted(r, number, sizes) != Length(r)
    then WithLength(r, Wanted(r, number, sizes))
    else r
  }

  predicate Patches(r: Record, number: nat, sizes: seq<int>)
    requires |sizes| == SEGMENTS
    requires r.kind == SEGDEF ==> |r.payload| >= 3
  {
    r.kind == SEGDEF && Wanted(r, number, sizes) != Length(r)
  }

  function Patch(rs: seq<Record>, sizes: seq<int>): (ps: seq<Record>)
    requires FixedFieldsPresent(rs) && |sizes| == SEGMENTS
    ensures |ps| == |rs|
  {
    if rs == [] then []
    else
      var last := rs[|rs| - 1];
      Patch(rs[..|rs| - 1], sizes) + [PatchRecord(last, SegdefCount(rs), sizes)]
  }

  function PatchCount(rs: seq<Record>, sizes: seq<int>): nat
    requires FixedFieldsPresent(rs) && |sizes| == SEGMENTS
  {
    if rs == [] then 0
    else
      PatchCount(rs[..|rs| - 1], sizes) + if Patches(rs[|rs| - 1], SegdefCount(rs), sizes) then 1 else 0
  }

  function Extents(rs: seq<Record>): (sizes: seq<int>)
    ensures |sizes| == SEGMENTS
  {
    seq(SEGMENTS, segment requires 0 <= segment => Extent(rs, segment))
  }

  /** The list with every SEGDEF length patched. */
  function Grown(rs: seq<Record>): seq<Record>
    requires FixedFieldsPresent(rs)
  {
    Patch(rs, Extents(rs))
  }

  function GrownCount(rs: seq<Record>): nat
    requires FixedFieldsPresent(rs)
  {
    PatchCount(rs, Extents(rs))
  }

  // ---- The loops of the tool ----

  method ComputeSegSizes(records: RecordList) returns (sizes: array<int>)
    requires records.Valid() && FixedFieldsPresent(records.Contents())
    ensures fresh(sizes) && sizes[..] == Extents(records.Contents())
  {
    sizes := new int[SEGMENTS](_ => -1);
    ghost var rs := records.Contents();
    for i := 0 to records.count
      invariant sizes.Length == SEGMENTS
      invariant forall segment: nat :: segment < SEGMENTS ==> sizes[segment] == Extent(rs[..i], segment)
    {
      var r := records.items[i];
      assert r == rs[i] && rs[..i + 1][..i] == rs[..i];
      if r.kind != LEDATA {
        continue;
      }
      var segment := r.payload[0];
      var end := Word(r.payload[1], r.payload[2]) + (|r.payload| - 3);
      if sizes[segment] < 0 || end > sizes[segment] {
        sizes[segment] := end;
      }
    }
    assert rs[..records.count] == rs;
  }

  lemma PatchNothing(sizes: seq<int>)
    requires |sizes| == SEGMENTS
    ensures Patch([], sizes) == [] && PatchCount([], sizes) == 0 && SegdefCount([]) == 0
  {
  }

  lemma PatchNext(rs: seq<Record>, sizes: seq<int>, i: nat)
    requires FixedFieldsPresent(rs) && |sizes| == SEGMENTS && i < |rs|
    ensures
      var number := SegdefCount(rs[..i + 1]);
      && number == SegdefCount(rs[..i]) + (if rs[i].kind == SEGDEF then 1 else 0)
      && Patch(rs[..i + 1], sizes) == Patch(rs[..i], sizes) + [PatchRecord(rs[i], number, sizes)]
      && PatchCount(rs[..i + 1], sizes) ==
         PatchCount(rs[..i], sizes) + (if Patches(rs[i], number, sizes) then 1 else 0)
  {
    assert rs[..i + 1][..i] == rs[..i] && rs[..i + 1][i] == rs[i];
  }

  method PatchSegdefs(records: RecordList, sizes: array<int>) returns (patched: nat)
    requires records.Valid() && FixedFieldsPresent(records.Contents())
    requires sizes.Length == SEGMENTS
    modifies records.items
    ensures records.Valid() && records.items == old(records.items) && records.count == old(records.count)
    ensures records.Contents() == Patch(old(records.Contents()), sizes[..])
    ensures patched == PatchCount(old(records.Contents()), sizes[..])
  {
    hide Patch;
    hide PatchCount;
    hide SegdefCount;
    patched := 0;
    var number := 0;
    ghost var rs, wanted := records.Contents(), sizes[..];
    PatchNothing(wanted);
    for i := 0 to records.count
      invariant records.Valid()
      invariant number == SegdefCount(rs[..i])
      invariant patched == PatchCount(rs[..i], wanted)
      invariant records.items[..i] == Patch(rs[..i], wanted)
      invariant forall k :: i <= k < records.count ==> records.items[k] == rs[k]
    {
      var r := records.items[i];
      PatchNext(rs, wanted, i);
      if r.kind != SEGDEF {
        continue;
      }
      number := number + 1;
      var oldLength := Word(r.payload[1], r.payload[2]);
      var newLength := if number < SEGMENTS && sizes[number] >= 0 then sizes[number] else oldLength;
      // Space behind the last data may be reserved, so a length never shrinks.
      if newLength < oldLength {
        newLength := oldLength;
      }
      if newLength != oldLength {
        records.items[i] := r.(payload := r.payload[1 := newLength % 256][2 := newLength / 256 % 256]);
        patched := patched + 1;
      }
    }
    assert rs[..records.count] == rs;
  }

  // ---- What patching achieves ----

  lemma {:induction false} PatchAt(rs: seq<Record>, sizes: seq<int>, i: nat)
    requires FixedFieldsPresent(rs) && |sizes| == SEGMENTS && i < |rs|
    ensures Patch(rs, sizes)[i] == PatchRecord(rs[i], SegdefCount(rs[..i + 1]), sizes)
  {
    if i == |rs| - 1 {
      assert rs[..i + 1] == rs;
    } else {
      PatchAt(rs[..|rs| - 1], sizes, i);
      assert rs[..|rs| - 1][..i + 1] == rs[..i + 1];
    }
  }

  /** Patching changes nothing but the two length bytes of SEGDEF records. */
  lemma PatchTouchesOnlyLengths(rs: seq<Record>, i: nat)
    requires FixedFieldsPresent(rs) && i < |rs|
    ensures
      var r, p := rs[i], Grown(rs)[i];
      && p.kind == r.kind && |p.payload| == |r.payload|
      && (r.kind != SEGDEF || SegdefCount(rs[..i + 1]) >= SEGMENTS ==> p == r)
      && forall k :: 0 <= k < |r.payload| && k != 1 && k != 2 ==> p.payload[k] == r.payload[k]
  {
    PatchAt(rs, Extents(rs), i);
  }

  /** Where the data of a segment fits 16 bits, the new length is the least number that is not
      below the old length nor below the end of any data; otherwise it does not cover the data. */
  lemma SegdefCoversData(rs: seq<Record>, i: nat, number: nat)
    requires FixedFieldsPresent(rs) && i < |rs| && rs[i].kind == SEGDEF
    requires number == SegdefCount(rs[..i + 1]) < SEGMENTS
    ensures |Grown(rs)[i].payload| >= 3
    ensures
      var length := Length(Grown(rs)[i]);
      && (Extent(rs, number) < 0x1_0000 ==>
            length == if Extent(rs, number) > Length(rs[i]) then Extent(rs, number) else Length(rs[i]))
      && (Extent(rs, number) < 0x1_0000 <==>
          forall k :: 0 <= k < |rs| && PlacesDataIn(rs[k], number) ==> DataEnd(rs[k]) <= length)
  {
    hide Extent;
    hide Patch;
    hide SegdefCount;
    PatchAt(rs, Extents(rs), i);
    ExtentIsMaximum(rs, number);
    var e := Extent(rs, number);
    assert Extents(rs)[number] == e;
    if e >= 0x1_0000 {
      var k :| 0 <= k < |rs| && PlacesDataIn(rs[k], number) && DataEnd(rs[k]) == e;
      assert Length(Grown(rs)[i]) < e;
    }
  }

  // ---- A second pass ----

  lemma {:induction false} PatchKeepsShape(rs: seq<Record>, sizes: seq<int>)
    requires FixedFieldsPresent(rs) && |sizes| == SEGMENTS
    ensures FixedFieldsPresent(Patch(rs, sizes))
    ensures SegdefCount(Patch(rs, sizes)) == SegdefCount(rs)
    ensures forall segment: nat :: Extent(Patch(rs, sizes), segment) == Extent(rs, segment)
  {
    if rs != [] {
      var front, ps := rs[..|rs| - 1], Patch(rs, sizes);
      PatchKeepsShape(front, sizes);
      assert ps[..|ps| - 1] == Patch(front, sizes);
    }
  }

  lemma SameExtents(rs: seq<Record>, sizes: seq<int>)
    requires FixedFieldsPresent(rs) && |sizes| == SEGMENTS
    ensures Extents(Patch(rs, sizes)) == Extents(rs)
  {
    PatchKeepsShape(rs, sizes);
  }

  predicate FitsAt(rs: seq<Record>, sizes: seq<int>, i: nat)
    requires |sizes| == SEGMENTS && i < |rs|
  {
    var number := SegdefCount(rs[..i + 1]);
    rs[i].kind == SEGDEF && number < SEGMENTS ==> sizes[number] < 0x1_0000
  }

  /** Every size wanted for a SEGDEF of the list fits its 16-bit length field. */
  predicate Fits(rs: seq<Record>, sizes: seq<int>)
    requires |sizes| == SEGMENTS
  {
    forall i :: 0 <= i < |rs| ==> FitsAt(rs, sizes, i)
  }

  lemma PatchRecordTwice(r: Record, number: nat, sizes: seq<int>)
    requires |sizes| == SEGMENTS && (r.kind == SEGDEF ==> |r.payload| >= 3)
    ensures
      var p := PatchRecord(r, number, sizes);
      && PatchRecord(p, number, sizes) == p
      && (Patches(p, number, sizes) <==> r.kind == SEGDEF && number < SEGMENTS && sizes[number] >= 0x1_0000)
  {
    if r.kind == SEGDEF {
      var w := Wanted(r, number, sizes);
      assert w % 256 + 256 * (w / 256 % 256) == w % 0x1_0000;
    }
  }

  /** A second pass changes no byte, and counts no patch exactly when every extent fits 16 bits. */
  lemma {:induction false} PatchTwice(rs: seq<Record>, sizes: seq<int>)
    requires FixedFieldsPresent(rs) && |sizes| == SEGMENTS
    requires FixedFieldsPresent(Patch(rs, sizes))
    ensures Patch(Patch(rs, sizes), sizes) == Patch(rs, sizes)
    ensures PatchCount(Patch(rs, sizes), sizes) == 0 <==> Fits(rs, sizes)
  {
    if rs != [] {
      var front, ps := rs[..|rs| - 1], Patch(rs, sizes);
      PatchKeepsShape(front, sizes);
      PatchTwice(front, sizes);
      PatchKeepsShape(rs, sizes);
      assert ps[..|ps| - 1] == Patch(front, sizes);
      PatchRecordTwice(rs[|rs| - 1], SegdefCount(rs), sizes);
      FitsStep(rs, sizes);
      assert rs[..|rs| - 1 + 1] == rs;
    }
  }

  lemma FitsStep(rs: seq<Record>, sizes: seq<int>)
    requires |sizes| == SEGMENTS && rs != []
    ensures Fits(rs, sizes) <==> Fits(rs[..|rs| - 1], sizes) && FitsAt(rs, sizes, |rs| - 1)
  {
    hide SegdefCount;
    var front := rs[..|rs| - 1];
    forall i | 0 <= i < |front|
      ensures FitsAt(front, sizes, i) == FitsAt(rs, sizes, i)
    {
      assert front[..i + 1] == rs[..i + 1];
    }
  }

  /** Patching is stable: the second pass reports no patch exactly when the data fits. */
  lemma GrownTwice(rs: seq<Record>)
    requires FixedFieldsPresent(rs)
    ensures FixedFieldsPresent(Grown(rs)) && Grown(Grown(rs)) == Grown(rs)
    ensures GrownCount(Grown(rs)) == 0 <==> Fits(rs, Extents(rs))
  {
    PatchKeepsShape(rs, Extents(rs));
    SameExtents(rs, Extents(rs));
    PatchTwice(rs, Extents(rs));
  }

  // ---- How many are patched ----

  /** The data of SEGDEF number `i` in the list ends behind its length. */
  predicate TooShort(rs: seq<Record>, i: nat)
    requires FixedFieldsPresent(rs)
  {
    && i < |rs| && rs[i].kind == SEGDEF && SegdefCount(rs[..i + 1]) < SEGMENTS
    && exists k :: 0 <= k < |rs| && PlacesDataIn(rs[k], SegdefCount(rs[..i + 1])) && DataEnd(rs[k]) > Length(rs[i])
  }

  lemma PatchesTooShort(rs: seq<Record>, i: nat)
    requires FixedFieldsPresent(rs) && i < |rs|
    ensures Patches(rs[i], SegdefCount(rs[..i + 1]), Extents(rs)) <==> TooShort(rs, i)
    ensures Fits(rs, Extents(rs)) ==> (Patches(rs[i], SegdefCount(rs[..i + 1]), Extents(rs)) <==> Grown(rs)[i] != rs[i])
  {
    hide Patch;
    hide SegdefCount;
    PatchAt(rs, Extents(rs), i);
    var number := SegdefCount(rs[..i + 1]);
    if number < SEGMENTS {
      ExtentIsMaximum(rs, number);
      assert Extents(rs)[number] == Extent(rs, number);
    }
    hide Extent;
    assert FitsAt(rs, Extents(rs), i) || !Fits(rs, Extents(rs));
    if rs[i].kind == SEGDEF && Fits(rs, Extents(rs)) {
      LengthDiffers(rs[i], Wanted(rs[i], number, Extents(rs)));
    }
  }

  lemma LengthDiffers(r: Record, length: nat)
    requires |r.payload| >= 3 && length < 0x1_0000
    ensures length != Length(r) ==> WithLength(r, length) != r
  {
  }

  function PatchedAmong(rs: seq<Record>, sizes: seq<int>, n: nat): (s: set<nat>)
    requires FixedFieldsPresent(rs) && |sizes| == SEGMENTS && n <= |rs|
  {
    set i: nat | i < n && Patches(rs[i], SegdefCount(rs[..i + 1]), sizes)
  }

  lemma {:induction false} CountedAmong(rs: seq<Record>, sizes: seq<int>, n: nat)
    requires FixedFieldsPresent(rs) && |sizes| == SEGMENTS && n <= |rs|
    ensures PatchCount(rs[..n], sizes) == |PatchedAmong(rs, sizes, n)|
  {
    hide Patches;
    hide SegdefCount;
    hide Patch;
    if n == 0 {
      assert PatchedAmong(rs, sizes, 0) == {};
    } else {
      CountedAmong(rs, sizes, n - 1);
      PatchNext(rs, sizes, n - 1);
      var before := PatchedAmong(rs, sizes, n - 1);
      var here := Patches(rs[n - 1], SegdefCount(rs[..n]), sizes);
      assert PatchedAmong(rs, sizes, n) == if here then before + {n - 1} else before;
    }
  }

  /** The tool counts the SEGDEF records that are shorter than their data; if all sizes fit 16 bits,
      these are the records that change. */
  lemma GrownCounts(rs: seq<Record>)
    requires FixedFieldsPresent(rs)
    ensures GrownCount(rs) == |set i: nat | i < |rs| && TooShort(rs, i)|
    ensures Fits(rs, Extents(rs)) ==> GrownCount(rs) == |set i: nat | i < |rs| && Grown(rs)[i] != rs[i]|
  {
    hide Patches;
    hide Patch;
    hide PatchCount;
    hide Extents;
    hide TooShort;
    forall i: nat | i < |rs|
      ensures Patches(rs[i], SegdefCount(rs[..i + 1]), Extents(rs)) <==> TooShort(rs, i)
      ensures Fits(rs, Extents(rs)) ==> (Patches(rs[i], SegdefCount(rs[..i + 1]), Extents(rs)) <==> Grown(rs)[i] != rs[i])
    {
      PatchesTooShort(rs, i);
    }
    CountedAmong(rs, Extents(rs), |rs|);
    assert rs[..|rs|] == rs;
    var all := PatchedAmong(rs, Extents(rs), |rs|);
    assert all == set i: nat | i < |rs| && TooShort(rs, i);
    assert Fits(rs, Extents(rs)) ==> all == set i: nat | i < |rs| && Grown(rs)[i] != rs[i];
  }

  /** An input whose data does not fit its segment: the patched length does not cover it, and a
      second pass patches again. */
  lemma DataOverSixteenBits()
    ensures
      var rs := [Record(SEGDEF, [0x60, 0x00, 0x00]), Record(LEDATA, [0x01, 0xFF, 0xFF, 0x11, 0x22])];
      && FixedFieldsPresent(rs) && !Fits(rs, Extents(rs))
      && |Grown(rs)[0].payload| == 3 && Length(Grown(rs)[0]) == 1 && DataEnd(rs[1]) == 0x1_0001
      && FixedFieldsPresent(Grown(rs)) && GrownCount(Grown(rs)) > 0
  {
    var segdef, ledata := Record(SEGDEF, [0x60, 0x00, 0x00]), Record(LEDATA, [0x01, 0xFF, 0xFF, 0x11, 0x22]);
    var rs := [segdef, ledata];
    assert rs[..1] == [segdef] && [segdef][..0] == [];
    assert Extent([segdef], 1) == -1 && Extent(rs, 1) == 0x1_0001;
    assert SegdefCount([segdef]) == 1 && !FitsAt(rs, Extents(rs), 0);
    PatchAt(rs, Extents(rs), 0);
    GrownTwice(rs);
  }
}
