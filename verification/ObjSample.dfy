/** One conversion byte by byte: a segment that is too short, a FIXUPP record with both kinds of
    threads, and the file that is written for them. */
module ObjSample {
  import opened Basics
  import opened OmfFormat
  import opened OmfSegments
  import opened OmfFixups
  import opened OmfMeaning
  import opened ObjFix

  const SHORT := Record(SEGDEF, [0x60, 0x00, 0x00])
  const GROWN := Record(SEGDEF, [0x60, 0x35, 0x12])
  const DATA := Record(LEDATA, [0x01, 0x34, 0x12, 0xAA])
  // Frame thread 1 is group 2, target thread 2 is segment 3, and a fixup at displacement 1234H uses both.
  const THREADED := Record(FIXUPP, [0x45, 0x02, 0x02, 0x03, 0xC4, 0x00, 0x9A, 0x34, 0x12])
  const EXPLICIT := Record(FIXUPP, [0xC4, 0x00, 0x10, 0x02, 0x03, 0x34, 0x12])
  const END := Record(MODEND, [0x00])

  const SHORT_BYTES: seq<Byte> := [0x98, 0x04, 0x00, 0x60, 0x00, 0x00, 0x04]
  const GROWN_BYTES: seq<Byte> := [0x98, 0x04, 0x00, 0x60, 0x35, 0x12, 0xBD]
  const DATA_BYTES: seq<Byte> := [0xA0, 0x05, 0x00, 0x01, 0x34, 0x12, 0xAA, 0x6A]
  const THREADED_BYTES: seq<Byte> :=
    [0x9C, 0x0A, 0x00, 0x45, 0x02, 0x02, 0x03, 0xC4, 0x00, 0x9A, 0x34, 0x12, 0x6A]
  const EXPLICIT_BYTES: seq<Byte> := [0x9C, 0x08, 0x00, 0xC4, 0x00, 0x10, 0x02, 0x03, 0x34, 0x12, 0x3D]
  const END_BYTES: seq<Byte> := [0x8A, 0x02, 0x00, 0x00, 0x74]

  const BEFORE := [SHORT, DATA, THREADED, END]
  const AFTER := [GROWN, DATA, EXPLICIT, END]

  /** The whole conversion: one SEGDEF is patched and one fixup expanded, and no record is dropped. */
  lemma SampleIsConverted()
    ensures
      var file := SHORT_BYTES + DATA_BYTES + THREADED_BYTES + END_BYTES;
      var written := GROWN_BYTES + DATA_BYTES + EXPLICIT_BYTES + END_BYTES;
      Readable(file) && Converted(file) == Some(Report(written + Zeros(97), 1, 1, 0))
  {
    hide Parse;
    hide Encode;
    SampleIsRead();
    SampleIsWritten();
    SampleGrows();
    SampleExpands();
    PatchKeepsThreads(BEFORE, Extents(BEFORE));
  }

  // ---- The bytes of the records ----

  lemma EncodedAs(r: Record, front: seq<Byte>, last: Byte)
    requires front == Header(r) + r.payload && (Sum(front) + last) % 256 == 0
    ensures Encode(r) == front + [last]
  {
  }

  lemma ShortBytes()
    ensures Encode(SHORT) == SHORT_BYTES && Encode(GROWN) == GROWN_BYTES
  {
    hide Sum;
    hide Encode;
    SumFour(0x98, 0x04, 0x00, 0x60);
    SumOne(0x00);
    SumOne(0x35);
    SumOne(0x12);
    SumConcat([0x00], [0x00]);
    SumConcat([0x35], [0x12]);
    SumConcat([0x98, 0x04, 0x00, 0x60], [0x00] + [0x00]);
    SumConcat([0x98, 0x04, 0x00, 0x60], [0x35] + [0x12]);
    EncodedAs(SHORT, [0x98, 0x04, 0x00, 0x60] + ([0x00] + [0x00]), 0x04);
    EncodedAs(GROWN, [0x98, 0x04, 0x00, 0x60] + ([0x35] + [0x12]), 0xBD);
  }

  lemma DataBytes()
    ensures Encode(DATA) == DATA_BYTES && Encode(END) == END_BYTES
  {
    hide Sum;
    hide Encode;
    SumFour(0xA0, 0x05, 0x00, 0x01);
    SumFour(0x8A, 0x02, 0x00, 0x00);
    SumOne(0x34);
    SumOne(0x12);
    SumOne(0xAA);
    SumConcat([0x34], [0x12]);
    SumConcat([0x34] + [0x12], [0xAA]);
    SumConcat([0xA0, 0x05, 0x00, 0x01], [0x34] + [0x12] + [0xAA]);
    EncodedAs(DATA, [0xA0, 0x05, 0x00, 0x01] + ([0x34] + [0x12] + [0xAA]), 0x6A);
    EncodedAs(END, [0x8A, 0x02, 0x00, 0x00], 0x74);
  }

  lemma ThreadedBytes()
    ensures Encode(THREADED) == THREADED_BYTES
  {
    hide Sum;
    hide Encode;
    var a, b, c: seq<Byte> := [0x9C, 0x0A, 0x00, 0x45], [0x02, 0x02, 0x03, 0xC4], [0x00, 0x9A, 0x34, 0x12];
    SumFour(0x9C, 0x0A, 0x00, 0x45);
    SumFour(0x02, 0x02, 0x03, 0xC4);
    SumFour(0x00, 0x9A, 0x34, 0x12);
    SumConcat(a, b);
    SumConcat(a + b, c);
    EncodedAs(THREADED, a + b + c, 0x6A);
  }

  lemma ExplicitBytes()
    ensures Encode(EXPLICIT) == EXPLICIT_BYTES
  {
    hide Sum;
    hide Encode;
    var a, b, c: seq<Byte> := [0x9C, 0x08, 0x00, 0xC4], [0x00, 0x10, 0x02, 0x03], [0x34] + [0x12];
    SumFour(0x9C, 0x08, 0x00, 0xC4);
    SumFour(0x00, 0x10, 0x02, 0x03);
    SumOne(0x34);
    SumOne(0x12);
    SumConcat([0x34], [0x12]);
    SumConcat(a, b);
    SumConcat(a + b, c);
    EncodedAs(EXPLICIT, a + b + c, 0x3D);
  }

  lemma EncodeFour(a: Record, b: Record, c: Record, d: Record)
    ensures EncodeAll([a, b, c, d]) == Encode(a) + Encode(b) + Encode(c) + Encode(d)
  {
    hide Encode;
    assert [a, b, c, d][1..] == [b, c, d] && [b, c, d][1..] == [c, d] && [c, d][1..] == [d] && [d][1..] == [];
    assert EncodeAll([d]) == Encode(d);
    assert EncodeAll([c, d]) == Encode(c) + Encode(d);
    assert EncodeAll([b, c, d]) == Encode(b) + (Encode(c) + Encode(d));
  }

  lemma SampleIsRead()
    ensures Parse(SHORT_BYTES + DATA_BYTES + THREADED_BYTES + END_BYTES) == BEFORE
  {
    hide Parse;
    hide Encode;
    ShortBytes();
    DataBytes();
    ThreadedBytes();
    EncodeFour(SHORT, DATA, THREADED, END);
    ParseUndoesEncode(BEFORE, []);
    var file := SHORT_BYTES + DATA_BYTES + THREADED_BYTES + END_BYTES;
    assert file + [] == file;
  }

  lemma SampleIsWritten()
    ensures FileImage(AFTER) == GROWN_BYTES + DATA_BYTES + EXPLICIT_BYTES + END_BYTES + Zeros(97)
  {
    hide Encode;
    ShortBytes();
    DataBytes();
    ExplicitBytes();
    EncodeFour(GROWN, DATA, EXPLICIT, END);
  }

  // ---- What becomes of them ----

  lemma SampleGrows()
    ensures FixedFieldsPresent(BEFORE) && Grown(BEFORE) == [GROWN, DATA, THREADED, END] && GrownCount(BEFORE) == 1
  {
    var sizes := Extents(BEFORE);
    SampleExtent();
    hide Extent;
    assert sizes[1] == 0x1235;
    hide Extents;
    SampleCounts();
    hide SegdefCount;
    forall i | 0 <= i < 4
      ensures Grown(BEFORE)[i] == if i == 0 then GROWN else BEFORE[i]
    {
      PatchAt(BEFORE, sizes, i);
    }
    SamplePatchCount(sizes);
  }

  lemma SampleExtent()
    ensures Extent(BEFORE, 1) == 0x1235
  {
    assert BEFORE[..3] == [SHORT, DATA, THREADED] && BEFORE[..3][..2] == [SHORT, DATA] && [SHORT, DATA][..1] == [SHORT];
    assert [SHORT][..0] == [];
    assert Extent([SHORT], 1) == -1 && Extent([SHORT, DATA], 1) == 0x1235;
    assert Extent(BEFORE[..3], 1) == 0x1235;
  }

  lemma SampleCounts()
    ensures SegdefCount(BEFORE[..1]) == 1
  {
    assert BEFORE[..1] == [SHORT] && [SHORT][..0] == [];
  }

  lemma SamplePatchCount(sizes: seq<int>)
    requires |sizes| == SEGMENTS && sizes[1] == 0x1235
    ensures PatchCount(BEFORE, sizes) == 1
  {
    assert BEFORE[..3] == [SHORT, DATA, THREADED] && BEFORE[..3][..2] == [SHORT, DATA] && [SHORT, DATA][..1] == [SHORT];
    assert [SHORT][..0] == [] && SegdefCount([SHORT]) == 1;
    assert PatchCount([SHORT], sizes) == 1;
    assert PatchCount([SHORT, DATA], sizes) == 1;
    assert PatchCount(BEFORE[..3], sizes) == 1;
  }

  lemma SampleExpands()
    ensures
      var rs := [GROWN, DATA, THREADED, END];
      AllInBounds(rs) && AllInBounds(BEFORE) &&
      ExpandRecords(rs).records == AFTER && ExpandRecords(rs).expanded == 1 && ExpandRecords(rs).removed == 0
  {
    SampleFixup();
    hide Expand;
    hide InBounds;
    var rs := [GROWN, DATA, THREADED, END];
    ThreeFirst(GROWN, DATA, THREADED, END);
    ThreeFirst(SHORT, DATA, THREADED, END);
  }

  lemma ThreeFirst(a: Record, b: Record, c: Record, d: Record)
    requires a.kind != FIXUPP && b.kind != FIXUPP && d.kind != FIXUPP && c.kind == FIXUPP
    requires InBounds(NO_THREADS, c.payload) && Expand(NO_THREADS, c.payload).fixups > 0
    ensures
      var x := Expand(NO_THREADS, c.payload);
      AllInBounds([a, b, c, d]) &&
      ExpandRecords([a, b, c, d]) == Rewriting([a, b, Record(FIXUPP, x.bytes), d], x.tables, x.expanded, 0)
  {
    hide Expand;
    hide InBounds;
    var rs := [a, b, c, d];
    assert rs[..3] == [a, b, c] && [a, b, c][..2] == [a, b] && [a, b][..1] == [a] && [a][..0] == [];
    assert AllInBounds([a]) && ExpandRecords([a]) == Rewriting([a], NO_THREADS, 0, 0);
    assert AllInBounds([a, b]) && ExpandRecords([a, b]) == Rewriting([a, b], NO_THREADS, 0, 0);
    assert AllInBounds([a, b, c]);
  }

  lemma SampleFixup()
    ensures InBounds(NO_THREADS, THREADED.payload)
    ensures
      var x := Expand(NO_THREADS, THREADED.payload);
      x.bytes == EXPLICIT.payload && x.fixups == 1 && x.expanded == 1
  {
    var s := THREADED.payload;
    var one := NO_THREADS.(frame := NO_THREADS.frame[1 := Some(Reference(1, Some(0x02)))]);
    var two := one.(target := one.target[2 := Some(Reference(0, Some(0x03)))]);
    var t := s[2..];
    assert t == [0x02, 0x03, 0xC4, 0x00, 0x9A, 0x34, 0x12];
    var u := t[2..];
    assert u == [0xC4, 0x00, 0x9A, 0x34, 0x12];
    assert Size(NO_THREADS, s) == 2 && TablesAfter(NO_THREADS, s) == one;
    assert Size(one, t) == 2 && TablesAfter(one, t) == two;
    SampleReference(two, u);
    hide Size;
    hide TablesAfter;
    hide Rewritten;
    assert u[5..] == [] && InBounds(two, u) && InBounds(one, t);
    assert Expand(two, []) == Expansion([], two, 0, 0);
    assert Expand(two, u) == Expansion(EXPLICIT.payload + [], two, 1, 1);
    assert Expand(one, t) == Expand(two, u);
  }

  lemma SampleReference(tables: Tables, s: seq<Byte>)
    requires s == [0xC4, 0x00, 0x9A, 0x34, 0x12]
    requires tables.frame[1] == Some(Reference(1, Some(0x02))) && tables.target[2] == Some(Reference(0, Some(0x03)))
    ensures Size(tables, s) == 5 && TablesAfter(tables, s) == tables && ViaThread(s)
    ensures Rewritten(tables, s) == EXPLICIT.payload
  {
    assert s[2] == 0x9A;
  }

  // ---- Threads that are not defined ----

  /** An undefined frame thread becomes frame method 5 and an undefined target thread target method 4,
      without a datum. */
  lemma UndefinedThreads()
    ensures OneFixup([0xC4, 0x00, 0x84, 0x01], [0xC4, 0x00, 0x54, 0x01])
    ensures OneFixup([0xC4, 0x00, 0x5C], [0xC4, 0x00, 0x54])
  {
    var frame: seq<Byte> := [0xC4, 0x00, 0x84, 0x01];
    assert frame[2] == 0x84 && Size(NO_THREADS, frame) == 4;
    assert Rewritten(NO_THREADS, frame) == [0xC4, 0x00, 0x54, 0x01];
    AloneExpanded(frame);
    var target: seq<Byte> := [0xC4, 0x00, 0x5C];
    assert target[2] == 0x5C && Size(NO_THREADS, target) == 3;
    assert Rewritten(NO_THREADS, target) == [0xC4, 0x00, 0x54];
    AloneExpanded(target);
  }

  ghost predicate OneFixup(s: seq<Byte>, written: seq<Byte>)
  {
    InBounds(NO_THREADS, s) && Expand(NO_THREADS, s) == Expansion(written, NO_THREADS, 1, 1)
  }

  lemma AloneExpanded(s: seq<Byte>)
    requires |s| >= 3 && s[0] >= 128 && Size(NO_THREADS, s) == |s| && ViaThread(s)
    ensures OneFixup(s, Rewritten(NO_THREADS, s))
  {
    assert TablesAfter(NO_THREADS, s) == NO_THREADS;
    hide Rewritten;
    hide Size;
    hide TablesAfter;
    hide ViaThread;
    assert s[|s|..] == [] && InBounds(NO_THREADS, []) && InBounds(NO_THREADS, s);
    var tail := Expand(NO_THREADS, []);
    assert tail == Expansion([], NO_THREADS, 0, 0);
    assert Expand(NO_THREADS, s) == Expansion(Rewritten(NO_THREADS, s) + tail.bytes, NO_THREADS, 1, 1);
    assert Rewritten(NO_THREADS, s) + [] == Rewritten(NO_THREADS, s);
  }
}
