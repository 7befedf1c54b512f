/** The whole conversion of an object file, and what it guarantees. */
module ObjFix {
  import opened Basics
  import opened OmfFormat
  import opened OmfBuffers
  import opened OmfSegments
  import opened OmfFixups
  import opened OmfMeaning
  import opened OmfExpand
  import opened OmfCounts

  // ---- Expansion of a record list ----

  /** Every FIXUPP record splits into subrecords, and every fixup's target can be made explicit. */
  predicate Usable(rs: seq<Record>)
  {
    Splits(rs) &&
    (rs == [] ||
     (var front, last := rs[..|rs| - 1], rs[|rs| - 1];
      && Usable(front)
      && (last.kind == FIXUPP ==> AllExpandable(Meaning(front).tables, Subrecords(last.payload).value))))
  }

  /** No fixup uses a frame thread that is not defined before it. */
  predicate FramesKnown(rs: seq<Record>)
    requires Splits(rs)
  {
    rs == [] ||
    (var front, last := rs[..|rs| - 1], rs[|rs| - 1];
     && FramesKnown(front)
     && (last.kind == FIXUPP ==> FramesDefined(Meaning(front).tables, Subrecords(last.payload).value)))
  }

  lemma {:induction false} ExpandTracksThreads(rs: seq<Record>)
    requires Usable(rs)
    ensures AllInBounds(rs)
    ensures ExpandRecords(rs).tables == Meaning(rs).tables && Proper(Meaning(rs).tables)
  {
    if rs != [] {
      var front, last := rs[..|rs| - 1], rs[|rs| - 1];
      ExpandTracksThreads(front);
      if last.kind == FIXUPP {
        ExpandReadsBack(ExpandRecords(front).tables, last.payload);
      }
    }
  }

  lemma ExpandSnoc(front: seq<Record>, last: Record)
    requires AllInBounds(front)
    requires last.kind == FIXUPP ==> InBounds(ExpandRecords(front).tables, last.payload)
    ensures AllInBounds(front + [last])
    ensures ExpandRecords(front + [last]) == Extended(ExpandRecords(front), last)
  {
    hide InBounds;
    hide Expand;
    assert (front + [last])[..|front|] == front;
  }

  lemma MeaningSnoc(rs: seq<Record>, last: Record)
    requires Splits(rs) && (last.kind == FIXUPP ==> Subrecords(last.payload).Some?)
    ensures Splits(rs + [last])
    ensures
      Meaning(rs + [last]) ==
      (if last.kind != FIXUPP then Meaning(rs).(items := Meaning(rs).items + [Plain(last)])
       else
         var here := Fixups(Meaning(rs).tables, Subrecords(last.payload).value);
         Reading(Meaning(rs).items + here.items, here.tables))
  {
    assert (rs + [last])[..|rs|] == rs;
  }

  /** Read without any thread, the expanded records hold the same other records as the original
      ones and as many fixups between them. They mean the same exactly when every frame thread
      was defined before its use: an undefined one becomes the frame of the target. */
  lemma {:induction false} ExpansionKeepsMeaning(rs: seq<Record>)
    requires Usable(rs)
    ensures AllInBounds(rs) && Splits(ExpandRecords(rs).records)
    ensures
      var before, after := Meaning(rs), Meaning(ExpandRecords(rs).records);
      && after.tables == NO_THREADS
      && |after.items| == |before.items|
      && (after.items == before.items <==> FramesKnown(rs))
  {
    hide Subrecords;
    hide Fixups;
    hide Expand;
    hide Meaning;
    hide FramesDefined;
    ExpandTracksThreads(rs);
    if rs == [] {
      MeaningOfNothing();
    } else {
      var front, last := rs[..|rs| - 1], rs[|rs| - 1];
      assert rs == front + [last];
      var w := ExpandRecords(front);
      ExpandTracksThreads(front);
      ExpansionKeepsMeaning(front);
      MeaningSnoc(front, last);
      if last.kind != FIXUPP {
        MeaningSnoc(w.records, last);
        SameParts(Meaning(w.records).items, Meaning(front).items, [Plain(last)], [Plain(last)]);
      } else {
        var subs, x := Subrecords(last.payload).value, Expand(w.tables, last.payload);
        ExpandReadsBack(w.tables, last.payload);
        DetachedMeansTheSame(w.tables, subs, NO_THREADS);
        if x.fixups > 0 {
          MeaningSnoc(w.records, Record(FIXUPP, x.bytes));
        } else {
          NoFixups(NO_THREADS);
        }
        SameParts(Meaning(w.records).items, Meaning(front).items,
                  Fixups(NO_THREADS, DetachedAll(w.tables, subs)).items, Fixups(w.tables, subs).items);
      }
    }
  }

  /** If a target cannot be made explicit, then the expanded records mean something else or cannot be
      read at all. */
  lemma {:induction false} UnusableMeansAnother(rs: seq<Record>)
    requires Splits(rs) && AllInBounds(rs) && !Usable(rs) && Splits(ExpandRecords(rs).records)
    ensures Differ(Meaning(ExpandRecords(rs).records).items, Meaning(rs).items)
  {
    hide Subrecords;
    hide Fixups;
    hide Expand;
    hide InBounds;
    hide Meaning;
    hide Differ;
    var front, last := rs[..|rs| - 1], rs[|rs| - 1];
    assert rs == front + [last];
    var w := ExpandRecords(front);
    var before, es := w.records, ExpandRecords(rs).records;
    SplitsFront(es, |before|);
    assert ExpandRecords(rs) == Extended(w, last);
    MeaningSnoc(front, last);
    if !Usable(front) {
      UnusableMeansAnother(front);
      if |es| > |before| {
        MeaningSnoc(before, es[|before|]);
        assert es == before + [es[|before|]];
      }
      assert Meaning(es).items == Meaning(before).items + Added(before, es);
      assert Meaning(rs).items == Meaning(front).items + Added(front, rs);
      MoreDiffers(Meaning(before).items, Meaning(front).items, Added(before, es), Added(front, rs));
    } else {
      ExpandTracksThreads(front);
      ExpansionKeepsMeaning(front);
      var x := Expand(w.tables, last.payload);
      UnusablePayloadDiffers(w.tables, last.payload, NO_THREADS);
      assert es == before + [Record(FIXUPP, x.bytes)] && es[|before|] == Record(FIXUPP, x.bytes);
      MeaningSnoc(before, Record(FIXUPP, x.bytes));
      DiffersBehind(Meaning(before).items, Meaning(front).items,
                    Fixups(NO_THREADS, Subrecords(x.bytes).value).items,
                    Fixups(w.tables, Subrecords(last.payload).value).items);
    }
  }

  /** What the records behind `front` add to its meaning. */
  function Added(front: seq<Record>, all: seq<Record>): seq<Item>
    requires Splits(front) && Splits(all) && Meaning(front).items <= Meaning(all).items
  {
    Meaning(all).items[|Meaning(front).items|..]
  }

  lemma SplitsFront(rs: seq<Record>, n: nat)
    requires Splits(rs) && n <= |rs|
    ensures Splits(rs[..n])
  {
    hide Subrecords;
  }

  lemma MoreDiffers(a: seq<Item>, b: seq<Item>, c: seq<Item>, d: seq<Item>)
    requires Differ(a, b)
    ensures Differ(a + c, b + d)
  {
    var j :| 0 <= j < |a| && j < |b| && a[j] != b[j];
    assert (a + c)[j] == a[j] && (b + d)[j] == b[j];
  }

  lemma DiffersBehind(a: seq<Item>, b: seq<Item>, c: seq<Item>, d: seq<Item>)
    requires |a| == |b| && Differ(c, d)
    ensures Differ(a + c, b + d)
  {
    var j :| 0 <= j < |c| && j < |d| && c[j] != d[j];
    assert (a + c)[|a| + j] == c[j] && (b + d)[|a| + j] == d[j];
  }

  /** The exact condition, for all records that the tool can read: every target can be made explicit,
      and every frame thread was defined before its use. */
  lemma MeaningKeptExactly(rs: seq<Record>)
    requires Splits(rs) && AllInBounds(rs)
    ensures
      var es := ExpandRecords(rs).records;
      (Splits(es) && Meaning(es).items == Meaning(rs).items) <==> Usable(rs) && FramesKnown(rs)
  {
    hide ExpandRecords;
    hide AllInBounds;
    hide Splits;
    hide Usable;
    hide FramesKnown;
    hide Meaning;
    if Usable(rs) {
      ExpansionKeepsMeaning(rs);
    } else if Splits(ExpandRecords(rs).records) {
      UnusableMeansAnother(rs);
    }
  }

  /** An input for which the meaning changes: the frame thread of the fixup is not defined. */
  lemma UndefinedFrameThread()
    ensures
      var rs := [Record(FIXUPP, [0xC4, 0x00, 0x84, 0x01])];
      && Splits(rs) && Usable(rs) && !FramesKnown(rs)
      && AllInBounds(rs) && Splits(ExpandRecords(rs).records)
      && Meaning(ExpandRecords(rs).records).items != Meaning(rs).items
  {
    var payload: seq<Byte> := [0xC4, 0x00, 0x84, 0x01];
    var rs := [Record(FIXUPP, payload)];
    var sub := Fixup(0xC4, 0x00, Via(0), Explicit(Reference(4, Some(0x01))), None);
    assert payload[2] == 0x84 && payload[3..] == [0x01] && payload[3..][1..] == [];
    assert ReadSubrecord(payload) == Read(sub, []);
    assert Subrecords(payload) == Some([sub] + []) && [sub] + [] == [sub];
    assert rs[..0] == [] && AllExpandable(NO_THREADS, [sub]);
    assert !FramesDefined(NO_THREADS, [sub]);
    ExpansionKeepsMeaning(rs);
  }

  /** Another one: the target thread has method 4, which leaves no room for its displacement bit. */
  lemma UnusableTargetThread()
    ensures
      var rs := [Record(FIXUPP, [0x10, 0xC4, 0x00, 0x4C])];
      && Splits(rs) && AllInBounds(rs) && !Usable(rs)
      && !(Splits(ExpandRecords(rs).records) && Meaning(ExpandRecords(rs).records).items == Meaning(rs).items)
  {
    var payload: seq<Byte> := [0x10, 0xC4, 0x00, 0x4C];
    var rs := [Record(FIXUPP, payload)];
    var thread := Thread(false, 0, Reference(4, None));
    var sub := Fixup(0xC4, 0x00, Explicit(Reference(4, None)), Via(0), None);
    var rest := payload[1..];
    assert rest == [0xC4, 0x00, 0x4C] && rest[2] == 0x4C && rest[3..] == [];
    assert ReadSubrecord(payload) == Read(thread, rest) && ReadSubrecord(rest) == Read(sub, []);
    assert Subrecords([]) == Some([]) && [sub] + [] == [sub];
    assert Subrecords(rest) == Some([sub]);
    assert Subrecords(payload) == Some([thread] + [sub]);
    var subs := [thread] + [sub];
    var tables := Defining(NO_THREADS, thread);
    assert subs[0] == thread && subs[1..] == [sub] && !Expandable(tables, sub);
    assert !AllExpandable(tables, [sub]) && !AllExpandable(NO_THREADS, subs);
    assert TablesAfter(NO_THREADS, payload) == tables && Size(NO_THREADS, payload) == 1;
    assert Size(tables, rest) == 3 && InBounds(tables, []);
    assert InBounds(tables, rest) && InBounds(NO_THREADS, payload);
    assert rs[..0] == [];
    MeaningKeptExactly(rs);
  }

  lemma SameParts<T>(a: seq<T>, b: seq<T>, c: seq<T>, d: seq<T>)
    requires |a| == |b|
    ensures a + c == b + d <==> a == b && c == d
  {
    if a + c == b + d {
      assert a == (a + c)[..|a|] && b == (b + d)[..|b|];
      assert c == (a + c)[|a|..] && d == (b + d)[|b|..];
    }
  }

  lemma MeaningOfNothing()
    ensures Splits([]) && Meaning([]) == Reading([], NO_THREADS)
  {
  }

  lemma NoFixups(tables: Tables)
    ensures Fixups(tables, []) == Reading([], tables)
  {
  }

  /** A list as the expansion leaves it: its FIXUPP records hold explicit fixups only. */
  predicate FullyExpanded(rs: seq<Record>)
  {
    forall i :: 0 <= i < |rs| && rs[i].kind == FIXUPP ==> rs[i].payload != [] && AllExplicit(rs[i].payload)
  }

  lemma {:induction false} ExpandRecordsIsExplicit(rs: seq<Record>)
    requires Usable(rs)
    ensures AllInBounds(rs) && FullyExpanded(ExpandRecords(rs).records)
  {
    hide AllExplicit;
    ExpandTracksThreads(rs);
    if rs != [] {
      var front, last := rs[..|rs| - 1], rs[|rs| - 1];
      ExpandTracksThreads(front);
      ExpandRecordsIsExplicit(front);
      if last.kind == FIXUPP {
        var tables := ExpandRecords(front).tables;
        ExpandReadsBack(tables, last.payload);
        ExpandIsExplicit(tables, last.payload);
      }
    }
  }

  /** Expanding the expanded list is the identity, and finds nothing to do. */
  lemma {:induction false} ExpandTwice(rs: seq<Record>)
    requires FullyExpanded(rs)
    ensures AllInBounds(rs) && ExpandRecords(rs) == Rewriting(rs, NO_THREADS, 0, 0)
  {
    hide AllExplicit;
    hide InBounds;
    hide Expand;
    hide AllInBounds;
    hide ExpandRecords;
    if rs == [] {
      ExpandNothing();
    } else {
      var front, last := rs[..|rs| - 1], rs[|rs| - 1];
      assert rs == front + [last];
      ExpandTwice(front);
      if last.kind == FIXUPP {
        ExplicitIsFixed(NO_THREADS, last.payload);
      }
      ExpandTwiceSnoc(front, last);
    }
  }

  lemma ExpandNothing()
    ensures AllInBounds([]) && ExpandRecords([]) == Rewriting([], NO_THREADS, 0, 0)
  {
  }

  lemma ExpandTwiceSnoc(front: seq<Record>, last: Record)
    requires AllInBounds(front) && ExpandRecords(front) == Rewriting(front, NO_THREADS, 0, 0)
    requires last.kind == FIXUPP ==>
      && InBounds(NO_THREADS, last.payload)
      && var x := Expand(NO_THREADS, last.payload);
         x.bytes == last.payload && x.tables == NO_THREADS && x.expanded == 0 && x.fixups > 0
    ensures AllInBounds(front + [last])
    ensures ExpandRecords(front + [last]) == Rewriting(front + [last], NO_THREADS, 0, 0)
  {
    hide InBounds;
    hide Expand;
    hide AllInBounds;
    hide ExpandRecords;
    ExpandSnoc(front, last);
  }

  function NonFixups(rs: seq<Record>): seq<Record>
  {
    if rs == [] then []
    else NonFixups(rs[..|rs| - 1]) + if rs[|rs| - 1].kind != FIXUPP then [rs[|rs| - 1]] else []
  }

  /** Whatever the FIXUPP records hold, all other records pass unchanged and in order. */
  lemma {:induction false} OtherRecordsPass(rs: seq<Record>)
    requires AllInBounds(rs)
    ensures NonFixups(ExpandRecords(rs).records) == NonFixups(rs)
  {
    if rs != [] {
      OtherRecordsPass(rs[..|rs| - 1]);
      var front, all := ExpandRecords(rs[..|rs| - 1]).records, ExpandRecords(rs).records;
      if |all| > |front| {
        assert all[..|all| - 1] == front;
      }
    }
  }

  /** A payload of up to 39320 bytes still fits a record after expansion. */
  lemma {:induction false} ExpansionFits(rs: seq<Record>)
    requires AllInBounds(rs)
    requires forall i :: 0 <= i < |rs| ==> |rs[i].payload| <= if rs[i].kind == FIXUPP then 39320 else MAX_PAYLOAD
    ensures forall i :: 0 <= i < |ExpandRecords(rs).records| ==> |ExpandRecords(rs).records[i].payload| <= MAX_PAYLOAD
  {
    if rs != [] {
      ExpansionFits(rs[..|rs| - 1]);
      var last := rs[|rs| - 1];
      if last.kind == FIXUPP {
        ExpandGrowsLittle(ExpandRecords(rs[..|rs| - 1]).tables, last.payload);
      }
    }
  }

  // ---- Patching and expanding do not disturb each other ----

  lemma {:induction false} PatchKeepsThreads(rs: seq<Record>, sizes: seq<int>)
    requires FixedFieldsPresent(rs) && |sizes| == SEGMENTS && AllInBounds(rs)
    ensures AllInBounds(Patch(rs, sizes))
    ensures ExpandRecords(Patch(rs, sizes)).tables == ExpandRecords(rs).tables
  {
    hide InBounds;
    hide Expand;
    if rs != [] {
      var front, ps := rs[..|rs| - 1], Patch(rs, sizes);
      PatchKeepsThreads(front, sizes);
      assert ps[..|ps| - 1] == Patch(front, sizes);
    }
  }

  lemma UsableSnoc(front: seq<Record>, last: Record)
    requires Splits(front) && (last.kind == FIXUPP ==> Subrecords(last.payload).Some?)
    ensures Splits(front + [last])
    ensures
      Usable(front + [last]) <==>
        Usable(front) &&
        (last.kind == FIXUPP ==> AllExpandable(Meaning(front).tables, Subrecords(last.payload).value))
    ensures
      FramesKnown(front + [last]) <==>
        FramesKnown(front) &&
        (last.kind == FIXUPP ==> FramesDefined(Meaning(front).tables, Subrecords(last.payload).value))
  {
    hide Subrecords;
    hide AllExpandable;
    hide FramesDefined;
    hide Meaning;
    assert (front + [last])[..|front|] == front;
  }

  lemma {:induction false} PatchKeepsUsable(rs: seq<Record>, sizes: seq<int>)
    requires FixedFieldsPresent(rs) && |sizes| == SEGMENTS && Splits(rs)
    ensures Splits(Patch(rs, sizes)) && Meaning(Patch(rs, sizes)).tables == Meaning(rs).tables
    ensures Usable(Patch(rs, sizes)) == Usable(rs) && FramesKnown(Patch(rs, sizes)) == FramesKnown(rs)
  {
    hide Subrecords;
    hide Fixups;
    hide AllExpandable;
    hide FramesDefined;
    hide Usable;
    hide FramesKnown;
    hide Meaning;
    hide SegdefCount;
    if rs != [] {
      var front, last := rs[..|rs| - 1], rs[|rs| - 1];
      assert rs == front + [last];
      SplitsFront(rs, |front|);
      UsableSnoc(front, last);
      PatchKeepsUsable(front, sizes);
      var patched := PatchRecord(last, SegdefCount(rs), sizes);
      UsableSnoc(Patch(front, sizes), patched);
      MeaningSnoc(front, last);
      MeaningSnoc(Patch(front, sizes), patched);
    }
  }

  lemma UsableSplits(rs: seq<Record>)
    requires Usable(rs)
    ensures Splits(rs)
  {
  }

  lemma SegmentsSnoc(front: seq<Record>, last: Record, sizes: seq<int>)
    requires FixedFieldsPresent(front) && |sizes| == SEGMENTS
    requires last.kind in {LEDATA, SEGDEF} ==> |last.payload| >= 3
    ensures
      var rs := front + [last];
      var number := SegdefCount(rs);
      && FixedFieldsPresent(rs)
      && number == SegdefCount(front) + (if last.kind == SEGDEF then 1 else 0)
      && PatchCount(rs, sizes) == PatchCount(front, sizes) + (if Patches(last, number, sizes) then 1 else 0)
      && Patch(rs, sizes) == Patch(front, sizes) + [PatchRecord(last, number, sizes)]
  {
    assert (front + [last])[..|front|] == front;
  }

  lemma ExtentSnoc(front: seq<Record>, last: Record, segment: nat)
    ensures
      var e := Extent(front, segment);
      Extent(front + [last], segment) ==
      if PlacesDataIn(last, segment) && (e < 0 || DataEnd(last) > e) then DataEnd(last) else e
  {
    assert (front + [last])[..|front|] == front;
  }

  lemma {:induction false} ExpandKeepsSegments(rs: seq<Record>, sizes: seq<int>)
    requires AllInBounds(rs) && FixedFieldsPresent(rs) && |sizes| == SEGMENTS
    ensures
      var es := ExpandRecords(rs).records;
      && FixedFieldsPresent(es) && SegdefCount(es) == SegdefCount(rs)
      && PatchCount(es, sizes) == PatchCount(rs, sizes)
      && (Patch(rs, sizes) == rs ==> Patch(es, sizes) == es)
  {
    hide InBounds;
    hide Expand;
    hide Patch;
    hide PatchCount;
    hide SegdefCount;
    if rs != [] {
      var front, last := rs[..|rs| - 1], rs[|rs| - 1];
      ExpandKeepsSegments(front, sizes);
      SegmentsSnoc(front, last, sizes);
      assert rs == front + [last];
      var before, es := ExpandRecords(front).records, ExpandRecords(rs).records;
      if |es| > |before| {
        var added := es[|before|];
        assert es == before + [added];
        SegmentsSnoc(before, added, sizes);
      }
    } else {
      EmptyList(sizes);
    }
  }

  lemma EmptyList(sizes: seq<int>)
    requires |sizes| == SEGMENTS
    ensures SegdefCount([]) == 0 && PatchCount([], sizes) == 0 && Patch([], sizes) == []
  {
  }

  lemma {:induction false} ExpandKeepsExtent(rs: seq<Record>, segment: nat)
    requires AllInBounds(rs)
    ensures Extent(ExpandRecords(rs).records, segment) == Extent(rs, segment)
  {
    hide InBounds;
    hide Expand;
    hide Extent;
    if rs != [] {
      var front, last := rs[..|rs| - 1], rs[|rs| - 1];
      ExpandKeepsExtent(front, segment);
      ExtentSnoc(front, last, segment);
      assert rs == front + [last];
      var before, es := ExpandRecords(front).records, ExpandRecords(rs).records;
      if |es| > |before| {
        var added := es[|before|];
        assert es == before + [added];
        ExtentSnoc(before, added, segment);
      }
    }
  }

  // ---- The conversion ----

  /** What the tool needs in order not to read past the end of a payload. */
  predicate Readable(data: seq<Byte>)
  {
    FixedFieldsPresent(Parse(data)) && AllInBounds(Parse(data))
  }

  datatype Report = Report(file: seq<Byte>, patched: nat, expanded: nat, removed: nat)

  function Rewrite(rs: seq<Record>): Rewriting
    requires FixedFieldsPresent(rs) && AllInBounds(rs)
  {
    PatchKeepsThreads(rs, Extents(rs));
    ExpandRecords(Grown(rs))
  }

  /** The converted file, or nothing if the data has no module end. */
  function Converted(data: seq<Byte>): Option<Report>
    requires Readable(data)
  {
    var rs := Parse(data);
    if !EndsModule(rs) then None
    else
      var w := Rewrite(rs);
      Some(Report(FileImage(w.records), GrownCount(rs), w.expanded, w.removed))
  }

  /** No expanded payload is too long for the 16-bit record length. */
  predicate NoOverflow(rs: seq<Record>)
    requires FixedFieldsPresent(rs) && AllInBounds(rs)
  {
    forall i :: 0 <= i < |Rewrite(rs).records| ==> |Rewrite(rs).records[i].payload| <= MAX_PAYLOAD
  }

  predicate InsideModule(rs: seq<Record>)
  {
    forall i :: 0 <= i < |rs| ==> rs[i].kind != MODEND && rs[i].kind != END_OF_FILE
  }

  lemma {:induction false} ExpandStaysInside(rs: seq<Record>)
    requires AllInBounds(rs) && InsideModule(rs)
    ensures InsideModule(ExpandRecords(rs).records)
  {
    hide InBounds;
    hide Expand;
    if rs != [] {
      ExpandStaysInside(rs[..|rs| - 1]);
    }
  }

  /** The rewritten records can be read back from the file they are written to exactly when
      none of them is too long. */
  lemma RewrittenReadsBack(rs: seq<Record>)
    requires FixedFieldsPresent(rs) && AllInBounds(rs) && Writable(rs) && EndsModule(rs)
    ensures Parse(FileImage(Rewrite(rs).records)) == Rewrite(rs).records <==> NoOverflow(rs)
    ensures EndsModule(Rewrite(rs).records)
  {
    hide InBounds;
    hide Expand;
    hide FileImage;
    hide Parse;
    var gs := Grown(rs);
    PatchKeepsThreads(rs, Extents(rs));
    forall i | 0 <= i < |gs|
      ensures gs[i].kind == rs[i].kind
    {
      PatchTouchesOnlyLengths(rs, i);
    }
    var front := gs[..|gs| - 1];
    assert InsideModule(front);
    ExpandStaysInside(front);
    ParsedRecords(FileImage(Rewrite(rs).records));
    if NoOverflow(rs) {
      ParseFileImage(Rewrite(rs).records);
    }
  }

  /** A second conversion returns its input byte for byte and finds no fixup or thread to
      remove; it reports no patched SEGDEF exactly when all data fits 16-bit segments. */
  lemma ConversionIsIdempotent(data: seq<Byte>)
    requires Readable(data) && Converted(data).Some?
    requires Usable(Parse(data)) && NoOverflow(Parse(data))
    ensures
      var file := Converted(data).value.file;
      && Readable(file) && Converted(file).Some?
      && Converted(file).value == Report(file, Converted(file).value.patched, 0, 0)
      && (Converted(file).value.patched == 0 <==> Fits(Parse(data), Extents(Parse(data))))
  {
    hide AllInBounds;
    hide ExpandRecords;
    hide Parse;
    hide FileImage;
    hide Patch;
    hide PatchCount;
    hide Extent;
    hide SegdefCount;
    hide Usable;
    hide Fits;
    hide AllExplicit;
    ParsedRecords(data);
    var rs := Parse(data);
    var gs, es := Grown(rs), Rewrite(rs).records;
    RewrittenReadsBack(rs);
    PatchKeepsThreads(rs, Extents(rs));
    UsableSplits(rs);
    PatchKeepsUsable(rs, Extents(rs));
    GrownTwice(rs);
    ExpandKeepsSegments(gs, Extents(gs));
    ExpandRecordsIsExplicit(gs);
    ExpandTwice(es);
    forall segment | 0 <= segment < SEGMENTS
      ensures Extent(es, segment) == Extent(gs, segment)
    {
      ExpandKeepsExtent(gs, segment);
    }
    assert Extents(es) == Extents(gs);
    assert Grown(es) == es && GrownCount(es) == GrownCount(gs);
  }

  /** The written file means what the input means, its SEGDEF lengths aside, exactly when every
      target can be made explicit and every frame thread was defined before its use. Then it needs
      no thread to be read. */
  lemma ConversionKeepsMeaning(data: seq<Byte>)
    requires Readable(data) && Converted(data).Some?
    requires Splits(Parse(data)) && NoOverflow(Parse(data))
    ensures
      var rs, written := Parse(data), Parse(Converted(data).value.file);
      && Splits(Grown(rs))
      && ((Splits(written) && Meaning(written).items == Meaning(Grown(rs)).items) <==>
            Usable(rs) && FramesKnown(rs))
      && (Usable(rs) ==> Splits(written) && Meaning(written).tables == NO_THREADS)
  {
    hide AllInBounds;
    hide ExpandRecords;
    hide Parse;
    hide FileImage;
    hide Meaning;
    hide FramesKnown;
    ParsedRecords(data);
    var rs := Parse(data);
    RewrittenReadsBack(rs);
    PatchKeepsUsable(rs, Extents(rs));
    PatchKeepsThreads(rs, Extents(rs));
    MeaningKeptExactly(Grown(rs));
    if Usable(rs) {
      ExpansionKeepsMeaning(Grown(rs));
    }
  }

  /** Short FIXUPP records are enough to exclude overflow. */
  lemma ShortFixupsDoNotOverflow(data: seq<Byte>)
    requires Readable(data)
    requires forall i :: 0 <= i < |Parse(data)| && Parse(data)[i].kind == FIXUPP ==> |Parse(data)[i].payload| <= 39320
    ensures NoOverflow(Parse(data))
  {
    hide AllInBounds;
    hide ExpandRecords;
    ParsedRecords(data);
    var rs := Parse(data);
    var gs := Grown(rs);
    PatchKeepsThreads(rs, Extents(rs));
    forall i | 0 <= i < |gs|
      ensures |gs[i].payload| <= if gs[i].kind == FIXUPP then 39320 else MAX_PAYLOAD
    {
      PatchTouchesOnlyLengths(rs, i);
    }
    ExpansionFits(gs);
  }

  /** Where all targets are usable, the tool keeps step with the format. */
  lemma {:induction false} UsableInStep(rs: seq<Record>)
    requires Usable(rs)
    ensures InStep(rs)
  {
    hide Subrecords;
    hide AllPassed;
    hide AllExpandable;
    if rs != [] {
      var front, last := rs[..|rs| - 1], rs[|rs| - 1];
      UsableInStep(front);
      if last.kind == FIXUPP {
        ExpandableArePassed(Meaning(front).tables, Subrecords(last.payload).value);
      }
    }
  }

  lemma {:induction false} ExpandableArePassed(tables: Tables, subs: seq<Subrecord>)
    requires AllExpandable(tables, subs)
    ensures AllPassed(tables, subs)
    decreases subs
  {
    if subs != [] {
      ExpandableArePassed(Defining(tables, subs[0]), subs[1..]);
    }
  }

  /** What the tool says about a conversion: how many SEGDEF records are shorter than their data, how many
      fixups use threads, and how many FIXUPP records have no fixup. */
  predicate SaysRight(rs: seq<Record>, report: Report)
    requires FixedFieldsPresent(rs)
  {
    && report.patched == |set i: nat | i < |rs| && TooShort(rs, i)|
    && (InStep(rs) ==> report.expanded == AllThreadUses(rs) && report.removed == ThreadRecords(rs))
  }

  /** The conversion succeeds for every list of records that ends with a MODEND record, and counts
      what it does. */
  lemma ConversionCounts(data: seq<Byte>)
    requires Readable(data)
    ensures
      var rs, result := Parse(data), Converted(data);
      && (result.Some? <==> rs != [] && rs[|rs| - 1].kind == MODEND)
      && (result.Some? ==> SaysRight(rs, result.value))
  {
    hide Parse;
    hide AllInBounds;
    hide ExpandRecords;
    hide Patch;
    hide PatchCount;
    hide TooShort;
    ParsedRecords(data);
    var rs := Parse(data);
    GrownCounts(rs);
    PatchKeepsThreads(rs, Extents(rs));
    if InStep(rs) {
      forall i | 0 <= i < |rs|
        ensures Grown(rs)[i].kind == rs[i].kind && (rs[i].kind == FIXUPP ==> Grown(rs)[i] == rs[i])
      {
        PatchTouchesOnlyLengths(rs, i);
      }
      SameCounts(rs, Grown(rs));
      ExpansionCounts(Grown(rs));
    }
  }

  /** Converts the file contents `data[..size]`; reports failure as the tool does. */
  method FixObjFile(data: array<Byte>, size: nat) returns (result: Option<Report>)
    requires size <= data.Length && Readable(data[..size])
    ensures result == Converted(data[..size])
    ensures
      var rs := Parse(data[..size]);
      && (result.Some? <==> rs != [] && rs[|rs| - 1].kind == MODEND)
      && (result.Some? ==> SaysRight(rs, result.value))
  {
    ghost var text := data[..size];
    ConversionCounts(text);
    hide SaysRight;
    hide Parse;
    hide AllInBounds;
    hide ExpandRecords;
    hide Patch;
    hide PatchCount;
    hide Extents;
    hide FileImage;
    var records := ParseRecords(data, size);
    ghost var rs := Parse(text);
    if records.count == 0 {
      return None;
    }
    if records.items[records.count - 1].kind != MODEND {
      return None;
    }
    var sizes := ComputeSegSizes(records);
    var patched := PatchSegdefs(records, sizes);
    PatchKeepsThreads(rs, Extents(rs));
    var file, expanded, removed := ExpandAndWrite(records);
    return Some(Report(file, patched, expanded, removed));
  }

  /** The last steps: expands the patched records, and writes what is left of them. */
  method ExpandAndWrite(records: RecordList) returns (file: seq<Byte>, expanded: nat, removed: nat)
    requires records.Valid() && AllInBounds(records.Contents())
    ensures
      var w := ExpandRecords(records.Contents());
      file == FileImage(w.records) && expanded == w.expanded && removed == w.removed
  {
    hide AllInBounds;
    hide ExpandRecords;
    hide FileImage;
    var expandedRecords := new RecordList();
    expanded, removed := ExpandFixuppThreads(records, expandedRecords);
    var buf := WriteFile(expandedRecords);
    file := buf.data[..buf.len];
  }

  method WriteFile(records: RecordList) returns (buf: ByteBuf)
    requires records.Valid()
    ensures fresh(buf) && buf.Valid() && buf.Contents() == FileImage(records.Contents())
  {
    hide Encode;
    buf := new ByteBuf();
    ghost var rs := records.Contents();
    assert rs[0..] == rs;
    for i := 0 to records.count
      invariant fresh(buf) && fresh(buf.data) && buf.Valid()
      invariant records.Contents() == rs
      invariant buf.Contents() + EncodeAll(rs[i..]) == EncodeAll(rs)
    {
      assert rs[i..][0] == records.items[i] && rs[i..][1..] == rs[i + 1..];
      WriteRecord(buf, records.items[i]);
    }
    var pad := 128 - buf.len % 128;
    if pad < 128 {
      ghost var body := buf.Contents();
      for i := 0 to pad
        invariant fresh(buf) && fresh(buf.data) && buf.Valid()
        invariant buf.Contents() == body + Zeros(i)
      {
        buf.Push(0);
      }
    }
  }
}
