/** The HEXCOM image: loading records into 64K of memory and writing the .COM file. */
module HexLoader {
  import opened Basics
  import opened HexText

  const SECTOR: nat := 128
  const PAD: Byte := 0x1A

  // ---- The image after loading ----

  /** The image with the first `n` bytes of a record stored, each address cut to 16 bits. */
  function Stored(image: seq<Byte>, r: HexRecord, n: nat): (stored: seq<Byte>)
    requires n <= |r.data|
    requires !Overruns(r.address, n, |image|)
    ensures |stored| == |image|
  {
    if n == 0 then image else Stored(image, r, n - 1)[Wrapped(r.address, n - 1) := r.data[n - 1]]
  }

  predicate AllStorable(records: seq<HexRecord>, size: nat)
  {
    forall i :: 0 <= i < |records| ==> !Overruns(records[i].address, |records[i].data|, size)
  }

  function Image(records: seq<HexRecord>, size: nat): (image: seq<Byte>)
    requires AllStorable(records, size)
    ensures |image| == size
  {
    if records == [] then seq(size, i => 0)
    else
      var last := records[|records| - 1];
      Stored(Image(records[..|records| - 1], size), last, |last.data|)
  }

  /** The address of the first record that holds data, or 0. */
  function First(records: seq<HexRecord>): nat
  {
    if !HasData(records) then 0
    else if HasData(records[..|records| - 1]) then First(records[..|records| - 1])
    else records[|records| - 1].address
  }

  predicate HasData(records: seq<HexRecord>)
  {
    records != [] && (HasData(records[..|records| - 1]) || records[|records| - 1].data != [])
  }

  /** The highest address that any record reaches, not cut to 16 bits. */
  function Last(records: seq<HexRecord>): nat
  {
    if records == [] then 0
    else
      var before, r := Last(records[..|records| - 1]), records[|records| - 1];
      if r.data != [] && r.address + |r.data| - 1 > before then r.address + |r.data| - 1 else before
  }

  function Span(records: seq<HexRecord>): nat
  {
    if Last(records) >= First(records) then Last(records) - First(records) + 1 else 0
  }

  function Sectors(span: nat): nat
  {
    (span + SECTOR - 1) / SECTOR
  }

  function SizeOf(span: nat, padded: bool): nat
  {
    if padded then Sectors(span) * SECTOR else span
  }

  function FileSize(records: seq<HexRecord>, padded: bool): nat
  {
    SizeOf(Span(records), padded)
  }

  datatype Outcome = Failed(fault: Fault) | Written(file: seq<Byte>)

  function Min(a: nat, b: nat): nat
  {
    if a < b then a else b
  }

  /** The image with the bytes from `from` up to `to` set to the pad byte. */
  function Filled(image: seq<Byte>, from: nat, to: nat): seq<Byte>
    requires to <= |image|
  {
    if from < to then image[..from] + seq(to - from, i => PAD) + image[to..] else image
  }

  /** The file that holds `span` bytes of the image from `first` on, if it fits. */
  function FileOf(image: seq<Byte>, first: nat, span: nat, padded: bool): Outcome
    requires first < |image|
  {
    var size := SizeOf(span, padded);
    var final := if padded then Filled(image, first + span, Min(first + size, |image|)) else image;
    if size == 0 then Written([])
    else if size > |image| - first then Failed(ImageTooLarge)
    else Written(final[first..first + size])
  }

  function Output(records: seq<HexRecord>, size: nat, padded: bool): Outcome
    requires AllStorable(records, size) && First(records) < size
  {
    FileOf(Image(records, size), First(records), Span(records), padded)
  }

  /** A whole run on the text `text` with an image of `size` bytes; `broken` says that reading
      the text ended with an error instead of its end. */
  function Run(text: seq<Byte>, size: nat, broken: bool, padded: bool): Outcome
    requires 0 < size <= ADDRESS_SPACE
  {
    var scanned := Scan(text, size);
    if scanned.fault.Some? then Failed(scanned.fault.value)
    else if broken then Failed(ReadError)
    else
      FirstInside(text, size, scanned.records);
      Output(scanned.records, size, padded)
  }

  // ---- What a written file holds ----

  /** The last byte that the records put at address `a`, or 0 if none does. */
  function LastByteAt(records: seq<HexRecord>, a: nat): Byte
  {
    if records == [] then 0
    else
      var r := records[|records| - 1];
      if r.address <= a < r.address + |r.data| then r.data[a - r.address]
      else LastByteAt(records[..|records| - 1], a)
  }

  /** Every record lies inside the image, so that no address is cut. */
  predicate AllInside(records: seq<HexRecord>, size: nat)
  {
    forall i :: 0 <= i < |records| && records[i].data != [] ==>
      TPA <= records[i].address && records[i].address + |records[i].data| <= size
  }

  lemma {:induction false} ScannedIsStorable(text: seq<Byte>, size: nat)
    ensures AllStorable(Scan(text, size).records, size)
    ensures forall i :: 0 <= i < |Scan(text, size).records| ==>
      var r := Scan(text, size).records[i];
      r.address < ADDRESS_SPACE && |r.data| < 256 && (r.data != [] ==> TPA <= r.address)
    decreases |text|
  {
    hide Spelled;
    hide Overruns;
    var t := Seek(text);
    if t != [] && t[0] == COLON {
      match ScanRecord(t[1..], size)
      case End =>
      case Bad(_) =>
      case More(records, rest) => ScannedIsStorable(rest, size);
    }
  }

  lemma {:induction false} LastIsReached(records: seq<HexRecord>)
    ensures forall i :: 0 <= i < |records| && records[i].data != [] ==>
      records[i].address + |records[i].data| - 1 <= Last(records)
    ensures HasData(records) ==>
      exists i :: 0 <= i < |records| && records[i].data != [] && records[i].address == First(records)
    ensures HasData(records) <==> exists i :: 0 <= i < |records| && records[i].data != []
    ensures Last(records) > 0 ==>
      exists i :: 0 <= i < |records| && records[i].data != [] && records[i].address + |records[i].data| - 1 == Last(records)
  {
    if records != [] {
      var front, r := records[..|records| - 1], records[|records| - 1];
      LastIsReached(front);
      assert forall i :: 0 <= i < |front| ==> front[i] == records[i];
      assert records[|records| - 1] == r;
    }
  }

  lemma {:induction false} StoredInside(image: seq<Byte>, r: HexRecord, n: nat, a: nat)
    requires n <= |r.data| && r.address + |r.data| <= |image| <= ADDRESS_SPACE && a < |image|
    requires !Overruns(r.address, |r.data|, |image|)
    ensures Stored(image, r, n)[a] == if r.address <= a < r.address + n then r.data[a - r.address] else image[a]
  {
    if n > 0 {
      StoredInside(image, r, n - 1, a);
      assert Wrapped(r.address, n - 1) == r.address + n - 1;
    }
  }

  /** The image holds at every address what was loaded there last. */
  lemma {:induction false} ImageHoldsLast(records: seq<HexRecord>, size: nat, a: nat)
    requires AllStorable(records, size) && AllInside(records, size) && a < size <= ADDRESS_SPACE
    ensures Image(records, size)[a] == LastByteAt(records, a)
  {
    if records != [] {
      var front, r := records[..|records| - 1], records[|records| - 1];
      ImageHoldsLast(front, size, a);
      if r.data != [] {
        StoredInside(Image(front, size), r, |r.data|, a);
      }
    }
  }

  /** What a run that writes a file has accepted. */
  predicate Accepts(text: seq<Byte>, size: nat, records: seq<HexRecord>)
  {
    Scan(text, size) == Scanned(records, None)
  }

  lemma SectorsCover(span: nat)
    ensures span <= Sectors(span) * SECTOR < span + SECTOR
  {
  }

  lemma FirstInside(text: seq<Byte>, size: nat, records: seq<HexRecord>)
    requires Accepts(text, size, records) && 0 < size <= ADDRESS_SPACE
    ensures First(records) < size && First(records) <= Last(records)
    ensures HasData(records) ==> First(records) >= TPA
    ensures AllStorable(records, size)
  {
    hide Scan;
    hide First;
    hide Last;
    hide HasData;
    if !HasData(records) {
      NoDataIsZero(records);
    }
    ScannedIsStorable(text, size);
    LastIsReached(records);
    if HasData(records) {
      var i :| 0 <= i < |records| && records[i].data != [] && records[i].address == First(records);
      assert Wrapped(records[i].address, 0) < size;
    }
  }

  lemma {:induction false} NoDataIsZero(records: seq<HexRecord>)
    requires !HasData(records)
    ensures First(records) == 0 && Last(records) == 0
  {
    if records != [] {
      NoDataIsZero(records[..|records| - 1]);
    }
  }

  /** A file is written exactly when the scan ends without fault, the text was read to its end,
      and the file fits behind the first address; the stored addresses are then never cut. */
  lemma WrittenExactly(text: seq<Byte>, size: nat, broken: bool, padded: bool, records: seq<HexRecord>)
    requires Accepts(text, size, records) && 0 < size <= ADDRESS_SPACE && !broken
    ensures Run(text, size, broken, padded).Written? <==> First(records) + FileSize(records, padded) <= size
    ensures Run(text, size, broken, padded).Written? ==> AllInside(records, size)
  {
    hide Scan;
    FirstInside(text, size, records);
    SectorsCover(Span(records));
    ScannedIsStorable(text, size);
    LastIsReached(records);
  }

  lemma FileOfHolds(image: seq<Byte>, first: nat, span: nat, padded: bool)
    requires 0 < span && first + SizeOf(span, padded) <= |image|
    ensures
      var outcome := FileOf(image, first, span, padded);
      && outcome.Written? && |outcome.file| == SizeOf(span, padded) >= span
      && (forall k :: 0 <= k < span ==> outcome.file[k] == image[first + k])
      && (forall k :: span <= k < |outcome.file| ==> outcome.file[k] == PAD)
  {
    SectorsCover(span);
    var size := SizeOf(span, padded);
    assert size >= span;
    hide SizeOf;
    hide Sectors;
  }

  /** The file holds from the first loaded address on what was loaded last, 0 where nothing was;
      behind the span it is padded to whole sectors. */
  lemma WrittenFile(text: seq<Byte>, size: nat, broken: bool, padded: bool, records: seq<HexRecord>)
    requires Accepts(text, size, records) && 0 < size <= ADDRESS_SPACE
    requires Run(text, size, broken, padded).Written?
    ensures
      var file, span := Run(text, size, broken, padded).file, Span(records);
      && 0 < span <= |file|
      && (if padded then |file| % SECTOR == 0 && |file| < span + SECTOR else |file| == span)
      && (forall k :: 0 <= k < span ==> file[k] == LastByteAt(records, First(records) + k))
      && (forall k :: span <= k < |file| ==> file[k] == PAD)
  {
    hide Scan;
    hide Image;
    hide LastByteAt;
    hide FileOf;
    FirstInside(text, size, records);
    WrittenExactly(text, size, broken, padded, records);
    var first, span := First(records), Span(records);
    SectorsCover(span);
    FileOfHolds(Image(records, size), first, span, padded);
    forall k | 0 <= k < span
      ensures Run(text, size, broken, padded).file[k] == LastByteAt(records, First(records) + k)
    {
      ImageHoldsLast(records, size, first + k);
    }
  }

  /** Whatever records are written as text, in either case of digits and with any junk around
      them, the file made from that text holds them. */
  lemma FileOfText(lines: seq<Line>, records: seq<HexRecord>, tail: seq<Byte>, size: nat, padded: bool)
    requires 0 < size <= ADDRESS_SPACE && Writes(lines, records, size) && Ends(tail)
    requires First(records) + FileSize(records, padded) <= size
    ensures
      var outcome := Run(Text(lines) + tail, size, false, padded);
      && outcome.Written? && |outcome.file| == FileSize(records, padded)
      && forall k :: 0 <= k < Span(records) ==>
           k < |outcome.file| && outcome.file[k] == LastByteAt(records, First(records) + k)
  {
    hide Scan;
    hide Image;
    hide LastByteAt;
    hide Writes;
    hide Ends;
    hide Text;
    hide Run;
    hide First;
    hide Last;
    ScanUndoesText(lines, records, tail, size);
    WrittenExactly(Text(lines) + tail, size, false, padded, records);
    WrittenFile(Text(lines) + tail, size, false, padded, records);
    SectorsCover(Span(records));
  }

  /** The file begins with the first record that has data. */
  lemma {:induction false} FirstIsFirst(records: seq<HexRecord>)
    requires HasData(records)
    ensures exists i :: 0 <= i < |records| && BeginsAt(records, i, First(records))
  {
    var front := records[..|records| - 1];
    if HasData(front) {
      FirstIsFirst(front);
      var i :| 0 <= i < |front| && BeginsAt(front, i, First(front));
      assert BeginsAt(records, i, First(records));
    } else {
      LastIsReached(front);
      assert BeginsAt(records, |records| - 1, First(records));
    }
  }

  predicate BeginsAt(records: seq<HexRecord>, i: nat, first: nat)
  {
    && i < |records| && records[i].data != [] && records[i].address == first
    && forall j :: 0 <= j < i ==> records[j].data == []
  }

  /** Record `i` has data at address `a`, and no later record has. */
  predicate LastAt(records: seq<HexRecord>, i: nat, a: nat)
  {
    && i < |records| && records[i].address <= a < records[i].address + |records[i].data|
    && forall j :: i < j < |records| ==> !(records[j].address <= a < records[j].address + |records[j].data|)
  }

  lemma {:induction false} LastRecordWins(records: seq<HexRecord>, a: nat, i: nat)
    requires LastAt(records, i, a)
    ensures LastByteAt(records, a) == records[i].data[a - records[i].address]
  {
    var front := records[..|records| - 1];
    if i < |front| {
      LastRecordWins(front, a, i);
    }
  }

  lemma {:induction false} NothingThere(records: seq<HexRecord>, a: nat)
    requires forall i :: 0 <= i < |records| ==> !(records[i].address <= a < records[i].address + |records[i].data|)
    ensures LastByteAt(records, a) == 0
  {
    if records != [] {
      NothingThere(records[..|records| - 1], a);
    }
  }

  /** A whole run: two bytes at 0123H, written with digits of either case, become a file of one
      sector. */
  lemma TwoBytes()
    ensures
      Run(Ascii(":02012300AbCd62"), ADDRESS_SPACE, false, true) == Written([0xAB, 0xCD] + seq(126, i => 0x1A))
  {
    hide Scan;
    hide Run;
    hide Text;
    hide LineText;
    hide Digits;
    hide RecordBytes;
    var r, line := HexRecord(0x123, [0xAB, 0xCD]), Line([], Ascii("02012300AbCd62"));
    TwoBytesSpelled();
    TwoBytesMeasured(r);
    TwoBytesText(line);
    ScanUndoesText([line], [r], [], ADDRESS_SPACE);
    FileOfText([line], [r], [], ADDRESS_SPACE, true);
    var text := Ascii(":02012300AbCd62");
    TwoBytesPadded(text, r);
  }

  lemma TwoBytesText(line: Line)
    requires line == Line([], Ascii("02012300AbCd62"))
    ensures Text([line]) + [] == Ascii(":02012300AbCd62") && Ends([])
  {
    assert [line][1..] == [] && Text([]) == [];
    assert LineText(line) == Ascii(":02012300AbCd62");
  }

  lemma TwoBytesSpelled()
    ensures
      var r, digits := HexRecord(0x123, [0xAB, 0xCD]), Ascii("02012300AbCd62");
      Loadable(r, ADDRESS_SPACE) && Digits(digits, RecordBytes(r))
  {
    hide Sum;
    var body: seq<Byte> := [2, 0x01, 0x23, 0] + [0xAB, 0xCD];
    SumFour(2, 0x01, 0x23, 0);
    SumFour(0xAB, 0xCD, 0, 0);
    SumConcat([0xAB, 0xCD], [0, 0]);
    assert [0xAB, 0xCD] + [0, 0] == [0xAB, 0xCD, 0, 0];
    SumFour(0, 0, 0, 0);
    SumConcat([0, 0], [0, 0]);
    assert [0, 0] + [0, 0] == [0, 0, 0, 0];
    SumConcat([2, 0x01, 0x23, 0], [0xAB, 0xCD]);
    var r := HexRecord(0x123, [0xAB, 0xCD]);
    assert RecordBytes(r) == [2, 0x01, 0x23, 0, 0xAB, 0xCD, 0x62];
    TwoBytesDigits();
  }

  lemma TwoBytesDigits()
    ensures Digits(Ascii("02012300AbCd62"), [2, 0x01, 0x23, 0, 0xAB, 0xCD, 0x62])
  {
    FirstDigits();
    OtherDigits();
    hide Digits;
    hide Ascii;
    DigitsConcat(Ascii("020123"), [2, 0x01, 0x23], Ascii("00AbCd62"), [0, 0xAB, 0xCD, 0x62]);
    assert [2, 0x01, 0x23] + [0, 0xAB, 0xCD, 0x62] == [2, 0x01, 0x23, 0, 0xAB, 0xCD, 0x62];
    assert Ascii("020123") + Ascii("00AbCd62") == Ascii("02012300AbCd62");
  }

  lemma FirstDigits()
    ensures Digits(Ascii("020123"), [2, 0x01, 0x23])
  {
    hide Ascii;
  }

  lemma OtherDigits()
    ensures Digits(Ascii("00AbCd62"), [0, 0xAB, 0xCD, 0x62])
  {
    hide Ascii;
  }

  lemma TwoBytesMeasured(r: HexRecord)
    requires r == HexRecord(0x123, [0xAB, 0xCD])
    ensures First([r]) == 0x123 && Span([r]) == 2 && FileSize([r], true) == 128
    ensures LastByteAt([r], 0x123) == 0xAB && LastByteAt([r], 0x124) == 0xCD
  {
    assert [r][..0] == [];
    assert HasData([r]) && First([r]) == 0x123 && Last([r]) == 0x124;
  }

  lemma TwoBytesPadded(text: seq<Byte>, r: HexRecord)
    requires Run(text, ADDRESS_SPACE, false, true).Written? && Accepts(text, ADDRESS_SPACE, [r])
    requires |Run(text, ADDRESS_SPACE, false, true).file| == 128 && r == HexRecord(0x123, [0xAB, 0xCD])
    ensures Run(text, ADDRESS_SPACE, false, true) == Written([0xAB, 0xCD] + seq(126, i => 0x1A))
  {
    hide Scan;
    hide Run;
    hide First;
    hide Span;
    hide LastByteAt;
    TwoBytesMeasured(r);
    WrittenFile(text, ADDRESS_SPACE, false, true, [r]);
    var file := Run(text, ADDRESS_SPACE, false, true).file;
    assert file[0] == LastByteAt([r], 0x123) && file[1] == LastByteAt([r], 0x124);
    assert file == [0xAB, 0xCD] + seq(126, i => 0x1A);
  }

  /** A record that wraps past FFFFH: it is accepted, but no file is written. */
  lemma WrappingIsAccepted()
    ensures
      // The text is ":02FFFF000102FD".
      var text: seq<Byte> := [0x3A, 0x30, 0x32, 0x46, 0x46, 0x46, 0x46, 0x30, 0x30, 0x30, 0x31, 0x30, 0x32, 0x46, 0x44];
      && Accepts(text, ADDRESS_SPACE, [HexRecord(0xFFFF, [1, 2])])
      && Run(text, ADDRESS_SPACE, false, false).Failed?
  {
    hide Digits;
    hide Scan;
    var digits: seq<Byte> := [0x30, 0x32, 0x46, 0x46, 0x46, 0x46, 0x30, 0x30, 0x30, 0x31, 0x30, 0x32, 0x46, 0x44];
    var bytes: seq<Byte> := [0x02, 0xFF, 0xFF, 0x00, 0x01, 0x02, 0xFD];
    var r := HexRecord(0xFFFF, [1, 2]);
    WrappingIsSpelled();
    WrappingHasNoFault();
    ScanLine(Line([], digits), bytes, [], ADDRESS_SPACE);
    ScanEnds([], ADDRESS_SPACE);
    var text: seq<Byte> := [0x3A, 0x30, 0x32, 0x46, 0x46, 0x46, 0x46, 0x30, 0x30, 0x30, 0x31, 0x30, 0x32, 0x46, 0x44];
    assert LineText(Line([], digits)) + [] == [COLON] + digits == text && [r] + [] == [r];
    assert bytes[4..6] == r.data;
    WrappingDoesNotFit(text, r);
  }

  lemma WrappingIsSpelled()
    ensures
      var digits: seq<Byte> := [0x30, 0x32, 0x46, 0x46, 0x46, 0x46, 0x30, 0x30, 0x30, 0x31, 0x30, 0x32, 0x46, 0x44];
      Digits(digits, [0x02, 0xFF, 0xFF, 0x00, 0x01, 0x02, 0xFD])
  {
    WrappingHead();
    WrappingTail();
    hide Digits;
    var head, tail: seq<Byte> := [0x30, 0x32, 0x46, 0x46, 0x46, 0x46, 0x30, 0x30], [0x30, 0x31, 0x30, 0x32, 0x46, 0x44];
    DigitsConcat(head, [0x02, 0xFF, 0xFF, 0x00], tail, [0x01, 0x02, 0xFD]);
    assert head + tail == [0x30, 0x32, 0x46, 0x46, 0x46, 0x46, 0x30, 0x30, 0x30, 0x31, 0x30, 0x32, 0x46, 0x44];
    assert [0x02, 0xFF, 0xFF, 0x00] + [0x01, 0x02, 0xFD] == [0x02, 0xFF, 0xFF, 0x00, 0x01, 0x02, 0xFD];
  }

  lemma WrappingHead()
    ensures Digits([0x30, 0x32, 0x46, 0x46, 0x46, 0x46, 0x30, 0x30], [0x02, 0xFF, 0xFF, 0x00])
  {
  }

  lemma WrappingTail()
    ensures Digits([0x30, 0x31, 0x30, 0x32, 0x46, 0x44], [0x01, 0x02, 0xFD])
  {
  }

  lemma WrappingDoesNotFit(text: seq<Byte>, r: HexRecord)
    requires r.address == 0xFFFF && |r.data| == 2 && Accepts(text, ADDRESS_SPACE, [r])
    ensures Run(text, ADDRESS_SPACE, false, false).Failed?
  {
    hide Scan;
    hide Output;
    assert [r][..0] == [] && First([r]) == 0xFFFF && Last([r]) == 0x1_0000;
    WrittenExactly(text, ADDRESS_SPACE, false, false, [r]);
  }

  lemma WrappingHasNoFault()
    ensures
      var bytes: seq<Byte> := [0x02, 0xFF, 0xFF, 0x00, 0x01, 0x02, 0xFD];
      && RecordFault(bytes[..4], Some(bytes[4..]), ADDRESS_SPACE) == None
      && bytes[3] == 0 && Address(bytes[..4]) == 0xFFFF && |bytes| == Length(bytes[..4]) + 5
  {
    hide Sum;
    var head, bytes: seq<Byte> := [0x02, 0xFF, 0xFF, 0x00], [0x02, 0xFF, 0xFF, 0x00, 0x01, 0x02, 0xFD];
    SumFour(0x02, 0xFF, 0xFF, 0x00);
    SumFour(0x01, 0x02, 0xFD, 0x00);
    SumConcat([0x01, 0x02, 0xFD], [0x00]);
    SumOne(0x00);
    assert [0x01, 0x02, 0xFD] + [0x00] == [0x01, 0x02, 0xFD, 0x00];
    SumConcat(head, [0x01, 0x02, 0xFD]);
    assert bytes[..4] == head && bytes[4..] == [0x01, 0x02, 0xFD];
  }

  // ---- The program ----

  /** A source of characters; reading past its end yields -1. */
  class Source {
    const text: seq<Byte>
    var pos: nat

    ghost predicate Valid()
      reads this
    {
      pos <= |text|
    }

    ghost function Rest(): seq<Byte>
      reads this
      requires Valid()
    {
      text[pos..]
    }

    constructor (text: seq<Byte>)
      ensures Valid() && Rest() == text
    {
      this.text, pos := text, 0;
    }

    method GetChar() returns (c: int)
      requires Valid()
      modifies this
      ensures Valid()
      ensures old(Rest()) == [] ==> c == -1 && Rest() == []
      ensures old(Rest()) != [] ==> c == old(Rest())[0] && Rest() == old(Rest())[1..]
    {
      if pos == |text| {
        return -1;
      }
      c := text[pos];
      pos := pos + 1;
    }

    /** Reads one byte, given as two hex digits. */
    method ReadByte() returns (b: Byte, ok: bool)
      requires Valid()
      modifies this
      ensures Valid()
      ensures ok == Spelled(old(Rest()), 1).Some?
      ensures ok ==> [b] == Spelled(old(Rest()), 1).value && Rest() == old(Rest())[2..]
    {
      var c1 := GetChar();
      if c1 == -1 {
        return 0, false;
      }
      var c2 := GetChar();
      var hi, lo := HexVal(c1), HexVal(c2);
      if hi < 0 || lo < 0 {
        return 0, false;
      }
      return 16 * hi + lo, true;
    }

    /** Reads `n` bytes, each given as two hex digits. */
    method ReadBytes(n: nat) returns (bytes: seq<Byte>, ok: bool)
      requires Valid()
      modifies this
      ensures Valid()
      ensures ok == Spelled(old(Rest()), n).Some?
      ensures ok ==> bytes == Spelled(old(Rest()), n).value && Rest() == old(Rest())[2 * n..]
    {
      hide Spelled;
      bytes := [];
      ghost var start := Rest();
      SpelledNone(start);
      for i := 0 to n
        invariant Valid()
        invariant Spelled(start, i) == Some(bytes) && Rest() == start[2 * i..]
      {
        SpelledMore(start, i, n);
        var b, valid := ReadByte();
        if !valid {
          return [], false;
        }
        bytes := bytes + [b];
      }
      return bytes, true;
    }
  }

  lemma SpelledNone(s: seq<Byte>)
    ensures Spelled(s, 0) == Some([])
  {
  }

  lemma {:induction false} SpelledMore(s: seq<Byte>, i: nat, n: nat)
    requires i < n && Spelled(s, i).Some?
    ensures
      var next := Spelled(s[2 * i..], 1);
      && Spelled(s, i + 1) == (if next.Some? then Some(Spelled(s, i).value + next.value) else None)
      && (next.None? ==> Spelled(s, n).None?)
  {
    if i > 0 {
      SpelledMore(s[2..], i - 1, n - 1);
      assert s[2..][2 * (i - 1)..] == s[2 * i..];
      var next := Spelled(s[2 * i..], 1);
      if next.Some? {
        assert Spelled(s, i).value + next.value == [Spelled(s, i).value[0]] + (Spelled(s[2..], i - 1).value + next.value);
      }
    } else {
      assert s[0..] == s;
      var next := Spelled(s, 1);
      assert next.Some? ==> [] + next.value == next.value;
    }
  }

  method SumBytes(start: nat, bytes: seq<Byte>) returns (sum: nat)
    ensures sum == start + Sum(bytes)
  {
    sum := start;
    for i := 0 to |bytes|
      invariant sum == start + Sum(bytes[..i])
    {
      assert bytes[..i + 1][..i] == bytes[..i];
      sum := sum + bytes[i];
    }
    assert bytes[..|bytes|] == bytes;
  }

  /** The records in front of `rest` are `done`, and the scan goes on there. */
  ghost predicate ScannedUpTo(text: seq<Byte>, rest: seq<Byte>, size: nat, done: seq<HexRecord>)
  {
    && Scan(text, size) == Scan(rest, size).(records := done + Scan(rest, size).records)
    && AllStorable(done, size)
  }

  lemma ScanStep(text: seq<Byte>, rest: seq<Byte>, size: nat, done: seq<HexRecord>)
    requires ScannedUpTo(text, rest, size, done)
    ensures
      var t := Seek(rest);
      if t == [] || t[0] != COLON then Scan(text, size) == Scanned(done, None)
      else
        var step := ScanRecord(t[1..], size);
        if step.More? then ScannedUpTo(text, step.rest, size, done + step.records)
        else Scan(text, size) == Scanned(done, if step.Bad? then Some(step.fault) else None)
  {
    hide Spelled;
    hide Overruns;
    hide Sum;
  }

  /** The memory image and the addresses that the record loop keeps up to date. */
  class Loader {
    const image: array<Byte>
    var firstAddr: nat
    var lastAddr: nat
    var haveFirst: bool

    /** The state that loading `records` leaves. */
    ghost predicate Holds(records: seq<HexRecord>)
      reads this, image
      requires AllStorable(records, image.Length)
    {
      && image[..] == Image(records, image.Length)
      && haveFirst == HasData(records)
      && (haveFirst ==> firstAddr == First(records))
      && lastAddr == Last(records)
    }

    constructor (size: nat)
      ensures image.Length == size && fresh(image) && Holds([])
    {
      image := new Byte[size](i => 0);
      firstAddr, lastAddr, haveFirst := 0, 0, false;
    }

    method SeekColon(source: Source) returns (c: int)
      requires source.Valid()
      modifies source
      ensures source.Valid()
      ensures Seek(old(source.Rest())) == if c == -1 then [] else [c] + source.Rest()
      ensures c == -1 || c == COLON || c == END_OF_TEXT
    {
      c := source.GetChar();
      while c != COLON && c != -1 && c != END_OF_TEXT
        invariant source.Valid()
        invariant c == -1 || 0 <= c < 256
        invariant Seek(old(source.Rest())) == if c == -1 then [] else Seek([c] + source.Rest())
        decreases if c == -1 then 0 else 1 + |source.Rest()|
      {
        ghost var rest := source.Rest();
        assert ([c] + rest)[1..] == rest;
        c := source.GetChar();
        assert rest != [] ==> rest == [rest[0]] + rest[1..];
      }
    }

    /** Stores the data of `r` and moves the last address up to its end. */
    method Store(r: HexRecord) returns (ok: bool)
      modifies this`lastAddr, image
      ensures ok == !Overruns(r.address, |r.data|, image.Length)
      ensures ok ==> image[..] == Stored(old(image[..]), r, |r.data|)
      ensures
        ok && (r.data == [] || r.address + |r.data| - 1 <= old(lastAddr)) ==> lastAddr == old(lastAddr)
      ensures
        ok && r.data != [] && r.address + |r.data| - 1 > old(lastAddr) ==> lastAddr == r.address + |r.data| - 1
    {
      ghost var before := image[..];
      for i := 0 to |r.data|
        invariant !Overruns(r.address, i, image.Length)
        invariant image[..] == Stored(before, r, i)
        invariant lastAddr == old(lastAddr)
      {
        var masked := (r.address + i) % ADDRESS_SPACE;
        assert masked == Wrapped(r.address, i);
        if masked >= image.Length {
          return false;
        }
        image[masked] := r.data[i];
      }
      if r.data != [] && r.address + |r.data| - 1 > lastAddr {
        lastAddr := r.address + |r.data| - 1;
      }
      return true;
    }

    /** Reads the data and checksum behind a header, and checks the sum. */
    method ReadBody(source: Source, header: seq<Byte>) returns (data: seq<Byte>, fault: Option<Fault>)
      requires source.Valid() && |header| == 4
      modifies source
      ensures source.Valid()
      ensures
        var body := Spelled(old(source.Rest()), Length(header) + 1);
        if body.None? then fault == Some(BadDigit)
        else if Sum(header + body.value) % 256 != 0 then fault == Some(BadChecksum)
        else fault == None && data == body.value[..Length(header)] &&
             source.Rest() == old(source.Rest())[2 * (Length(header) + 1)..]
    {
      hide Spelled;
      hide Sum;
      ghost var s := source.Rest();
      var count := Length(header);
      var sum: nat := SumBytes(0, header);
      var ok;
      data, ok := source.ReadBytes(count);
      if !ok {
        SpelledShort(s, count);
        return data, Some(BadDigit);
      }
      SpelledMore(s, count, count + 1);
      sum := SumBytes(sum, data);
      var check;
      check, ok := source.ReadByte();
      if !ok {
        return data, Some(BadDigit);
      }
      sum := sum + check;
      SumOfParts(header, data, check);
      if sum % 256 != 0 {
        return data, Some(BadChecksum);
      }
      assert s[2 * count..][2..] == s[2 * (count + 1)..];
      return data, None;
    }

    /** Reads and stores the record behind a colon. */
    method LoadRecord(source: Source, ghost done: seq<HexRecord>) returns (step: Step)
      requires source.Valid() && AllStorable(done, image.Length) && Holds(done)
      modifies source, this, image
      ensures source.Valid()
      ensures step == ScanRecord(old(source.Rest()), image.Length)
      ensures step.More? ==> source.Rest() == step.rest
      ensures step.More? ==> AllStorable(done + step.records, image.Length) && Holds(done + step.records)
      ensures step.End? ==> Holds(done)
    {
      hide Spelled;
      hide Sum;
      hide Overruns;
      hide Image;
      hide HasData;
      hide First;
      hide Last;
      hide Stored;
      var header, ok := source.ReadBytes(4);
      if !ok {
        return Bad(BadDigit);
      }
      if header[3] == 1 {
        return End;
      }
      if header[3] != 0 {
        assert done + [] == done;
        return More([], source.text[source.pos..]);
      }
      var count, address := Length(header), Address(header);
      if count > 0 && address < TPA {
        return Bad(LowAddress);
      }
      if count > 0 && !haveFirst {
        firstAddr, haveFirst := address, true;
      }
      var data, fault := ReadBody(source, header);
      if fault.Some? {
        return Bad(fault.value);
      }
      var r := HexRecord(address, data);
      ok := Store(r);
      if !ok {
        return Bad(TooHigh);
      }
      LoadedSnoc(done, r, image.Length);
      return More([r], source.text[source.pos..]);
    }

    /** Loads all records; without a fault, the image holds them. */
    method Load(source: Source) returns (fault: Option<Fault>, ghost records: seq<HexRecord>)
      requires source.Valid() && Holds([])
      modifies source, this, image
      ensures Scan(old(source.Rest()), image.Length).fault == fault
      ensures fault == None ==>
        records == Scan(old(source.Rest()), image.Length).records &&
        AllStorable(records, image.Length) && Holds(records)
    {
      hide Scan;
      hide Seek;
      hide ScanRecord;
      records := [];
      ghost var text := source.Rest();
      ScanStarts(text, image.Length);
      while true
        invariant source.Valid() && ScannedUpTo(text, source.Rest(), image.Length, records)
        invariant Holds(records)
        decreases |source.Rest()|
      {
        ghost var rest := source.Rest();
        ScanStep(text, rest, image.Length, records);
        SeekShortens(rest);
        var c := SeekColon(source);
        if c != COLON {
          return None, records;
        }
        assert Seek(rest)[1..] == source.Rest();
        var step := LoadRecord(source, records);
        RecordShortens(Seek(rest)[1..], image.Length);
        match step
        case Bad(found) => return Some(found), records;
        case End => return None, records;
        case More(accepted, _) => records := records + accepted;
      }
    }

    method Pad(from: nat, end: nat)
      modifies image
      ensures from < end <= image.Length ==> image[..] == Filled(old(image[..]), from, end)
      ensures end <= from ==> image[..] == old(image[..])
    {
      forall a | from <= a < end && a < image.Length {
        image[a] := PAD;
      }
    }

    /** Pads the image behind the span and cuts the file out of it. */
    method WriteSpan(span: nat, padded: bool) returns (outcome: Outcome)
      requires firstAddr < image.Length
      modifies image
      ensures outcome == FileOf(old(image[..]), firstAddr, span, padded)
    {
      var sectors := (span + SECTOR - 1) / SECTOR;
      var size := if padded then sectors * SECTOR else span;
      assert size == SizeOf(span, padded);
      hide SizeOf;
      if padded {
        var padEnd := firstAddr + size;
        if padEnd > image.Length {
          padEnd := image.Length;
        }
        Pad(firstAddr + span, padEnd);
      }
      if size == 0 {
        return Written([]);
      }
      if size > image.Length - firstAddr {
        return Failed(ImageTooLarge);
      }
      return Written(image[..][firstAddr..firstAddr + size]);
    }

    method Write(padded: bool, ghost records: seq<HexRecord>) returns (outcome: Outcome)
      requires AllStorable(records, image.Length) && Holds(records)
      requires First(records) < image.Length
      modifies this, image
      ensures outcome == Output(records, image.Length, padded)
    {
      hide Image;
      hide HasData;
      hide First;
      hide Last;
      if !haveFirst {
        NoDataIsZero(records);
        firstAddr, lastAddr := 0, 0;
      }
      var span := if lastAddr >= firstAddr then lastAddr - firstAddr + 1 else 0;
      hide FileOf;
      outcome := WriteSpan(span, padded);
    }
  }

  lemma LoadedSnoc(done: seq<HexRecord>, r: HexRecord, size: nat)
    requires AllStorable(done, size) && !Overruns(r.address, |r.data|, size)
    ensures
      var records := done + [r];
      && AllStorable(records, size)
      && Image(records, size) == Stored(Image(done, size), r, |r.data|)
      && HasData(records) == (HasData(done) || r.data != [])
      && First(records) == (if HasData(done) then First(done) else if r.data != [] then r.address else 0)
      && Last(records) ==
         (if r.data != [] && r.address + |r.data| - 1 > Last(done) then r.address + |r.data| - 1 else Last(done))
  {
    hide Overruns;
    hide Stored;
    assert (done + [r])[..|done|] == done;
  }

  lemma {:induction false} SpelledShort(s: seq<Byte>, n: nat)
    requires Spelled(s, n).None?
    ensures Spelled(s, n + 1).None?
  {
    if |s| >= 2 && n > 0 && HexVal(s[0]) >= 0 && HexVal(s[1]) >= 0 {
      SpelledShort(s[2..], n - 1);
    }
  }

  lemma SumOfParts(header: seq<Byte>, data: seq<Byte>, check: Byte)
    ensures Sum(header + (data + [check])) == Sum(header) + Sum(data) + check
  {
    hide Sum;
    SumConcat(data, [check]);
    SumConcat(header, data + [check]);
    SumOne(check);
  }

  lemma ScanStarts(text: seq<Byte>, size: nat)
    ensures ScannedUpTo(text, text, size, [])
  {
    assert [] + Scan(text, size).records == Scan(text, size).records;
  }

  lemma SeekShortens(s: seq<Byte>)
    ensures |Seek(s)| <= |s|
  {
  }

  lemma RecordShortens(s: seq<Byte>, size: nat)
    ensures var step := ScanRecord(s, size); step.More? ==> |step.rest| <= |s|
  {
  }

  /** A run of the program on `text`. */
  method Convert(text: seq<Byte>, size: nat, broken: bool, padded: bool) returns (outcome: Outcome)
    requires 0 < size <= ADDRESS_SPACE
    ensures outcome == Run(text, size, broken, padded)
  {
    hide Scan;
    hide Image;
    var source := new Source(text);
    var loader := new Loader(size);
    var fault;
    ghost var records;
    fault, records := loader.Load(source);
    if fault.Some? {
      return Failed(fault.value);
    }
    if broken {
      return Failed(ReadError);
    }
    FirstInside(text, size, records);
    outcome := loader.Write(padded, records);
  }
}
