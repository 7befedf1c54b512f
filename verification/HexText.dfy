/** Intel HEX text as HEXCOM scans it. */
module HexText {
  import opened Basics

  const COLON: Byte := 0x3A
  const END_OF_TEXT: Byte := 0x1A
  const TPA: nat := 0x100
  const ADDRESS_SPACE: nat := 0x1_0000

  datatype HexRecord = HexRecord(address: nat, data: seq<Byte>)

  datatype Fault = BadDigit | LowAddress | BadChecksum | TooHigh | ReadError | ImageTooLarge

  datatype Scanned = Scanned(records: seq<HexRecord>, fault: Option<Fault>)

  function HexVal(c: int): (v: int)
    ensures -1 <= v < 16
  {
    if 0x30 <= c <= 0x39 then c - 0x30
    else if 0x41 <= c <= 0x46 then c - 0x41 + 10
    else if 0x61 <= c <= 0x66 then c - 0x61 + 10
    else -1
  }

  const UPPER := "0123456789ABCDEF"
  const LOWER := "0123456789abcdef"

  /** `c` is the hexadecimal digit for `d`, in either case. */
  predicate IsDigit(c: int, d: int)
  {
    0 <= d < 16 && (c == UPPER[d] as int || c == LOWER[d] as int)
  }

  /** Every digit has its value, and no other character has one. */
  lemma HexDigits(c: int)
    ensures forall d :: 0 <= d < 16 ==> (HexVal(c) == d <==> IsDigit(c, d))
    ensures HexVal(c) == -1 <==> forall d :: !IsDigit(c, d)
  {
    if HexVal(c) >= 0 {
      assert IsDigit(c, HexVal(c));
    }
  }

  /** The bytes that the first `2 * n` characters of `s` spell, if they are all digits. */
  function Spelled(s: seq<Byte>, n: nat): (r: Option<seq<Byte>>)
    ensures r.Some? ==> |r.value| == n && 2 * n <= |s|
  {
    if n == 0 then Some([])
    else if |s| < 2 || HexVal(s[0]) < 0 || HexVal(s[1]) < 0 then None
    else
      match Spelled(s[2..], n - 1)
      case None => None
      case Some(bytes) => Some([16 * HexVal(s[0]) + HexVal(s[1])] + bytes)
  }

  /** The text from the next colon or end mark on. */
  function Seek(s: seq<Byte>): (t: seq<Byte>)
    ensures |t| <= |s|
  {
    if s == [] || s[0] == COLON || s[0] == END_OF_TEXT then s else Seek(s[1..])
  }

  function Length(header: seq<Byte>): nat
    requires |header| == 4
  {
    header[0]
  }

  function Address(header: seq<Byte>): (a: nat)
    requires |header| == 4
    ensures a < ADDRESS_SPACE
  {
    Word(header[2], header[1])
  }

  /** The fault of a record with address `address`, found before any of it is stored. */
  function RecordFault(header: seq<Byte>, body: Option<seq<Byte>>, size: nat): Option<Fault>
    requires |header| == 4
    requires body.Some? ==> |body.value| == Length(header) + 1
  {
    if Length(header) > 0 && Address(header) < TPA then Some(LowAddress)
    else if body.None? then Some(BadDigit)
    else if Sum(header + body.value) % 256 != 0 then Some(BadChecksum)
    else if Overruns(Address(header), Length(header), size) then Some(TooHigh)
    else None
  }

  /** Some byte of the record has an address, cut to 16 bits, outside the image. */
  predicate Overruns(address: nat, count: nat, size: nat)
  {
    exists i :: 0 <= i < count && Wrapped(address, i) >= size
  }

  function Wrapped(address: nat, i: nat): nat
  {
    (address + i) % ADDRESS_SPACE
  }

  datatype Step = More(records: seq<HexRecord>, rest: seq<Byte>) | End | Bad(fault: Fault)

  /** What the scan does with the record at the front of `s`, which begins behind its colon. */
  function ScanRecord(s: seq<Byte>, size: nat): (step: Step)
    ensures step.More? ==> |step.rest| <= |s|
  {
    match Spelled(s, 4)
    case None => Bad(BadDigit)
    case Some(header) =>
      if header[3] == 1 then End
      else if header[3] != 0 then More([], s[8..])
      else
        var n := Length(header);
        var body := Spelled(s[8..], n + 1);
        match RecordFault(header, body, size)
        case Some(fault) => Bad(fault)
        case None => More([HexRecord(Address(header), body.value[..n])], s[8..][2 * (n + 1)..])
  }

  /** The data records that a run accepts, in order, and the fault that ends it, if any. */
  function Scan(s: seq<Byte>, size: nat): Scanned
    decreases |s|
  {
    var t := Seek(s);
    if t == [] || t[0] != COLON then Scanned([], None)
    else
      match ScanRecord(t[1..], size)
      case End => Scanned([], None)
      case Bad(fault) => Scanned([], Some(fault))
      case More(records, rest) =>
        var tail := Scan(rest, size);
        tail.(records := records + tail.records)
  }

  // ---- Text that a writer may produce ----

  predicate Junk(s: seq<Byte>)
  {
    COLON !in s && END_OF_TEXT !in s
  }

  /** `digits` spells `bytes`, each digit in either case. */
  predicate Digits(digits: seq<Byte>, bytes: seq<Byte>)
  {
    |digits| == 2 * |bytes| &&
    forall i :: 0 <= i < |bytes| ==>
      IsDigit(digits[2 * i], bytes[i] / 16) && IsDigit(digits[2 * i + 1], bytes[i] % 16)
  }

  /** The bytes of a data record: length, address, type, data and checksum. */
  function RecordBytes(r: HexRecord): seq<Byte>
    requires r.address < ADDRESS_SPACE && |r.data| < 256
  {
    var body: seq<Byte> := [|r.data|, r.address / 256, r.address % 256, 0] + r.data;
    body + [Negated(Sum(body) % 256)]
  }

  /** A record that the image of `size` bytes can take. */
  predicate Loadable(r: HexRecord, size: nat)
  {
    && r.address < ADDRESS_SPACE && |r.data| < 256
    && (r.data != [] ==> TPA <= r.address && r.address + |r.data| <= size)
  }

  /** A piece of text: junk, a colon, and the digits of a record. */
  datatype Line = Line(junk: seq<Byte>, digits: seq<Byte>)

  function Text(lines: seq<Line>): seq<Byte>
  {
    if lines == [] then []
    else LineText(lines[0]) + Text(lines[1..])
  }

  function LineText(line: Line): seq<Byte>
  {
    line.junk + [COLON] + line.digits
  }

  function Code(c: char): Byte
  {
    c as int % 256
  }

  /** The bytes of a text of ASCII characters. */
  function Ascii(text: string): (bytes: seq<Byte>)
    ensures |bytes| == |text| && forall i :: 0 <= i < |text| ==> bytes[i] == text[i] as int % 256
  {
    seq(|text|, i requires 0 <= i < |text| => Code(text[i]))
  }

  /** What may follow the last record: nothing, an end mark, or an end-of-file record, with any
      text behind it. */
  predicate Ends(tail: seq<Byte>)
  {
    var t := Seek(tail);
    t == [] || t[0] == END_OF_TEXT || (Spelled(t[1..], 4).Some? && Spelled(t[1..], 4).value[3] == 1)
  }

  // ---- The round trip ----

  lemma {:induction false} SeekPastJunk(junk: seq<Byte>, s: seq<Byte>)
    requires Junk(junk)
    ensures Seek(junk + s) == Seek(s)
  {
    if junk == [] {
      assert junk + s == s;
    } else {
      SeekPastJunk(junk[1..], s);
      assert (junk + s)[1..] == junk[1..] + s;
      assert junk[0] in junk;
    }
  }

  lemma {:induction false} SpelledDigits(digits: seq<Byte>, bytes: seq<Byte>, rest: seq<Byte>)
    requires Digits(digits, bytes)
    ensures Spelled(digits + rest, |bytes|) == Some(bytes)
  {
    hide HexVal;
    hide IsDigit;
    if bytes != [] {
      var s := digits + rest;
      assert Digits(digits[2..], bytes[1..]) by {
        forall i | 0 <= i < |bytes[1..]|
          ensures IsDigit(digits[2..][2 * i], bytes[1..][i] / 16)
          ensures IsDigit(digits[2..][2 * i + 1], bytes[1..][i] % 16)
        {
          assert digits[2..][2 * i] == digits[2 * (i + 1)];
          assert digits[2..][2 * i + 1] == digits[2 * (i + 1) + 1];
        }
      }
      SpelledDigits(digits[2..], bytes[1..], rest);
      assert s[2..] == digits[2..] + rest;
      assert digits[0] == digits[2 * 0] && digits[1] == digits[2 * 0 + 1];
      HexDigits(s[0]);
      HexDigits(s[1]);
      assert HexVal(s[0]) == bytes[0] / 16 && HexVal(s[1]) == bytes[0] % 16;
      assert bytes == [bytes[0]] + bytes[1..];
    }
  }

  lemma DigitsAt(digits: seq<Byte>, bytes: seq<Byte>, n: nat)
    requires Digits(digits, bytes) && n <= |bytes|
    ensures Digits(digits[..2 * n], bytes[..n]) && Digits(digits[2 * n..], bytes[n..])
  {
    forall i | 0 <= i < |bytes| - n
      ensures IsDigit(digits[2 * n..][2 * i], bytes[n..][i] / 16)
      ensures IsDigit(digits[2 * n..][2 * i + 1], bytes[n..][i] % 16)
    {
      assert digits[2 * n..][2 * i] == digits[2 * (i + n)];
      assert digits[2 * n..][2 * i + 1] == digits[2 * (i + n) + 1];
    }
  }

  /** One step of the scan: the line at the front of the text. */
  lemma ScanFirst(line: Line, rest: seq<Byte>, size: nat)
    requires Junk(line.junk)
    ensures
      var scanned, step := Scan(LineText(line) + rest, size), ScanRecord(line.digits + rest, size);
      && (step.End? ==> scanned == Scanned([], None))
      && (step.Bad? ==> scanned == Scanned([], Some(step.fault)))
      && (step.More? ==>
            scanned == Scan(step.rest, size).(records := step.records + Scan(step.rest, size).records))
  {
    hide ScanRecord;
    var t := [COLON] + line.digits + rest;
    assert LineText(line) + rest == line.junk + t;
    SeekPastJunk(line.junk, t);
    assert Seek(t) == t && t[1..] == line.digits + rest;
  }

  /** What the scan makes of a line with any record bytes of type 0. */
  lemma ScanLine(line: Line, bytes: seq<Byte>, rest: seq<Byte>, size: nat)
    requires Junk(line.junk) && Digits(line.digits, bytes)
    requires |bytes| >= 5 && bytes[3] == 0 && |bytes| == Length(bytes[..4]) + 5
    ensures
      var scanned, tail, fault := Scan(LineText(line) + rest, size), Scan(rest, size),
                                  RecordFault(bytes[..4], Some(bytes[4..]), size);
      scanned ==
      if fault.Some? then Scanned([], fault)
      else tail.(records := [HexRecord(Address(bytes[..4]), bytes[4..|bytes| - 1])] + tail.records)
  {
    hide Scan;
    hide ScanRecord;
    hide RecordFault;
    ScanFirst(line, rest, size);
    RecordOfDigits(line.digits, bytes, rest, size);
  }

  lemma RecordOfDigits(digits: seq<Byte>, bytes: seq<Byte>, rest: seq<Byte>, size: nat)
    requires Digits(digits, bytes)
    requires |bytes| >= 5 && bytes[3] == 0 && |bytes| == Length(bytes[..4]) + 5
    ensures
      ScanRecord(digits + rest, size) ==
      match RecordFault(bytes[..4], Some(bytes[4..]), size)
      case Some(fault) => Bad(fault)
      case None => More([HexRecord(Address(bytes[..4]), bytes[4..|bytes| - 1])], rest)
  {
    hide Spelled;
    hide Sum;
    hide Overruns;
    var s := digits + rest;
    assert s == digits[..8] + (digits[8..] + rest);
    DigitsAt(digits, bytes, 4);
    SpelledDigits(digits[..8], bytes[..4], digits[8..] + rest);
    assert s[8..] == digits[8..] + rest;
    SpelledDigits(digits[8..], bytes[4..], rest);
    assert s[8..][|digits[8..]|..] == rest;
    assert bytes[4..][..Length(bytes[..4])] == bytes[4..|bytes| - 1];
  }

  lemma RecordBytesSum(r: HexRecord)
    requires r.address < ADDRESS_SPACE && |r.data| < 256
    ensures Sum(RecordBytes(r)) % 256 == 0
  {
    hide Sum;
    var body: seq<Byte> := [|r.data|, r.address / 256, r.address % 256, 0] + r.data;
    var last := Negated(Sum(body) % 256);
    SumConcat(body, [last]);
    SumOne(last);
  }

  predicate Writes(lines: seq<Line>, records: seq<HexRecord>, size: nat)
  {
    |lines| == |records| &&
    forall i :: 0 <= i < |lines| ==>
      Loadable(records[i], size) && Junk(lines[i].junk) && Digits(lines[i].digits, RecordBytes(records[i]))
  }

  lemma LoadableHasNoFault(r: HexRecord, size: nat)
    requires Loadable(r, size) && size <= ADDRESS_SPACE
    ensures
      var bytes := RecordBytes(r);
      && RecordFault(bytes[..4], Some(bytes[4..]), size) == None
      && Address(bytes[..4]) == r.address && bytes[4..|bytes| - 1] == r.data
  {
    hide Sum;
    var bytes := RecordBytes(r);
    RecordBytesSum(r);
    assert bytes[..4] + bytes[4..] == bytes;
    assert bytes[4..|bytes| - 1] == r.data;
  }

  /** Every list of loadable records, however it is spelled, is scanned as that list. */
  lemma {:induction false} ScanUndoesText(lines: seq<Line>, records: seq<HexRecord>, tail: seq<Byte>, size: nat)
    requires size <= ADDRESS_SPACE && Writes(lines, records, size) && Ends(tail)
    ensures Scan(Text(lines) + tail, size) == Scanned(records, None)
  {
    hide Scan;
    hide RecordFault;
    hide LineText;
    hide Digits;
    if lines == [] {
      ScanEnds(tail, size);
      assert Text(lines) + tail == tail;
    } else {
      var bytes, rest := RecordBytes(records[0]), Text(lines[1..]) + tail;
      ScanUndoesText(lines[1..], records[1..], tail, size);
      LoadableHasNoFault(records[0], size);
      ScanLine(lines[0], bytes, rest, size);
      assert Text(lines) + tail == LineText(lines[0]) + rest;
      assert records == [records[0]] + records[1..];
    }
  }

  lemma ScanEnds(tail: seq<Byte>, size: nat)
    requires Ends(tail)
    ensures Scan(tail, size) == Scanned([], None)
  {
  }

  // ---- Corruption ----

  /** One address, data or checksum byte of the record is `v` instead of its right value. */
  predicate Corrupts(bytes: seq<Byte>, k: nat, v: Byte)
  {
    k < |bytes| && k != 0 && k != 3 && bytes[k] != v
  }

  lemma {:induction false} SumUpdate(s: seq<Byte>, k: nat, v: Byte)
    requires k < |s|
    ensures Sum(s[k := v]) == Sum(s) - s[k] + v
  {
    var u, n := s[k := v], |s| - 1;
    if k == n {
      assert u[..n] == s[..n];
    } else {
      SumUpdate(s[..n], k, v);
      assert u[..n] == s[..n][k := v];
    }
  }

  lemma CorruptedHasFault(r: HexRecord, k: nat, v: Byte, size: nat)
    requires Loadable(r, size) && Corrupts(RecordBytes(r), k, v)
    ensures
      var bytes := RecordBytes(r)[k := v];
      |bytes| == Length(bytes[..4]) + 5 && bytes[3] == 0 && RecordFault(bytes[..4], Some(bytes[4..]), size).Some?
  {
    hide Sum;
    hide Overruns;
    var right := RecordBytes(r);
    var bytes := right[k := v];
    RecordBytesSum(r);
    SumUpdate(right, k, v);
    assert bytes[..4] + bytes[4..] == bytes;
    ModDiffers(Sum(right), right[k], v);
  }

  lemma ModDiffers(sum: int, was: Byte, now: Byte)
    requires sum % 256 == 0 && was != now
    ensures (sum - was + now) % 256 != 0
  {
  }

  /** A text in which one record has one wrong byte is never accepted: the records before it are
      read, and then the run ends with a fault. */
  lemma {:induction false} CorruptionIsFound(lines: seq<Line>, records: seq<HexRecord>, bad: Line, r: HexRecord,
                                             k: nat, v: Byte, rest: seq<Byte>, size: nat)
    requires size <= ADDRESS_SPACE && Writes(lines, records, size)
    requires Loadable(r, size) && Corrupts(RecordBytes(r), k, v)
    requires Junk(bad.junk) && Digits(bad.digits, RecordBytes(r)[k := v])
    ensures
      var scanned := Scan(Text(lines) + (LineText(bad) + rest), size);
      scanned.records == records && scanned.fault.Some?
  {
    hide Scan;
    hide Digits;
    hide RecordFault;
    hide LineText;
    var t := LineText(bad) + rest;
    if lines == [] {
      CorruptedHasFault(r, k, v, size);
      ScanLine(bad, RecordBytes(r)[k := v], rest, size);
      assert Text(lines) + t == t;
    } else {
      var after := Text(lines[1..]) + t;
      CorruptionIsFound(lines[1..], records[1..], bad, r, k, v, rest, size);
      LoadableHasNoFault(records[0], size);
      ScanLine(lines[0], RecordBytes(records[0]), after, size);
      assert Text(lines) + t == LineText(lines[0]) + after;
      assert records == [records[0]] + records[1..];
    }
  }

  /** A wrong type byte, by contrast, is not found. Type 1 ends the scan as if the text ended there;
      with any other type the record is skipped without a look at its checksum. */
  lemma WrongTypeIsNotFound(line: Line, bytes: seq<Byte>, rest: seq<Byte>, size: nat)
    requires Junk(line.junk) && Digits(line.digits, bytes)
    requires |bytes| >= 5 && bytes[3] != 0
    ensures Scan(LineText(line) + rest, size) == if bytes[3] == 1 then Scanned([], None) else Scan(rest, size)
  {
    hide Scan;
    hide Spelled;
    hide RecordFault;
    hide LineText;
    var d := line.digits;
    ScanFirst(line, rest, size);
    DigitsAt(d, bytes, 4);
    assert d + rest == d[..8] + (d[8..] + rest) && (d + rest)[8..] == d[8..] + rest;
    SpelledDigits(d[..8], bytes[..4], d[8..] + rest);
    ScanPastDigits(d[8..], bytes[4..], rest, size);
    assert [] + Scan(rest, size).records == Scan(rest, size).records;
  }

  /** A length byte that is too small is found exactly when the bytes up to the supposed checksum do
      not sum to zero. Otherwise the data is cut and the rest of the record skipped. */
  lemma ShorterLength(line: Line, r: HexRecord, v: Byte, rest: seq<Byte>, size: nat)
    requires size <= ADDRESS_SPACE && Loadable(r, size) && v < |r.data|
    requires Junk(line.junk) && Digits(line.digits, RecordBytes(r)[0 := v])
    ensures
      var scanned, tail := Scan(LineText(line) + rest, size), Scan(rest, size);
      if Sum(RecordBytes(r)[0 := v][..v + 5]) % 256 != 0 then scanned == Scanned([], Some(BadChecksum))
      else scanned == tail.(records := [HexRecord(r.address, r.data[..v])] + tail.records)
  {
    var bytes, d, n := RecordBytes(r)[0 := v], line.digits, 2 * (v + 5);
    assert |d| == 2 * |bytes| && |bytes| == |r.data| + 5;
    hide Scan;
    hide Sum;
    hide Digits;
    hide LineText;
    hide RecordFault;
    hide Loadable;
    hide RecordBytes;
    DigitsAt(d, bytes, v + 5);
    ScanPastDigits(d[n..], bytes[v + 5..], rest, size);
    ShorterHasFault(r, v, size);
    LineCut(line, n, rest);
    ScanLine(Line(line.junk, d[..n]), bytes[..v + 5], d[n..] + rest, size);
  }

  lemma ScanPastDigits(digits: seq<Byte>, bytes: seq<Byte>, rest: seq<Byte>, size: nat)
    requires Digits(digits, bytes)
    ensures Scan(digits + rest, size) == Scan(rest, size)
  {
    hide Scan;
    DigitsAreJunk(digits, bytes);
    SeekPastJunk(digits, rest);
    ScanFromSeek(digits + rest, rest, size);
  }

  lemma LineCut(line: Line, n: nat, rest: seq<Byte>)
    requires n <= |line.digits|
    ensures LineText(line) + rest == LineText(Line(line.junk, line.digits[..n])) + (line.digits[n..] + rest)
  {
    assert line.digits == line.digits[..n] + line.digits[n..];
  }

  /** The data bytes FEH and 00H at 0100H, with a length of 1 for 2. */
  lemma ShorterMayPass()
    ensures
      var r := HexRecord(0x100, [0xFE, 0x00]);
      Loadable(r, ADDRESS_SPACE) && Sum(RecordBytes(r)[0 := 1][..6]) % 256 == 0
  {
    hide Sum;
    var bytes := RecordBytes(HexRecord(0x100, [0xFE, 0x00]))[0 := 1];
    SumFour(0x01, 0x01, 0x00, 0x00);
    SumConcat([0x01, 0x01, 0x00, 0x00], [0xFE]);
    SumConcat([0x01, 0x01, 0x00, 0x00, 0xFE], [0x00]);
    SumOne(0xFE);
    SumOne(0x00);
    assert [0x01, 0x01, 0x00, 0x00] + [0xFE] == [0x01, 0x01, 0x00, 0x00, 0xFE];
    assert bytes[..6] == [0x01, 0x01, 0x00, 0x00, 0xFE] + [0x00];
  }

  lemma ShorterHasFault(r: HexRecord, v: Byte, size: nat)
    requires size <= ADDRESS_SPACE && Loadable(r, size) && v < |r.data|
    ensures
      var bytes := RecordBytes(r)[0 := v][..v + 5];
      && bytes[3] == 0 && |bytes| == Length(bytes[..4]) + 5 && Address(bytes[..4]) == r.address
      && bytes[4..|bytes| - 1] == r.data[..v]
      && RecordFault(bytes[..4], Some(bytes[4..]), size) == if Sum(bytes) % 256 != 0 then Some(BadChecksum) else None
  {
    hide Sum;
    hide Overruns;
    var bytes := RecordBytes(r)[0 := v][..v + 5];
    ShorterFits(r, v, size);
    hide Loadable;
    var head: seq<Byte> := [v, r.address / 256, r.address % 256, 0];
    assert bytes[..4] == head && Length(head) == v && Address(head) == r.address;
    assert |bytes| == v + 5 && bytes[4..v + 4] == r.data[..v];
    assert bytes[..4] + bytes[4..] == bytes;
  }

  lemma ShorterFits(r: HexRecord, v: Byte, size: nat)
    requires size <= ADDRESS_SPACE && Loadable(r, size) && v < |r.data|
    ensures !Overruns(r.address, v, size) && r.address >= TPA
  {
  }

  lemma ScanFromSeek(s: seq<Byte>, t: seq<Byte>, size: nat)
    requires Seek(s) == Seek(t)
    ensures Scan(s, size) == Scan(t, size)
  {
    hide ScanRecord;
  }

  /** What is loaded if the `more` bytes behind a record are taken for the rest of it. */
  function Longer(r: HexRecord, v: Byte, more: seq<Byte>): HexRecord
    requires r.address < ADDRESS_SPACE && |r.data| < v && |more| == v - |r.data|
  {
    HexRecord(r.address, (RecordBytes(r) + more)[4..v + 4])
  }

  /** A length byte that is too large is found when there are not as many digits behind the record.
      Otherwise they are taken for data and checksum, and the record is accepted exactly when they
      sum to minus the surplus and its addresses are those of the image. */
  lemma LongerLength(line: Line, r: HexRecord, v: Byte, rest: seq<Byte>, size: nat)
    requires Loadable(r, size) && v > |r.data|
    requires Junk(line.junk) && Digits(line.digits, RecordBytes(r)[0 := v])
    ensures
      var scanned, surplus := Scan(LineText(line) + rest, size), v - |r.data|;
      var more := Spelled(rest, surplus);
      if more.Some? && (surplus + Sum(more.value)) % 256 == 0 && r.address >= TPA && !Overruns(r.address, v, size) then
        var tail := Scan(rest[2 * surplus..], size);
        scanned == tail.(records := [Longer(r, v, more.value)] + tail.records)
      else scanned.records == [] && scanned.fault.Some?
  {
    var wrong := RecordBytes(r)[0 := v];
    hide *;
    var more := Spelled(rest, v - |r.data|);
    if more.None? {
      LongerIsFound(line, r, v, wrong, rest, size);
    } else {
      LongerIsTaken(line, r, v, wrong, more.value, rest, size);
    }
  }

  lemma LongerIsFound(line: Line, r: HexRecord, v: Byte, wrong: seq<Byte>, rest: seq<Byte>, size: nat)
    requires Loadable(r, size) && v > |r.data| && Spelled(rest, v - |r.data|).None?
    requires wrong == RecordBytes(r)[0 := v] && Junk(line.junk) && Digits(line.digits, wrong)
    ensures Scan(LineText(line) + rest, size).records == [] && Scan(LineText(line) + rest, size).fault.Some?
  {
    hide *;
    ScanFirst(line, rest, size);
    LongerIsBad(line.digits, r, v, rest, size);
  }

  lemma LongerIsTaken(line: Line, r: HexRecord, v: Byte, wrong: seq<Byte>, more: seq<Byte>, rest: seq<Byte>, size: nat)
    requires Loadable(r, size) && v > |r.data| && Spelled(rest, v - |r.data|) == Some(more)
    requires wrong == RecordBytes(r)[0 := v] && Junk(line.junk) && Digits(line.digits, wrong)
    ensures
      var scanned, surplus := Scan(LineText(line) + rest, size), v - |r.data|;
      if (surplus + Sum(more)) % 256 == 0 && r.address >= TPA && !Overruns(r.address, v, size) then
        var tail := Scan(rest[2 * surplus..], size);
        scanned == tail.(records := [Longer(r, v, more)] + tail.records)
      else scanned.records == [] && scanned.fault.Some?
  {
    hide *;
    var all := LongerFault(r, v, more, size);
    LineTakesMore(line, wrong, more, all, rest, size);
  }

  /** A line whose record goes on in the digits behind it. */
  lemma LineTakesMore(line: Line, bytes: seq<Byte>, more: seq<Byte>, all: seq<Byte>, rest: seq<Byte>, size: nat)
    requires Junk(line.junk) && Digits(line.digits, bytes) && Spelled(rest, |more|) == Some(more)
    requires all == bytes + more && |all| >= 5 && all[3] == 0 && |all| == Length(all[..4]) + 5
    ensures
      var scanned, tail := Scan(LineText(line) + rest, size), Scan(rest[2 * |more|..], size);
      var fault := RecordFault(all[..4], Some(all[4..]), size);
      scanned ==
      if fault.Some? then Scanned([], fault)
      else tail.(records := [HexRecord(Address(all[..4]), all[4..|all| - 1])] + tail.records)
  {
    hide Scan;
    hide Digits;
    hide Spelled;
    hide LineText;
    hide RecordFault;
    var n := 2 * |more|;
    var digits := rest[..n];
    SpelledIsDigits(rest, |more|);
    DigitsConcat(line.digits, bytes, digits, more);
    LineGrows(line, digits, rest, n);
    ScanLine(Line(line.junk, line.digits + digits), all, rest[n..], size);
  }

  lemma LineGrows(line: Line, digits: seq<Byte>, rest: seq<Byte>, n: nat)
    requires n <= |rest| && digits == rest[..n]
    ensures LineText(line) + rest == LineText(Line(line.junk, line.digits + digits)) + rest[n..]
  {
    assert rest == digits + rest[n..];
  }

  lemma LongerFault(r: HexRecord, v: Byte, more: seq<Byte>, size: nat) returns (all: seq<Byte>)
    requires Loadable(r, size) && v > |r.data| && |more| == v - |r.data|
    ensures all == RecordBytes(r)[0 := v] + more && |all| == v + 5 && all[3] == 0 && Length(all[..4]) == v
    ensures HexRecord(Address(all[..4]), all[4..|all| - 1]) == Longer(r, v, more)
    ensures RecordFault(all[..4], Some(all[4..]), size) == None <==>
      (v - |r.data| + Sum(more)) % 256 == 0 && r.address >= TPA && !Overruns(r.address, v, size)
  {
    hide Sum;
    hide Overruns;
    var right := RecordBytes(r);
    all := right[0 := v] + more;
    RecordBytesSum(r);
    SumUpdate(right, 0, v);
    SumConcat(right[0 := v], more);
    assert all[..4] + all[4..] == all;
    assert all[4..|all| - 1] == (right + more)[4..v + 4];
    SurplusSum(Sum(right), |r.data|, v, Sum(more));
  }

  lemma SurplusSum(sum: int, was: int, now: int, more: int)
    requires sum % 256 == 0
    ensures (sum - was + now + more) % 256 == (now - was + more) % 256
  {
  }

  lemma DigitsConcat(digits: seq<Byte>, bytes: seq<Byte>, more: seq<Byte>, others: seq<Byte>)
    requires Digits(digits, bytes) && Digits(more, others)
    ensures Digits(digits + more, bytes + others)
  {
    forall i | 0 <= i < |bytes + others|
      ensures IsDigit((digits + more)[2 * i], (bytes + others)[i] / 16)
      ensures IsDigit((digits + more)[2 * i + 1], (bytes + others)[i] % 16)
    {
      if i >= |bytes| {
        var j := i - |bytes|;
        assert (digits + more)[2 * i] == more[2 * j] && (digits + more)[2 * i + 1] == more[2 * j + 1];
      }
    }
  }

  lemma {:induction false} SpelledIsDigits(s: seq<Byte>, n: nat)
    requires Spelled(s, n).Some?
    ensures Digits(s[..2 * n], Spelled(s, n).value)
  {
    assert Digits([], []);
    if n == 0 {
      assert s[..0] == [];
    } else {
      SpelledFirst(s, n);
      hide *;
      var bytes := Spelled(s, n).value;
      SpelledIsDigits(s[2..], n - 1);
      OneByte(s[0], s[1]);
      assert s[..2] == [s[0], s[1]];
      DigitsConcat(s[..2], [bytes[0]], s[2..][..2 * (n - 1)], bytes[1..]);
      Halves(s, 2, 2 * n);
      assert bytes == [bytes[0]] + bytes[1..];
    }
  }

  lemma SpelledFirst(s: seq<Byte>, n: nat)
    requires n > 0 && Spelled(s, n).Some?
    ensures |s| >= 2 * n && |Spelled(s, n).value| == n && HexVal(s[0]) >= 0 && HexVal(s[1]) >= 0
    ensures Spelled(s, n).value[0] == 16 * HexVal(s[0]) + HexVal(s[1])
    ensures Spelled(s[2..], n - 1) == Some(Spelled(s, n).value[1..])
  {
    hide HexVal;
  }

  lemma Halves(s: seq<Byte>, k: nat, n: nat)
    requires k <= n <= |s|
    ensures s[..n] == s[..k] + s[k..][..n - k]
  {
  }

  lemma OneByte(high: Byte, low: Byte)
    requires HexVal(high) >= 0 && HexVal(low) >= 0
    ensures Digits([high, low], [16 * HexVal(high) + HexVal(low)])
  {
    HexDigits(high);
    HexDigits(low);
    hide IsDigit;
  }

  /** One data byte at 0100H with a length of 2, and FFH behind its checksum. */
  lemma LongerMayPass()
    ensures
      var r := HexRecord(0x100, [0x00]);
      var more := Spelled([0x46, 0x46], 1);
      && Loadable(r, ADDRESS_SPACE) && more.Some? && (1 + Sum(more.value)) % 256 == 0
      && r.address >= TPA && !Overruns(r.address, 2, ADDRESS_SPACE)
  {
    var text: seq<Byte> := [0x46, 0x46];
    SpelledDigits(text, [255], []);
    assert text + [] == text;
    SumOne(255);
  }

  lemma LongerIsBad(digits: seq<Byte>, r: HexRecord, v: Byte, rest: seq<Byte>, size: nat)
    requires Loadable(r, size) && v > |r.data| && Spelled(rest, v - |r.data|).None?
    requires Digits(digits, RecordBytes(r)[0 := v])
    ensures ScanRecord(digits + rest, size).Bad?
  {
    assert r.address < ADDRESS_SPACE && |r.data| < 256;
    hide *;
    RecordShape(r, v);
    var bytes := RecordBytes(r)[0 := v];
    HeaderSpelled(digits, bytes, rest);
    SpelledNeedsRest(digits[8..], bytes[4..], rest, v - |r.data|);
    NoBodyIsBad(digits + rest, bytes[..4], size);
  }

  lemma RecordShape(r: HexRecord, v: Byte)
    requires r.address < ADDRESS_SPACE && |r.data| < 256
    ensures
      var right := RecordBytes(r);
      |right| == |r.data| + 5 && right[0 := v][3] == 0 && right[0 := v][0] == v && Length(right[0 := v][..4]) == v
  {
    hide Sum;
  }

  lemma HeaderSpelled(digits: seq<Byte>, bytes: seq<Byte>, rest: seq<Byte>)
    requires Digits(digits, bytes) && |bytes| >= 4
    ensures |digits| >= 8 && Digits(digits[8..], bytes[4..])
    ensures Spelled(digits + rest, 4) == Some(bytes[..4]) && (digits + rest)[8..] == digits[8..] + rest
  {
    hide Spelled;
    DigitsAt(digits, bytes, 4);
    assert digits + rest == digits[..8] + (digits[8..] + rest);
    SpelledDigits(digits[..8], bytes[..4], digits[8..] + rest);
  }

  lemma NoBodyIsBad(s: seq<Byte>, header: seq<Byte>, size: nat)
    requires |header| == 4 && Spelled(s, 4) == Some(header) && header[3] == 0 && Spelled(s[8..], Length(header) + 1).None?
    ensures ScanRecord(s, size).Bad?
  {
    hide Spelled;
  }

  lemma {:induction false} SpelledNeedsRest(digits: seq<Byte>, bytes: seq<Byte>, rest: seq<Byte>, n: nat)
    requires Digits(digits, bytes) && Spelled(rest, n).None?
    ensures Spelled(digits + rest, |bytes| + n).None?
  {
    hide HexVal;
    hide IsDigit;
    if bytes == [] {
      assert digits + rest == rest;
    } else {
      DigitsAt(digits, bytes, 1);
      SpelledNeedsRest(digits[2..], bytes[1..], rest, n);
      assert (digits + rest)[2..] == digits[2..] + rest;
    }
  }

  lemma DigitsAreJunk(digits: seq<Byte>, bytes: seq<Byte>)
    requires Digits(digits, bytes)
    ensures Junk(digits)
  {
    forall j | 0 <= j < |digits|
      ensures digits[j] != COLON && digits[j] != END_OF_TEXT
    {
      var i := j / 2;
      assert IsDigit(digits[2 * i], bytes[i] / 16) && IsDigit(digits[2 * i + 1], bytes[i] % 16);
      assert j == 2 * i || j == 2 * i + 1;
    }
  }
}
