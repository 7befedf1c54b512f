/** The OMF record stream as the object fixer reads and writes it. */
module OmfFormat {

  import opened Basics

  const SEGDEF: Byte := 0x98
  const LEDATA: Byte := 0xA0
  const FIXUPP: Byte := 0x9C
  const MODEND: Byte := 0x8A
  const END_OF_FILE: Byte := 0x1A

  // The length field counts the checksum, so one byte less is left for the payload.
  const MAX_PAYLOAD: nat := 65534

  datatype Record = Record(kind: Byte, payload: seq<Byte>)

  /** The records found in `data`: scanning stops at the module end, at a 1AH byte in place
      of a record, or at a record that runs past the end of the data. */
  function Parse(data: seq<Byte>): (rs: seq<Record>)
    decreases |data|
  {
    if |data| < 3 || data[0] == END_OF_FILE then []
    else
      var length := Word(data[1], data[2]);
      var end := 3 + length;
      if end > |data| then []
      else
        var record := Record(data[0], data[3..if length > 0 then end - 1 else 3]);
        if record.kind == MODEND then [record] else [record] + Parse(data[end..])
  }

  function Header(r: Record): seq<Byte>
  {
    var length := |r.payload| + 1;
    [r.kind, length % 256, length / 256 % 256]
  }

  /** The byte that makes a record sum to zero modulo 256. */
  function Checksum(s: seq<Byte>): Byte
  {
    Negated(Sum(s) % 256)
  }

  function Encode(r: Record): seq<Byte>
  {
    Header(r) + r.payload + [Checksum(Header(r) + r.payload)]
  }

  function EncodeAll(rs: seq<Record>): seq<Byte>
  {
    if rs == [] then [] else Encode(rs[0]) + EncodeAll(rs[1..])
  }

  /** What a record list must satisfy for its encoding to be read back. */
  predicate Writable(rs: seq<Record>)
  {
    forall i :: 0 <= i < |rs| ==>
      && |rs[i].payload| <= MAX_PAYLOAD
      && rs[i].kind != END_OF_FILE
      && (rs[i].kind == MODEND ==> i == |rs| - 1)
  }

  predicate EndsModule(rs: seq<Record>)
  {
    rs != [] && rs[|rs| - 1].kind == MODEND
  }

  // ---- Sums and concatenations ----

  /** Every written record sums to zero modulo 256. */
  lemma EncodeSumsToZero(r: Record)
    ensures Sum(Encode(r)) % 256 == 0
  {
    var body := Header(r) + r.payload;
    SumConcat(body, [Checksum(body)]);
    assert Sum([Checksum(body)]) == Checksum(body) by {
      assert [Checksum(body)][..0] == [];
    }
  }

  // ---- Reading back what was written ----

  lemma ParseUnfold(data: seq<Byte>, length: nat)
    requires |data| >= 3 && data[0] != END_OF_FILE
    requires length == Word(data[1], data[2]) && 3 + length <= |data|
    ensures
      Parse(data) ==
      [Record(data[0], data[3..if length > 0 then 2 + length else 3])] +
      if data[0] == MODEND then [] else Parse(data[3 + length..])
  {
  }

  lemma ParseEncoded(r: Record, tail: seq<Byte>)
    requires r.kind != END_OF_FILE && |r.payload| <= MAX_PAYLOAD
    ensures Parse(Encode(r) + tail) == [r] + if r.kind == MODEND then [] else Parse(tail)
  {
    var data := Encode(r) + tail;
    var length := |r.payload| + 1;
    assert Word(data[1], data[2]) == length;
    assert data[3..3 + length - 1] == r.payload;
    assert data[3 + length..] == tail;
  }

  /** A list that ends its module is read back exactly, whatever follows it. */
  lemma {:induction false} ParseUndoesEncode(rs: seq<Record>, tail: seq<Byte>)
    requires Writable(rs) && EndsModule(rs)
    ensures Parse(EncodeAll(rs) + tail) == rs
  {
    var rest := EncodeAll(rs[1..]) + tail;
    assert EncodeAll(rs) + tail == Encode(rs[0]) + rest;
    ParseEncoded(rs[0], rest);
    if |rs| > 1 {
      ParseUndoesEncode(rs[1..], tail);
    }
  }

  lemma ParsedRecords(data: seq<Byte>)
    ensures Writable(Parse(data))
  {
  }

  lemma ParseUnreadable(r: Record, tail: seq<Byte>)
    requires r.kind == END_OF_FILE || |r.payload| > MAX_PAYLOAD
    ensures var rs := Parse(Encode(r) + tail); rs == [] || rs[0] != r
  {
    ParsedRecords(Encode(r) + tail);
  }

  lemma WritableCons(r: Record, rs: seq<Record>)
    ensures
      Writable([r] + rs) <==>
        && |r.payload| <= MAX_PAYLOAD && r.kind != END_OF_FILE && (r.kind == MODEND ==> rs == [])
        && Writable(rs)
  {
    var all := [r] + rs;
    assert all[0] == r && forall i :: 0 <= i < |rs| ==> rs[i] == all[i + 1];
  }

  /** Without padding, exactly the writable lists are read back as they were written. */
  lemma {:induction false} RoundTripExactly(rs: seq<Record>)
    ensures Parse(EncodeAll(rs)) == rs <==> Writable(rs)
  {
    if rs != [] {
      var r, rest := rs[0], rs[1..];
      assert rs == [r] + rest;
      WritableCons(r, rest);
      if r.kind == END_OF_FILE || |r.payload| > MAX_PAYLOAD {
        ParseUnreadable(r, EncodeAll(rest));
      } else {
        ParseEncoded(r, EncodeAll(rest));
        RoundTripExactly(rest);
        hide Parse;
        hide Writable;
        hide Encode;
      }
    }
  }

  // ---- Writing back what was read ----

  /** Every record of `data` up to the module end carries a length that counts its checksum,
      and the checksum is right. */
  predicate Checked(data: seq<Byte>)
    decreases |data|
  {
    if |data| < 3 || data[0] == END_OF_FILE then true
    else
      var length := Word(data[1], data[2]);
      if 3 + length > |data| then true
      else
        && length > 0
        && Sum(data[..3 + length]) % 256 == 0
        && (data[0] == MODEND || Checked(data[3 + length..]))
  }

  lemma EncodeParsed(data: seq<Byte>, length: nat)
    requires |data| >= 3 && length == Word(data[1], data[2]) && 0 < length && 3 + length <= |data|
    requires Sum(data[..3 + length]) % 256 == 0
    ensures Encode(Record(data[0], data[3..2 + length])) == data[..3 + length]
  {
    var r := Record(data[0], data[3..2 + length]);
    var body := Header(r) + r.payload;
    assert body == data[..2 + length];
    var last := data[2 + length];
    assert data[..3 + length] == body + [last];
    SumConcat(body, [last]);
    assert Sum([last]) == last by {
      assert [last][..0] == [];
    }
    assert Checksum(body) == last;
  }

  /** Writing the parsed records reproduces the bytes they were read from. */
  lemma {:induction false} EncodeUndoesParse(data: seq<Byte>)
    requires Checked(data)
    ensures EncodeAll(Parse(data)) <= data
    decreases |data|
  {
    var rs := Parse(data);
    if rs != [] {
      var length := Word(data[1], data[2]);
      EncodeParsed(data, length);
      if data[0] != MODEND {
        EncodeUndoesParse(data[3 + length..]);
        assert rs[1..] == Parse(data[3 + length..]);
      }
      assert data == data[..3 + length] + data[3 + length..];
    }
  }

  // ---- Padding ----

  function Padding(size: nat): nat
  {
    if size % 128 == 0 then 0 else 128 - size % 128
  }

  function Zeros(n: nat): (z: seq<Byte>)
    ensures |z| == n
    ensures forall i :: 0 <= i < n ==> z[i] == 0
  {
    seq(n, i => 0)
  }

  /** The written file: the records, then zeros up to a CP/M record boundary. */
  function FileImage(rs: seq<Record>): seq<Byte>
  {
    var body := EncodeAll(rs);
    body + Zeros(Padding(|body|))
  }

  lemma PaddingIsLeast(n: nat, size: nat)
    ensures (n + Padding(n)) % 128 == 0
    ensures n <= size && size % 128 == 0 ==> n + Padding(n) <= size
  {
    var q, r := n / 128, n % 128;
    assert n == 128 * q + r;
    assert n + Padding(n) == 128 * (if r == 0 then q else q + 1);
  }

  /** The file is the shortest one of whole 128-byte records that holds the encoding. */
  lemma FileLengthIsLeast(rs: seq<Record>, size: nat)
    ensures |FileImage(rs)| % 128 == 0 && EncodeAll(rs) <= FileImage(rs)
    ensures |EncodeAll(rs)| <= size && size % 128 == 0 ==> |FileImage(rs)| <= size
  {
    PaddingIsLeast(|EncodeAll(rs)|, size);
  }

  lemma ParseFileImage(rs: seq<Record>)
    requires Writable(rs) && EndsModule(rs)
    ensures Parse(FileImage(rs)) == rs
  {
    ParseUndoesEncode(rs, Zeros(Padding(|EncodeAll(rs)|)));
  }
}
