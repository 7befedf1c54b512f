/** The growable byte and record buffers of the object fixer, and its reader and writer. */
module OmfBuffers {
  import opened Basics
  import opened OmfFormat

  /** A byte buffer whose storage doubles when it is full; its capacity is `data.Length`. */
  class ByteBuf {
    var data: array<Byte>
    var len: nat

    ghost predicate Valid()
      reads this
    {
      len <= data.Length
    }

    ghost function Contents(): seq<Byte>
      reads this, data
      requires Valid()
    {
      data[..len]
    }

    constructor ()
      ensures Valid() && fresh(data)
      ensures Contents() == []
    {
      data, len := new Byte[0], 0;
    }

    method Reserve(extra: nat)
      requires Valid()
      modifies this`data
      ensures Valid() && (data == old(data) || fresh(data))
      ensures len + extra <= data.Length
      ensures Contents() == old(Contents())
    {
      if len + extra <= data.Length {
        return;
      }
      var capacity := if data.Length != 0 then 2 * data.Length else 256;
      while capacity < len + extra
        invariant capacity > 0
      {
        capacity := 2 * capacity;
      }
      var grown := new Byte[capacity];
      forall i | 0 <= i < len {
        grown[i] := data[i];
      }
      data := grown;
    }

    method Append(bytes: seq<Byte>)
      requires Valid()
      modifies this, data
      ensures Valid() && (data == old(data) || fresh(data))
      ensures Contents() == old(Contents()) + bytes
    {
      Reserve(|bytes|);
      forall i | 0 <= i < |bytes| {
        data[len + i] := bytes[i];
      }
      len := len + |bytes|;
    }

    method Push(byte: Byte)
      requires Valid()
      modifies this, data
      ensures Valid() && (data == old(data) || fresh(data))
      ensures Contents() == old(Contents()) + [byte]
    {
      Append([byte]);
    }
  }

  /** A growable list of records. A record owns its payload: pushing copies it. */
  class RecordList {
    var items: array<Record>
    var count: nat

    ghost predicate Valid()
      reads this
    {
      count <= items.Length
    }

    ghost function Contents(): seq<Record>
      reads this, items
      requires Valid()
    {
      items[..count]
    }

    constructor ()
      ensures Valid() && fresh(items)
      ensures Contents() == []
    {
      items, count := new Record[0], 0;
    }

    method Push(kind: Byte, payload: seq<Byte>)
      requires Valid()
      modifies this, items
      ensures Valid() && (items == old(items) || fresh(items))
      ensures Contents() == old(Contents()) + [Record(kind, payload)]
    {
      if count == items.Length {
        var grown := new Record[if count != 0 then 2 * count else 16];
        forall i | 0 <= i < count {
          grown[i] := items[i];
        }
        items := grown;
      }
      items[count] := Record(kind, payload);
      count := count + 1;
    }
  }

  method ParseRecords(data: array<Byte>, len: nat) returns (records: RecordList)
    requires len <= data.Length
    ensures fresh(records) && fresh(records.items) && records.Valid()
    ensures records.Contents() == Parse(data[..len])
  {
    hide Parse;
    hide ParsedUpTo;
    records := new RecordList();
    ghost var all, done := data[..len], [];
    ParseStarts(all);
    var pos := 0;
    while pos < len
      invariant pos <= len
      invariant fresh(records) && fresh(records.items) && records.Valid()
      invariant records.Contents() == done
      invariant pos <= |all| && ParsedUpTo(all, pos, done)
    {
      if pos + 3 > len {
        break;
      }
      var kind := data[pos];
      if kind == END_OF_FILE {
        break;
      }
      var length := Word(data[pos + 1], data[pos + 2]);
      var end := pos + 3 + length;
      if end > len {
        break;
      }
      // The last byte of the counted length is the checksum.
      var size := if length > 0 then length - 1 else 0;
      var payload := data[pos + 3..pos + 3 + size];
      assert payload == all[pos + 3..pos + 3 + size];
      ParseNext(all, pos, done);
      records.Push(kind, payload);
      done := done + [Record(kind, payload)];
      if kind == MODEND {
        pos := len;
        break;
      }
      pos := end;
    }
    ParseStops(all, pos, done);
  }

  /** The records in front of position `pos` are `done`, and the scan goes on there. */
  ghost predicate ParsedUpTo(all: seq<Byte>, pos: nat, done: seq<Record>)
  {
    pos <= |all| && Parse(all) == done + Parse(all[pos..])
  }

  lemma ParseStarts(all: seq<Byte>)
    ensures ParsedUpTo(all, 0, [])
  {
    assert all[0..] == all;
  }

  lemma ParseAt(all: seq<Byte>, pos: nat)
    requires pos + 3 <= |all| && all[pos] != END_OF_FILE
    requires pos + 3 + Word(all[pos + 1], all[pos + 2]) <= |all|
    ensures
      var length := Word(all[pos + 1], all[pos + 2]);
      var size := if length > 0 then length - 1 else 0;
      Parse(all[pos..]) ==
      [Record(all[pos], all[pos + 3..pos + 3 + size])] +
      if all[pos] == MODEND then [] else Parse(all[pos + 3 + length..])
  {
    hide Parse;
    var length := Word(all[pos + 1], all[pos + 2]);
    var rest := all[pos..];
    ParseUnfold(rest, length);
    SliceOfDrop(all, pos, 3, if length > 0 then 2 + length else 3);
    SliceOfDrop(all, pos, 3 + length, |rest|);
  }

  lemma SliceOfDrop<T>(s: seq<T>, pos: nat, i: nat, j: nat)
    requires pos <= |s| && i <= j <= |s| - pos
    ensures s[pos..][i..j] == s[pos + i..pos + j]
    ensures s[pos..][i..] == s[pos + i..]
  {
  }

  lemma ParseNext(all: seq<Byte>, pos: nat, done: seq<Record>)
    requires pos + 3 <= |all| && all[pos] != END_OF_FILE
    requires pos + 3 + Word(all[pos + 1], all[pos + 2]) <= |all|
    requires ParsedUpTo(all, pos, done)
    ensures
      var length := Word(all[pos + 1], all[pos + 2]);
      var size := if length > 0 then length - 1 else 0;
      var next := done + [Record(all[pos], all[pos + 3..pos + 3 + size])];
      if all[pos] == MODEND then ParsedUpTo(all, |all|, next)
      else ParsedUpTo(all, pos + 3 + length, next)
  {
    hide Word;
    hide Parse;
    ParseAt(all, pos);
    NothingBehind(all);
    var length := Word(all[pos + 1], all[pos + 2]);
    var size := if length > 0 then length - 1 else 0;
    Associates(done, [Record(all[pos], all[pos + 3..pos + 3 + size])],
               if all[pos] == MODEND then [] else Parse(all[pos + 3 + length..]));
  }

  lemma NothingBehind(all: seq<Byte>)
    ensures Parse(all[|all|..]) == []
  {
  }

  lemma ParseStops(all: seq<Byte>, pos: nat, done: seq<Record>)
    requires ParsedUpTo(all, pos, done)
    requires
      || |all| < pos + 3
      || all[pos] == END_OF_FILE
      || |all| < pos + 3 + Word(all[pos + 1], all[pos + 2])
    ensures Parse(all) == done
  {
  }

  /** The running 8-bit sum `chk` with `bytes` added to it. */
  method AddBytes(chk: Byte, bytes: seq<Byte>) returns (sum: Byte)
    ensures sum == (chk + Sum(bytes)) % 256
  {
    sum := chk;
    for i := 0 to |bytes|
      invariant sum == (chk + Sum(bytes[..i])) % 256
    {
      assert bytes[..i + 1][..i] == bytes[..i];
      sum := (sum + bytes[i]) % 256;
    }
    assert bytes[..|bytes|] == bytes;
  }

  lemma ModSum(a: nat, b: nat)
    ensures (a % 256 + b) % 256 == (a + b) % 256
  {
  }

  method WriteRecord(buf: ByteBuf, r: Record)
    requires buf.Valid()
    modifies buf, buf.data
    ensures buf.Valid() && (buf.data == old(buf.data) || fresh(buf.data))
    ensures buf.Contents() == old(buf.Contents()) + Encode(r)
  {
    var length := |r.payload| + 1;
    var header: seq<Byte> := [r.kind, length % 256, length / 256 % 256];
    var chk := AddBytes(0, header);
    chk := AddBytes(chk, r.payload);
    SumConcat(header, r.payload);
    ModSum(Sum(header), Sum(r.payload));
    assert chk == Sum(Header(r) + r.payload) % 256;
    hide Sum;
    buf.Append(header);
    buf.Append(r.payload);
    buf.Push(Negated(chk));
  }
}
