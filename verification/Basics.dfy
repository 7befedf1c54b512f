/** Bytes and optional values. */
module Basics {
  type Byte = b: int | 0 <= b < 256

  /** A result, or the failure that the C code reports by returning 0. */
  datatype Option<+T> = None | Some(value: T) {
    predicate IsFailure()
    {
      None?
    }

    function PropagateFailure<U>(): Option<U>
      requires None?
    {
      None
    }

    function Extract(): T
      requires Some?
    {
      value
    }
  }

  function Word(lo: Byte, hi: Byte): (w: nat)
    ensures w < 0x1_0000
  {
    lo + 256 * hi
  }

  function Sum(s: seq<Byte>): nat
  {
    if s == [] then 0 else Sum(s[..|s| - 1]) + s[|s| - 1]
  }

  lemma {:induction false} SumConcat(s: seq<Byte>, t: seq<Byte>)
    ensures Sum(s + t) == Sum(s) + Sum(t)
  {
    if t == [] {
      assert s + t == s;
    } else {
      var u := s + t;
      assert u[..|u| - 1] == s + t[..|t| - 1];
      SumConcat(s, t[..|t| - 1]);
    }
  }

  lemma SumOne(b: Byte)
    ensures Sum([b]) == b
  {
    assert [b][..0] == [];
  }

  lemma SumFour(a: Byte, b: Byte, c: Byte, d: Byte)
    ensures Sum([a, b, c, d]) == a + b + c + d
  {
    hide Sum;
    SumOne(a);
    SumOne(b);
    SumOne(c);
    SumOne(d);
    SumConcat([a], [b]);
    SumConcat([a, b], [c]);
    SumConcat([a, b, c], [d]);
    assert [a] + [b] == [a, b] && [a, b] + [c] == [a, b, c] && [a, b, c] + [d] == [a, b, c, d];
  }

  /** The byte that brings an 8-bit sum to zero. */
  function Negated(chk: Byte): Byte
  {
    if chk == 0 then 0 else 256 - chk
  }

  lemma Associates<T>(a: seq<T>, b: seq<T>, c: seq<T>)
    ensures (a + b) + c == a + (b + c)
  {
  }
}
