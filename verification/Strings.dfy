/** Searching and comparing strings. */
module Strings {

  /** The position of the last `c` in `s`, or -1. */
  function LastIndexOf(s: string, c: char): (i: int)
    ensures -1 <= i < |s|
    ensures i >= 0 ==> s[i] == c
    ensures forall j :: i < j < |s| ==> s[j] != c
  {
    if s == "" then -1
    else if s[|s| - 1] == c then |s| - 1
    else LastIndexOf(s[..|s| - 1], c)
  }

  /** The length of all words, each with one character beside it. */
  function Lengths(words: seq<string>): nat
  {
    if words == [] then 0 else Lengths(words[..|words| - 1]) + |words[|words| - 1]| + 1
  }

  lemma {:induction false} LengthsConcat(a: seq<string>, b: seq<string>)
    ensures Lengths(a + b) == Lengths(a) + Lengths(b)
  {
    if b == [] {
      assert a + b == a;
    } else {
      LengthsConcat(a, b[..|b| - 1]);
      assert (a + b)[..|a + b| - 1] == a + b[..|b| - 1];
    }
  }

  lemma LengthsOne(word: string)
    ensures Lengths([word]) == |word| + 1
  {
    assert [word][..0] == [];
  }

  lemma LengthsCons(words: seq<string>)
    requires words != []
    ensures Lengths(words) == |words[0]| + 1 + Lengths(words[1..])
  {
    LengthsOne(words[0]);
    LengthsConcat([words[0]], words[1..]);
    assert words == [words[0]] + words[1..];
  }
}
