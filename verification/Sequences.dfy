/** Lists of entries that are named by their address, without duplicates. */
module Sequences {

  ghost predicate NoRepeats(s: seq<int>) {
    forall i, j :: 0 <= i < j < |s| ==> s[i] != s[j]
  }

  function Without(s: seq<int>, x: int): seq<int> {
    if s == [] then [] else (if s[0] == x then [] else [s[0]]) + Without(s[1..], x)
  }

  lemma {:induction false} WithoutAbsent(s: seq<int>, x: int)
    requires x !in s
    ensures Without(s, x) == s
  {
    if s != [] {
      WithoutAbsent(s[1..], x);
    }
  }

  lemma {:induction false} WithoutKeeps(s: seq<int>, x: int)
    ensures forall y :: y in Without(s, x) <==> y in s && y != x
    ensures NoRepeats(s) ==> NoRepeats(Without(s, x))
  {
    if s != [] {
      WithoutKeeps(s[1..], x);
      assert s == [s[0]] + s[1..];
      assert NoRepeats(s) ==> NoRepeats(s[1..]) && s[0] !in s[1..];
    }
  }

  lemma {:induction false} WithoutAt(s: seq<int>, x: int, i: nat)
    requires NoRepeats(s) && i < |s| && s[i] == x
    ensures Without(s, x) == s[..i] + s[i + 1..]
  {
    if i == 0 {
      WithoutAbsent(s[1..], x);
    } else {
      WithoutAt(s[1..], x, i - 1);
      assert s[1..][..i - 1] == s[1..i];
      assert [s[0]] + s[1..i] == s[..i];
    }
  }
}
