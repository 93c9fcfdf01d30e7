/** Sequences of sequences laid end to end, and the facts about that the other modules share. */
module Seqs {

  /** The elements of ss laid end to end, in order. */
  function Flatten<T>(ss: seq<seq<T>>): seq<T> {
    if |ss| == 0 then [] else ss[0] + Flatten(ss[1..])
  }

  lemma FlattenCons<T>(x: seq<T>, rest: seq<seq<T>>)
    ensures Flatten([x] + rest) == x + Flatten(rest)
  {
    assert ([x] + rest)[1..] == rest;
  }

  lemma FlattenPair<T>(x: seq<T>, y: seq<T>)
    ensures Flatten([x, y]) == x + y
  {
    assert [y][1..] == [];
    assert Flatten([y]) == y + Flatten<T>([]) == y;
    assert [x, y][1..] == [y];
    assert Flatten([x, y]) == x + Flatten([y]);
  }

  /** Flattening the first k elements and the rest separately gives the same sequence. */
  lemma {:induction false} FlattenSplit<T>(ss: seq<seq<T>>, k: nat)
    requires k <= |ss|
    ensures Flatten(ss) == Flatten(ss[..k]) + Flatten(ss[k..])
    decreases k
  {
    if k > 0 {
      FlattenSplit(ss[1..], k - 1);
      assert ss[1..][..k - 1] == ss[..k][1..];
      assert ss[1..][k - 1..] == ss[k..];
    } else {
      assert ss[..0] == [];
      assert ss[0..] == ss;
    }
  }

  lemma {:induction false} FlattenSnoc<T>(ss: seq<seq<T>>, k: nat)
    requires k < |ss|
    ensures Flatten(ss[..k + 1]) == Flatten(ss[..k]) + ss[k]
    decreases k
  {
    if k == 0 {
      assert ss[..1][1..] == [];
    } else {
      assert ss[..k + 1][1..] == ss[1..][..k];
      assert ss[..k][1..] == ss[1..][..k - 1];
      FlattenSnoc(ss[1..], k - 1);
    }
  }

  lemma {:induction false} FlattenEmpties<T>(ss: seq<seq<T>>)
    requires forall k | 0 <= k < |ss| :: ss[k] == []
    ensures Flatten(ss) == []
  {
    if |ss| > 0 {
      FlattenEmpties(ss[1..]);
    }
  }

  lemma AppendAssoc<T>(a: seq<T>, b: seq<T>, c: seq<T>)
    ensures a + b + c == a + (b + c)
  {
  }
}
