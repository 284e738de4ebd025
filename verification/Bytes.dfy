/** Byte strings cut into pieces, as the stream code passes them around. */
module Bytes {

  type byte = b: int | 0 <= b < 256

  /** The bytes of all pieces, in order. */
  function Flatten(ps: seq<seq<byte>>): seq<byte> {
    if ps == [] then [] else ps[0] + Flatten(ps[1..])
  }

  function Size(ps: seq<seq<byte>>): nat {
    |Flatten(ps)|
  }

  /** The pieces left when the first `n` bytes are gone. Emptied pieces are dropped, so what
      is left, if anything, starts with a non-empty piece. */
  function Drop(ps: seq<seq<byte>>, n: nat): seq<seq<byte>>
    requires n <= Size(ps)
  {
    if ps == [] then []
    else if n < |ps[0]| then [ps[0][n..]] + ps[1..]
    else Drop(ps[1..], n - |ps[0]|)
  }

  /** Whether the first `n` bytes end strictly inside a piece. */
  predicate Cuts(ps: seq<seq<byte>>, n: nat) {
    ps != [] && if n < |ps[0]| then n > 0 else Cuts(ps[1..], n - |ps[0]|)
  }

  /** How many leading pieces lie wholly within the first `n` bytes. */
  function Covered(ps: seq<seq<byte>>, n: nat): (i: nat)
    ensures i <= |ps|
  {
    if ps == [] || n < |ps[0]| then 0 else 1 + Covered(ps[1..], n - |ps[0]|)
  }

  lemma {:induction false} FlattenConcat(a: seq<seq<byte>>, b: seq<seq<byte>>)
    ensures Flatten(a + b) == Flatten(a) + Flatten(b)
    decreases |a|
  {
    if a == [] {
      assert a + b == b;
    } else {
      assert (a + b)[0] == a[0] && (a + b)[1..] == a[1..] + b;
      FlattenConcat(a[1..], b);
    }
  }

  lemma FlattenOne(p: seq<byte>)
    ensures Flatten([p]) == p
  {
    assert [p][1..] == [];
  }

  lemma FlattenCons(p: seq<byte>, ps: seq<seq<byte>>)
    ensures Flatten([p] + ps) == p + Flatten(ps)
  {
    assert ([p] + ps)[1..] == ps;
  }

  /** Dropping pieces is dropping bytes. */
  lemma {:induction false} DropFlatten(ps: seq<seq<byte>>, n: nat)
    requires n <= Size(ps)
    ensures Flatten(Drop(ps, n)) == Flatten(ps)[n..]
    ensures Drop(ps, n) == [] <==> n == Size(ps)
    ensures Drop(ps, n) != [] ==> Drop(ps, n)[0] != []
  {
    if ps != [] {
      if n < |ps[0]| {
        FlattenCons(ps[0][n..], ps[1..]);
      } else {
        DropFlatten(ps[1..], n - |ps[0]|);
        assert Flatten(ps)[n..] == Flatten(ps[1..])[n - |ps[0]|..];
      }
    }
  }

  lemma {:induction false} DropAll(ps: seq<seq<byte>>)
    ensures Drop(ps, Size(ps)) == []
  {
    DropFlatten(ps, Size(ps));
  }

  /** Dropping in two goes. */
  lemma {:induction false} DropDrop(ps: seq<seq<byte>>, m: nat, n: nat)
    requires m + n <= Size(ps)
    ensures n <= Size(Drop(ps, m)) && Drop(Drop(ps, m), n) == Drop(ps, m + n)
  {
    DropFlatten(ps, m);
    if ps != [] {
      if m < |ps[0]| {
        var d := Drop(ps, m);
        assert d[0] == ps[0][m..] && d[1..] == ps[1..];
        if m + n < |ps[0]| { assert d[0][n..] == ps[0][m + n..]; }
      } else {
        DropDrop(ps[1..], m - |ps[0]|, n);
      }
    }
  }
}
