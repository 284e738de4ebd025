/** Writing many pieces through short writes (AsyncStreamFd::writeInternal,
    libraries/zc/async/async-io-unix.cc): each system call gets at most `iovMax` pieces, may take
    any part of them, and what is left is written anew. */
module GatherWrite {
  import opened Bytes
  import opened Wrappers

  /** Pieces still to write and bytes written so far, or how the write has ended. */
  datatype State =
    | Pending(pieces: seq<seq<byte>>, emitted: seq<byte>)
    | Done(emitted: seq<byte>)
    | Rejected(emitted: seq<byte>)

  /** What the system call does: takes some bytes, would block, or fails. */
  datatype Outcome = Wrote(n: nat) | Blocked | Failed

  /** The pieces one call is given. */
  function Batch(pieces: seq<seq<byte>>, iovMax: nat): seq<seq<byte>> {
    pieces[..Min(|pieces|, iovMax)]
  }

  /** A write of the pieces begins or goes on: if there are no bytes in the first batch it ends. */
  function Enter(pieces: seq<seq<byte>>, iovMax: nat, emitted: seq<byte>): State {
    if Size(Batch(pieces, iovMax)) == 0 then Done(emitted) else Pending(pieces, emitted)
  }

  /** The call takes at least one byte of what it is given. */
  predicate Enabled(s: State, o: Outcome, iovMax: nat) {
    s.Pending? && (o.Wrote? ==> 0 < o.n <= Size(Batch(s.pieces, iovMax)))
  }

  function Step(s: State, o: Outcome, iovMax: nat): State
    requires Enabled(s, o, iovMax)
  {
    match o
    case Wrote(n) =>
      var emitted := s.emitted + Flatten(Batch(s.pieces, iovMax))[..n];
      var rest := if n <= Size(s.pieces) then Drop(s.pieces, n) else [];
      if rest == [] then Done(emitted) else Enter(rest, iovMax, emitted)
    case Blocked => s
    case Failed => Rejected(s.emitted)
  }

  predicate AllEnabled(s: State, os: seq<Outcome>, iovMax: nat)
    decreases |os|
  {
    os == [] || (Enabled(s, os[0], iovMax) && AllEnabled(Step(s, os[0], iovMax), os[1..], iovMax))
  }

  function Run(s: State, os: seq<Outcome>, iovMax: nat): State
    requires AllEnabled(s, os, iovMax)
    decreases |os|
  {
    if os == [] then s else Run(Step(s, os[0], iovMax), os[1..], iovMax)
  }

  // ---------------------------------------------------------------------------

  lemma BatchIsPrefix(pieces: seq<seq<byte>>, iovMax: nat)
    ensures Flatten(Batch(pieces, iovMax)) <= Flatten(pieces)
  {
    var k := Min(|pieces|, iovMax);
    FlattenConcat(pieces[..k], pieces[k..]);
    assert pieces[..k] + pieces[k..] == pieces;
  }

  /** What a write that is under way has left starts with a batch that is not empty. */
  ghost predicate Ok(s: State, all: seq<byte>, iovMax: nat) {
    match s
    case Pending(pieces, emitted) => emitted + Flatten(pieces) == all && Size(Batch(pieces, iovMax)) > 0
    case Done(emitted) => emitted == all
    case Rejected(emitted) => emitted <= all
  }

  lemma NonEmptyBatch(pieces: seq<seq<byte>>, iovMax: nat)
    requires iovMax > 0 && pieces != [] && pieces[0] != []
    ensures Size(Batch(pieces, iovMax)) > 0
  {
    var b := Batch(pieces, iovMax);
    assert b[0] == pieces[0];
    assert Flatten(b) == b[0] + Flatten(b[1..]);
  }

  lemma StepOk(s: State, o: Outcome, all: seq<byte>, iovMax: nat)
    requires iovMax > 0 && Ok(s, all, iovMax) && Enabled(s, o, iovMax)
    ensures Ok(Step(s, o, iovMax), all, iovMax)
  {
    hide Flatten, Drop;
    BatchIsPrefix(s.pieces, iovMax);
    if o.Wrote? {
      var d, n := Flatten(s.pieces), o.n;
      DropFlatten(s.pieces, n);
      assert Flatten(Batch(s.pieces, iovMax))[..n] == d[..n];
      assert (s.emitted + d[..n]) + d[n..] == s.emitted + d;
      var rest := Drop(s.pieces, n);
      if rest != [] { NonEmptyBatch(rest, iovMax); }
    }
    hide Batch;
  }

  lemma {:induction false} RunOk(s: State, os: seq<Outcome>, all: seq<byte>, iovMax: nat)
    requires iovMax > 0 && Ok(s, all, iovMax) && AllEnabled(s, os, iovMax)
    ensures Ok(Run(s, os, iovMax), all, iovMax)
    decreases |os|
  {
    hide Ok, Step, Enabled;
    if os != [] {
      StepOk(s, os[0], all, iovMax);
      RunOk(Step(s, os[0], iovMax), os[1..], all, iovMax);
    }
  }

  /** The source drops the write at once: the first batch has no bytes, but a later piece has. */
  predicate EmptyStart(pieces: seq<seq<byte>>, iovMax: nat) {
    Size(Batch(pieces, iovMax)) == 0 && Size(pieces) > 0
  }

  /** However the calls turn out, a write that succeeds has written all its bytes, in order and
      once, if and only if it does not start with a whole batch of empty pieces. */
  lemma WritesAllIff(pieces: seq<seq<byte>>, os: seq<Outcome>, iovMax: nat)
    requires iovMax > 0 && AllEnabled(Enter(pieces, iovMax, []), os, iovMax)
    requires Run(Enter(pieces, iovMax, []), os, iovMax).Done?
    ensures Run(Enter(pieces, iovMax, []), os, iovMax).emitted == Flatten(pieces) <==> !EmptyStart(pieces, iovMax)
  {
    var s := Enter(pieces, iovMax, []);
    if s.Pending? {
      assert [] + Flatten(pieces) == Flatten(pieces);
      RunOk(s, os, Flatten(pieces), iovMax);
      BatchIsPrefix(pieces, iovMax);
    } else {
      assert os == [];
    }
    hide Flatten;
  }

  /** At any time, and even when a call fails, what has been written is a prefix of the pieces. */
  lemma WritesAPrefix(pieces: seq<seq<byte>>, os: seq<Outcome>, iovMax: nat)
    requires iovMax > 0 && AllEnabled(Enter(pieces, iovMax, []), os, iovMax)
    ensures Run(Enter(pieces, iovMax, []), os, iovMax).emitted <= Flatten(pieces)
  {
    var s := Enter(pieces, iovMax, []);
    if s.Pending? {
      assert [] + Flatten(pieces) == Flatten(pieces);
      RunOk(s, os, Flatten(pieces), iovMax);
    } else {
      assert os == [];
    }
    hide Flatten;
  }

  /** Such a loss is possible for every limit on the number of pieces. */
  lemma LossIsPossible(iovMax: nat)
    requires iovMax > 0
    ensures var pieces := seq(iovMax, i => []) + [[7]];
            Enter(pieces, iovMax, []) == Done([]) && Flatten(pieces) == [7]
  {
    var empty: seq<seq<byte>> := seq(iovMax, i => []);
    AllEmpty(empty);
    assert Batch(empty + [[7]], iovMax) == empty;
    FlattenConcat(empty, [[7]]);
    FlattenOne([7]);
  }

  lemma {:induction false} AllEmpty(ps: seq<seq<byte>>)
    requires forall i | 0 <= i < |ps| :: ps[i] == []
    ensures Flatten(ps) == []
  {
    if ps != [] { AllEmpty(ps[1..]); }
  }

  function Writes(os: seq<Outcome>): nat {
    if os == [] then 0 else (if os[0].Wrote? then 1 else 0) + Writes(os[1..])
  }

  function Remaining(s: State): nat {
    if s.Pending? then Size(s.pieces) else 0
  }

  /** A write needs at most as many calls that take bytes as it has bytes. */
  lemma {:induction false} WritesTerminate(s: State, os: seq<Outcome>, all: seq<byte>, iovMax: nat)
    requires iovMax > 0 && Ok(s, all, iovMax) && AllEnabled(s, os, iovMax)
    ensures Writes(os) + Remaining(Run(s, os, iovMax)) <= Remaining(s)
    decreases |os|
  {
    if os != [] {
      var t := Step(s, os[0], iovMax);
      StepOk(s, os[0], all, iovMax);
      StepShrinks(s, os[0], iovMax);
      hide Ok, Step, Enabled, Remaining;
      WritesTerminate(t, os[1..], all, iovMax);
    }
  }

  lemma StepShrinks(s: State, o: Outcome, iovMax: nat)
    requires Enabled(s, o, iovMax)
    ensures Remaining(Step(s, o, iovMax)) + (if o.Wrote? then 1 else 0) <= Remaining(s)
  {
    hide Flatten, Drop;
    BatchIsPrefix(s.pieces, iovMax);
    if o.Wrote? { DropFlatten(s.pieces, o.n); }
    hide Batch;
  }

  /** The number of bytes that calls have taken. */
  function TotalWrote(os: seq<Outcome>): nat {
    if os == [] then 0 else (if os[0].Wrote? then os[0].n else 0) + TotalWrote(os[1..])
  }

  lemma StepEmits(s: State, o: Outcome, iovMax: nat)
    requires Enabled(s, o, iovMax)
    ensures var t := Step(s, o, iovMax);
            && |t.emitted| == |s.emitted| + (if o.Wrote? then o.n else 0)
            && (t.Rejected? <==> o == Failed)
            && (o == Blocked ==> t == s)
  {
    hide Flatten, Drop, Batch;
  }

  /** A write fails exactly if a call does; one that would block only waits. In every run as many
      bytes have been written as the calls have taken. */
  lemma {:induction false} RejectedIff(s: State, os: seq<Outcome>, iovMax: nat)
    requires s.Pending? && AllEnabled(s, os, iovMax)
    ensures Run(s, os, iovMax).Rejected? <==> Failed in os
    ensures |Run(s, os, iovMax).emitted| == |s.emitted| + TotalWrote(os)
    ensures (forall o | o in os :: o == Blocked) ==> Run(s, os, iovMax) == s
    decreases |os|
  {
    if os != [] {
      StepEmits(s, os[0], iovMax);
      assert os == [os[0]] + os[1..] && os[0] in os;
      assert Failed in os <==> os[0] == Failed || Failed in os[1..];
      assert forall o | o in os[1..] :: o in os;
      var t := Step(s, os[0], iovMax);
      hide Step;
      if t.Pending? {
        RejectedIff(t, os[1..], iovMax);
      } else {
        assert os[1..] == [];
      }
    }
  }

  // ---------------------------------------------------------------------------
  // The program.

  /** Fills the array for the system call, and adds up its bytes. */
  method BuildIov(firstPiece: seq<byte>, morePieces: seq<seq<byte>>, iovMax: nat)
    returns (iov: array<seq<byte>>, iovTotal: nat)
    requires iovMax > 0
    ensures fresh(iov) && iov[..] == Batch([firstPiece] + morePieces, iovMax) && iovTotal == Size(iov[..])
  {
    var pieces := [firstPiece] + morePieces;
    iov := new seq<byte>[Min(1 + |morePieces|, iovMax)];
    iov[0] := firstPiece;
    iovTotal := |firstPiece|;
    FlattenOne(firstPiece);
    assert iov[..1] == [firstPiece];
    var i := 1;
    while i < iov.Length
      invariant 1 <= i <= iov.Length
      invariant iov[..i] == pieces[..i] && iovTotal == Size(iov[..i])
    {
      iov[i] := morePieces[i - 1];
      iovTotal := iovTotal + |morePieces[i - 1]|;
      assert iov[..i + 1] == iov[..i] + [morePieces[i - 1]];
      FlattenConcat(iov[..i], [morePieces[i - 1]]);
      FlattenOne(morePieces[i - 1]);
      i := i + 1;
    }
    assert iov[..] == iov[..i];
  }

  /** Discards what was written: nothing is left, or a part of a piece and those after it. */
  method Discard(firstPiece: seq<byte>, morePieces: seq<seq<byte>>, n: nat)
    returns (done: bool, first: seq<byte>, more: seq<seq<byte>>)
    requires n <= Size([firstPiece] + morePieces)
    ensures done <==> Drop([firstPiece] + morePieces, n) == []
    ensures !done ==> Drop([firstPiece] + morePieces, n) == [first] + more
  {
    hide Flatten;
    first, more := firstPiece, morePieces;
    ghost var pieces := [firstPiece] + morePieces;
    var left := n;
    while left >= |first|
      invariant 0 <= left <= Size([first] + more)
      invariant Drop(pieces, n) == Drop([first] + more, left)
      decreases |more|
    {
      assert ([first] + more)[1..] == more;
      FlattenCons(first, more);
      if more == [] { return true, [], []; }
      left := left - |first|;
      assert more == [more[0]] + more[1..];
      first, more := more[0], more[1..];
    }
    assert ([first] + more)[1..] == more;
    first := first[left..];
    done := false;
  }

  /** One call of writeInternal, its system call and the continuation of that. */
  method WriteInternal(firstPiece: seq<byte>, morePieces: seq<seq<byte>>, emitted: seq<byte>, o: Outcome, iovMax: nat)
    returns (s: State)
    requires iovMax > 0
    requires o.Wrote? ==> o.n > 0
    requires Size(Batch([firstPiece] + morePieces, iovMax)) > 0 ==>
               Enabled(Pending([firstPiece] + morePieces, emitted), o, iovMax)
    ensures var start := Enter([firstPiece] + morePieces, iovMax, emitted);
            s == if start.Pending? then Step(start, o, iovMax) else start
  {
    hide Flatten, Drop;
    var pieces := [firstPiece] + morePieces;
    BatchIsPrefix(pieces, iovMax);
    var iov, iovTotal := BuildIov(firstPiece, morePieces, iovMax);
    if iovTotal == 0 { return Done(emitted); }
    match o {
      case Failed => return Rejected(emitted);
      case Blocked => return Pending(pieces, emitted);
      case Wrote(n) =>
        var now := emitted + Flatten(iov[..])[..n];
        var done, first, more := Discard(firstPiece, morePieces, n);
        if done { return Done(now); }
        DropFlatten(pieces, n);
        NonEmptyBatch([first] + more, iovMax);
        return Pending([first] + more, now);
    }
  }
}
