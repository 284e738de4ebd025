/** Promise nodes that share an arena (PromiseDisposer, libraries/zc/async/async-inl.h): nodes
    are placed from the end of the arena towards its start, and the node placed last owns it. */
module PromiseArena {
  import opened Wrappers

  const ARENA_SIZE := 1024
  const POINTER_ALIGN := 8

  datatype Place = Heap | InArena(arena: nat, offset: nat)

  /** `arena`: the arena the node owns, if it was the last one placed there. */
  datatype Node = Node(place: Place, size: nat, arena: Option<nat>)

  /** What disposing does, in order: a node's `destroy` returns, an arena is deleted. */
  datatype Act = Destroyed(place: Place) | Freed(arena: nat)

  /** A promise is a chain of nodes, each owning the next; the outermost, made last, comes first.
      `made` counts the arenas allocated so far and `log` what has been disposed of. */
  datatype Promise = Promise(chain: seq<Node>, made: nat, log: seq<Act>)

  /** A node has at least the alignment of its vtable pointer, and a size that is a multiple of its alignment. */
  predicate ValidType(size: nat, align: nat) {
    align >= POINTER_ALIGN && align % POINTER_ALIGN == 0 && size % align == 0
  }

  predicate CanArenaAllocate(size: nat, align: nat) {
    size <= ARENA_SIZE && align <= POINTER_ALIGN
  }

  /** PromiseDisposer::alloc, of a node that owns the chain. */
  function Alloc(p: Promise, size: nat, align: nat): Promise {
    if CanArenaAllocate(size, align) then
      p.(chain := [Node(InArena(p.made, ARENA_SIZE - size), size, Some(p.made))] + p.chain, made := p.made + 1)
    else
      p.(chain := [Node(Heap, size, None)] + p.chain)
  }

  predicate Appends(next: Node, size: nat, align: nat) {
    CanArenaAllocate(size, align) && next.arena.Some? && next.place.InArena? && size <= next.place.offset
  }

  /** PromiseDisposer::appendPromise */
  function Append(p: Promise, size: nat, align: nat): Promise
    requires p.chain != []
  {
    var next := p.chain[0];
    if Appends(next, size, align) then
      var n := Node(InArena(next.arena.value, next.place.offset - size), size, next.arena);
      p.(chain := [n] + [next.(arena := None)] + p.chain[1..])
    else
      Alloc(p, size, align)
  }

  /** PromiseDisposer::dispose: a node's `destroy` disposes of the next node, and then the arena
      the node owns is deleted. */
  function DisposeLog(chain: seq<Node>): seq<Act> {
    if chain == [] then []
    else
      var n := chain[0];
      DisposeLog(chain[1..]) + [Destroyed(n.place)] + (if n.arena.Some? then [Freed(n.arena.value)] else [])
  }

  function Dispose(p: Promise): Promise {
    p.(chain := [], log := p.log + DisposeLog(p.chain))
  }

  /** The outermost node drops what it depends on before it ends itself. */
  function DropNext(p: Promise): Promise
    requires p.chain != []
  {
    p.(chain := p.chain[..1], log := p.log + DisposeLog(p.chain[1..]))
  }

  datatype Op = DoAlloc(size: nat, align: nat) | DoAppend(size: nat, align: nat) | DoDropNext | DoDispose

  predicate Enabled(p: Promise, op: Op) {
    match op
    case DoAlloc(size, align) => ValidType(size, align)
    case DoAppend(size, align) => ValidType(size, align) && p.chain != []
    case DoDropNext => p.chain != []
    case DoDispose => true
  }

  function Step(p: Promise, op: Op): Promise
    requires Enabled(p, op)
  {
    match op
    case DoAlloc(size, align) => Alloc(p, size, align)
    case DoAppend(size, align) => Append(p, size, align)
    case DoDropNext => DropNext(p)
    case DoDispose => Dispose(p)
  }

  const Init := Promise([], 0, [])

  predicate AllEnabled(p: Promise, ops: seq<Op>)
    decreases |ops|
  {
    ops == [] || (Enabled(p, ops[0]) && AllEnabled(Step(p, ops[0]), ops[1..]))
  }

  function Run(p: Promise, ops: seq<Op>): Promise
    requires AllEnabled(p, ops)
    decreases |ops|
  {
    if ops == [] then p else Run(Step(p, ops[0]), ops[1..])
  }

  // ---------------------------------------------------------------------------
  // Placement and ownership.

  predicate Inside(n: Node) {
    n.place.InArena? ==> n.place.offset + n.size <= ARENA_SIZE && n.place.offset % POINTER_ALIGN == 0
  }

  /** The chain's arenas were allocated before arena `newest`, and older ones lie further inside.
      If the node in front of the chain is in arena `newest` (`open`), further nodes may be in it
      too, from offset `low` on; the front node owns it. */
  predicate Ok(chain: seq<Node>, newest: nat, open: bool, low: nat) {
    chain == [] ||
    (var n := chain[0];
     && Inside(n)
     && match n.place
        case Heap => n.arena == None && Ok(chain[1..], newest, false, 0)
        case InArena(a, offset) =>
          if open && a == newest then n.arena == None && low <= offset && Ok(chain[1..], a, true, offset + n.size)
          else a < newest && n.arena == Some(a) && Ok(chain[1..], a, true, offset + n.size))
  }

  predicate In(n: Node, a: nat) {
    n.place.InArena? && n.place.arena == a
  }

  predicate Uses(chain: seq<Node>, a: nat) {
    exists i | 0 <= i < |chain| :: In(chain[i], a)
  }

  lemma UsesCons(chain: seq<Node>, a: nat)
    requires chain != []
    ensures Uses(chain, a) <==> In(chain[0], a) || Uses(chain[1..], a)
  {
    if Uses(chain, a) {
      var i :| 0 <= i < |chain| && In(chain[i], a);
      if i > 0 { assert chain[1..][i - 1] == chain[i]; }
    }
  }

  lemma NoUses(a: nat)
    ensures !Uses([], a)
  {
  }

  /** Later nodes of the chain are in older arenas, or further up in the one that is open. */
  lemma {:induction false} Bounds(chain: seq<Node>, newest: nat, open: bool, low: nat, i: nat)
    requires Ok(chain, newest, open, low) && i < |chain| && chain[i].place.InArena?
    ensures Inside(chain[i])
    ensures chain[i].place.arena < newest || (open && chain[i].place.arena == newest && low <= chain[i].place.offset)
  {
    if i > 0 {
      var n := chain[0];
      assert chain[1..][i - 1] == chain[i];
      if n.place.Heap? {
        Bounds(chain[1..], newest, false, 0, i - 1);
      } else {
        Bounds(chain[1..], n.place.arena, true, n.place.offset + n.size, i - 1);
      }
    }
  }

  /** Two nodes in one arena do not overlap: the one made later ends before the other begins. */
  lemma {:induction false} NodesDisjoint(chain: seq<Node>, newest: nat, open: bool, low: nat, i: nat, j: nat)
    requires Ok(chain, newest, open, low) && i < j < |chain|
    requires chain[i].place.InArena? && In(chain[j], chain[i].place.arena)
    ensures chain[i].place.offset + chain[i].size <= chain[j].place.offset
    ensures chain[j].place.offset + chain[j].size <= ARENA_SIZE
  {
    var n, rest := chain[0], chain[1..];
    assert rest[j - 1] == chain[j];
    if i > 0 {
      assert rest[i - 1] == chain[i];
      if n.place.Heap? {
        NodesDisjoint(rest, newest, false, 0, i - 1, j - 1);
      } else {
        NodesDisjoint(rest, n.place.arena, true, n.place.offset + n.size, i - 1, j - 1);
      }
    } else {
      Bounds(rest, n.place.arena, true, n.place.offset + n.size, j - 1);
    }
  }

  /** An arena is owned by exactly one node: the outermost, that is the last made, in it. */
  lemma {:induction false} OneOwner(chain: seq<Node>, newest: nat, open: bool, low: nat, i: nat)
    requires Ok(chain, newest, open, low) && i < |chain|
    ensures chain[i].arena.Some? ==> In(chain[i], chain[i].arena.value)
    ensures chain[i].place.InArena? ==>
              (chain[i].arena.Some? <==>
                !(open && chain[i].place.arena == newest) && !Uses(chain[..i], chain[i].place.arena))
  {
    var n, rest := chain[0], chain[1..];
    if i > 0 {
      assert rest[i - 1] == chain[i];
      assert chain[..i][1..] == rest[..i - 1];
      if chain[i].place.InArena? { UsesCons(chain[..i], chain[i].place.arena); }
      if n.place.Heap? {
        OneOwner(rest, newest, false, 0, i - 1);
        if chain[i].place.InArena? { Bounds(rest, newest, false, 0, i - 1); }
      } else {
        OneOwner(rest, n.place.arena, true, n.place.offset + n.size, i - 1);
        if chain[i].place.InArena? { Bounds(rest, n.place.arena, true, n.place.offset + n.size, i - 1); }
      }
    }
    hide Uses;
  }

  /** Once the chain has left an arena it does not come back. */
  lemma LeftBehind(chain: seq<Node>, newest: nat, open: bool, low: nat)
    requires Ok(chain, newest, open, low) && chain != [] && !In(chain[0], newest)
    ensures !Uses(chain[1..], newest)
  {
    var n, rest := chain[0], chain[1..];
    if Uses(rest, newest) {
      var i :| 0 <= i < |rest| && In(rest[i], newest);
      if n.place.Heap? {
        Bounds(rest, newest, false, 0, i);
      } else {
        Bounds(rest, n.place.arena, true, n.place.offset + n.size, i);
      }
    }
  }

  // ---------------------------------------------------------------------------
  // Disposal.

  /** Nothing happens to an arena or in it once it is freed. */
  predicate Safe(log: seq<Act>) {
    forall i, j | 0 <= i < j < |log| :: log[i].Freed? ==> !Touches(log[j], log[i].arena)
  }

  predicate Touches(act: Act, a: nat) {
    match act
    case Freed(b) => a == b
    case Destroyed(place) => place.InArena? && place.arena == a
  }

  predicate Frees(log: seq<Act>, a: nat) {
    Freed(a) in log
  }

  function Destructions(log: seq<Act>): nat {
    if log == [] then 0 else (if log[0].Destroyed? then 1 else 0) + Destructions(log[1..])
  }

  lemma {:induction false} DestructionsConcat(x: seq<Act>, y: seq<Act>)
    ensures Destructions(x + y) == Destructions(x) + Destructions(y)
    decreases |x|
  {
    if x == [] {
      assert x + y == y;
    } else {
      assert (x + y)[0] == x[0] && (x + y)[1..] == x[1..] + y;
      DestructionsConcat(x[1..], y);
    }
  }

  lemma DestructionsOne(act: Act)
    ensures Destructions([act]) == if act.Destroyed? then 1 else 0
  {
    assert [act][1..] == [];
  }

  /** What a disposal does: it destroys as many nodes as there are, touches only arenas the chain
      uses, and frees exactly those of them that are not owned by the node in front. */
  lemma {:induction false} DisposeFrees(chain: seq<Node>, newest: nat, open: bool, low: nat)
    requires Ok(chain, newest, open, low)
    ensures var log := DisposeLog(chain);
            && Destructions(log) == |chain|
            && Safe(log)
            && (forall a: nat :: Frees(log, a) <==> Uses(chain, a) && !(open && a == newest))
            && DestroysIn(log, chain)
  {
    if chain != [] {
      var n, rest := chain[0], chain[1..];
      var inner := DisposeLog(rest);
      if n.place.Heap? {
        DisposeFrees(rest, newest, false, 0);
      } else {
        DisposeFrees(rest, n.place.arena, true, n.place.offset + n.size);
      }
      var tail := [Destroyed(n.place)] + (if n.arena.Some? then [Freed(n.arena.value)] else []);
      assert DisposeLog(chain) == inner + tail;
      DestructionsConcat(inner, tail);
      DestructionsOne(Destroyed(n.place));
      if n.arena.Some? {
        DestructionsOne(Freed(n.arena.value));
        DestructionsConcat([Destroyed(n.place)], [Freed(n.arena.value)]);
      }
      FreesCons(chain, newest, open, low, inner, tail);
    }
  }

  lemma FreesCons(chain: seq<Node>, newest: nat, open: bool, low: nat, inner: seq<Act>, tail: seq<Act>)
    requires Ok(chain, newest, open, low) && chain != []
    requires tail == [Destroyed(chain[0].place)] + (if chain[0].arena.Some? then [Freed(chain[0].arena.value)] else [])
    requires Safe(inner)
    requires forall a: nat :: Frees(inner, a) <==> Uses(chain[1..], a) && !In(chain[0], a)
    requires DestroysIn(inner, chain[1..])
    ensures Safe(inner + tail)
    ensures forall a: nat :: Frees(inner + tail, a) <==> Uses(chain, a) && !(open && a == newest)
    ensures DestroysIn(inner + tail, chain)
  {
    var n, log := chain[0], inner + tail;
    forall a: nat ensures Frees(log, a) <==> Uses(chain, a) && !(open && a == newest)
    {
      UsesCons(chain, a);
      assert Frees(log, a) <==> Frees(inner, a) || n.arena == Some(a);
      if open && a == newest && !In(n, a) { LeftBehind(chain, newest, open, low); }
    }
    forall i | 0 <= i < |log| && log[i].Destroyed? && log[i].place.InArena? ensures Uses(chain, log[i].place.arena) {
      UsesCons(chain, log[i].place.arena);
    }
    forall i, j | 0 <= i < j < |log| && log[i].Freed? ensures !Touches(log[j], log[i].arena) {
      var a := log[i].arena;
      if i < |inner| && j >= |inner| {
        assert Frees(inner, a) && !In(n, a);
      }
    }
    hide Uses, Ok;
  }

  predicate DestroysIn(log: seq<Act>, chain: seq<Node>) {
    forall i | 0 <= i < |log| :: log[i].Destroyed? && log[i].place.InArena? ==> Uses(chain, log[i].place.arena)
  }

  // ---------------------------------------------------------------------------
  // Where nodes go.

  /** A node goes in front of the next one, into the same memory, if that node owns an arena with
      room for it; then no memory is allocated, and the arena passes to the new node. */
  lemma AppendShares(p: Promise, size: nat, align: nat, arena: nat, offset: nat)
    requires ValidType(size, align) && p.chain != [] && align == POINTER_ALIGN
    requires p.chain[0].place == InArena(arena, offset) && p.chain[0].arena == Some(arena)
    requires size <= offset <= ARENA_SIZE
    ensures var q := Step(p, DoAppend(size, align));
            && q.made == p.made && |q.chain| == |p.chain| + 1
            && q.chain[0] == Node(InArena(arena, offset - size), size, Some(arena))
            && q.chain[1] == Node(p.chain[0].place, p.chain[0].size, None)
            && q.chain[2..] == p.chain[1..]
  {
  }

  /** Otherwise, and for the first node of a promise, it goes to the end of an arena of its own, or
      on the heap if it is too large or needs more alignment. */
  lemma OwnMemory(p: Promise, op: Op, size: nat, align: nat)
    requires ValidType(size, align)
    requires op == DoAlloc(size, align) ||
             (op == DoAppend(size, align) && p.chain != [] &&
              (p.chain[0].arena == None || (p.chain[0].place.InArena? && p.chain[0].place.offset < size) ||
               align > POINTER_ALIGN || size > ARENA_SIZE))
    ensures var q := Step(p, op);
            && |q.chain| == |p.chain| + 1 && q.chain[1..] == p.chain
            && (if size <= ARENA_SIZE && align == POINTER_ALIGN then
                  q.made == p.made + 1 && q.chain[0] == Node(InArena(p.made, ARENA_SIZE - size), size, Some(p.made))
                else q.made == p.made && q.chain[0] == Node(Heap, size, None))
  {
  }

  /** The places of the nodes destroyed, in order. */
  function Places(log: seq<Act>): seq<Place> {
    if log == [] then [] else (if log[0].Destroyed? then [log[0].place] else []) + Places(log[1..])
  }

  lemma {:induction false} PlacesConcat(x: seq<Act>, y: seq<Act>)
    ensures Places(x + y) == Places(x) + Places(y)
    decreases |x|
  {
    if x == [] {
      assert x + y == y;
    } else {
      assert (x + y)[0] == x[0] && (x + y)[1..] == x[1..] + y;
      PlacesConcat(x[1..], y);
    }
  }

  /** A chain is destroyed from its inner end to its outer one. */
  lemma {:induction false} InsideOut(chain: seq<Node>)
    ensures |Places(DisposeLog(chain))| == |chain|
    ensures forall i | 0 <= i < |chain| :: Places(DisposeLog(chain))[i] == chain[|chain| - 1 - i].place
  {
    if chain != [] {
      var n, rest := chain[0], chain[1..];
      var freed := if n.arena.Some? then [Freed(n.arena.value)] else [];
      InsideOut(rest);
      PlacesConcat(DisposeLog(rest), [Destroyed(n.place)]);
      PlacesConcat(DisposeLog(rest) + [Destroyed(n.place)], freed);
      assert Places([Destroyed(n.place)]) == [n.place] && Places(freed) == [];
    }
  }

  /** Dropping what the outermost node depends on destroys all the others and keeps that one. */
  lemma DropKeepsFront(p: Promise)
    requires p.chain != []
    ensures var q := Step(p, DoDropNext);
            && q.chain == [p.chain[0]] && p.log <= q.log
            && |Places(q.log[|p.log|..])| == |p.chain| - 1
            && forall i | 0 <= i < |p.chain| - 1 ::
                 Places(q.log[|p.log|..])[i] == p.chain[|p.chain| - 1 - i].place
  {
    InsideOut(p.chain[1..]);
    assert Step(p, DoDropNext).log[|p.log|..] == DisposeLog(p.chain[1..]);
    hide DisposeLog, Places;
  }

  // ---------------------------------------------------------------------------
  // Runs.

  ghost predicate Inv(p: Promise) {
    && Ok(p.chain, p.made, false, 0)
    && Safe(p.log)
    && (forall a: nat :: Frees(p.log, a) ==> a < p.made && !Uses(p.chain, a))
    && (forall a: nat | a < p.made :: Uses(p.chain, a) || Frees(p.log, a))
  }

  /** All arenas in use are among those made. */
  lemma UsesMade(p: Promise, a: nat)
    requires Ok(p.chain, p.made, false, 0) && Uses(p.chain, a)
    ensures a < p.made
  {
    var i :| 0 <= i < |p.chain| && In(p.chain[i], a);
    Bounds(p.chain, p.made, false, 0, i);
  }

  /** A closed bound may be opened: nothing in the chain reaches it. */
  lemma Reopen(chain: seq<Node>, newest: nat, low: nat)
    requires Ok(chain, newest, false, 0)
    ensures Ok(chain, newest, true, low) && Ok(chain, newest, false, low)
  {
  }

  lemma AllocInv(p: Promise, size: nat, align: nat)
    requires Inv(p) && ValidType(size, align)
    ensures Inv(Alloc(p, size, align))
  {
    var q := Alloc(p, size, align);
    assert q.chain[1..] == p.chain;
    if CanArenaAllocate(size, align) { Reopen(p.chain, p.made, ARENA_SIZE); }
    forall a: nat ensures Uses(q.chain, a) <==> In(q.chain[0], a) || Uses(p.chain, a) { UsesCons(q.chain, a); }
    hide Uses, Frees, Safe;
  }

  /** The new node takes the arena over and ends where the old one begins. */
  lemma AppendOk(p: Promise, size: nat, align: nat)
    requires Ok(p.chain, p.made, false, 0) && ValidType(size, align) && p.chain != []
    requires Appends(p.chain[0], size, align)
    ensures Ok(Append(p, size, align).chain, p.made, false, 0)
    ensures forall a: nat :: Uses(Append(p, size, align).chain, a) <==> Uses(p.chain, a)
  {
    var next, q := p.chain[0], Append(p, size, align);
    var rest, a := q.chain[1..], next.place.arena;
    assert rest == [next.(arena := None)] + p.chain[1..] && rest[1..] == p.chain[1..];
    assert next.arena == Some(a) && align == POINTER_ALIGN;
    assert q.chain[0] == Node(InArena(a, next.place.offset - size), size, Some(a));
    assert Ok(rest, a, true, next.place.offset);
    forall a: nat ensures Uses(q.chain, a) <==> Uses(p.chain, a) {
      UsesCons(q.chain, a);
      UsesCons(rest, a);
      UsesCons(p.chain, a);
    }
  }

  lemma AppendInv(p: Promise, size: nat, align: nat)
    requires Inv(p) && ValidType(size, align) && p.chain != []
    ensures Inv(Append(p, size, align))
  {
    hide Uses, Frees, Safe, Ok;
    if Appends(p.chain[0], size, align) { AppendOk(p, size, align); } else { AllocInv(p, size, align); }
  }

  lemma SafeConcat(x: seq<Act>, y: seq<Act>)
    requires Safe(x) && Safe(y)
    requires forall i, j | 0 <= i < |x| && 0 <= j < |y| :: x[i].Freed? ==> !Touches(y[j], x[i].arena)
    ensures Safe(x + y)
  {
  }

  /** Disposing of a part of the chain that frees no arena the log has freed. */
  lemma LogGrows(log: seq<Act>, chain: seq<Node>)
    requires Safe(log) && Safe(DisposeLog(chain)) && DestroysIn(DisposeLog(chain), chain)
    requires forall a: nat :: Frees(DisposeLog(chain), a) ==> Uses(chain, a)
    requires forall a: nat :: Frees(log, a) ==> !Uses(chain, a)
    ensures Safe(log + DisposeLog(chain))
    ensures forall a: nat :: Frees(log + DisposeLog(chain), a) <==> Frees(log, a) || Frees(DisposeLog(chain), a)
  {
    var y := DisposeLog(chain);
    forall i, j | 0 <= i < |log| && 0 <= j < |y| && log[i].Freed? ensures !Touches(y[j], log[i].arena) {
      assert Frees(log, log[i].arena);
      if y[j].Freed? { assert Frees(y, y[j].arena); }
    }
    SafeConcat(log, y);
    hide Uses, DisposeLog, Safe;
  }

  lemma DisposeInv(p: Promise)
    requires Inv(p)
    ensures Inv(Dispose(p)) && Destructions(Dispose(p).log) == Destructions(p.log) + |p.chain|
  {
    DisposeFrees(p.chain, p.made, false, 0);
    LogGrows(p.log, p.chain);
    DestructionsConcat(p.log, DisposeLog(p.chain));
    forall a: nat | Uses(p.chain, a) ensures a < p.made { UsesMade(p, a); }
    assert forall a: nat :: !Uses([], a);
    hide Uses, Frees, Safe, DisposeLog, DestroysIn;
  }

  lemma DropNextInv(p: Promise)
    requires Inv(p) && p.chain != []
    ensures Inv(DropNext(p)) && Destructions(DropNext(p).log) == Destructions(p.log) + |p.chain| - 1
  {
    hide Uses, Frees, Safe, DisposeLog, DestroysIn;
    var n, rest, q := p.chain[0], p.chain[1..], DropNext(p);
    assert q.chain[1..] == [];
    if n.place.Heap? {
      DisposeFrees(rest, p.made, false, 0);
    } else {
      DisposeFrees(rest, n.place.arena, true, n.place.offset + n.size);
    }
    forall a: nat
      ensures Uses(p.chain, a) <==> In(n, a) || Uses(rest, a)
      ensures Uses(q.chain, a) <==> In(n, a)
    {
      UsesCons(p.chain, a);
      UsesCons(q.chain, a);
      NoUses(a);
    }
    assert Ok(q.chain, p.made, false, 0);
    LogGrows(p.log, rest);
    DestructionsConcat(p.log, DisposeLog(rest));
    forall a: nat | Uses(p.chain, a) ensures a < p.made { UsesMade(p, a); }
  }

  lemma StepInv(p: Promise, op: Op)
    requires Inv(p) && Enabled(p, op)
    ensures Inv(Step(p, op))
    ensures Destructions(Step(p, op).log) + |Step(p, op).chain| ==
            Destructions(p.log) + |p.chain| + (if op.DoAlloc? || op.DoAppend? then 1 else 0)
  {
    hide Inv, Destructions;
    match op
    case DoAlloc(size, align) => AllocInv(p, size, align);
    case DoAppend(size, align) => AppendInv(p, size, align);
    case DoDropNext => DropNextInv(p);
    case DoDispose => DisposeInv(p);
  }

  /** The number of nodes made in a run. */
  function Creations(ops: seq<Op>): nat {
    if ops == [] then 0 else (if ops[0].DoAlloc? || ops[0].DoAppend? then 1 else 0) + Creations(ops[1..])
  }

  lemma {:induction false} RunInv(p: Promise, ops: seq<Op>)
    requires Inv(p) && AllEnabled(p, ops)
    ensures Inv(Run(p, ops))
    ensures Destructions(Run(p, ops).log) + |Run(p, ops).chain| == Destructions(p.log) + |p.chain| + Creations(ops)
    decreases |ops|
  {
    hide Inv, Step, Enabled, Destructions;
    if ops != [] {
      StepInv(p, ops[0]);
      RunInv(Step(p, ops[0]), ops[1..]);
    }
  }

  /** In every run nodes in one arena occupy disjoint ranges of it, aligned to a pointer. */
  lemma NeverOverlap(ops: seq<Op>, i: nat, j: nat)
    requires AllEnabled(Init, ops)
    requires i < j < |Run(Init, ops).chain| && Run(Init, ops).chain[i].place.InArena?
    requires In(Run(Init, ops).chain[j], Run(Init, ops).chain[i].place.arena)
    ensures var (a, b) := (Run(Init, ops).chain[i], Run(Init, ops).chain[j]);
            && a.place.offset + a.size <= b.place.offset && b.place.offset + b.size <= ARENA_SIZE
            && a.place.offset % POINTER_ALIGN == 0 && b.place.offset % POINTER_ALIGN == 0
  {
    RunInv(Init, ops);
    var p := Run(Init, ops);
    NodesDisjoint(p.chain, p.made, false, 0, i, j);
    Bounds(p.chain, p.made, false, 0, i);
    Bounds(p.chain, p.made, false, 0, j);
  }

  /** In every run an arena is owned by the node last made in it and by no other. */
  lemma OwnedByLast(ops: seq<Op>, a: nat, i: nat)
    requires AllEnabled(Init, ops) && i < |Run(Init, ops).chain|
    ensures var chain := Run(Init, ops).chain;
            chain[i].arena == Some(a) <==> In(chain[i], a) && !Uses(chain[..i], a)
  {
    RunInv(Init, ops);
    var p := Run(Init, ops);
    OneOwner(p.chain, p.made, false, 0, i);
    if In(p.chain[i], a) { Bounds(p.chain, p.made, false, 0, i); }
    hide Uses;
  }

  /** In every run that disposes of its whole chain, every arena made has been freed exactly once,
      after everything else that happened to it, and every node made has been destroyed. */
  lemma FreedExactlyOnce(ops: seq<Op>, a: nat)
    requires AllEnabled(Init, ops) && Run(Init, ops).chain == [] && a < Run(Init, ops).made
    ensures var log := Run(Init, ops).log;
            && Destructions(log) == Creations(ops)
            && exists p :: 0 <= p < |log| && log[p] == Freed(a) && forall i | 0 <= i < |log| && i != p ::
                 Touches(log[i], a) ==> i < p && log[i].Destroyed?
  {
    RunInv(Init, ops);
    var log := Run(Init, ops).log;
    assert !Uses([], a) && Frees(log, a);
    var p :| 0 <= p < |log| && log[p] == Freed(a);
    hide Uses, Run;
  }

  /** Even before that, nothing happens in an arena that has been freed. */
  lemma NeverTouchedAfterFree(ops: seq<Op>, i: nat, j: nat)
    requires AllEnabled(Init, ops) && i < j < |Run(Init, ops).log| && Run(Init, ops).log[i].Freed?
    ensures !Touches(Run(Init, ops).log[j], Run(Init, ops).log[i].arena)
    ensures !Uses(Run(Init, ops).chain, Run(Init, ops).log[i].arena)
  {
    RunInv(Init, ops);
    assert Frees(Run(Init, ops).log, Run(Init, ops).log[i].arena);
    hide Uses, Run;
  }

  // ---------------------------------------------------------------------------
  // Nodes in memory.

  /** PromiseArenaMember; `place` is where the node was put. */
  class PromiseNode {
    const place: Place
    const size: nat
    var arena: Option<nat>
    var next: PromiseNode?

    constructor (place: Place, size: nat, next: PromiseNode?)
      ensures this.place == place && this.size == size && arena == None && this.next == next
    {
      this.place, this.size, this.next, arena := place, size, next, None;
    }

    ghost function View(): Node
      reads this
    {
      Node(place, size, arena)
    }
  }

  /** Each node owns the next. */
  ghost predicate Linked(front: PromiseNode?, nodes: seq<PromiseNode>)
    reads nodes
    decreases |nodes|
  {
    if nodes == [] then front == null
    else front == nodes[0] && front !in nodes[1..] && Linked(nodes[0].next, nodes[1..])
  }

  ghost function Views(nodes: seq<PromiseNode>): (chain: seq<Node>)
    reads nodes
    decreases |nodes|
    ensures |chain| == |nodes|
  {
    if nodes == [] then [] else [nodes[0].View()] + Views(nodes[1..])
  }

  /** The promise that the front node makes up, with what the allocator has done so far. */
  ghost function PromiseOf(nodes: seq<PromiseNode>, made: nat, log: seq<Act>): Promise
    reads nodes
  {
    Promise(Views(nodes), made, log)
  }

  /** `made` is the arena that `operator new` returns, if one is needed. */
  method AllocNode(next: PromiseNode?, ghost nodes: seq<PromiseNode>, size: nat, align: nat, made: nat)
    returns (n: PromiseNode, made': nat)
    requires Linked(next, nodes)
    ensures fresh(n) && Linked(n, [n] + nodes)
    ensures forall log :: PromiseOf([n] + nodes, made', log) == Alloc(old(PromiseOf(nodes, made, log)), size, align)
  {
    made' := made;
    if !CanArenaAllocate(size, align) {
      n := new PromiseNode(Heap, size, next);
    } else {
      n := new PromiseNode(InArena(made, ARENA_SIZE - size), size, next);
      n.arena := Some(made);
      made' := made + 1;
    }
    assert ([n] + nodes)[1..] == nodes;
  }

  method AppendNode(next: PromiseNode, ghost nodes: seq<PromiseNode>, size: nat, align: nat, made: nat)
    returns (n: PromiseNode, made': nat)
    requires Linked(next, nodes)
    modifies next
    ensures fresh(n) && Linked(n, [n] + nodes)
    ensures forall log :: PromiseOf([n] + nodes, made', log) == Append(old(PromiseOf(nodes, made, log)), size, align)
  {
    ghost var was := Views(nodes);
    var arena := next.arena;
    if !CanArenaAllocate(size, align) || arena == None || next.place.Heap? || next.place.offset < size {
      n, made' := AllocNode(next, nodes, size, align, made);
    } else {
      next.arena := None;
      n := new PromiseNode(InArena(arena.value, next.place.offset - size), size, next);
      n.arena := arena;
      made' := made;
      assert ([n] + nodes)[1..] == nodes;
      assert was[1..] == Views(nodes[1..]);
      assert Views([n] + nodes) == [n.View()] + [was[0].(arena := None)] + was[1..];
    }
  }

  method DisposeNode(front: PromiseNode?, ghost nodes: seq<PromiseNode>, log: seq<Act>) returns (log': seq<Act>)
    requires Linked(front, nodes)
    ensures log' == log + DisposeLog(Views(nodes))
    decreases |nodes|
  {
    log' := log;
    if front != null {
      var arena := front.arena;
      log' := DisposeNode(front.next, nodes[1..], log');
      log' := log' + [Destroyed(front.place)];
      if arena.Some? { log' := log' + [Freed(arena.value)]; }
      assert Views(nodes)[1..] == Views(nodes[1..]);
    }
  }

  method DropNextNode(front: PromiseNode, ghost nodes: seq<PromiseNode>, log: seq<Act>) returns (log': seq<Act>)
    requires Linked(front, nodes)
    modifies front
    ensures Linked(front, nodes[..1])
    ensures forall made :: PromiseOf(nodes[..1], made, log') == DropNext(old(PromiseOf(nodes, made, log)))
  {
    log' := DisposeNode(front.next, nodes[1..], log);
    assert Views(nodes)[1..] == Views(nodes[1..]);
    front.next := null;
    assert nodes[..1][1..] == [];
  }
}
