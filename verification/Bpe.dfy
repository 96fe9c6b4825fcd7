/** The merge engine: a doubly linked symbol list and a heap of candidate pairs whose stale entries are skipped. */
module Bpe {
  // `MergeAll` is what it must compute: merge the lowest-ranked, leftmost adjacent
  // pair until none is left.

  /** `(left, right)` to `(rank, merged)`. */
  type MergeTable = map<(nat, nat), (nat, nat)>

  // -------------------------------------------------------- specification

  predicate Mergeable(m: MergeTable, ids: seq<nat>, i: nat) {
    i + 1 < |ids| && (ids[i], ids[i + 1]) in m
  }

  function Rank(m: MergeTable, ids: seq<nat>, i: nat): nat
    requires Mergeable(m, ids, i)
  {
    m[(ids[i], ids[i + 1])].0
  }

  /** The pair at `i` has the lowest rank, and is the leftmost such pair. */
  ghost predicate IsBest(m: MergeTable, ids: seq<nat>, i: nat) {
    && Mergeable(m, ids, i)
    && forall j: nat | Mergeable(m, ids, j) :: Rank(m, ids, i) < Rank(m, ids, j) || (Rank(m, ids, i) == Rank(m, ids, j) && i <= j)
  }

  function MergeAt(m: MergeTable, ids: seq<nat>, i: nat): (r: seq<nat>)
    requires Mergeable(m, ids, i)
    ensures |r| == |ids| - 1
  {
    ids[..i] + [m[(ids[i], ids[i + 1])].1] + ids[i + 2..]
  }

  ghost function MergeAll(m: MergeTable, ids: seq<nat>): seq<nat>
    decreases |ids|
  {
    if i: nat :| IsBest(m, ids, i) then MergeAll(m, MergeAt(m, ids, i)) else ids
  }

  lemma BestIsUnique(m: MergeTable, ids: seq<nat>, i: nat, j: nat)
    requires IsBest(m, ids, i) && IsBest(m, ids, j)
    ensures i == j
  {
  }

  lemma MergeBest(m: MergeTable, ids: seq<nat>, i: nat)
    requires IsBest(m, ids, i)
    ensures MergeAll(m, ids) == MergeAll(m, MergeAt(m, ids, i))
  {
    var j: nat :| IsBest(m, ids, j) && MergeAll(m, ids) == MergeAll(m, MergeAt(m, ids, j));
    BestIsUnique(m, ids, i, j);
  }

  lemma NothingToMerge(m: MergeTable, ids: seq<nat>)
    requires forall i: nat :: !Mergeable(m, ids, i)
    ensures MergeAll(m, ids) == ids
  {
  }

  /** If anything can be merged, something is best: the recursion stops only when nothing can. */
  lemma {:induction false} SomeBest(m: MergeTable, ids: seq<nat>, i: nat)
    requires Mergeable(m, ids, i)
    ensures exists b: nat :: IsBest(m, ids, b)
  {
    var b := BestUpTo(m, ids, i, |ids|);
    assert IsBest(m, ids, b);
  }

  /** The best mergeable pair among those starting below `n`, given that `i` is one. */
  lemma {:induction false} BestUpTo(m: MergeTable, ids: seq<nat>, i: nat, n: nat) returns (b: nat)
    requires Mergeable(m, ids, i) && i < n
    ensures Mergeable(m, ids, b) && b < n
    ensures forall j: nat | Mergeable(m, ids, j) && j < n :: Rank(m, ids, b) < Rank(m, ids, j) || (Rank(m, ids, b) == Rank(m, ids, j) && b <= j)
    decreases n
  {
    var last := n - 1;
    if exists k: nat :: Mergeable(m, ids, k) && k < last {
      var k: nat :| Mergeable(m, ids, k) && k < last;
      b := BestUpTo(m, ids, k, last);
      if Mergeable(m, ids, last) && Rank(m, ids, last) < Rank(m, ids, b) {
        b := last;
      }
    } else {
      b := i;
    }
  }

  /** Fully merged: the result admits no further merge. */
  lemma {:induction false} MergeAllIsFinal(m: MergeTable, ids: seq<nat>, i: nat)
    ensures !Mergeable(m, MergeAll(m, ids), i)
    decreases |ids|
  {
    if b: nat :| IsBest(m, ids, b) {
      MergeBest(m, ids, b);
      MergeAllIsFinal(m, MergeAt(m, ids, b), i);
    } else if Mergeable(m, ids, i) {
      SomeBest(m, ids, i);
    }
  }

  // ------------------------------------------------------------- the heap

  /** `(rank, left position, left id, right id)`. */
  datatype Entry = Entry(rank: nat, pos: nat, l: nat, r: nat)

  /** Tuple order of heap entries. */
  predicate AtMost(a: Entry, b: Entry) {
    a.rank < b.rank || (a.rank == b.rank && (a.pos < b.pos || (a.pos == b.pos && (a.l < b.l || (a.l == b.l && a.r <= b.r)))))
  }

  /** Entries are ordered by rank, then position, then ids; no two different ones tie. */
  lemma EntryOrder(a: Entry, b: Entry, c: Entry)
    ensures AtMost(a, b) || AtMost(b, a)
    ensures AtMost(a, b) && AtMost(b, a) ==> a == b
    ensures AtMost(a, b) && AtMost(b, c) ==> AtMost(a, c)
    ensures a.rank < b.rank || (a.rank == b.rank && a.pos < b.pos) ==> AtMost(a, b)
  {
  }

  /** `BinaryHeap::pop` of a min-heap: some least entry leaves, the rest stay. */
  method PopMin(heap: seq<Entry>) returns (e: Entry, rest: seq<Entry>)
    requires heap != []
    ensures e in heap && forall f | f in heap :: AtMost(e, f)
    ensures |rest| == |heap| - 1
    ensures forall f | f in heap && f != e :: f in rest
    ensures forall f | f in rest :: f in heap
  {
    var at, i := 0, 1;
    while i < |heap|
      invariant at < i <= |heap|
      invariant forall j | 0 <= j < i :: AtMost(heap[at], heap[j])
    {
      if AtMost(heap[i], heap[at]) {
        at := i;
      }
      i := i + 1;
    }
    e, rest := heap[at], heap[..at] + heap[at + 1..];
  }

  // ------------------------------------------------------ the linked list

  datatype Sym = Sym(id: nat, prev: nat, next: nat, alive: bool)

  /** `usize::MAX`. */
  const NONE: nat := 0xFFFF_FFFF_FFFF_FFFF

  /** `order` lists the alive positions from left to right, and the links say the same. */
  ghost predicate Linked(syms: seq<Sym>, order: seq<nat>) {
    && |syms| <= NONE
    && (forall i, j | 0 <= i < j < |order| :: order[i] < order[j])
    && (forall k | 0 <= k < |order| :: order[k] < |syms|)
    && (forall k | 0 <= k < |order| :: LinkedAt(syms, order, k))
    && (forall p | 0 <= p < |syms| && syms[p].alive :: p in order)
  }

  ghost predicate LinkedAt(syms: seq<Sym>, order: seq<nat>, k: nat)
    requires k < |order|
  {
    && order[k] < |syms| && syms[order[k]].alive
    && syms[order[k]].next == (if k + 1 < |order| then order[k + 1] else NONE)
    && syms[order[k]].prev == (if k > 0 then order[k - 1] else NONE)
  }

  function Ids(syms: seq<Sym>, order: seq<nat>): (ids: seq<nat>)
    requires forall k | 0 <= k < |order| :: order[k] < |syms|
    ensures |ids| == |order|
  {
    seq(|order|, k requires 0 <= k < |order| => syms[order[k]].id)
  }

  /** Every mergeable adjacent pair has its entry in the heap. */
  ghost predicate Covered(m: MergeTable, syms: seq<Sym>, order: seq<nat>, heap: seq<Entry>)
    requires Linked(syms, order)
  {
    forall k: nat | Mergeable(m, Ids(syms, order), k) :: PairEntry(m, Ids(syms, order), order, k) in heap
  }

  function PairEntry(m: MergeTable, ids: seq<nat>, order: seq<nat>, k: nat): Entry
    requires Mergeable(m, ids, k) && |ids| == |order|
  {
    Entry(Rank(m, ids, k), order[k], ids[k], ids[k + 1])
  }

  /** A list nothing has been merged in: every position alive, linked to its neighbours. */
  predicate Chain(syms: seq<Sym>) {
    forall p | 0 <= p < |syms| ::
      syms[p] == Sym(syms[p].id, if p == 0 then NONE else p - 1, if p + 1 < |syms| then p + 1 else NONE, true)
  }

  function IdsOf(syms: seq<Sym>): (ids: seq<nat>)
    ensures |ids| == |syms|
  {
    seq(|syms|, p requires 0 <= p < |syms| => syms[p].id)
  }

  /** `push_sym`. */
  method PushSym(syms: seq<Sym>, id: nat) returns (r: seq<Sym>)
    requires Chain(syms)
    ensures Chain(r) && IdsOf(r) == IdsOf(syms) + [id]
  {
    var pos := |syms|;
    r := syms;
    if pos > 0 {
      r := r[pos - 1 := r[pos - 1].(next := pos)];
    }
    r := r + [Sym(id, if pos == 0 then NONE else pos - 1, NONE, true)];
  }

  function Positions(n: nat): (order: seq<nat>)
    ensures |order| == n
  {
    seq(n, p requires 0 <= p < n => p)
  }

  lemma ChainIsLinked(syms: seq<Sym>)
    requires Chain(syms) && |syms| <= NONE
    ensures Linked(syms, Positions(|syms|)) && Ids(syms, Positions(|syms|)) == IdsOf(syms)
  {
    var order := Positions(|syms|);
    forall p | 0 <= p < |syms|
      ensures p in order
    {
      assert order[p] == p;
    }
  }

  /** `push_pair`: the entry of the pair starting at list index `k`, if it has one. */
  method PushPair(m: MergeTable, syms: seq<Sym>, heap: seq<Entry>, left: nat, ghost order: seq<nat>, ghost k: nat) returns (r: seq<Entry>)
    requires Linked(syms, order) && k < |order| && order[k] == left
    ensures r == heap + if Mergeable(m, Ids(syms, order), k) then [PairEntry(m, Ids(syms, order), order, k)] else []
  {
    r := heap;
    var right := syms[left].next;
    assert LinkedAt(syms, order, k);
    if k + 1 < |order| {
      assert order[k + 1] < |syms|;
    }
    if right == NONE {
      return;
    }
    var l, rt := syms[left].id, syms[right].id;
    if (l, rt) in m {
      r := r + [Entry(m[(l, rt)].0, left, l, rt)];
    }
  }

  // ------------------------------------------------------- one merge step

  /** The list index of an alive position. */
  lemma IndexOf(syms: seq<Sym>, order: seq<nat>, pos: nat) returns (k: nat)
    requires Linked(syms, order) && pos < |syms| && syms[pos].alive
    ensures k < |order| && order[k] == pos
  {
    k :| 0 <= k < |order| && order[k] == pos;
  }

  /** What the pop loop checks before merging. */
  predicate Live(m: MergeTable, syms: seq<Sym>, e: Entry) {
    && e.pos < |syms| && syms[e.pos].alive && syms[e.pos].id == e.l
    && syms[e.pos].next != NONE && syms[e.pos].next < |syms| && syms[syms[e.pos].next].id == e.r
    && (e.l, e.r) in m && m[(e.l, e.r)].0 == e.rank
  }

  /** A live least entry is the entry of the best pair. */
  lemma LiveMinIsBest(m: MergeTable, syms: seq<Sym>, order: seq<nat>, heap: seq<Entry>, e: Entry, k: nat)
    requires Linked(syms, order) && Covered(m, syms, order, heap) && Live(m, syms, e)
    requires k < |order| && order[k] == e.pos && forall f | f in heap :: AtMost(e, f)
    ensures IsBest(m, Ids(syms, order), k) && k + 1 < |order| && syms[e.pos].next == order[k + 1]
  {
    var ids := Ids(syms, order);
    assert LinkedAt(syms, order, k);
    if k + 1 < |order| {
      assert order[k + 1] < |syms|;
    }
    forall j: nat | Mergeable(m, ids, j)
      ensures Rank(m, ids, k) < Rank(m, ids, j) || (Rank(m, ids, k) == Rank(m, ids, j) && k <= j)
    {
      var f := PairEntry(m, ids, order, j);
      assert f in heap;
      assert f.pos == order[j];
    }
  }

  /** Skipping a dead entry loses no pair. */
  lemma DeadEntryIsNotNeeded(m: MergeTable, syms: seq<Sym>, order: seq<nat>, heap: seq<Entry>, rest: seq<Entry>, e: Entry)
    requires Linked(syms, order) && Covered(m, syms, order, heap) && !Live(m, syms, e)
    requires forall f | f in heap && f != e :: f in rest
    ensures Covered(m, syms, order, rest)
  {
    var ids := Ids(syms, order);
    forall k: nat | Mergeable(m, ids, k)
      ensures PairEntry(m, ids, order, k) in rest
    {
      assert LinkedAt(syms, order, k) && order[k + 1] < |syms|;
      assert Live(m, syms, PairEntry(m, ids, order, k));
    }
  }

  /** `order` without the symbol at list index `k + 1`. */
  function Unlink(order: seq<nat>, k: nat): (r: seq<nat>)
    requires k + 1 < |order|
    ensures |r| == |order| - 1
    ensures forall j | 0 <= j <= k :: r[j] == order[j]
    ensures forall j | k < j < |r| :: r[j] == order[j + 1]
  {
    order[..k + 1] + order[k + 2..]
  }

  /** Merge the right neighbour into `pos`: new id, dead neighbour, links around it. */
  method MergeInto(m: MergeTable, syms: seq<Sym>, pos: nat, merged: nat, ghost order: seq<nat>, ghost k: nat) returns (r: seq<Sym>)
    requires Linked(syms, order) && Mergeable(m, Ids(syms, order), k) && order[k] == pos
    requires merged == m[(Ids(syms, order)[k], Ids(syms, order)[k + 1])].1
    ensures Linked(r, Unlink(order, k)) && |r| == |syms|
    ensures Ids(r, Unlink(order, k)) == MergeAt(m, Ids(syms, order), k)
  {
    assert LinkedAt(syms, order, k) && LinkedAt(syms, order, k + 1);
    assert order[k + 1] < |syms| && (k + 2 < |order| ==> LinkedAt(syms, order, k + 2));
    var right := syms[pos].next;
    r := syms[pos := syms[pos].(id := merged)];
    r := r[right := r[right].(alive := false)];
    var after := r[right].next;
    assert after == if k + 2 < |order| then order[k + 2] else NONE;
    r := r[pos := r[pos].(next := after)];
    if after != NONE {
      r := r[after := r[after].(prev := pos)];
    }
    OthersUnchanged(syms, order, k);
    Relinked(syms, order, k, r, merged);
    MergedIds(m, syms, order, k, r, merged);
  }

  /** The four positions a merge writes are distinct list members. */
  lemma OthersUnchanged(syms: seq<Sym>, order: seq<nat>, k: nat)
    requires Linked(syms, order) && k + 1 < |order|
    ensures forall j | 0 <= j < |order| && j != k && j != k + 1 :: order[j] != order[k] && order[j] != order[k + 1]
    ensures order[k] != order[k + 1]
    ensures k + 2 < |order| ==> forall j | 0 <= j < |order| && j != k + 2 :: order[j] != order[k + 2]
  {
  }

  lemma MergedIds(m: MergeTable, syms: seq<Sym>, order: seq<nat>, k: nat, r: seq<Sym>, merged: nat)
    requires Linked(syms, order) && Mergeable(m, Ids(syms, order), k) && |r| == |syms|
    requires merged == m[(Ids(syms, order)[k], Ids(syms, order)[k + 1])].1
    requires r[order[k]].id == merged
    requires forall j | 0 <= j < |order| && j != k && j != k + 1 :: r[order[j]].id == syms[order[j]].id
    requires Linked(r, Unlink(order, k))
    ensures Ids(r, Unlink(order, k)) == MergeAt(m, Ids(syms, order), k)
  {
    var after := Unlink(order, k);
    var a, b := Ids(r, after), MergeAt(m, Ids(syms, order), k);
    forall j | 0 <= j < |after|
      ensures a[j] == b[j]
    {
      var i := if j <= k then j else j + 1;
      assert after[j] == order[i];
    }
  }

  /** `r` is `syms` with the four writes of a merge at list index `k`. */
  ghost predicate Rewired(syms: seq<Sym>, order: seq<nat>, k: nat, r: seq<Sym>, merged: nat) {
    && Linked(syms, order) && k + 1 < |order| && |r| == |syms|
    && (forall j | 0 <= j < |order| && j != k && j != k + 1 && j != k + 2 :: r[order[j]] == syms[order[j]])
    && r[order[k]] == Sym(merged, syms[order[k]].prev, if k + 2 < |order| then order[k + 2] else NONE, true)
    && !r[order[k + 1]].alive
    && (k + 2 < |order| ==> r[order[k + 2]] == syms[order[k + 2]].(prev := order[k]))
    && (forall p | 0 <= p < |r| && r[p].alive :: syms[p].alive && p != order[k + 1])
  }

  lemma RelinkedAt(syms: seq<Sym>, order: seq<nat>, k: nat, r: seq<Sym>, merged: nat, j: nat)
    requires Rewired(syms, order, k, r, merged) && j < |order| - 1
    ensures LinkedAt(r, Unlink(order, k), j)
  {
    var i := if j <= k then j else j + 1;
    assert LinkedAt(syms, order, i) && Unlink(order, k)[j] == order[i];
  }

  lemma Relinked(syms: seq<Sym>, order: seq<nat>, k: nat, r: seq<Sym>, merged: nat)
    requires Rewired(syms, order, k, r, merged)
    ensures Linked(r, Unlink(order, k))
  {
    var after := Unlink(order, k);
    forall p | 0 <= p < |r| && r[p].alive
      ensures p in after
    {
      var j :| 0 <= j < |order| && order[j] == p;
      assert p == after[if j <= k then j else j - 1];
    }
    forall j | 0 <= j < |after|
      ensures LinkedAt(r, after, j)
    {
      RelinkedAt(syms, order, k, r, merged, j);
    }
  }

  /** The heap after a merge at `k`: old entries survive, both new neighbour pairs are present. */
  lemma StillCovered(m: MergeTable, syms: seq<Sym>, order: seq<nat>, heap: seq<Entry>, k: nat, syms2: seq<Sym>, heap2: seq<Entry>, e: Entry)
    requires Linked(syms, order) && Covered(m, syms, order, heap) && Mergeable(m, Ids(syms, order), k)
    requires Linked(syms2, Unlink(order, k)) && Ids(syms2, Unlink(order, k)) == MergeAt(m, Ids(syms, order), k)
    requires e.pos == order[k] && forall f | f in heap && f != e :: f in heap2
    requires forall j: nat | k <= j + 1 && j <= k && Mergeable(m, Ids(syms2, Unlink(order, k)), j) ::
               PairEntry(m, Ids(syms2, Unlink(order, k)), Unlink(order, k), j) in heap2
    ensures Covered(m, syms2, Unlink(order, k), heap2)
  {
    var ids, after := Ids(syms, order), Unlink(order, k);
    var ids2 := Ids(syms2, after);
    forall j: nat | Mergeable(m, ids2, j)
      ensures PairEntry(m, ids2, after, j) in heap2
    {
      if j + 1 < k || k < j {
        var i := if j < k then j else j + 1;
        assert Mergeable(m, ids, i);
        assert PairEntry(m, ids2, after, j) == PairEntry(m, ids, order, i);
        assert order[i] != order[k];
      }
    }
  }

  // ------------------------------------------------------------- the loop

  /** The whole loop state: list, heap, and what merging everything would give. */
  ghost predicate Engine(m: MergeTable, syms: seq<Sym>, order: seq<nat>, heap: seq<Entry>, goal: seq<nat>) {
    Linked(syms, order) && Covered(m, syms, order, heap) && MergeAll(m, Ids(syms, order)) == goal
  }

  /** The merge branch of the loop, for a popped entry that is still live. */
  method MergeLive(m: MergeTable, syms: seq<Sym>, rest: seq<Entry>, e: Entry, ghost order: seq<nat>, ghost heap: seq<Entry>, ghost goal: seq<nat>)
    returns (syms2: seq<Sym>, heap2: seq<Entry>, ghost order2: seq<nat>)
    requires Engine(m, syms, order, heap, goal) && Live(m, syms, e)
    requires forall f | f in heap :: AtMost(e, f)
    requires forall f | f in heap && f != e :: f in rest
    ensures Engine(m, syms2, order2, heap2, goal)
    ensures 0 < |order2| == |order| - 1 && |heap2| <= |rest| + 2
  {
    ghost var k := IndexOf(syms, order, e.pos);
    LiveMinIsBest(m, syms, order, heap, e, k);
    MergeBest(m, Ids(syms, order), k);
    syms2 := MergeInto(m, syms, e.pos, m[(e.l, e.r)].1, order, k);
    order2 := Unlink(order, k);
    assert LinkedAt(syms2, order2, k);
    heap2 := rest;
    if syms2[e.pos].prev != NONE {
      heap2 := PushPair(m, syms2, heap2, syms2[e.pos].prev, order2, k - 1);
    }
    heap2 := PushPair(m, syms2, heap2, e.pos, order2, k);
    StillCovered(m, syms, order, heap, k, syms2, heap2, e);
  }

  /** One pop. */
  method PopStep(m: MergeTable, syms: seq<Sym>, heap: seq<Entry>, ghost order: seq<nat>, ghost goal: seq<nat>)
    returns (syms2: seq<Sym>, heap2: seq<Entry>, ghost order2: seq<nat>)
    requires Engine(m, syms, order, heap, goal) && heap != []
    ensures Engine(m, syms2, order2, heap2, goal)
    ensures (0 < |order| ==> 0 < |order2|) && |heap2| + 2 * |order2| < |heap| + 2 * |order|
  {
    hide MergeAll;
    var e, rest := PopMin(heap);
    if !Live(m, syms, e) {
      DeadEntryIsNotNeeded(m, syms, order, heap, rest, e);
      return syms, rest, order;
    }
    syms2, heap2, order2 := MergeLive(m, syms, rest, e, order, heap, goal);
  }

  /** Seed the heap with every adjacent mergeable pair. */
  method Seed(m: MergeTable, syms: seq<Sym>) returns (heap: seq<Entry>)
    requires Chain(syms) && |syms| <= NONE
    ensures Linked(syms, Positions(|syms|)) && Covered(m, syms, Positions(|syms|), heap)
    ensures |heap| <= if |syms| == 0 then 0 else |syms| - 1
  {
    ghost var order := Positions(|syms|);
    ChainIsLinked(syms);
    heap := [];
    var i := 0;
    while i + 1 < |syms|
      invariant |heap| <= i && (i < |syms| || i == 0)
      invariant forall k: nat | Mergeable(m, Ids(syms, order), k) && k < i :: PairEntry(m, Ids(syms, order), order, k) in heap
    {
      heap := PushPair(m, syms, heap, i, order, i);
      i := i + 1;
    }
  }

  /**
    Heap and list compute exactly `MergeAll`, in at most `3 (n - 1)` pops for
    `n` initial symbols: `pops` counts every pop, stale ones included.
   */
  method MergeSymbols(m: MergeTable, syms0: seq<Sym>) returns (ids: seq<nat>, ghost pops: nat)
    requires Chain(syms0) && |syms0| <= NONE
    ensures ids == MergeAll(m, IdsOf(syms0))
    ensures pops <= if |syms0| == 0 then 0 else 3 * (|syms0| - 1)
  {
    hide Engine, MergeAll, Covered, Linked, Chain, Ids, IdsOf;
    ghost var n := |syms0|;
    ghost var order, goal := Positions(n), MergeAll(m, IdsOf(syms0));
    var heap := Seed(m, syms0);
    Started(m, syms0, heap);
    var syms := syms0;
    pops := 0;
    while heap != []
      invariant Engine(m, syms, order, heap, goal)
      invariant 0 < n ==> 0 < |order|
      invariant n == 0 ==> heap == [] && pops == 0
      invariant 0 < n ==> pops + |heap| + 2 * (|order| - 1) <= 3 * (n - 1)
      decreases |heap| + 2 * |order|
    {
      syms, heap, order := PopStep(m, syms, heap, order, goal);
      pops := pops + 1;
    }
    NothingLeft(m, syms, order, goal);
    ids := Collect(syms, order);
  }

  lemma Started(m: MergeTable, syms: seq<Sym>, heap: seq<Entry>)
    requires Chain(syms) && |syms| <= NONE
    requires Linked(syms, Positions(|syms|)) && Covered(m, syms, Positions(|syms|), heap)
    ensures Engine(m, syms, Positions(|syms|), heap, MergeAll(m, IdsOf(syms)))
  {
    ChainIsLinked(syms);
  }

  lemma NothingLeft(m: MergeTable, syms: seq<Sym>, order: seq<nat>, goal: seq<nat>)
    requires Engine(m, syms, order, [], goal)
    ensures Linked(syms, order) && Ids(syms, order) == goal
  {
    NothingToMerge(m, Ids(syms, order));
  }

  /** The alive symbols, left to right. */
  method Collect(syms: seq<Sym>, ghost order: seq<nat>) returns (ids: seq<nat>)
    requires Linked(syms, order)
    ensures ids == Ids(syms, order)
  {
    ids := [];
    var p := 0;
    ghost var k := 0;
    while p < |syms|
      invariant p <= |syms| && k <= |order| && ids == Ids(syms, order)[..k]
      invariant k > 0 ==> order[k - 1] < p
      invariant k < |order| ==> p <= order[k]
    {
      assert k < |order| ==> LinkedAt(syms, order, k);
      if syms[p].alive {
        ghost var j := IndexOf(syms, order, p);
        assert j == k;
        ids := ids + [syms[p].id];
        k := k + 1;
      }
      p := p + 1;
    }
  }
}
