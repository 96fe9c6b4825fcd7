/** The per-layer KV stores of the fast path, and what they must contain. */
module KvStore {
  // A sliding layer keeps a ring of `window` slots addressed by `pos % window`; a
  // global layer keeps a linear store. `Holds` ties a store to the full linear
  // history that the reference model would keep.

  import opened Arithmetic
  import opened Network

  datatype Store = Store(k: seq<Row>, v: seq<Row>)

  /** `st` contains every row of the history `want` that any later query can still see. */
  ghost predicate Holds(net: Net, kind: Kind, cap: nat, st: Store, want: seq<(Row, Row)>) {
    if kind.Sliding? then
      && |st.k| == |st.v| == net.window
      && forall p | 0 <= p < |want| && |want| <= p + net.window :: SlotHolds(st, Slot(p, net.window), want[p])
    else
      && |st.k| == |st.v| == cap && |want| <= cap
      && forall p | 0 <= p < |want| :: SlotHolds(st, p, want[p])
  }

  predicate SlotHolds(st: Store, i: nat, kv: (Row, Row)) {
    i < |st.k| && i < |st.v| && st.k[i] == kv.0 && st.v[i] == kv.1
  }

  /** A fresh or reset store holds the empty history, whatever bytes it contains. */
  predicate Sized(net: Net, kind: Kind, cap: nat, st: Store) {
    |st.k| == |st.v| == if kind.Sliding? then net.window else cap
  }

  lemma EmptyHistoryHolds(net: Net, kind: Kind, cap: nat, st: Store)
    requires Sized(net, kind, cap, st)
    ensures Holds(net, kind, cap, st, [])
  {
  }

  // ------------------------------------------------------ ring arithmetic

  /** The ring slot of a position, by repeated subtraction; `SlotIsRemainder` says it is `p % w`. */
  function Slot(p: nat, w: nat): (s: nat)
    requires 0 < w
    ensures s < w
    decreases p
  {
    if p < w then p else Slot(p - w, w)
  }

  lemma {:induction false} SlotIsRemainder(p: nat, w: nat)
    requires 0 < w
    ensures Slot(p, w) == p % w
    decreases p
  {
    if p < w {
      assert p / w == 0;
    } else {
      SlotIsRemainder(p - w, w);
      RemainderStep(p, w);
    }
  }

  lemma RemainderStep(p: nat, w: nat)
    requires 0 < w <= p
    ensures p % w == (p - w) % w
  {
    UniqueRemainder(p, w, (p - w) / w + 1, (p - w) % w);
  }

  /** Positions less than a window apart never share a slot. */
  lemma {:induction false} SlotsDiffer(a: nat, b: nat, w: nat)
    requires a < b < a + w
    ensures Slot(a, w) != Slot(b, w)
    decreases a
  {
    if a >= w {
      SlotsDiffer(a - w, b - w, w);
    }
  }

  ghost predicate SlotsDistinct(pos: nat, n: nat, w: nat)
    requires 0 < w
  {
    forall s, t | pos <= s < t < pos + n :: Slot(s, w) != Slot(t, w)
  }

  /** Parallel appends of one chunk touch distinct ring slots exactly when the chunk fits the ring. */
  lemma SlotsDistinctIffChunkFits(pos: nat, n: nat, w: nat)
    requires 0 < w
    ensures SlotsDistinct(pos, n, w) <==> n <= w
  {
    if n <= w {
      forall s, t | pos <= s < t < pos + n
        ensures Slot(s, w) != Slot(t, w)
      {
        SlotsDiffer(s, t, w);
      }
    } else {
      assert Slot(pos, w) == Slot(pos + w, w);
    }
  }

  lemma FirstLap(i: nat, w: nat)
    requires i < w
    ensures Slot(i, w) == i
  {
  }

  /** Slot `i` of a ring about to receive position `n` belongs to the last position with that residue. */
  lemma {:induction false} OwnerOfSlot(n: nat, w: nat, i: nat)
    requires 0 < w <= n && i < w
    ensures var head := Slot(n, w);
            && head <= n
            && (i < head ==> Slot(n - head + i, w) == i)
            && (i >= head ==> n - head + i >= w && Slot(n - head + i - w, w) == i)
    decreases n
  {
    if n >= 2 * w {
      OwnerOfSlot(n - w, w, i);
    }
  }

  // -------------------------------------------------------------- appends

  /** Slot `s` is none of those the rows `pos .. pos + n` land in. */
  ghost predicate Untouched(s: nat, pos: nat, n: nat, w: nat)
    requires 0 < w
  {
    forall p | pos <= p < pos + n :: s != Slot(p, w)
  }

  function Positions(pos: nat, n: nat): (s: set<nat>)
    ensures forall p :: p in s <==> pos <= p < pos + n
    decreases n
  {
    if n == 0 then {} else Positions(pos, n - 1) + {pos + n - 1}
  }

  /**
    `kv_append_sliding`: row `t` goes to slot `(pos + t) % window`. The threads
    run in no particular order, hence the arbitrary choice of `p = pos + t`.
   */
  method AppendSliding(src: seq<Row>, n: nat, pos: nat, ring: seq<Row>) returns (r: seq<Row>)
    requires n <= |src| && n <= |ring| && 0 < |ring|
    ensures |r| == |ring|
    ensures forall p | pos <= p < pos + n :: r[Slot(p, |ring|)] == src[p - pos]
    ensures forall s | 0 <= s < |ring| && Untouched(s, pos, n, |ring|) :: r[s] == ring[s]
  {
    r := ring;
    var w := |ring|;
    var todo := Positions(pos, n);
    SlotsDistinctIffChunkFits(pos, n, w);
    while |todo| > 0
      invariant |r| == w
      invariant forall p | p in todo :: pos <= p < pos + n
      invariant forall p | pos <= p < pos + n && p !in todo :: r[Slot(p, w)] == src[p - pos]
      invariant forall s | 0 <= s < w && Untouched(s, pos, n, w) :: r[s] == ring[s]
      decreases |todo|
    {
      var p :| p in todo;
      r := r[Slot(p, w) := src[p - pos]];
      todo := todo - {p};
    }
  }

  /** `kv_append_global`: row `t` goes to slot `pos + t`. */
  method AppendGlobal(src: seq<Row>, n: nat, pos: nat, store: seq<Row>) returns (r: seq<Row>)
    requires n <= |src| && pos + n <= |store|
    ensures r == store[..pos] + src[..n] + store[pos + n..]
  {
    r := store;
    var t := 0;
    while t < n
      invariant t <= n && |r| == |store|
      invariant r == store[..pos] + src[..t] + store[pos + t..]
    {
      r := r[pos + t := src[t]];
      t := t + 1;
    }
  }

  /** Appending the chunk's rows carries a ring from one history to the next. */
  lemma SlidingAppendHolds(net: Net, cap: nat, st: Store, st2: Store, want: seq<(Row, Row)>, more: seq<(Row, Row)>)
    requires Holds(net, Sliding, cap, st, want)
    requires |st2.k| == |st2.v| == net.window
    requires forall p | |want| <= p < |want| + |more| :: SlotHolds(st2, Slot(p, net.window), more[p - |want|])
    requires forall s | 0 <= s < net.window && Untouched(s, |want|, |more|, net.window) :: st2.k[s] == st.k[s] && st2.v[s] == st.v[s]
    ensures Holds(net, Sliding, cap, st2, want + more)
  {
    var w, all := net.window, want + more;
    forall p | 0 <= p < |all| && |all| <= p + w
      ensures SlotHolds(st2, Slot(p, w), all[p])
    {
      if p < |want| {
        forall u | |want| <= u < |want| + |more|
          ensures Slot(p, w) != Slot(u, w)
        {
          SlotsDiffer(p, u, w);
        }
        assert Untouched(Slot(p, w), |want|, |more|, w);
        assert SlotHolds(st, Slot(p, w), want[p]);
      }
    }
  }

  lemma GlobalAppendHolds(net: Net, cap: nat, st: Store, st2: Store, want: seq<(Row, Row)>, more: seq<(Row, Row)>, k: seq<Row>, v: seq<Row>)
    requires |want| + |more| <= cap
    requires Holds(net, Global, cap, st, want)
    requires |k| == |v| == |more| && forall t | 0 <= t < |more| :: k[t] == more[t].0 && v[t] == more[t].1
    requires st2.k == st.k[..|want|] + k + st.k[|want| + |more|..]
    requires st2.v == st.v[..|want|] + v + st.v[|want| + |more|..]
    ensures Holds(net, Global, cap, st2, want + more)
  {
  }

  // ------------------------------------------------- what attention reads

  /** Prefill on a sliding layer: history rows from the ring, then the chunk's own rows. */
  function RingSeen(net: Net, st: Store, k: seq<Row>, v: seq<Row>, q0: nat, t: nat): seq<(Row, Row)>
    requires |st.k| == |st.v| == net.window
    requires t < |k| && t < |v|
  {
    var w := net.window;
    var lo := Oldest(net, Sliding, q0 + t);
    var mid := if lo < q0 then q0 else lo;
    seq(mid - lo, i requires 0 <= i < mid - lo => (st.k[Slot(lo + i, w)], st.v[Slot(lo + i, w)]))
    + seq(q0 + t + 1 - mid, i requires 0 <= i < q0 + t + 1 - mid => (k[mid - q0 + i], v[mid - q0 + i]))
  }

  /** Prefill on a global layer: the linear store up to the query, clamped to its capacity. */
  function LinearSeen(st: Store, q0: nat, t: nat): seq<(Row, Row)>
    requires |st.k| == |st.v|
  {
    var n := if q0 + t + 1 <= |st.k| then q0 + t + 1 else |st.k|;
    seq(n, i requires 0 <= i < n => (st.k[i], st.v[i]))
  }

  /** Decode: the first `n` slots in physical order, wrapped or not. */
  function SlotsSeen(st: Store, n: nat): seq<(Row, Row)>
    requires |st.k| == |st.v| && n <= |st.k|
  {
    seq(n, i requires 0 <= i < n => (st.k[i], st.v[i]))
  }

  /** A chunk's query sees through ring and chunk exactly its window of the linear history. */
  lemma RingSeenIsVisible(net: Net, cap: nat, st: Store, k: seq<Row>, v: seq<Row>, want: seq<(Row, Row)>, more: seq<(Row, Row)>, t: nat)
    requires Holds(net, Sliding, cap, st, want)
    requires t < |more| <= |k| && |k| == |v|
    requires forall j | 0 <= j < |more| :: k[j] == more[j].0 && v[j] == more[j].1
    ensures RingSeen(net, st, k, v, |want|, t) == Visible(net, Sliding, want + more, |want| + t)
  {
    hide Slot;
    var w, q0 := net.window, |want|;
    var lo := Oldest(net, Sliding, q0 + t);
    var mid := if lo < q0 then q0 else lo;
    var a, b := RingSeen(net, st, k, v, q0, t), Visible(net, Sliding, want + more, q0 + t);
    forall i | 0 <= i < |a|
      ensures a[i] == b[i]
    {
      if i < mid - lo {
        assert SlotHolds(st, Slot(lo + i, w), want[lo + i]);
      } else {
        assert a[i] == (k[lo + i - q0], v[lo + i - q0]);
      }
    }
  }

  lemma LinearSeenIsVisible(net: Net, cap: nat, st: Store, want: seq<(Row, Row)>, q0: nat, t: nat)
    requires Holds(net, Global, cap, st, want) && q0 + t < |want|
    ensures LinearSeen(st, q0, t) == Visible(net, Global, want, q0 + t)
  {
  }

  /** `s` is `t` with its first part moved behind the rest. */
  ghost predicate Rotation<A>(s: seq<A>, t: seq<A>, r: nat) {
    r <= |t| && s == t[r..] + t[..r]
  }

  /** In a full ring every slot holds a row of the window: slot `i` that of position `p`. */
  lemma SlotOwner(net: Net, cap: nat, st: Store, want: seq<(Row, Row)>, i: nat) returns (p: nat)
    requires net.window <= |want| && i < net.window && Holds(net, Sliding, cap, st, want)
    ensures |want| <= p + net.window && p < |want| && SlotHolds(st, i, want[p])
    ensures var head := Slot(|want|, net.window); p == if i < head then |want| - head + i else |want| - head + i - net.window
  {
    var head := Slot(|want|, net.window);
    OwnerOfSlot(|want|, net.window, i);
    p := if i < head then |want| - head + i else |want| - head + i - net.window;
    hide Slot;
    assert SlotHolds(st, Slot(p, net.window), want[p]);
  }

  /** A ring read in slot order is a rotation of the window read in position order. */
  lemma SlotsAreRotation(net: Net, cap: nat, st: Store, want: seq<(Row, Row)>) returns (r: nat)
    requires 0 < |want| && Holds(net, Sliding, cap, st, want)
    ensures Rotation(SlotsSeen(st, if |want| < net.window then |want| else net.window), Visible(net, Sliding, want, |want| - 1), r)
  {
    hide Slot;
    var w := net.window;
    var n := if |want| < w then |want| else w;
    var seen, vis := SlotsSeen(st, n), Visible(net, Sliding, want, |want| - 1);
    r := if |want| < w then 0 else w - Slot(|want|, w);
    var rot := vis[r..] + vis[..r];
    forall i | 0 <= i < n
      ensures seen[i] == rot[i]
    {
      if |want| < w {
        FirstLap(i, w);
        assert SlotHolds(st, Slot(i, w), want[i]);
      } else {
        var p := SlotOwner(net, cap, st, want, i);
        assert want[p] == vis[p - (|want| - w)];
      }
    }
  }

  // -------------------------------------------------- order of attention

  /** The hypothesis under which a kernel may read a ring in slot order (exact softmax has it). */
  ghost predicate OrderInvariant(ar: Arith) {
    forall a: seq<(Float, Float)>, b: seq<(Float, Float)> :: multiset(a) == multiset(b) ==> ar.mix(a) == ar.mix(b)
  }

  lemma AttendIgnoresRotation(net: Net, kind: Kind, q: Row, s: seq<(Row, Row)>, t: seq<(Row, Row)>, r: nat)
    requires forall a: seq<(Float, Float)>, b: seq<(Float, Float)> :: multiset(a) == multiset(b) ==> net.ar.mix(a) == net.ar.mix(b)
    requires Rotation(s, t, r)
    ensures AttendRow(net, kind, q, s) == AttendRow(net, kind, q, t)
  {
    HeadsIgnoreRotation(net.ar, q, s, t, r, PerKv(net, kind), net.Geo(kind).headDim, net.qHeads);
  }

  lemma {:induction false} HeadsIgnoreRotation(ar: Arith, q: Row, s: seq<(Row, Row)>, t: seq<(Row, Row)>, r: nat, perKv: nat, hd: nat, n: nat)
    requires OrderInvariant(ar) && Rotation(s, t, r) && 0 < perKv
    ensures AttendHeads(ar, q, s, perKv, hd, n) == AttendHeads(ar, q, t, perKv, hd, n)
    decreases n
  {
    if n > 0 {
      HeadsIgnoreRotation(ar, q, s, t, r, perKv, hd, n - 1);
      var qh, kvh := HeadOf(q, n - 1, hd), (n - 1) / perKv;
      HeadIgnoresRotation(ar, qh, s, t, r, kvh, hd);
    }
  }

  lemma HeadIgnoresRotation(ar: Arith, qh: Row, s: seq<(Row, Row)>, t: seq<(Row, Row)>, r: nat, kvh: nat, hd: nat)
    requires OrderInvariant(ar) && Rotation(s, t, r)
    ensures AttendHead(ar, qh, s, kvh, hd) == AttendHead(ar, qh, t, kvh, hd)
  {
    forall j | 0 <= j < hd
      ensures ar.mix(Pairs(ar, qh, s, kvh, hd, j)) == ar.mix(Pairs(ar, qh, t, kvh, hd, j))
    {
      var a, b := Pairs(ar, qh, s, kvh, hd, j), Pairs(ar, qh, t, kvh, hd, j);
      assert a == b[r..] + b[..r];
      assert b == b[..r] + b[r..];
      assert multiset(a) == multiset(b);
    }
  }
}
