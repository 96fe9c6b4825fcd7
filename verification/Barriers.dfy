/** What the recorded barriers guarantee. */
module Barriers {
  // A graph is a list of dispatches and barriers; the device may interleave the
  // loads and stores of all invocations between two barriers in any way. A step's
  // private registers count as memory only its invocation touches.

  type Memory = map<nat, nat>

  /** One load or store: what it may read, what it may write, and what it does. */
  datatype Step = Step(loads: set<nat>, stores: set<nat>, f: Memory -> Memory)

  type Invocation = seq<Step>
  type Dispatch = seq<Invocation>

  datatype Cmd = Run(d: Dispatch) | Barrier

  // ------------------------------------------------------------ executing

  function Seen(m: Memory, locations: set<nat>): Memory {
    map l | l in m && l in locations :: m[l]
  }

  function Apply(s: Step, m: Memory): Memory {
    var r := s.f(Seen(m, s.loads));
    map l | l in m :: if l in s.stores && l in r then r[l] else m[l]
  }

  predicate Independent(a: Step, b: Step) {
    a.stores !! b.stores && a.stores !! b.loads && b.stores !! a.loads
  }

  lemma Commute(a: Step, b: Step, m: Memory)
    requires Independent(a, b)
    ensures Apply(a, Apply(b, m)) == Apply(b, Apply(a, m))
  {
    assert Seen(Apply(b, m), a.loads) == Seen(m, a.loads);
    assert Seen(Apply(a, m), b.loads) == Seen(m, b.loads);
  }

  /** A step as recorded: the number of barriers before it, and which invocation of which command it belongs to. */
  datatype Event = Event(segment: nat, invocation: (nat, nat), step: Step)

  function Execute(es: seq<Event>, m: Memory): Memory {
    if es == [] then m else Apply(es[|es| - 1].step, Execute(es[..|es| - 1], m))
  }

  /** Pairs whose order the device keeps: steps of one invocation, and steps with a barrier between them. */
  predicate Ordered(a: Event, b: Event) {
    a.invocation == b.invocation || a.segment != b.segment
  }

  ghost predicate RaceFree(es: seq<Event>) {
    forall i, j | 0 <= i < j < |es| :: !Ordered(es[i], es[j]) ==> Independent(es[i].step, es[j].step)
  }

  /** Every recorded step runs once, and only unordered pairs may swap. */
  ghost predicate Schedule(es: seq<Event>, order: seq<nat>) {
    && |order| == |es|
    && (forall i | 0 <= i < |order| :: order[i] < |es|)
    && (forall i, j | 0 <= i < j < |order| :: order[i] != order[j])
    && (forall a: nat | a < |es| :: a in order)
    && (forall i, j | 0 <= i < j < |order| :: order[i] > order[j] ==> !Ordered(es[order[j]], es[order[i]]))
  }

  function Scheduled(es: seq<Event>, order: seq<nat>): (r: seq<Event>)
    requires forall i | 0 <= i < |order| :: order[i] < |es|
    ensures |r| == |order|
  {
    seq(|order|, i requires 0 <= i < |order| => es[order[i]])
  }

  /** The device may keep the record order. */
  lemma RecordOrderIsSchedule(es: seq<Event>, order: seq<nat>)
    requires |order| == |es| && forall i | 0 <= i < |es| :: order[i] == i
    ensures Schedule(es, order)
  {
    forall a: nat | a < |es|
      ensures a in order
    {
      assert order[a] == a;
    }
  }

  /** From any schedule it may go to another by swapping two neighbours nothing orders. */
  lemma SwapIsSchedule(es: seq<Event>, order: seq<nat>, k: nat)
    requires Schedule(es, order) && k + 1 < |order| && !Ordered(es[order[k]], es[order[k + 1]])
    ensures Schedule(es, order[k := order[k + 1]][k + 1 := order[k]])
  {
    var r := order[k := order[k + 1]][k + 1 := order[k]];
    forall a: nat | a < |es|
      ensures a in r
    {
      assert a in order;
      var i :| 0 <= i < |order| && order[i] == a;
      assert r[if i == k then k + 1 else if i == k + 1 then k else i] == a;
    }
  }

  // ------------------------------------------------------- moving one step

  lemma {:induction false} ExecuteAppend(a: seq<Event>, b: seq<Event>, m: Memory)
    ensures Execute(a + b, m) == Execute(b, Execute(a, m))
    decreases |b|
  {
    if b == [] {
      assert a + b == a;
    } else {
      assert (a + b)[..|a + b| - 1] == a + b[..|b| - 1];
      ExecuteAppend(a, b[..|b| - 1], m);
    }
  }

  predicate AllIndependent(es: seq<Event>, e: Event) {
    forall i | 0 <= i < |es| :: Independent(es[i].step, e.step)
  }

  /** A step independent of everything in `tail` can run before it or after it. */
  lemma {:induction false} MoveToEnd(e: Event, tail: seq<Event>, m: Memory)
    requires AllIndependent(tail, e)
    ensures Execute(tail, Apply(e.step, m)) == Apply(e.step, Execute(tail, m))
    decreases |tail|
  {
    if tail != [] {
      var init, last := tail[..|tail| - 1], tail[|tail| - 1];
      MoveToEnd(e, init, m);
      Commute(last.step, e.step, Execute(init, m));
    }
  }

  lemma ExecuteOne(e: Event, m: Memory)
    ensures Execute([e], m) == Apply(e.step, m)
  {
    assert [e][..0] == [];
  }

  function Without(order: seq<nat>, k: nat): seq<nat>
    requires k < |order|
  {
    order[..k] + order[k + 1..]
  }

  lemma ScheduleWithout(es: seq<Event>, order: seq<nat>, k: nat)
    requires Schedule(es, order) && k < |order| && order[k] == |es| - 1
    ensures Schedule(es[..|es| - 1], Without(order, k))
  {
    var n, r := |es| - 1, Without(order, k);
    forall i | 0 <= i < |r|
      ensures r[i] < n
    {
      assert r[i] == order[if i < k then i else i + 1];
    }
    forall a: nat | a < n
      ensures a in r
    {
      assert a in order;
      var i :| 0 <= i < |order| && order[i] == a;
      assert r[if i < k then i else i - 1] == a;
    }
  }

  lemma SplitAt(es: seq<Event>, order: seq<nat>, k: nat)
    requires Schedule(es, order) && k < |order| && order[k] == |es| - 1
    ensures forall i | k < i < |order| :: order[i] < |es| - 1
    ensures forall i | 0 <= i < |order| && i != k :: order[i] < |es| - 1
    ensures Scheduled(es, order) == Scheduled(es, order[..k]) + ([es[|es| - 1]] + Scheduled(es, order[k + 1..]))
    ensures Schedule(es[..|es| - 1], Without(order, k))
    ensures Scheduled(es[..|es| - 1], Without(order, k)) == Scheduled(es, order[..k]) + Scheduled(es, order[k + 1..])
  {
    ScheduleWithout(es, order, k);
  }

  lemma TailIsIndependent(es: seq<Event>, order: seq<nat>, k: nat)
    requires RaceFree(es) && Schedule(es, order) && k < |order| && order[k] == |es| - 1
    ensures AllIndependent(Scheduled(es, order[k + 1..]), es[|es| - 1])
  {
    var tail := Scheduled(es, order[k + 1..]);
    forall i | 0 <= i < |tail|
      ensures Independent(tail[i].step, es[|es| - 1].step)
    {
      assert order[k] != order[k + 1 + i];
      assert !Ordered(es[order[k + 1 + i]], es[order[k]]);
    }
  }

  /** Moving a step past independent ones. */
  lemma RunLast(head: seq<Event>, e: Event, tail: seq<Event>, m: Memory)
    requires AllIndependent(tail, e)
    ensures Execute(head + ([e] + tail), m) == Apply(e.step, Execute(head + tail, m))
  {
    hide Execute, Apply, AllIndependent;
    var h := Execute(head, m);
    ExecuteAppend(head, [e] + tail, m);
    ExecuteAppend([e], tail, h);
    ExecuteAppend(head, tail, m);
    ExecuteOne(e, h);
    MoveToEnd(e, tail, h);
  }

  lemma LastPlace(es: seq<Event>, order: seq<nat>) returns (k: nat)
    requires es != [] && Schedule(es, order)
    ensures k < |order| && order[k] == |es| - 1
  {
    assert |es| - 1 in order;
    k :| 0 <= k < |order| && order[k] == |es| - 1;
  }

  lemma RaceFreePrefix(es: seq<Event>)
    requires es != [] && RaceFree(es)
    ensures RaceFree(es[..|es| - 1])
  {
  }

  /**
    Barrier soundness: when unordered steps never touch each other's data, every
    schedule that keeps the recorded barriers leaves the memory of the recorded order.
   */
  lemma {:induction false} AnyScheduleIsRecordOrder(es: seq<Event>, order: seq<nat>, m: Memory)
    requires RaceFree(es) && Schedule(es, order)
    ensures (forall i | 0 <= i < |order| :: order[i] < |es|) && Execute(Scheduled(es, order), m) == Execute(es, m)
    decreases |es|
  {
    assert forall i | 0 <= i < |order| :: order[i] < |es|;
    hide Schedule, RaceFree, Scheduled, Apply, Without, AllIndependent;
    if es == [] {
    } else {
      var k := LastPlace(es, order);
      var e, init := es[|es| - 1], es[..|es| - 1];
      RaceFreePrefix(es);
      TailIsIndependent(es, order, k);
      SplitAt(es, order, k);
      AnyScheduleIsRecordOrder(init, Without(order, k), m);
      RunLast(Scheduled(es, order[..k]), e, Scheduled(es, order[k + 1..]), m);
    }
  }

  // ------------------------------------------------------ from commands to steps

  function Fences(cmds: seq<Cmd>): nat {
    if cmds == [] then 0 else Fences(cmds[..|cmds| - 1]) + if cmds[|cmds| - 1].Barrier? then 1 else 0
  }

  function InvocationEvents(inv: Invocation, segment: nat, id: (nat, nat)): (r: seq<Event>)
    ensures |r| == |inv|
  {
    seq(|inv|, i requires 0 <= i < |inv| => Event(segment, id, inv[i]))
  }

  function DispatchEvents(d: Dispatch, segment: nat, cmd: nat): seq<Event> {
    if d == [] then [] else DispatchEvents(d[..|d| - 1], segment, cmd) + InvocationEvents(d[|d| - 1], segment, (cmd, |d| - 1))
  }

  /** The recorded order of steps. */
  function Events(cmds: seq<Cmd>): seq<Event> {
    if cmds == [] then []
    else
      var n := |cmds| - 1;
      Events(cmds[..n]) + if cmds[n].Run? then DispatchEvents(cmds[n].d, Fences(cmds[..n]), n) else []
  }

  /** Steps of a dispatch, and of a list of commands. */
  function StepsOf(d: Dispatch): nat {
    if d == [] then 0 else StepsOf(d[..|d| - 1]) + |d[|d| - 1]|
  }

  function StepsIn(cmds: seq<Cmd>): nat {
    if cmds == [] then 0 else StepsIn(cmds[..|cmds| - 1]) + if cmds[|cmds| - 1].Run? then StepsOf(cmds[|cmds| - 1].d) else 0
  }

  lemma {:induction false} DispatchInOrder(d: Dispatch, segment: nat, cmd: nat, i: nat, k: nat)
    requires i < |d| && k < |d[i]|
    ensures |DispatchEvents(d, segment, cmd)| == StepsOf(d) && StepsOf(d[..i]) + k < StepsOf(d)
    ensures DispatchEvents(d, segment, cmd)[StepsOf(d[..i]) + k] == Event(segment, (cmd, i), d[i][k])
    decreases |d|
  {
    var init := d[..|d| - 1];
    DispatchSize(d, segment, cmd);
    DispatchSize(init, segment, cmd);
    if i < |d| - 1 {
      DispatchInOrder(init, segment, cmd, i, k);
      assert init[..i] == d[..i];
    }
  }

  lemma {:induction false} DispatchSize(d: Dispatch, segment: nat, cmd: nat)
    ensures |DispatchEvents(d, segment, cmd)| == StepsOf(d)
    decreases |d|
  {
    if d != [] {
      DispatchSize(d[..|d| - 1], segment, cmd);
    }
  }

  lemma {:induction false} EventsSize(cmds: seq<Cmd>)
    ensures |Events(cmds)| == StepsIn(cmds)
    decreases |cmds|
  {
    if cmds != [] {
      var n := |cmds| - 1;
      EventsSize(cmds[..n]);
      if cmds[n].Run? {
        DispatchSize(cmds[n].d, Fences(cmds[..n]), n);
      }
    }
  }

  /** No step is left out and none is added: each stands where the commands, invocations and steps before it end. */
  lemma {:induction false} EventsInOrder(cmds: seq<Cmd>, c: nat, i: nat, k: nat)
    requires c < |cmds| && cmds[c].Run? && i < |cmds[c].d| && k < |cmds[c].d[i]|
    ensures |Events(cmds)| == StepsIn(cmds)
    ensures var at := StepsIn(cmds[..c]) + StepsOf(cmds[c].d[..i]) + k;
            at < StepsIn(cmds) && Events(cmds)[at] == Event(Fences(cmds[..c]), (c, i), cmds[c].d[i][k])
    decreases |cmds|
  {
    hide StepsOf, DispatchEvents, Fences;
    var n := |cmds| - 1;
    var init := cmds[..n];
    EventsSize(cmds);
    EventsSize(init);
    if c < n {
      EventsInOrder(init, c, i, k);
      assert init[..c] == cmds[..c];
    } else {
      DispatchInOrder(cmds[n].d, Fences(init), n, i, k);
    }
  }

  /** Where a step comes from. */
  ghost predicate ComesFrom(cmds: seq<Cmd>, e: Event) {
    var c, i := e.invocation.0, e.invocation.1;
    c < |cmds| && cmds[c].Run? && i < |cmds[c].d| && e.step in cmds[c].d[i] && e.segment == Fences(cmds[..c])
  }

  lemma {:induction false} DispatchOrigin(d: Dispatch, segment: nat, cmd: nat, e: Event)
    requires e in DispatchEvents(d, segment, cmd)
    ensures e.segment == segment && e.invocation.0 == cmd && e.invocation.1 < |d| && e.step in d[e.invocation.1]
    decreases |d|
  {
    var n := |d| - 1;
    if e in DispatchEvents(d[..n], segment, cmd) {
      DispatchOrigin(d[..n], segment, cmd, e);
    }
  }

  lemma {:induction false} EventOrigin(cmds: seq<Cmd>, e: Event)
    requires e in Events(cmds)
    ensures ComesFrom(cmds, e)
    decreases |cmds|
  {
    var n := |cmds| - 1;
    if e in Events(cmds[..n]) {
      EventOrigin(cmds[..n], e);
      assert cmds[..n][..e.invocation.0] == cmds[..e.invocation.0];
    } else {
      DispatchOrigin(cmds[n].d, Fences(cmds[..n]), n, e);
    }
  }

  /** The kernel's own contract: its invocations do not touch each other's data. */
  ghost predicate KernelRaceFree(d: Dispatch) {
    forall i, j | 0 <= i < |d| && 0 <= j < |d| && i != j :: Apart(d[i], d[j])
  }

  ghost predicate Apart(a: Invocation, b: Invocation) {
    forall s, t | s in a && t in b :: Independent(s, t)
  }

  ghost predicate DispatchesApart(a: Dispatch, b: Dispatch) {
    forall i, j | 0 <= i < |a| && 0 <= j < |b| :: Apart(a[i], b[j]) && Apart(b[j], a[i])
  }

  ghost predicate NoBarrierBetween(cmds: seq<Cmd>, i: nat, j: nat) {
    forall k | i < k < j && k < |cmds| :: !cmds[k].Barrier?
  }

  /** Dispatches not separated by a barrier have independent read and write sets. */
  ghost predicate Separated(cmds: seq<Cmd>) {
    && (forall i | 0 <= i < |cmds| && cmds[i].Run? :: KernelRaceFree(cmds[i].d))
    && (forall i, j | 0 <= i < j < |cmds| && cmds[i].Run? && cmds[j].Run? ::
          NoBarrierBetween(cmds, i, j) ==> DispatchesApart(cmds[i].d, cmds[j].d))
  }

  lemma {:induction false} EqualCounts(cmds: seq<Cmd>, i: nat, j: nat)
    requires i < j <= |cmds|
    ensures Fences(cmds[..i]) <= Fences(cmds[..j])
    ensures Fences(cmds[..i]) == Fences(cmds[..j]) ==> NoBarrierBetween(cmds, i, j) && !cmds[i].Barrier?
    decreases j
  {
    assert cmds[..j][..j - 1] == cmds[..j - 1];
    if i < j - 1 {
      EqualCounts(cmds, i, j - 1);
    }
  }

  lemma SeparatedIsRaceFree(cmds: seq<Cmd>)
    requires Separated(cmds)
    ensures RaceFree(Events(cmds))
  {
    var es := Events(cmds);
    forall x, y | 0 <= x < y < |es| && !Ordered(es[x], es[y])
      ensures Independent(es[x].step, es[y].step)
    {
      var a, b := es[x], es[y];
      EventOrigin(cmds, a);
      EventOrigin(cmds, b);
      var c, d := a.invocation.0, b.invocation.0;
      if c < d {
        EqualCounts(cmds, c, d);
        assert DispatchesApart(cmds[c].d, cmds[d].d);
        assert Apart(cmds[c].d[a.invocation.1], cmds[d].d[b.invocation.1]);
      } else if d < c {
        EqualCounts(cmds, d, c);
        assert DispatchesApart(cmds[d].d, cmds[c].d);
        assert Apart(cmds[c].d[a.invocation.1], cmds[d].d[b.invocation.1]);
      } else {
        assert Apart(cmds[c].d[a.invocation.1], cmds[c].d[b.invocation.1]);
      }
    }
  }

  lemma {:induction false} SameFences(cmds: seq<Cmd>, i: nat, j: nat)
    requires i < j <= |cmds| && !cmds[i].Barrier? && NoBarrierBetween(cmds, i, j)
    ensures Fences(cmds[..i]) == Fences(cmds[..j])
    decreases j
  {
    assert cmds[..j][..j - 1] == cmds[..j - 1];
    if i < j - 1 {
      SameFences(cmds, i, j - 1);
    }
  }

  /** In a race-free recording, steps of different invocations with no barrier between them are independent. */
  lemma UnorderedSteps(cmds: seq<Cmd>, c: nat, i: nat, k: nat, c2: nat, i2: nat, k2: nat)
    requires RaceFree(Events(cmds)) && (c != c2 || i != i2)
    requires c < |cmds| && cmds[c].Run? && i < |cmds[c].d| && k < |cmds[c].d[i]|
    requires c2 < |cmds| && cmds[c2].Run? && i2 < |cmds[c2].d| && k2 < |cmds[c2].d[i2]|
    requires Fences(cmds[..c]) == Fences(cmds[..c2])
    ensures Independent(cmds[c].d[i][k], cmds[c2].d[i2][k2])
  {
    hide *;
    var p := Place(cmds, c, i, k);
    var q := Place(cmds, c2, i2, k2);
    UnorderedPair(Events(cmds), p, q);
  }

  lemma Place(cmds: seq<Cmd>, c: nat, i: nat, k: nat) returns (at: nat)
    requires c < |cmds| && cmds[c].Run? && i < |cmds[c].d| && k < |cmds[c].d[i]|
    ensures at < |Events(cmds)| && Events(cmds)[at] == Event(Fences(cmds[..c]), (c, i), cmds[c].d[i][k])
  {
    EventsInOrder(cmds, c, i, k);
    at := StepsIn(cmds[..c]) + StepsOf(cmds[c].d[..i]) + k;
    hide *;
  }

  lemma UnorderedPair(es: seq<Event>, p: nat, q: nat)
    requires RaceFree(es) && p < |es| && q < |es| && es[p].segment == es[q].segment && es[p].invocation != es[q].invocation
    ensures Independent(es[p].step, es[q].step)
  {
    if p < q {
      assert !Ordered(es[p], es[q]);
    } else {
      assert !Ordered(es[q], es[p]);
    }
  }

  lemma InvocationsApart(cmds: seq<Cmd>, c: nat, i: nat, c2: nat, i2: nat)
    requires RaceFree(Events(cmds)) && (c != c2 || i != i2)
    requires c < |cmds| && cmds[c].Run? && i < |cmds[c].d|
    requires c2 < |cmds| && cmds[c2].Run? && i2 < |cmds[c2].d| && Fences(cmds[..c]) == Fences(cmds[..c2])
    ensures Apart(cmds[c].d[i], cmds[c2].d[i2])
  {
    hide Independent, RaceFree, Fences;
    var a, b := cmds[c].d[i], cmds[c2].d[i2];
    forall s, t | s in a && t in b
      ensures Independent(s, t)
    {
      var k :| 0 <= k < |a| && a[k] == s;
      var k2 :| 0 <= k2 < |b| && b[k2] == t;
      UnorderedSteps(cmds, c, i, k, c2, i2, k2);
    }
  }

  /** Separation of the dispatches is exactly freedom from races between the recorded steps. */
  lemma SeparatedIff(cmds: seq<Cmd>)
    ensures Separated(cmds) <==> RaceFree(Events(cmds))
  {
    if Separated(cmds) {
      SeparatedIsRaceFree(cmds);
    }
    if RaceFree(Events(cmds)) {
      hide Apart, RaceFree, Fences;
      forall c, i, j | 0 <= c < |cmds| && cmds[c].Run? && 0 <= i < |cmds[c].d| && 0 <= j < |cmds[c].d| && i != j
        ensures Apart(cmds[c].d[i], cmds[c].d[j])
      {
        InvocationsApart(cmds, c, i, c, j);
      }
      forall c, c2, i, j | 0 <= c < c2 < |cmds| && cmds[c].Run? && cmds[c2].Run? && NoBarrierBetween(cmds, c, c2) && 0 <= i < |cmds[c].d| && 0 <= j < |cmds[c2].d|
        ensures Apart(cmds[c].d[i], cmds[c2].d[j]) && Apart(cmds[c2].d[j], cmds[c].d[i])
      {
        SameFences(cmds, c, c2);
        InvocationsApart(cmds, c, i, c2, j);
        InvocationsApart(cmds, c2, j, c, i);
      }
    }
  }

  /** Whatever the device does within the recorded barriers, the graph computes what running its commands in record order computes. */
  lemma GraphIsSequential(cmds: seq<Cmd>, order: seq<nat>, m: Memory)
    requires Separated(cmds) && Schedule(Events(cmds), order)
    ensures Execute(Scheduled(Events(cmds), order), m) == Execute(Events(cmds), m)
  {
    SeparatedIsRaceFree(cmds);
    AnyScheduleIsRecordOrder(Events(cmds), order, m);
  }

  // ----------------------------------------------------------- the recorder

  /** What recording `ds` with the default dispatch must leave: a barrier before every dispatch but the first. */
  function Serial(ds: seq<Dispatch>): seq<Cmd> {
    if ds == [] then []
    else Serial(ds[..|ds| - 1]) + (if |ds| > 1 then [Barrier] else []) + [Run(ds[|ds| - 1])]
  }

  function Runs(cmds: seq<Cmd>): nat {
    if cmds == [] then 0 else Runs(cmds[..|cmds| - 1]) + if cmds[|cmds| - 1].Run? then 1 else 0
  }

  class GraphRecorder {
    var cmds: seq<Cmd>
    var dispatched: nat

    ghost predicate Valid()
      reads this
    {
      dispatched == Runs(cmds)
    }

    constructor ()
      ensures Valid() && cmds == []
    {
      cmds, dispatched := [], 0;
    }

    /** `record_dispatch`. */
    method RecordDispatch(d: Dispatch, autoBarrier: bool)
      requires Valid()
      modifies this
      ensures Valid()
      ensures cmds == old(cmds) + (if autoBarrier && Runs(old(cmds)) > 0 then [Barrier] else []) + [Run(d)]
    {
      if autoBarrier && dispatched > 0 {
        EmitBarrier();
      }
      RunsAppend(cmds, Run(d));
      cmds := cmds + [Run(d)];
      dispatched := dispatched + 1;
    }

    /** `barrier`. */
    method EmitBarrier()
      requires Valid()
      modifies `cmds
      ensures Valid() && cmds == old(cmds) + [Barrier]
    {
      RunsAppend(cmds, Barrier);
      cmds := cmds + [Barrier];
    }
  }

  lemma RunsAppend(cmds: seq<Cmd>, c: Cmd)
    ensures Runs(cmds + [c]) == Runs(cmds) + if c.Run? then 1 else 0
  {
    assert (cmds + [c])[..|cmds|] == cmds;
  }

  lemma {:induction false} SerialRuns(ds: seq<Dispatch>)
    ensures Runs(Serial(ds)) == |ds|
    decreases |ds|
  {
    if ds != [] {
      var init := Serial(ds[..|ds| - 1]);
      SerialRuns(ds[..|ds| - 1]);
      RunsAppend(init, Barrier);
      RunsAppend(init, Run(ds[|ds| - 1]));
      RunsAppend(init + [Barrier], Run(ds[|ds| - 1]));
      assert init + [] == init;
    }
  }

  /** Recording only with `dispatch`. */
  method RecordSerial(ds: seq<Dispatch>) returns (graph: seq<Cmd>)
    ensures graph == Serial(ds)
  {
    var rec := new GraphRecorder();
    var i := 0;
    while i < |ds|
      invariant i <= |ds| && rec.Valid() && rec.cmds == Serial(ds[..i])
    {
      SerialRuns(ds[..i]);
      assert ds[..i + 1][..i] == ds[..i];
      rec.RecordDispatch(ds[i], true);
      i := i + 1;
    }
    assert ds[..i] == ds;
    graph := rec.cmds;
  }

  /** In a serial graph the commands alternate: runs at even places, barriers at odd ones. */
  lemma {:induction false} SerialShape(ds: seq<Dispatch>, k: nat)
    ensures |Serial(ds)| == if ds == [] then 0 else 2 * |ds| - 1
    ensures k < |Serial(ds)| ==> Serial(ds)[k] == if k % 2 == 0 then Run(ds[k / 2]) else Barrier
    decreases |ds|
  {
    if ds != [] {
      SerialShape(ds[..|ds| - 1], k);
      assert k / 2 < |ds| - 1 ==> ds[..|ds| - 1][k / 2] == ds[k / 2];
    }
  }

  lemma SerialRunsAreFenced(ds: seq<Dispatch>, i: nat, j: nat)
    requires i < j < |Serial(ds)| && Serial(ds)[i].Run? && Serial(ds)[j].Run?
    ensures !NoBarrierBetween(Serial(ds), i, j)
  {
    SerialShape(ds, i);
    SerialShape(ds, i + 1);
    SerialShape(ds, j);
    hide Serial;
    assert Serial(ds)[i + 1].Barrier?;
  }

  /** A graph recorded only with `dispatch` needs nothing of its dispatches relative to each other: it is separated iff each kernel is race-free by itself. */
  lemma SerialIsSeparatedIff(ds: seq<Dispatch>)
    ensures Separated(Serial(ds)) <==> forall i | 0 <= i < |ds| :: KernelRaceFree(ds[i])
  {
    hide Serial, KernelRaceFree, NoBarrierBetween, DispatchesApart;
    var g := Serial(ds);
    forall i | 0 <= i < |ds|
      ensures 2 * i < |g| && g[2 * i] == Run(ds[i])
    {
      SerialShape(ds, 2 * i);
    }
    forall i | 0 <= i < |g| && g[i].Run?
      ensures i / 2 < |ds| && g[i].d == ds[i / 2]
    {
      SerialShape(ds, i);
    }
    forall i, j | 0 <= i < j < |g| && g[i].Run? && g[j].Run?
      ensures !NoBarrierBetween(g, i, j)
    {
      SerialRunsAreFenced(ds, i, j);
    }
  }

  /** So such a graph is sequential under every schedule, whatever its dispatches read and write. */
  lemma SerialIsSequential(ds: seq<Dispatch>, order: seq<nat>, m: Memory)
    requires forall i | 0 <= i < |ds| :: KernelRaceFree(ds[i])
    requires Schedule(Events(Serial(ds)), order)
    ensures Execute(Scheduled(Events(Serial(ds)), order), m) == Execute(Events(Serial(ds)), m)
  {
    SerialIsSeparatedIff(ds);
    GraphIsSequential(Serial(ds), order, m);
  }

  // ------------------------------------------------- without the barrier

  /** Two one-step kernels recorded without a barrier between them. */
  function Overlapping(a: Step, b: Step): seq<Cmd> {
    [Run([[a]]), Run([[b]])]
  }

  predicate Touches(s: Step, loads: set<nat>, stores: set<nat>) {
    s.loads == loads && s.stores == stores
  }

  /** Footprints that conflict where it can be seen: both store to one place, or one loads what the other stores and stores anything itself. */
  predicate Conflict(la: set<nat>, sa: set<nat>, lb: set<nat>, sb: set<nat>) {
    sa * sb != {} || (sa * lb != {} && sb != {}) || (sb * la != {} && sa != {})
  }

  /** Whatever two steps with these footprints compute, every schedule leaves the memory of the recorded order. */
  ghost predicate OrderFree(la: set<nat>, sa: set<nat>, lb: set<nat>, sb: set<nat>) {
    forall a: Step, b: Step, order, m |
      Touches(a, la, sa) && Touches(b, lb, sb) && Schedule(Events(Overlapping(a, b)), order) ::
      Execute(Scheduled(Events(Overlapping(a, b)), order), m) == Execute(Events(Overlapping(a, b)), m)
  }

  /** Stores `v` at `x`, whatever it sees. */
  function Put(loads: set<nat>, stores: set<nat>, x: nat, v: nat): Step {
    Step(loads, stores, (m: Memory) => map[x := v])
  }

  /** Copies what it sees at `x` to `y`. */
  function Copy(loads: set<nat>, stores: set<nat>, x: nat, y: nat): Step {
    Step(loads, stores, (m: Memory) => if x in m then map[y := m[x]] else map[])
  }

  lemma PutApplies(loads: set<nat>, stores: set<nat>, x: nat, v: nat, m: Memory)
    requires x in stores && x in m
    ensures Apply(Put(loads, stores, x, v), m) == m[x := v]
  {
    var s := Put(loads, stores, x, v);
    assert s.f(Seen(m, loads)) == map[x := v];
  }

  lemma CopyApplies(loads: set<nat>, stores: set<nat>, x: nat, y: nat, m: Memory)
    requires x in loads && y in stores && x in m && y in m
    ensures Apply(Copy(loads, stores, x, y), m) == m[y := m[x]]
  {
    var s := Copy(loads, stores, x, y);
    assert Seen(m, loads)[x] == m[x];
    assert s.f(Seen(m, loads)) == map[y := m[x]];
  }

  /** Steps with these footprints, and a memory, on which the order shows. */
  ghost predicate OrderShows(la: set<nat>, sa: set<nat>, lb: set<nat>, sb: set<nat>) {
    exists a: Step, b: Step, m :: Touches(a, la, sa) && Touches(b, lb, sb) && Apply(a, Apply(b, m)) != Apply(b, Apply(a, m))
  }

  lemma StoresClash(la: set<nat>, sa: set<nat>, lb: set<nat>, sb: set<nat>, x: nat)
    requires x in sa && x in sb
    ensures OrderShows(la, sa, lb, sb)
  {
    var a, b, m: Memory := Put(la, sa, x, 1), Put(lb, sb, x, 2), map[x := 0];
    PutApplies(la, sa, x, 1, m);
    PutApplies(lb, sb, x, 2, m);
    PutApplies(la, sa, x, 1, m[x := 2]);
    PutApplies(lb, sb, x, 2, m[x := 1]);
    hide Apply;
    assert Apply(a, Apply(b, m))[x] == 1 && Apply(b, Apply(a, m))[x] == 2;
  }

  /** One stores where the other loads, and what the other then stores shows it. */
  lemma LoadClashes(la: set<nat>, sa: set<nat>, lb: set<nat>, sb: set<nat>, x: nat, y: nat)
    requires x in sa && x in lb && y in sb && y !in sa
    ensures OrderShows(la, sa, lb, sb) && OrderShows(lb, sb, la, sa)
  {
    var a, b, m: Memory := Put(la, sa, x, 1), Copy(lb, sb, x, y), map[x := 0, y := 0];
    PutApplies(la, sa, x, 1, m);
    CopyApplies(lb, sb, x, y, m);
    PutApplies(la, sa, x, 1, m[y := 0]);
    CopyApplies(lb, sb, x, y, m[x := 1]);
    hide Apply;
    assert Apply(a, Apply(b, m))[y] == 0 && Apply(b, Apply(a, m))[y] == 1;
    assert Touches(a, la, sa) && Touches(b, lb, sb);
  }

  lemma ConflictShows(la: set<nat>, sa: set<nat>, lb: set<nat>, sb: set<nat>)
    requires Conflict(la, sa, lb, sb)
    ensures OrderShows(la, sa, lb, sb)
  {
    hide OrderShows;
    if x :| x in sa * sb {
      StoresClash(la, sa, lb, sb, x);
    } else if sa * lb != {} && sb != {} {
      var x, y :| x in sa * lb && y in sb;
      assert y !in sa * sb;
      LoadClashes(la, sa, lb, sb, x, y);
    } else {
      var x, y :| x in sb * la && y in sa;
      assert y !in sa * sb;
      LoadClashes(lb, sb, la, sa, x, y);
    }
  }

  /** Steps without a visible conflict commute, even where a step that stores nothing loads. */
  lemma NoConflictCommutes(a: Step, b: Step, m: Memory)
    requires !Conflict(a.loads, a.stores, b.loads, b.stores)
    ensures Apply(a, Apply(b, m)) == Apply(b, Apply(a, m))
  {
    if a.stores == {} || b.stores == {} {
      assert forall m: Memory :: a.stores == {} ==> Apply(a, m) == m;
      assert forall m: Memory :: b.stores == {} ==> Apply(b, m) == m;
    } else {
      assert forall x | x in a.stores && x in b.stores :: x in a.stores * b.stores;
      assert forall x | x in a.stores && x in b.loads :: x in a.stores * b.loads;
      assert forall x | x in b.stores && x in a.loads :: x in b.stores * a.loads;
      Commute(a, b, m);
    }
  }

  lemma TwoOrders(order: seq<nat>)
    requires |order| == 2 && order[0] < 2 && order[1] < 2 && order[0] != order[1]
    ensures order == [0, 1] || order == [1, 0]
  {
  }

  /**
    Leaving the barrier out is safe, for every pair of steps with given footprints, exactly when the footprints
    do not conflict: otherwise there are steps with those footprints and a schedule that leaves other memory.
   */
  lemma OverlapIsSafeIff(la: set<nat>, sa: set<nat>, lb: set<nat>, sb: set<nat>)
    ensures OrderFree(la, sa, lb, sb) <==> !Conflict(la, sa, lb, sb)
  {
    hide Conflict, Events, Apply, Execute;
    if Conflict(la, sa, lb, sb) {
      ConflictShows(la, sa, lb, sb);
      var a: Step, b: Step, m :| Touches(a, la, sa) && Touches(b, lb, sb) && Apply(a, Apply(b, m)) != Apply(b, Apply(a, m));
      EitherOrder(a, b, m);
    } else {
      forall a: Step, b: Step, order, m | Touches(a, la, sa) && Touches(b, lb, sb) && Schedule(Events(Overlapping(a, b)), order)
        ensures Execute(Scheduled(Events(Overlapping(a, b)), order), m) == Execute(Events(Overlapping(a, b)), m)
      {
        ScheduleOfTwo(a, b, order);
        EitherOrder(a, b, m);
        NoConflictCommutes(a, b, m);
      }
    }
  }

  lemma ScheduleOfTwo(a: Step, b: Step, order: seq<nat>)
    requires Schedule(Events(Overlapping(a, b)), order)
    ensures order == [0, 1] || order == [1, 0]
  {
    TwoStores(a, b);
    TwoOrders(order);
  }

  /** Of two overlapping one-step dispatches, either may run first. */
  lemma EitherOrder(one: Step, two: Step, m: Memory)
    ensures Schedule(Events(Overlapping(one, two)), [1, 0])
    ensures |Events(Overlapping(one, two))| == 2
    ensures Execute(Events(Overlapping(one, two)), m) == Apply(two, Apply(one, m))
    ensures Execute(Scheduled(Events(Overlapping(one, two)), [0, 1]), m) == Apply(two, Apply(one, m))
    ensures Execute(Scheduled(Events(Overlapping(one, two)), [1, 0]), m) == Apply(one, Apply(two, m))
  {
    var x, y := Event(0, (0, 0), one), Event(0, (1, 0), two);
    var es, order: seq<nat> := [x, y], [1, 0];
    TwoStores(one, two);
    hide Events, Apply;
    assert order[0] == 1 && order[1] == 0;
    assert Scheduled(es, order) == [y, x] && Scheduled(es, [0, 1]) == es;
    ExecuteTwo(x, y, m);
    ExecuteTwo(y, x, m);
  }

  lemma ExecuteTwo(a: Event, b: Event, m: Memory)
    ensures Execute([a, b], m) == Apply(b.step, Apply(a.step, m))
  {
    assert [a, b][..1] == [a];
    ExecuteOne(a, m);
  }

  lemma TwoStores(one: Step, two: Step)
    ensures Events(Overlapping(one, two)) == [Event(0, (0, 0), one), Event(0, (1, 0), two)]
  {
    var first, cmds := [Run([[one]])], Overlapping(one, two);
    assert cmds[..1] == first && first[..0] == [];
    SingleInvocation(one, 0);
    SingleInvocation(two, 1);
    assert Fences(first) == 0;
    assert Events(first) == [] + DispatchEvents([[one]], 0, 0);
    assert Events(cmds) == Events(first) + DispatchEvents([[two]], 0, 1);
  }

  lemma SingleInvocation(s: Step, cmd: nat)
    ensures DispatchEvents([[s]], 0, cmd) == [Event(0, (cmd, 0), s)]
  {
    var d: Dispatch := [[s]];
    assert d[..0] == [];
    assert DispatchEvents(d[..0], 0, cmd) == [];
    assert InvocationEvents(d[0], 0, (cmd, 0)) == [Event(0, (cmd, 0), s)];
  }
}
