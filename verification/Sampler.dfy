/**
  Drawing a token: temperature, top-k, top-p, inverse-CDF draw, in exact
  arithmetic with an arbitrary positive `exp`. `Drawn` is the one-pass
  definition; the sampler's widening candidate set must not show.
 */
module Samplers {
  import opened Rng
  import opened Units
  import opened Rankings

  datatype Params = Params(temperature: real, topK: nat, topP: real)

  type Exp = real -> real

  ghost predicate Positive(exp: Exp) {
    forall x: real :: exp(x) > 0.0
  }

  const WORKING_SET: nat := 1024

  // ------------------------------------------------------------------ sums

  /** Summed left to right. */
  function Sum(q: seq<real>): real {
    if q == [] then 0.0 else Sum(q[..|q| - 1]) + q[|q| - 1]
  }

  predicate AllPositive(q: seq<real>) {
    forall i | 0 <= i < |q| :: q[i] > 0.0
  }

  lemma {:induction false} SumCons(x: real, q: seq<real>)
    ensures Sum([x] + q) == x + Sum(q)
    decreases |q|
  {
    if q == [] {
      assert ([x] + q)[..0] == [];
    } else {
      SumCons(x, q[..|q| - 1]);
      assert ([x] + q)[..|q|] == [x] + q[..|q| - 1];
    }
  }

  lemma {:induction false} SumGrows(q: seq<real>, i: nat, j: nat)
    requires AllPositive(q) && i < j <= |q|
    ensures Sum(q[..i]) < Sum(q[..j])
    decreases j
  {
    assert q[..j][..j - 1] == q[..j - 1];
    if i < j - 1 {
      SumGrows(q, i, j - 1);
    }
  }

  // ------------------------------------------------------ reaching a mass

  /** The least `k > i` whose first `k` weights reach `target`, or one past the end. */
  function FirstReach(q: seq<real>, target: real, i: nat): (k: nat)
    requires i <= |q|
    ensures i < k <= |q| + 1
    ensures k <= |q| ==> Sum(q[..k]) >= target
    ensures forall j | i < j < k && j <= |q| :: Sum(q[..j]) < target
    decreases |q| - i
  {
    if i == |q| then |q| + 1
    else if Sum(q[..i + 1]) >= target then i + 1
    else FirstReach(q, target, i + 1)
  }

  lemma ReachIs(q: seq<real>, target: real, k: nat)
    requires 1 <= k <= |q| && Sum(q[..k]) >= target && forall j | 1 <= j < k :: Sum(q[..j]) < target
    ensures FirstReach(q, target, 0) == k
  {
    var f := FirstReach(q, target, 0);
    assert f <= |q| ==> Sum(q[..f]) >= target;
  }

  /** A mass reached within a prefix is reached at the same place in the whole. */
  lemma ReachedEarly(q: seq<real>, k: nat, target: real)
    requires k <= |q| && FirstReach(q[..k], target, 0) <= k
    ensures FirstReach(q, target, 0) == FirstReach(q[..k], target, 0)
  {
    var f := FirstReach(q[..k], target, 0);
    assert q[..k][..f] == q[..f];
    forall j | 1 <= j < f
      ensures Sum(q[..j]) < target
    {
      assert q[..k][..j] == q[..j];
    }
    ReachIs(q, target, f);
  }

  /** The top-p loop. */
  method Prefix(q: seq<real>, target: real) returns (keep: nat, reached: bool)
    ensures reached == (FirstReach(q, target, 0) <= |q|)
    ensures keep == if reached then FirstReach(q, target, 0) else |q|
  {
    var acc, i := 0.0, 0;
    assert q[..0] == [];
    while i < |q|
      invariant i <= |q| && acc == Sum(q[..i])
      invariant FirstReach(q, target, 0) == FirstReach(q, target, i)
    {
      assert q[..i + 1][..i] == q[..i];
      acc := acc + q[i];
      if acc >= target {
        return i + 1, true;
      }
      i := i + 1;
    }
    keep, reached := |q|, false;
  }

  // --------------------------------------------------------------- drawing

  function Scaled(u: real, x: real): real {
    u * x
  }

  lemma ScaledIs(u: real, x: real)
    ensures Scaled(u, x) == u * x
  {
  }

  lemma ScaledDown(u: real, x: real)
    requires 0.0 <= u < 1.0 && x > 0.0
    ensures 0.0 <= Scaled(u, x) < x
  {
  }

  lemma DrawReaches(q: seq<real>, u: real)
    requires q != [] && AllPositive(q) && 0.0 <= u < 1.0
    ensures FirstReach(q, Scaled(u, Sum(q)), 0) <= |q|
  {
    hide Scaled;
    assert q[..|q|] == q && q[..0] == [];
    SumGrows(q, 0, |q|);
    ScaledDown(u, Sum(q));
  }

  /** The index drawn with `u`. */
  function DrawIndex(q: seq<real>, u: real): (i: nat)
    requires q != [] && AllPositive(q) && 0.0 <= u < 1.0
    ensures i < |q|
  {
    hide Scaled;
    DrawReaches(q, u);
    FirstReach(q, Scaled(u, Sum(q)), 0) - 1
  }

  lemma BelowBefore(q: seq<real>, t: real, i: nat)
    requires AllPositive(q) && i <= |q| && (i == 0 || Sum(q[..i]) < t)
    ensures forall j | 1 <= j <= i :: Sum(q[..j]) < t
  {
    forall j | 1 <= j < i
      ensures Sum(q[..j]) < t
    {
      SumGrows(q, j, i);
    }
  }

  lemma ReachIff(q: seq<real>, t: real, i: nat)
    requires AllPositive(q) && i < |q|
    ensures FirstReach(q, t, 0) == i + 1 <==> (i == 0 || Sum(q[..i]) < t) && t <= Sum(q[..i + 1])
  {
    hide Sum;
    if (i == 0 || Sum(q[..i]) < t) && t <= Sum(q[..i + 1]) {
      BelowBefore(q, t, i);
      ReachIs(q, t, i + 1);
    }
  }

  /** Inverse CDF: `i` is drawn exactly when `u`, scaled to the total, falls in its weight's interval. */
  lemma DrawIsInverseCdf(q: seq<real>, u: real, i: nat)
    requires q != [] && AllPositive(q) && 0.0 <= u < 1.0 && i < |q|
    ensures DrawIndex(q, u) == i <==> (i == 0 || Sum(q[..i]) < u * Sum(q)) && u * Sum(q) <= Sum(q[..i + 1])
  {
    hide Sum, FirstReach, AllPositive;
    ReachIff(q, u * Sum(q), i);
  }

  /** The subtract-and-test loop: the fallback after it is never reached. */
  method Draw(q: seq<real>, u: real) returns (i: nat)
    requires q != [] && AllPositive(q) && 0.0 <= u < 1.0
    ensures i == DrawIndex(q, u)
  {
    var total := Total(q);
    var r := u * total;
    assert r == Scaled(u, total);
    DrawReaches(q, u);
    hide Scaled;
    i := 0;
    assert q[..0] == [];
    while i < |q|
      invariant i <= |q| && r == Scaled(u, Sum(q)) - Sum(q[..i])
      invariant FirstReach(q, Scaled(u, Sum(q)), 0) == FirstReach(q, Scaled(u, Sum(q)), i)
    {
      assert q[..i + 1][..i] == q[..i];
      r := r - q[i];
      if r <= 0.0 {
        return;
      }
      i := i + 1;
    }
    assert false;
  }

  method Total(q: seq<real>) returns (t: real)
    ensures t == Sum(q)
  {
    t := 0.0;
    var i := 0;
    assert q[..0] == [];
    while i < |q|
      invariant i <= |q| && t == Sum(q[..i])
    {
      assert q[..i + 1][..i] == q[..i];
      t := t + q[i];
      i := i + 1;
    }
    assert q[..i] == q;
  }

  lemma MulMonotone(a: real, b: real, c: real)
    requires a <= b && c >= 0.0
    ensures a * c <= b * c
  {
  }

  lemma Cancels(a: real, b: real, c: real)
    requires a * c <= b * c && c > 0.0
    ensures a <= b
  {
  }

  /** The largest of `n` steps of `c` that is below `n` and does not pass `s`. */
  lemma StepBelow(s: real, c: real, n: int) returns (m: int)
    requires 0.0 < s <= n as real * c && c > 0.0 && n > 0
    ensures 0 <= m < n && m as real * c <= s <= (m + 1) as real * c
  {
    var x := s / c;
    assert x * c == s;
    var f := x.Floor;
    Cancels(x, n as real, c);
    m := if f == n then n - 1 else f;
    assert m as real <= x <= (m + 1) as real;
    MulMonotone(m as real, x, c);
    MulMonotone(x, (m + 1) as real, c);
  }

  lemma FractionOf(m: int, n: int, x: real)
    requires n > 0
    ensures (m as real / n as real) * x == m as real * (x / n as real)
  {
  }

  /** The cumulative masses around place `i`. */
  lemma MassesAround(q: seq<real>, i: nat)
    requires AllPositive(q) && i < |q|
    ensures Sum(q[..i + 1]) == Sum(q[..i]) + q[i] && 0.0 < Sum(q[..i + 1]) <= Sum(q)
  {
    assert q[..|q|] == q && q[..0] == [] && q[..i + 1][..i] == q[..i];
    SumGrows(q, 0, i + 1);
    if i + 1 < |q| {
      SumGrows(q, i + 1, |q|);
    }
  }

  lemma Parts(t: real, n: int)
    requires n > 0 && t > 0.0
    ensures t / n as real > 0.0 && n as real * (t / n as real) == t
  {
  }

  lemma NextStep(m: int, c: real)
    ensures (m + 1) as real * c == m as real * c + c
  {
  }

  lemma IsFraction(m: int, n: int)
    requires 0 <= m < n
    ensures 0.0 <= m as real / n as real < 1.0
  {
  }

  /** Any weight above the generator's resolution is drawn by some fraction of it. */
  lemma DrawnByFraction(q: seq<real>, i: nat) returns (m: nat)
    requires AllPositive(q) && i < |q| && q[i] > Sum(q) / TWO53 as real
    ensures m < TWO53 && 0.0 <= m as real / TWO53 as real < 1.0 && DrawIndex(q, m as real / TWO53 as real) == i
  {
    hide Sum, FirstReach, AllPositive, DrawIndex;
    var t := Sum(q);
    var c := t / TWO53 as real;
    MassesAround(q, i);
    Parts(t, TWO53);
    m := StepBelow(Sum(q[..i + 1]), c, TWO53);
    NextStep(m, c);
    IsFraction(m, TWO53);
    FractionOf(m, TWO53, t);
    DrawsWhere(q, m as real / TWO53 as real, i, m as real * c);
  }

  lemma DrawsWhere(q: seq<real>, u: real, i: nat, x: real)
    requires q != [] && AllPositive(q) && 0.0 <= u < 1.0 && i < |q|
    requires u * Sum(q) == x && Sum(q[..i]) < x <= Sum(q[..i + 1])
    ensures DrawIndex(q, u) == i
  {
    hide Sum, FirstReach, AllPositive;
    DrawIsInverseCdf(q, u, i);
  }

  // --------------------------------------------------------------- weights

  function Weight(exp: Exp, l: Logits, t: real, max: real, id: nat): real
    requires id < |l| && t > 0.0
  {
    exp((l[id] - max) / t)
  }

  /** Softmax numerators of `ids`, relative to `max`. */
  function Weights(exp: Exp, l: Logits, t: real, max: real, ids: seq<nat>): (q: seq<real>)
    requires Ids(l, ids) && t > 0.0
    ensures |q| == |ids| && forall i | 0 <= i < |ids| :: q[i] == Weight(exp, l, t, max, ids[i])
  {
    seq(|ids|, i requires 0 <= i < |ids| => Weight(exp, l, t, max, ids[i]))
  }

  lemma WeightsArePositive(exp: Exp, l: Logits, t: real, max: real, ids: seq<nat>)
    requires Ids(l, ids) && t > 0.0 && Positive(exp)
    ensures AllPositive(Weights(exp, l, t, max, ids))
  {
  }

  lemma MassCons(exp: Exp, l: Logits, t: real, max: real, x: nat, s: seq<nat>)
    requires Ids(l, [x] + s) && x < |l| && Ids(l, s) && t > 0.0
    ensures Sum(Weights(exp, l, t, max, [x] + s)) == Weight(exp, l, t, max, x) + Sum(Weights(exp, l, t, max, s))
  {
    hide Weight;
    var w := Weight(exp, l, t, max, x);
    assert Weights(exp, l, t, max, [x] + s) == [w] + Weights(exp, l, t, max, s);
    SumCons(w, Weights(exp, l, t, max, s));
  }

  lemma {:induction false} InsertedWeight(exp: Exp, l: Logits, t: real, max: real, x: nat, s: seq<nat>)
    requires Ids(l, s) && x < |l| && x !in s && t > 0.0
    ensures Sum(Weights(exp, l, t, max, InsertId(l, x, s))) == Weight(exp, l, t, max, x) + Sum(Weights(exp, l, t, max, s))
    decreases |s|
  {
    hide Weight, Weights, Before, Sum;
    if s == [] || Before(l, x, s[0]) {
      assert [x] + [] == [x];
      MassCons(exp, l, t, max, x, s);
    } else {
      InsertedWeight(exp, l, t, max, x, s[1..]);
      assert InsertId(l, x, s) == [s[0]] + InsertId(l, x, s[1..]);
      MassCons(exp, l, t, max, s[0], InsertId(l, x, s[1..]));
      assert s == [s[0]] + s[1..];
      MassCons(exp, l, t, max, s[0], s[1..]);
    }
  }

  /** In exact arithmetic ranking does not change the mass. */
  lemma {:induction false} RankedMass(exp: Exp, l: Logits, t: real, max: real, s: seq<nat>)
    requires Ids(l, s) && t > 0.0
    ensures Sum(Weights(exp, l, t, max, SortIds(l, s))) == Sum(Weights(exp, l, t, max, s))
    decreases |s|
  {
    hide Weight, Weights, Sum;
    if s == [] {
    } else {
      RankedMass(exp, l, t, max, s[1..]);
      assert s == [s[0]] + s[1..] && s[0] !in s[1..];
      InsertedWeight(exp, l, t, max, s[0], SortIds(l, s[1..]));
      MassCons(exp, l, t, max, s[0], s[1..]);
    }
  }

  // ------------------------------------------------------------- one pass

  /** The working set's first size. */
  function InitialK(topK: nat, n: nat): (k: nat)
    requires n > 0
    ensures 1 <= k <= n
  {
    var k := if topK == 0 then WORKING_SET else if topK < WORKING_SET then topK else WORKING_SET;
    if k < n then k else n
  }

  function MassOf(exp: Exp, l: Logits, t: real, ids: seq<nat>): seq<real>
    requires l != [] && Ids(l, ids) && t > 0.0
  {
    Weights(exp, l, t, l[Full(l)[0]], ids)
  }

  /** The mass of the whole vocabulary. */
  function FullMass(exp: Exp, l: Logits, t: real): real
    requires l != [] && t > 0.0
  {
    Sum(MassOf(exp, l, t, UpTo(|l|)))
  }

  /** How many of the ranked `ids` are kept against a reference mass. */
  function KeepLen(q: seq<real>, target: real): (k: nat)
    requires q != []
    ensures 1 <= k <= |q|
  {
    var f := FirstReach(q, target, 0);
    if f <= |q| then f else |q|
  }

  /** The tokens that can be drawn, best first; without a filter, or with a larger top-k, they are the best 1024. */
  function Kept(exp: Exp, l: Logits, p: Params): (ids: seq<nat>)
    requires l != [] && p.temperature > 0.0
    ensures ids != [] && Ids(l, ids) && |ids| <= |l|
  {
    var best, all := Full(l)[..InitialK(p.topK, |l|)], Full(l);
    if p.topP >= 1.0 then best
    else if p.topK > 0 then
      var q := MassOf(exp, l, p.temperature, best);
      best[..KeepLen(q, Scaled(p.topP, Sum(q)))]
    else
      all[..KeepLen(MassOf(exp, l, p.temperature, all), Scaled(p.topP, FullMass(exp, l, p.temperature)))]
  }

  /** Where in the kept list `u` falls. */
  ghost function DrawnAt(exp: Exp, l: Logits, p: Params, u: real): (i: nat)
    requires l != [] && p.temperature > 0.0 && Positive(exp) && 0.0 <= u < 1.0
    ensures i < |Kept(exp, l, p)|
  {
    var ids := Kept(exp, l, p);
    WeightsArePositive(exp, l, p.temperature, l[Full(l)[0]], ids);
    DrawIndex(MassOf(exp, l, p.temperature, ids), u)
  }

  /** The token one pass over the ranking draws. */
  ghost function Drawn(exp: Exp, l: Logits, p: Params, u: real): (id: nat)
    requires l != [] && p.temperature > 0.0 && Positive(exp) && 0.0 <= u < 1.0
    ensures id < |l|
  {
    Kept(exp, l, p)[DrawnAt(exp, l, p, u)]
  }

  lemma ShareIsLess(p: real, x: real)
    requires p < 1.0 && x > 0.0
    ensures Scaled(p, x) < x
  {
  }

  /** Cutting a list at its share keeps the least prefix with that mass. */
  lemma CutIsSmallest(q: seq<real>, p: real, n: nat)
    requires AllPositive(q) && q != [] && p < 1.0
    ensures var k := KeepLen(q, Scaled(p, Sum(q)));
            Sum(q[..k]) >= Scaled(p, Sum(q)) && (1 <= n < k ==> Sum(q[..n]) < Scaled(p, Sum(q)))
  {
    assert q[..|q|] == q && q[..0] == [];
    SumGrows(q, 0, |q|);
    ShareIsLess(p, Sum(q));
    hide Scaled;
  }

  /** The list top-p cuts. */
  function CutList(l: Logits, p: Params): (ids: seq<nat>)
    requires l != []
    ensures Ids(l, ids) && ids != [] && ids <= Full(l)
  {
    if p.topK > 0 then Full(l)[..InitialK(p.topK, |l|)] else Full(l)
  }

  /** The mass top-p takes its share of: the top-k set's, or the whole vocabulary's when top-k is off. */
  function ReferenceMass(exp: Exp, l: Logits, p: Params): real
    requires l != [] && p.temperature > 0.0
  {
    if p.topK > 0 then Sum(MassOf(exp, l, p.temperature, CutList(l, p))) else FullMass(exp, l, p.temperature)
  }

  lemma KeptIsCut(exp: Exp, l: Logits, p: Params)
    requires l != [] && p.temperature > 0.0 && p.topP < 1.0
    ensures var q := MassOf(exp, l, p.temperature, CutList(l, p));
            ReferenceMass(exp, l, p) == Sum(q) && Kept(exp, l, p) == CutList(l, p)[..KeepLen(q, Scaled(p.topP, Sum(q)))]
  {
    hide Scaled, Weight, FirstReach, Full, MassOf;
    ReferenceIsMass(exp, l, p);
  }

  lemma KeptIsSmallest(exp: Exp, l: Logits, p: Params, n: nat)
    requires l != [] && p.temperature > 0.0 && p.topP < 1.0 && Positive(exp)
    ensures Kept(exp, l, p) <= CutList(l, p) <= Full(l)
    ensures Sum(MassOf(exp, l, p.temperature, Kept(exp, l, p))) >= Scaled(p.topP, ReferenceMass(exp, l, p))
    ensures 1 <= n < |Kept(exp, l, p)| ==> Sum(MassOf(exp, l, p.temperature, Kept(exp, l, p)[..n])) < Scaled(p.topP, ReferenceMass(exp, l, p))
  {
    var t, list := p.temperature, CutList(l, p);
    var q := MassOf(exp, l, t, list);
    WeightsArePositive(exp, l, t, l[Full(l)[0]], list);
    KeptIsCut(exp, l, p);
    hide Scaled, Weight, Weights, FirstReach, Full, AllPositive, CutList, Kept, ReferenceMass, Sum;
    CutIsSmallest(q, p.topP, n);
    var k := KeepLen(q, Scaled(p.topP, Sum(q)));
    MassOfPrefix(exp, l, t, list, k);
    if 1 <= n < k {
      MassOfPrefix(exp, l, t, list, n);
      assert list[..k][..n] == list[..n];
    }
  }

  /** Top-p keeps the smallest prefix of the ranking whose mass reaches its share of the reference mass. */
  lemma KeptIsSmallestPrefix(exp: Exp, l: Logits, p: Params, n: nat)
    requires l != [] && p.temperature > 0.0 && p.topP < 1.0 && Positive(exp)
    ensures Kept(exp, l, p) <= CutList(l, p) <= Full(l)
    ensures Sum(MassOf(exp, l, p.temperature, Kept(exp, l, p))) >= p.topP * ReferenceMass(exp, l, p)
    ensures 1 <= n < |Kept(exp, l, p)| ==> Sum(MassOf(exp, l, p.temperature, Kept(exp, l, p)[..n])) < p.topP * ReferenceMass(exp, l, p)
  {
    hide Scaled, Weight, Weights, MassOf, FirstReach, Full, CutList, Kept, ReferenceMass, Sum;
    KeptIsSmallest(exp, l, p, n);
    ScaledIs(p.topP, ReferenceMass(exp, l, p));
  }

  lemma MassOfPrefix(exp: Exp, l: Logits, t: real, ids: seq<nat>, k: nat)
    requires l != [] && Ids(l, ids) && t > 0.0 && k <= |ids|
    ensures Ids(l, ids[..k]) && MassOf(exp, l, t, ids[..k]) == MassOf(exp, l, t, ids)[..k]
  {
  }

  /** The reference mass is the mass of the list the prefix is taken from. */
  lemma ReferenceIsMass(exp: Exp, l: Logits, p: Params)
    requires l != [] && p.temperature > 0.0
    ensures FullMass(exp, l, p.temperature) == Sum(MassOf(exp, l, p.temperature, Full(l)))
  {
    RankedMass(exp, l, p.temperature, l[Full(l)[0]], UpTo(|l|));
  }

  // ------------------------------------------------------- the sampler

  /** Whether a working set of `k` is enough: no filter asks for more, or it holds the target mass, or it is everything. */
  predicate Suffices(exp: Exp, l: Logits, p: Params, k: nat)
    requires l != [] && p.temperature > 0.0 && k <= |l|
  {
    || p.topK > 0 || p.topP >= 1.0 || k == |l|
    || FirstReach(MassOf(exp, l, p.temperature, Full(l)[..k]), Scaled(p.topP, FullMass(exp, l, p.temperature)), 0) <= k
  }

  function Wider(l: Logits, k: nat): (w: nat)
    requires 1 <= k <= |l|
    ensures k <= w <= |l| && (k < |l| ==> k < w)
  {
    if 4 * k < |l| then 4 * k else |l|
  }

  /** The first of `k, 4k, ...` that suffices. */
  function Width(exp: Exp, l: Logits, p: Params, k: nat): (w: nat)
    requires l != [] && p.temperature > 0.0 && 1 <= k <= |l|
    ensures k <= w <= |l| && Suffices(exp, l, p, w)
    ensures p.topK > 0 || p.topP >= 1.0 ==> w == k
    decreases |l| - k
  {
    if Suffices(exp, l, p, k) then k else Width(exp, l, p, Wider(l, k))
  }

  /** The working set the sampler settles on. */
  function FinalWidth(exp: Exp, l: Logits, p: Params): (w: nat)
    requires l != [] && p.temperature > 0.0
    ensures 1 <= w <= |l| && |Kept(exp, l, p)| <= w
  {
    var w := Width(exp, l, p, InitialK(p.topK, |l|));
    CutIsKept(exp, l, p, w);
    w
  }

  /** How many of the best `k` are kept. */
  function CutLen(exp: Exp, l: Logits, p: Params, k: nat): (n: nat)
    requires l != [] && p.temperature > 0.0 && 1 <= k <= |l|
    ensures 1 <= n <= k
  {
    if p.topP >= 1.0 then k
    else
      var q := MassOf(exp, l, p.temperature, Full(l)[..k]);
      KeepLen(q, Scaled(p.topP, if p.topK == 0 then FullMass(exp, l, p.temperature) else Sum(q)))
  }

  /** Cutting the best `k` where the prefix fits is cutting the whole ranking. */
  lemma WideningIsInvisible(exp: Exp, l: Logits, p: Params, k: nat)
    requires l != [] && p.temperature > 0.0 && p.topK == 0 && p.topP < 1.0 && 1 <= k <= |l| && Suffices(exp, l, p, k)
    ensures Full(l)[..CutLen(exp, l, p, k)] == Kept(exp, l, p)
  {
    var t := p.temperature;
    var target := Scaled(p.topP, FullMass(exp, l, t));
    MassOfPrefix(exp, l, t, Full(l), k);
    var all := MassOf(exp, l, t, Full(l));
    if k == |l| {
      assert Full(l)[..k] == Full(l) && all[..k] == all;
    } else {
      ReachedEarly(all, k, target);
    }
  }

  /** A working set that suffices keeps what the single pass keeps. */
  lemma CutIsKept(exp: Exp, l: Logits, p: Params, k: nat)
    requires l != [] && p.temperature > 0.0 && 1 <= k <= |l| && Suffices(exp, l, p, k)
    requires p.topK > 0 || p.topP >= 1.0 ==> k == InitialK(p.topK, |l|)
    ensures |Kept(exp, l, p)| == CutLen(exp, l, p, k) && Kept(exp, l, p) == Full(l)[..CutLen(exp, l, p, k)]
  {
    hide FullMass, Scaled, Sum, Full, Weights;
    if p.topP < 1.0 && p.topK == 0 {
      WideningIsInvisible(exp, l, p, k);
    } else {
      var n := CutLen(exp, l, p, k);
      assert Full(l)[..k][..n] == Full(l)[..n];
    }
  }

  // ------------------------------------------------- what ties can change

  /** The kept lists the sampler can arrive at: its last selection may break ties in any way. */
  ghost predicate MayKeep(exp: Exp, l: Logits, p: Params, ids: seq<nat>)
    requires l != [] && p.temperature > 0.0
  {
    exists s | Selection(l, FinalWidth(exp, l, p), s) :: ids == SortIds(l, s)[..|Kept(exp, l, p)|]
  }

  /** The tokens the sampler can return for `u`. */
  ghost predicate MayReturn(exp: Exp, l: Logits, p: Params, u: real, id: nat)
    requires l != [] && p.temperature > 0.0 && Positive(exp) && 0.0 <= u < 1.0
  {
    exists s | Selection(l, FinalWidth(exp, l, p), s) :: id == SortIds(l, s)[DrawnAt(exp, l, p, u)]
  }

  lemma KeptIsPrefix(exp: Exp, l: Logits, p: Params)
    requires l != [] && p.temperature > 0.0
    ensures Kept(exp, l, p) == Full(l)[..|Kept(exp, l, p)|]
  {
    hide Kept, CutLen, Full, Suffices;
    CutIsKept(exp, l, p, Width(exp, l, p, InitialK(p.topK, |l|)));
  }

  /**
    The kept tokens are those of the single pass, whatever the selection did with ties, exactly when the working
    set is the whole vocabulary or the last kept logit is larger than the first left out of the working set.
   */
  lemma KeptIsForcedIff(exp: Exp, l: Logits, p: Params)
    requires l != [] && p.temperature > 0.0
    ensures (forall ids | MayKeep(exp, l, p, ids) :: ids == Kept(exp, l, p))
       <==> Firm(l, FinalWidth(exp, l, p), |Kept(exp, l, p)| - 1)
  {
    var w, n := FinalWidth(exp, l, p), |Kept(exp, l, p)|;
    KeptIsPrefix(exp, l, p);
    PrefixIsForcedIff(l, w, n);
    hide Kept, FinalWidth, Firm, Full, Selection;
    assert forall s | Selection(l, w, s) :: MayKeep(exp, l, p, SortIds(l, s)[..n]);
  }

  /** Every kept token whose share of the kept mass exceeds the generator's resolution is drawn from some word. */
  lemma EveryCandidateIsDrawn(exp: Exp, l: Logits, p: Params, i: nat) returns (w: bv64)
    requires l != [] && p.temperature > 0.0 && Positive(exp) && i < |Kept(exp, l, p)|
    requires var q := MassOf(exp, l, p.temperature, Kept(exp, l, p)); q[i] > Sum(q) / TWO53 as real
    ensures Drawn(exp, l, p, Unit(w)) == Kept(exp, l, p)[i]
  {
    var ids := Kept(exp, l, p);
    WeightsArePositive(exp, l, p.temperature, l[Full(l)[0]], ids);
    hide Kept, Unit, Full, Weight, Weights, AllPositive, Sum, FirstReach;
    var m := DrawnByFraction(MassOf(exp, l, p.temperature, ids), i);
    w := EveryFraction(m);
  }

  /** The same for the token drawn with `u`: only its own logit matters. */
  lemma SampleIsForcedIff(exp: Exp, l: Logits, p: Params, u: real)
    requires l != [] && p.temperature > 0.0 && Positive(exp) && 0.0 <= u < 1.0
    ensures (forall id | MayReturn(exp, l, p, u, id) :: id == Drawn(exp, l, p, u))
       <==> Firm(l, FinalWidth(exp, l, p), DrawnAt(exp, l, p, u))
  {
    var w, i := FinalWidth(exp, l, p), DrawnAt(exp, l, p, u);
    KeptIsPrefix(exp, l, p);
    assert Drawn(exp, l, p, u) == Full(l)[i];
    PlaceIsForcedIff(l, w, i);
    hide Kept, FinalWidth, Firm, Full, Selection, DrawnAt, Drawn;
    assert forall s | Selection(l, w, s) :: MayReturn(exp, l, p, u, SortIds(l, s)[i]);
  }

  /** Ties never change the logit of the token returned. */
  lemma ReturnedLogit(exp: Exp, l: Logits, p: Params, u: real, id: nat)
    requires l != [] && p.temperature > 0.0 && Positive(exp) && 0.0 <= u < 1.0 && MayReturn(exp, l, p, u, id)
    ensures id < |l| && l[id] == l[Drawn(exp, l, p, u)]
  {
    var w, i := FinalWidth(exp, l, p), DrawnAt(exp, l, p, u);
    KeptIsPrefix(exp, l, p);
    assert Drawn(exp, l, p, u) == Full(l)[i];
    hide Kept, FinalWidth, Full, DrawnAt, Drawn;
    var s :| Selection(l, w, s) && id == SortIds(l, s)[i];
    SelectedLogits(l, w, s, i);
  }

  /** Pairwise distinct logits leave nothing to the selection. */
  lemma DistinctIsForced(exp: Exp, l: Logits, p: Params, u: real, id: nat)
    requires l != [] && p.temperature > 0.0 && Positive(exp) && 0.0 <= u < 1.0
    requires forall i, j | 0 <= i < j < |l| :: l[i] != l[j]
    requires MayReturn(exp, l, p, u, id)
    ensures id == Drawn(exp, l, p, u)
  {
    hide Kept, FinalWidth, Full, DrawnAt, Drawn, MayReturn;
    DistinctIsFirm(l, FinalWidth(exp, l, p), DrawnAt(exp, l, p, u));
    SampleIsForcedIff(exp, l, p, u);
  }

  predicate AllEqual(l: Logits) {
    forall i | 0 <= i < |l| :: l[i] == l[0]
  }

  lemma {:induction false} SumOfEqual(q: seq<real>, x: real)
    requires forall i | 0 <= i < |q| :: q[i] == x
    ensures Sum(q) == |q| as real * x
  {
    if q != [] {
      SumOfEqual(q[..|q| - 1], x);
    }
  }

  function Times(n: nat, x: real): real {
    n as real * x
  }

  lemma EqualWeights(exp: Exp, l: Logits, t: real, max: real, ids: seq<nat>)
    requires l != [] && t > 0.0 && AllEqual(l) && Ids(l, ids) && max == l[0]
    ensures forall i | 0 <= i < |ids| :: Weights(exp, l, t, max, ids)[i] == exp(0.0)
    ensures Sum(Weights(exp, l, t, max, ids)) == Times(|ids|, exp(0.0))
  {
    assert (0.0) / t == 0.0;
    SumOfEqual(Weights(exp, l, t, max, ids), exp(0.0));
  }

  /** All logits equal: what the whole vocabulary and the best `k` weigh. */
  lemma EqualMasses(exp: Exp, l: Logits, t: real, k: nat)
    requires l != [] && t > 0.0 && AllEqual(l) && k <= |l|
    ensures var q := MassOf(exp, l, t, Full(l)[..k]);
            |q| == k && (forall i | 0 <= i < k :: q[i] == exp(0.0)) && Sum(q) == Times(k, exp(0.0))
    ensures FullMass(exp, l, t) == Times(|l|, exp(0.0))
  {
    var max, best := l[Full(l)[0]], Full(l)[..k];
    IdsPrefix(l, Full(l), k);
    hide Full, Sum, Weight, Ids, Times;
    EqualWeights(exp, l, t, max, best);
    EqualWeights(exp, l, t, max, UpTo(|l|));
  }

  lemma IdsPrefix(l: Logits, s: seq<nat>, n: nat)
    requires Ids(l, s) && n <= |s|
    ensures Ids(l, s[..n])
  {
  }

  /** 4096 equal logits and a top-p of 0.9: the working set grows to the vocabulary, so the ties are harmless. */
  lemma EqualLogitsCanWiden(exp: Exp, l: Logits, p: Params)
    requires |l| == 4096 && (forall i | 0 <= i < |l| :: l[i] == l[0])
    requires p.temperature > 0.0 && p.topK == 0 && p.topP == 0.9 && Positive(exp)
    ensures FinalWidth(exp, l, p) == |l|
    ensures forall ids | MayKeep(exp, l, p, ids) :: ids == Kept(exp, l, p)
  {
    var q := MassOf(exp, l, p.temperature, Full(l)[..1024]);
    EqualMasses(exp, l, p.temperature, 1024);
    hide Kept, MassOf, FullMass, Full, Sum, FirstReach, MayKeep;
    BelowAll(q, exp(0.0), Scaled(p.topP, FullMass(exp, l, p.temperature)));
    assert !Suffices(exp, l, p, 1024) && Wider(l, 1024) == 4096;
    KeptIsForcedIff(exp, l, p);
  }

  /** Equal weights whose total misses the target never reach it. */
  lemma BelowAll(q: seq<real>, x: real, target: real)
    requires x > 0.0 && (forall i | 0 <= i < |q| :: q[i] == x) && Sum(q) < target
    ensures FirstReach(q, target, 0) == |q| + 1
  {
    var f := FirstReach(q, target, 0);
    if f <= |q| {
      assert q[..|q|] == q;
      if f < |q| {
        SumGrows(q, f, |q|);
      }
    }
  }

  /** 4096 equal logits and a top-p of 0.2: the first 1024 suffice, and which ids they are is up to the selection. */
  lemma EqualLogitsCanDiffer(exp: Exp, l: Logits, p: Params)
    requires |l| == 4096 && (forall i | 0 <= i < |l| :: l[i] == l[0])
    requires p.temperature > 0.0 && p.topK == 0 && p.topP == 0.2 && Positive(exp)
    ensures exists ids :: MayKeep(exp, l, p, ids) && ids != Kept(exp, l, p)
  {
    var q := MassOf(exp, l, p.temperature, Full(l)[..1024]);
    EqualMasses(exp, l, p.temperature, 1024);
    hide Kept, MassOf, FullMass, Full, Sum, MayKeep;
    assert q[..1024] == q;
    assert Suffices(exp, l, p, 1024);
    KeptIsForcedIff(exp, l, p);
  }

  lemma SameLogitsSameWeights(exp: Exp, l: Logits, t: real, max: real, a: seq<nat>, b: seq<nat>)
    requires t > 0.0 && Ids(l, a) && Ids(l, b) && |a| == |b| && forall i | 0 <= i < |a| :: l[a[i]] == l[b[i]]
    ensures Weights(exp, l, t, max, a) == Weights(exp, l, t, max, b)
  {
  }

  /** Weights of the first `n` of any sorted selection. */
  lemma SelectedWeights(exp: Exp, l: Logits, t: real, k: nat, s: seq<nat>, n: nat)
    requires l != [] && t > 0.0 && 1 <= n <= k <= |l| && Selection(l, k, s)
    ensures Ids(l, SortIds(l, s)[..n])
    ensures Weights(exp, l, t, l[SortIds(l, s)[0]], SortIds(l, s)[..n]) == MassOf(exp, l, t, Full(l)[..n])
  {
    var r, f := SortIds(l, s), Full(l);
    IdsPrefix(l, r, n);
    IdsPrefix(l, f, n);
    hide SortIds, Full, Selection, Weights, Ids, Ranked;
    forall i | 0 <= i < n
      ensures l[r[i]] == l[f[i]]
    {
      SelectedLogits(l, k, s, i);
    }
    SameLogitsSameWeights(exp, l, t, l[r[0]], r[..n], f[..n]);
  }

  /** Softmax numerators of the candidates, in their order. */
  method Softmax(exp: Exp, l: Logits, t: real, max: real, cand: seq<nat>) returns (q: seq<real>)
    requires Ids(l, cand) && t > 0.0
    ensures q == Weights(exp, l, t, max, cand)
  {
    q := [];
    var i := 0;
    while i < |cand|
      invariant i <= |cand| && q == Weights(exp, l, t, max, cand)[..i]
    {
      q := q + [exp((l[cand[i]] - max) / t)];
      i := i + 1;
    }
  }

  /** `select_top`. Any way of breaking ties meets the contract callers rely on. */
  method SelectTop(l: Logits, k: nat) returns (s: seq<nat>)
    requires k <= |l|
    ensures Selection(l, k, s)
  {
    BestAreSelection(l, k);
    s := Full(l)[..k];
  }

  lemma LargestIsFirst(l: Logits, best: nat)
    requires best < |l| && forall j | 0 <= j < |l| :: l[best] > l[j] || (l[best] == l[j] && best <= j)
    ensures best == Full(l)[0]
  {
    var f := Full(l);
    var at := Place(f, best);
    RankOrders(l, f, 0, at);
    RankBreaksTies(l, f, 0, at);
  }

  /** `argmax`: the first of the largest. */
  method ArgMax(l: Logits) returns (best: nat)
    requires l != []
    ensures best == Full(l)[0]
  {
    best := 0;
    var i := 0;
    while i < |l|
      invariant i <= |l| && best < |l|
      invariant forall j | 0 <= j < i :: l[best] > l[j] || (l[best] == l[j] && best <= j)
      invariant if i == 0 then best == 0 else best < i
    {
      if l[i] > l[best] {
        best := i;
      }
      i := i + 1;
    }
    LargestIsFirst(l, best);
  }

  lemma OneMoreWeight(exp: Exp, l: Logits, t: real, max: real, i: nat)
    requires t > 0.0 && i < |l|
    ensures var q := Weights(exp, l, t, max, UpTo(|l|)); Sum(q[..i + 1]) == Sum(q[..i]) + exp((l[i] - max) / t)
  {
    var q := Weights(exp, l, t, max, UpTo(|l|));
    SumStep(q, i);
    hide Sum, Weights;
    assert q[i] == Weight(exp, l, t, max, i);
  }

  lemma SumStep(q: seq<real>, i: nat)
    requires i < |q|
    ensures Sum(q[..i + 1]) == Sum(q[..i]) + q[i]
  {
    assert q[..i + 1][..i] == q[..i];
  }

  lemma NoWeight()
    ensures Sum([]) == 0.0
  {
  }

  /** The largest logit, which ranks first. */
  method LargestLogit(l: Logits) returns (max: real)
    requires l != []
    ensures max == l[Full(l)[0]]
  {
    max := l[0];
    var i := 0;
    while i < |l|
      invariant i <= |l|
      invariant exists j | 0 <= j < |l| :: l[j] == max
      invariant forall j | 0 <= j < i :: l[j] <= max
    {
      max := if l[i] > max then l[i] else max;
      i := i + 1;
    }
    ghost var j :| 0 <= j < |l| && l[j] == max;
    ghost var at := Place(Full(l), j);
    RankOrdersLogits(l, 0, at);
  }

  /** The mass of all logits, summed by id against the running maximum. */
  method WholeMass(exp: Exp, l: Logits, t: real) returns (mass: real)
    requires l != [] && t > 0.0
    ensures mass == FullMass(exp, l, t)
  {
    var max := LargestLogit(l);
    hide Weights, Sum, Full;
    ghost var q := Weights(exp, l, t, max, UpTo(|l|));
    mass := 0.0;
    var i := 0;
    assert q[..0] == [] && Sum([]) == 0.0 by {
      NoWeight();
    }
    while i < |l|
      invariant i <= |l| && mass == Sum(q[..i])
    {
      OneMoreWeight(exp, l, t, max, i);
      mass := mass + exp((l[i] - max) / t);
      i := i + 1;
    }
    assert q[..i] == q;
  }

  /** How many of the ranked candidates are kept, and whether the working set need not widen. */
  ghost predicate IsCut(exp: Exp, l: Logits, p: Params, cand: seq<nat>, keep: nat, settled: bool)
    requires l != [] && p.temperature > 0.0 && Ids(l, cand) && cand != []
  {
    if p.topP >= 1.0 then settled && keep == |cand|
    else
      var q := Weights(exp, l, p.temperature, l[cand[0]], cand);
      var target := Scaled(p.topP, if p.topK == 0 then FullMass(exp, l, p.temperature) else Sum(q));
      keep == KeepLen(q, target) && settled == (FirstReach(q, target, 0) <= |q| || p.topK > 0 || |cand| == |l|)
  }

  method Share(topP: real, mass: real) returns (x: real)
    ensures x == Scaled(topP, mass)
  {
    x := topP * mass;
  }

  /** Candidates' weights, their total, and the top-p prefix. */
  method Cut(exp: Exp, l: Logits, p: Params, fullMass: real, cand: seq<nat>) returns (keep: nat, settled: bool)
    requires l != [] && p.temperature > 0.0 && Ids(l, cand) && cand != []
    requires fullMass == FullMass(exp, l, p.temperature)
    ensures 1 <= keep <= |cand| && IsCut(exp, l, p, cand, keep, settled)
    ensures !settled ==> |cand| < |l| && p.topK == 0 && p.topP < 1.0
  {
    MoreIdsNotPossible(l, cand);
    if p.topP >= 1.0 {
      return |cand|, true;
    }
    hide FullMass, Scaled, Sum;
    var q := Softmax(exp, l, p.temperature, l[cand[0]], cand);
    var total := Total(q);
    var reached;
    var target := Share(p.topP, if p.topK == 0 then fullMass else total);
    keep, reached := Prefix(q, target);
    settled := reached || p.topK > 0 || |cand| >= |l|;
  }

  lemma MoreIdsNotPossible(l: Logits, s: seq<nat>)
    requires Ids(l, s)
    ensures |s| <= |l|
  {
    SetSize(l, s);
    SetSize(l, UpTo(|l|));
    SubsetSize(SetOf(s), SetOf(UpTo(|l|)));
  }

  /** One turn of the widening loop, with a working set of `k`. */
  method TryWidth(exp: Exp, l: Logits, p: Params, fullMass: real, k: nat) returns (ids: seq<nat>, settled: bool)
    requires l != [] && p.temperature > 0.0 && 1 <= k <= |l| && fullMass == FullMass(exp, l, p.temperature)
    ensures settled == Suffices(exp, l, p, k)
    ensures exists s | Selection(l, k, s) :: ids == SortIds(l, s)[..CutLen(exp, l, p, k)]
  {
    hide FullMass, SortIds, Full, IsCut, Ranked, Selection, Ids, CutLen, Suffices;
    var selected := SelectTop(l, k);
    SelectionHasIds(l, k, selected);
    var cand := SortIds(l, selected);
    var keep;
    keep, settled := Cut(exp, l, p, fullMass, cand);
    CutOfSelection(exp, l, p, k, selected, keep, settled);
    ids := cand[..keep];
  }

  lemma SelectionHasIds(l: Logits, k: nat, s: seq<nat>)
    requires Selection(l, k, s)
    ensures Ids(l, s) && |s| == k
  {
  }

  /** The cut and the decision to widen do not depend on how ties were broken. */
  lemma CutOfSelection(exp: Exp, l: Logits, p: Params, k: nat, selected: seq<nat>, keep: nat, settled: bool)
    requires l != [] && p.temperature > 0.0 && 1 <= k <= |l| && Selection(l, k, selected)
    requires IsCut(exp, l, p, SortIds(l, selected), keep, settled)
    ensures settled == Suffices(exp, l, p, k) && keep == CutLen(exp, l, p, k)
  {
    SelectedWeights(exp, l, p.temperature, k, selected, k);
    assert SortIds(l, selected)[..k] == SortIds(l, selected);
    hide FullMass, SortIds, Full, Selection, MassOf, FirstReach, Scaled, Sum, Weights;
  }

  /** The widening loop: it settles on the first width that suffices, and keeps as many as the single pass. */
  method Narrow(exp: Exp, l: Logits, p: Params) returns (ids: seq<nat>)
    requires l != [] && p.temperature > 0.0
    ensures MayKeep(exp, l, p, ids)
  {
    hide Kept, FullMass, Full, Suffices, CutLen, SortIds, Selection;
    var k := if p.topK == 0 then 1024 else if p.topK < 1024 then p.topK else 1024;
    k := if k < |l| then k else |l|;
    var fullMass := WholeMass(exp, l, p.temperature);
    while true
      invariant 1 <= k <= |l| && Width(exp, l, p, k) == FinalWidth(exp, l, p)
      invariant p.topK > 0 || p.topP >= 1.0 ==> k == InitialK(p.topK, |l|)
      decreases |l| - k
    {
      var settled;
      ids, settled := TryWidth(exp, l, p, fullMass, k);
      if settled {
        CutIsKept(exp, l, p, k);
        return;
      }
      WidensWhenShort(exp, l, p, k);
      k := if k * 4 < |l| then k * 4 else |l|;
    }
  }

  lemma WidensWhenShort(exp: Exp, l: Logits, p: Params, k: nat)
    requires l != [] && p.temperature > 0.0 && 1 <= k <= |l| && !Suffices(exp, l, p, k)
    ensures k < |l| && p.topK == 0 && p.topP < 1.0
  {
  }

  class Sampler {
    const gen: Generator

    ghost predicate Valid()
      reads this, gen
    {
      gen.Valid()
    }

    constructor (seed: bv64)
      ensures Valid() && fresh(gen) && fresh(gen.s) && gen.State() == Seeded(seed)
    {
      gen := new Generator(seed);
    }

    /** `sample`: greedy without heat; otherwise one draw of the generator from the kept tokens. */
    method Sample(exp: Exp, l: Logits, p: Params) returns (id: nat)
      requires Valid() && l != [] && forall x: real :: exp(x) > 0.0
      modifies gen.s
      ensures Valid() && id < |l|
      ensures p.temperature <= 0.0 ==> id == Full(l)[0] && gen.State() == old(gen.State())
      ensures p.temperature > 0.0 ==> gen.State() == Next(old(gen.State()))
      ensures p.temperature > 0.0 ==>
        var u := Unit(Output(old(gen.State())));
        && MayReturn(exp, l, p, u, id) && l[id] == l[Drawn(exp, l, p, u)]
        && (Firm(l, FinalWidth(exp, l, p), DrawnAt(exp, l, p, u)) ==> id == Drawn(exp, l, p, u))
    {
      if p.temperature <= 0.0 {
        id := ArgMax(l);
        return;
      }
      hide Kept, MayKeep, MayReturn, Full, Ids, AllPositive, FirstReach, DrawnAt, Drawn, FinalWidth, Firm, Weights, Sum;
      var ids := Narrow(exp, l, p);
      KeptWeights(exp, l, p, ids);
      var word := gen.NextWord();
      var q := Softmax(exp, l, p.temperature, l[ids[0]], ids);
      var i := Draw(q, Unit(word));
      id := ids[i];
      DrawnOfKept(exp, l, p, ids, Unit(word));
      ReturnedLogit(exp, l, p, Unit(word), id);
      SampleIsForcedIff(exp, l, p, Unit(word));
    }
  }

  /** Whatever the ties, the kept tokens weigh what those of the single pass weigh. */
  lemma KeptWeights(exp: Exp, l: Logits, p: Params, ids: seq<nat>)
    requires l != [] && p.temperature > 0.0 && Positive(exp) && MayKeep(exp, l, p, ids)
    ensures Ids(l, ids) && ids != []
    ensures var q := Weights(exp, l, p.temperature, l[ids[0]], ids);
            q == MassOf(exp, l, p.temperature, Kept(exp, l, p)) && q != [] && AllPositive(q)
  {
    var w, n := FinalWidth(exp, l, p), |Kept(exp, l, p)|;
    KeptIsPrefix(exp, l, p);
    hide Kept, FinalWidth, Full, Selection;
    var s :| Selection(l, w, s) && ids == SortIds(l, s)[..n];
    SelectedWeights(exp, l, p.temperature, w, s, n);
    WeightsArePositive(exp, l, p.temperature, l[ids[0]], ids);
  }

  /** Drawing from a list the sampler may keep gives a token it may return. */
  lemma DrawnOfKept(exp: Exp, l: Logits, p: Params, ids: seq<nat>, u: real)
    requires l != [] && p.temperature > 0.0 && Positive(exp) && 0.0 <= u < 1.0 && MayKeep(exp, l, p, ids)
    ensures |ids| == |Kept(exp, l, p)| && MayReturn(exp, l, p, u, ids[DrawnAt(exp, l, p, u)])
  {
    var w, n := FinalWidth(exp, l, p), |Kept(exp, l, p)|;
    hide Kept, FinalWidth, DrawnAt;
    var s :| Selection(l, w, s) && ids == SortIds(l, s)[..n];
    assert ids[DrawnAt(exp, l, p, u)] == SortIds(l, s)[DrawnAt(exp, l, p, u)];
  }
}
