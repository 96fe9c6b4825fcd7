/**
  The order the sampler works in: descending logit, ties by id. Logits are real
  numbers. Selection of the `k` largest may break ties in any way.
 */
module Rankings {

  type Logits = seq<real>

  predicate Ids(l: Logits, s: seq<nat>) {
    (forall i | 0 <= i < |s| :: s[i] < |l|) && forall i, j | 0 <= i < j < |s| :: s[i] != s[j]
  }

  /** `total_cmp` descending, then id. */
  predicate Before(l: Logits, a: nat, b: nat)
    requires a < |l| && b < |l|
  {
    l[a] > l[b] || (l[a] == l[b] && a < b)
  }

  predicate Ranked(l: Logits, s: seq<nat>)
    requires Ids(l, s)
  {
    forall i, j | 0 <= i < j < |s| :: Before(l, s[i], s[j])
  }

  function InsertId(l: Logits, x: nat, s: seq<nat>): (r: seq<nat>)
    requires Ids(l, s) && x < |l| && x !in s
    ensures Ids(l, r) && |r| == |s| + 1
    ensures forall y :: y in r <==> y == x || y in s
    decreases |s|
  {
    if s == [] then [x]
    else if Before(l, x, s[0]) then [x] + s
    else
      var q := InsertId(l, x, s[1..]);
      assert s == [s[0]] + s[1..];
      assert s[0] !in s[1..];
      assert forall j | 0 <= j < |q| :: q[j] in q;
      [s[0]] + q
  }

  lemma {:induction false} InsertIdRanks(l: Logits, x: nat, s: seq<nat>)
    requires Ids(l, s) && x < |l| && x !in s && Ranked(l, s)
    ensures Ranked(l, InsertId(l, x, s))
    decreases |s|
  {
    if s != [] && !Before(l, x, s[0]) {
      var q := InsertId(l, x, s[1..]);
      InsertIdRanks(l, x, s[1..]);
      forall j | 0 <= j < |q|
        ensures Before(l, s[0], q[j])
      {
        assert q[j] in q;
        if q[j] != x {
          var i :| 0 <= i < |s[1..]| && s[1..][i] == q[j];
          assert s[i + 1] == q[j];
        } else {
          assert s[0] != x;
        }
      }
    }
  }

  /** `sort_unstable_by`: the order has no ties, so the result is unique. */
  function SortIds(l: Logits, s: seq<nat>): (r: seq<nat>)
    requires Ids(l, s)
    ensures Ids(l, r) && |r| == |s| && Ranked(l, r)
    ensures forall y :: y in r <==> y in s
    decreases |s|
  {
    if s == [] then []
    else
      assert s == [s[0]] + s[1..];
      InsertIdRanks(l, s[0], SortIds(l, s[1..]));
      InsertId(l, s[0], SortIds(l, s[1..]))
  }

  /** `0..n`. */
  function UpTo(n: nat): (r: seq<nat>)
    ensures |r| == n && forall i | 0 <= i < n :: r[i] == i
    ensures forall y: nat :: y in r <==> y < n
  {
    if n == 0 then [] else UpTo(n - 1) + [n - 1]
  }

  /** The whole vocabulary, best first. */
  function Full(l: Logits): (r: seq<nat>)
    ensures |r| == |l| && Ids(l, r) && Ranked(l, r)
    ensures forall y: nat :: y in r <==> y < |l|
  {
    SortIds(l, UpTo(|l|))
  }

  /** Two rankings of the same ids are the same. */
  lemma {:induction false} RankingIsUnique(l: Logits, a: seq<nat>, b: seq<nat>)
    requires Ids(l, a) && Ids(l, b) && Ranked(l, a) && Ranked(l, b)
    requires forall y :: y in a <==> y in b
    ensures a == b
    decreases |a|
  {
    if a == [] {
      assert forall j | 0 <= j < |b| :: b[j] in b;
    } else {
      assert a[0] in a && a[0] in b && b[0] in b && b[0] in a;
      assert a[0] == b[0];
      forall y
        ensures y in a[1..] <==> y in b[1..]
      {
        assert y in a <==> y == a[0] || y in a[1..];
        assert y in b <==> y == b[0] || y in b[1..];
      }
      RankingIsUnique(l, a[1..], b[1..]);
    }
  }

  // ---------------------------------------------------------------- counting

  function SetOf(s: seq<nat>): set<nat> {
    set x | x in s
  }

  lemma {:induction false} SetSize(l: Logits, s: seq<nat>)
    requires Ids(l, s)
    ensures |SetOf(s)| == |s|
    decreases |s|
  {
    if s != [] {
      SetSize(l, s[1..]);
      assert SetOf(s) == SetOf(s[1..]) + {s[0]};
      assert s[0] !in s[1..];
    }
  }

  lemma {:induction false} SubsetSize(a: set<nat>, b: set<nat>)
    requires a <= b
    ensures |a| <= |b|
    decreases a
  {
    if x :| x in a {
      SubsetSize(a - {x}, b - {x});
    }
  }

  /** As many ids, one of them not in `p`: then `p` has one that is missing. */
  lemma Missing(l: Logits, p: seq<nat>, s: seq<nat>, a: nat) returns (b: nat)
    requires Ids(l, p) && Ids(l, s) && |p| == |s| && a in s && a !in p
    ensures b in p && b !in s
  {
    var ps, ss := SetOf(p), SetOf(s);
    SetSize(l, p);
    SetSize(l, s);
    if ps <= ss {
      assert ps <= ss - {a};
      SubsetSize(ps, ss - {a});
    }
    b :| b in ps && b !in ss;
  }

  /** Ids of one list, all among those of another, are no more than they. */
  lemma NoMoreIds(l: Logits, a: seq<nat>, b: seq<nat>)
    requires Ids(l, a) && Ids(l, b) && forall y | y in a :: y in b
    ensures |a| <= |b|
  {
    SetSize(l, a);
    SetSize(l, b);
    SubsetSize(SetOf(a), SetOf(b));
  }

  // ------------------------------------------------------------- selection

  /** What `select_nth_unstable` guarantees of the first `k`: nothing outside is larger. */
  ghost predicate Selection(l: Logits, k: nat, s: seq<nat>) {
    && Ids(l, s) && |s| == k
    && forall a, b: nat | a in s && b < |l| && b !in s :: l[a] >= l[b]
  }

  /** The logit ranked at `i` is larger than any left out of the `k` best: no tie reaches from `i` across the boundary. */
  predicate Firm(l: Logits, k: nat, i: nat)
    requires i < k <= |l|
  {
    k == |l| || l[Full(l)[i]] > l[Full(l)[k]]
  }

  predicate Distinct(l: Logits) {
    forall i, j | 0 <= i < j < |l| :: l[i] != l[j]
  }

  lemma DistinctIsFirm(l: Logits, k: nat, i: nat)
    requires Distinct(l) && i < k <= |l|
    ensures Firm(l, k, i)
  {
    if k < |l| {
      var f := Full(l);
      assert Before(l, f[i], f[k]) && f[i] != f[k];
    }
  }

  lemma Place(s: seq<nat>, x: nat) returns (j: nat)
    requires x in s
    ensures j < |s| && s[j] == x
  {
    j :| 0 <= j < |s| && s[j] == x;
  }

  lemma PlaceOutside(l: Logits, k: nat, b: nat) returns (j: nat)
    requires k <= |l| && b < |l| && b !in Full(l)[..k]
    ensures k <= j < |l| && Full(l)[j] == b
  {
    var f := Full(l);
    j := Place(f, b);
    assert forall i | 0 <= i < k :: f[..k][i] == f[i] && f[..k][i] in f[..k];
  }

  /** Down a ranking logits never rise. */
  lemma RankOrders(l: Logits, s: seq<nat>, i: nat, j: nat)
    requires Ids(l, s) && Ranked(l, s) && i < |s| && j < |s|
    ensures i <= j ==> l[s[i]] >= l[s[j]]
  {
    assert i < j ==> Before(l, s[i], s[j]);
  }

  lemma RankBreaksTies(l: Logits, s: seq<nat>, i: nat, j: nat)
    requires Ids(l, s) && Ranked(l, s) && i < |s| && j < |s|
    ensures i < j && l[s[i]] == l[s[j]] ==> s[i] < s[j]
  {
    assert i < j ==> Before(l, s[i], s[j]);
  }

  lemma RankOrdersLogits(l: Logits, i: nat, j: nat)
    requires i <= j < |l|
    ensures l[Full(l)[i]] >= l[Full(l)[j]]
  {
    RankOrders(l, Full(l), i, j);
  }

  /** The best `k` are a selection, whatever the ties. */
  lemma BestAreSelection(l: Logits, k: nat)
    requires k <= |l|
    ensures Selection(l, k, Full(l)[..k])
  {
    var f := Full(l);
    forall a, b: nat | a in f[..k] && b < |l| && b !in f[..k]
      ensures l[a] >= l[b]
    {
      var i := Place(f[..k], a);
      var j := PlaceOutside(l, k, b);
      RankOrdersLogits(l, i, j);
    }
  }

  /** In two rankings, when the first `i + 1` of one all occur in the other, the other is no worse at `i`. */
  lemma NoWorseAt(l: Logits, a: seq<nat>, b: seq<nat>, i: nat)
    requires Ids(l, a) && Ids(l, b) && Ranked(l, a) && Ranked(l, b) && i < |a| && i < |b|
    requires forall j | 0 <= j <= i :: a[j] in b
    ensures l[a[i]] <= l[b[i]]
  {
    if l[a[i]] > l[b[i]] {
      forall y | y in a[..i + 1]
        ensures y in b[..i]
      {
        var j := Place(a[..i + 1], y);
        RankOrders(l, a, j, i);
        var m := Place(b, y);
        RankOrders(l, b, i, m);
        assert b[..i][m] == y;
      }
      NoMoreIds(l, a[..i + 1], b[..i]);
    }
  }

  /** Ties change which ids are selected, never their logits: the sorted selection has the logits of the best `k`. */
  lemma SelectedLogits(l: Logits, k: nat, s: seq<nat>, i: nat)
    requires i < k <= |l| && Selection(l, k, s)
    ensures l[SortIds(l, s)[i]] == l[Full(l)[i]]
  {
    var r, f := SortIds(l, s), Full(l);
    NoWorseAt(l, r, f, i);
    if forall j | 0 <= j <= i :: f[j] in r {
      NoWorseAt(l, f, r, i);
    } else {
      var j :| 0 <= j <= i && f[j] !in r;
      assert r[i] in s && f[j] !in s;
      RankOrdersLogits(l, j, i);
    }
  }

  /** A ranking that holds the best `n` begins with them. */
  lemma {:induction false} BestComeFirst(l: Logits, r: seq<nat>, n: nat)
    requires Ids(l, r) && Ranked(l, r) && n <= |r| && n <= |l| && forall j | 0 <= j < n :: Full(l)[j] in r
    ensures r[..n] == Full(l)[..n]
    decreases n
  {
    if n > 0 {
      var f := Full(l);
      BestComeFirst(l, r, n - 1);
      var j := Place(r, f[n - 1]);
      var m := Place(f, r[n - 1]);
      assert forall i | 0 <= i < n - 1 :: r[i] == r[..n - 1][i] == f[..n - 1][i] == f[i];
    }
  }

  /** Whatever is ranked clear of the boundary is in every selection. */
  lemma FirmIsSelected(l: Logits, k: nat, s: seq<nat>, i: nat, j: nat)
    requires j <= i < k <= |l| && Firm(l, k, i) && Selection(l, k, s)
    ensures Full(l)[j] in s
  {
    var f := Full(l);
    if f[j] !in s {
      assert f[..k][j] == f[j];
      var b := Missing(l, s, f[..k], f[j]);
      var at := PlaceOutside(l, k, b);
      RankOrdersLogits(l, k, at);
      RankOrdersLogits(l, j, i);
    }
  }

  /** Sorting any selection puts the best `i + 1` first, when the last of them is clear of the boundary. */
  lemma FirmPrefix(l: Logits, k: nat, s: seq<nat>, i: nat)
    requires i < k <= |l| && Firm(l, k, i) && Selection(l, k, s)
    ensures SortIds(l, s)[..i + 1] == Full(l)[..i + 1]
  {
    forall j | 0 <= j < i + 1
      ensures Full(l)[j] in SortIds(l, s)
    {
      FirmIsSelected(l, k, s, i, j);
    }
    BestComeFirst(l, SortIds(l, s), i + 1);
  }

  /** The best `k` with the one at `i` exchanged for the first left out. */
  function Swapped(l: Logits, k: nat, i: nat): (s: seq<nat>)
    requires i < k < |l|
    ensures |s| == k && Ids(l, s)
  {
    Full(l)[..k][i := Full(l)[k]]
  }

  lemma SwappedMembers(l: Logits, k: nat, i: nat, x: nat)
    requires i < k < |l| && x < |l|
    ensures x in Swapped(l, k, i) ==> l[x] >= l[Full(l)[k]]
    ensures x !in Swapped(l, k, i) ==> l[Full(l)[i]] >= l[x]
    ensures Full(l)[i] !in Swapped(l, k, i)
  {
    var f, s := Full(l), Swapped(l, k, i);
    if x in s {
      var j := Place(s, x);
      RankOrdersLogits(l, if j == i then k else j, k);
    } else {
      assert forall m | 0 <= m < k && m != i :: s[m] == f[m] && s[m] in s;
      var j := Place(f, x);
      RankOrdersLogits(l, i, if j < i then i else j);
    }
  }

  /** With a tie that reaches across, another selection is allowed, and it puts another id at `i`. */
  lemma TieIsNotForced(l: Logits, k: nat, i: nat)
    requires i < k <= |l| && !Firm(l, k, i)
    ensures Selection(l, k, Swapped(l, k, i)) && SortIds(l, Swapped(l, k, i))[i] != Full(l)[i]
  {
    var f, s := Full(l), Swapped(l, k, i);
    RankOrdersLogits(l, i, k);
    hide Swapped, Firm;
    forall a, b: nat | a in s && b < |l| && b !in s
      ensures l[a] >= l[b]
    {
      var at := Place(s, a);
      SwappedMembers(l, k, i, a);
      SwappedMembers(l, k, i, b);
    }
    SwappedMembers(l, k, i, 0);
    assert SortIds(l, s)[i] in SortIds(l, s);
  }

  /** The id at one place of the sorted selection is determined exactly when no tie reaches from there across the boundary. */
  lemma PlaceIsForcedIff(l: Logits, k: nat, i: nat)
    requires i < k <= |l|
    ensures (forall s | Selection(l, k, s) :: SortIds(l, s)[i] == Full(l)[i]) <==> Firm(l, k, i)
  {
    if Firm(l, k, i) {
      forall s | Selection(l, k, s)
        ensures SortIds(l, s)[i] == Full(l)[i]
      {
        FirmPrefix(l, k, s, i);
        assert SortIds(l, s)[..i + 1][i] == Full(l)[..i + 1][i];
      }
    } else {
      TieIsNotForced(l, k, i);
    }
  }

  lemma TieCutsPrefix(l: Logits, k: nat, n: nat)
    requires 1 <= n <= k < |l| && !Firm(l, k, n - 1)
    ensures SortIds(l, Swapped(l, k, n - 1))[..n] != Full(l)[..n]
  {
    hide Selection, Firm, Swapped, Ranked;
    TieIsNotForced(l, k, n - 1);
    DifferingPrefix(SortIds(l, Swapped(l, k, n - 1)), Full(l), n);
  }

  lemma DifferingPrefix(a: seq<nat>, b: seq<nat>, n: nat)
    requires 1 <= n <= |a| && n <= |b| && a[n - 1] != b[n - 1]
    ensures a[..n] != b[..n]
  {
    assert a[..n][n - 1] == a[n - 1] && b[..n][n - 1] == b[n - 1];
  }

  /** The first `n` of the sorted selection are determined exactly when no tie reaches from the last of them across the boundary. */
  lemma PrefixIsForcedIff(l: Logits, k: nat, n: nat)
    requires 1 <= n <= k <= |l|
    ensures (forall s | Selection(l, k, s) :: SortIds(l, s)[..n] == Full(l)[..n]) <==> Firm(l, k, n - 1)
  {
    if Firm(l, k, n - 1) {
      forall s | Selection(l, k, s)
        ensures SortIds(l, s)[..n] == Full(l)[..n]
      {
        FirmPrefix(l, k, s, n - 1);
      }
    } else {
      TieIsNotForced(l, k, n - 1);
      TieCutsPrefix(l, k, n);
    }
  }
}
