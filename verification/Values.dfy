/**
  Argument trees of tool calls, and how they are printed.

  Objects keep insertion order; two objects are the same when they hold the same
  entries in any order. Printing puts every object's entries in `dictsort` order
  first, which `Canon` does to the whole tree.
 */
module Values {

  datatype Option<T> = None | Some(value: T)

  /** A JSON value. Floats are opaque bit patterns; an `Int` may exceed `i64` (JSON numbers go up to `u64::MAX`). */
  datatype Value =
    | Null
    | Bool(b: bool)
    | Int(n: int)
    | Real(bits: nat)
    | Str(s: string)
    | Arr(items: seq<Value>)
    | Obj(entries: Entries)

  type Entries = seq<(string, Value)>

  /** Standard-library functions left open: lowercasing of keys, and printing and reading of floats (`read` fails on non-finite results too). */
  datatype Lib = Lib(lower: string -> string, show: nat -> string, read: string -> Option<nat>)

  /** `<|"|>`. */
  const QUOTE: string := "<|\"|>"

  predicate DistinctKeys(es: Entries) {
    forall i, j | 0 <= i < j < |es| :: es[i].0 != es[j].0
  }

  // ------------------------------------------------------------- integers

  const MIN_I64: int := -0x8000_0000_0000_0000
  const MAX_I64: int := 0x7FFF_FFFF_FFFF_FFFF

  predicate InI64(n: int) {
    MIN_I64 <= n <= MAX_I64
  }

  function Digit(d: nat): char
    requires d < 10
  {
    ('0' as int + d) as char
  }

  predicate IsDigit(c: char) {
    '0' <= c <= '9'
  }

  predicate AllDigits(s: string) {
    forall i | 0 <= i < |s| :: IsDigit(s[i])
  }

  function Digits(n: nat): (s: string)
    ensures s != [] && AllDigits(s)
  {
    if n < 10 then [Digit(n)] else Digits(n / 10) + [Digit(n % 10)]
  }

  function PrintInt(n: int): string {
    if n < 0 then "-" + Digits(-n) else Digits(n)
  }

  function NatOf(s: string): nat
    requires AllDigits(s)
  {
    if s == [] then 0 else 10 * NatOf(s[..|s| - 1]) + (s[|s| - 1] as int - '0' as int)
  }

  function Bounded(n: int): Option<int> {
    if InI64(n) then Some(n) else None
  }

  /** `parse::<i64>`: an optional sign, then digits only, in range. */
  function ParseInt(w: string): Option<int> {
    if w == [] then None
    else if w[0] == '-' || w[0] == '+' then
      if |w| == 1 || !AllDigits(w[1..]) then None
      else Bounded(if w[0] == '-' then 0 - NatOf(w[1..]) else NatOf(w[1..]))
    else if AllDigits(w) then Bounded(NatOf(w))
    else None
  }

  function PowerOfTen(k: nat): nat {
    if k == 0 then 1 else 10 * PowerOfTen(k - 1)
  }

  /** A decimal word's value, from its first digit on. */
  function Decimal(s: string): nat
    requires AllDigits(s)
  {
    if s == [] then 0 else (s[0] as int - '0' as int) * PowerOfTen(|s| - 1) + Decimal(s[1..])
  }

  lemma {:induction false} OneMoreDigit(s: string, c: char)
    requires AllDigits(s) && IsDigit(c)
    ensures AllDigits(s + [c]) && Decimal(s + [c]) == 10 * Decimal(s) + (c as int - '0' as int)
  {
    if s == [] {
      assert s + [c] == [c] && [c][1..] == [];
    } else {
      OneMoreDigit(s[1..], c);
      var t := s + [c];
      assert t[0] == s[0] && t[1..] == s[1..] + [c];
      Shifted(s[0] as int - '0' as int, PowerOfTen(|s| - 1));
    }
  }

  lemma Shifted(d: nat, p: nat)
    ensures d * (10 * p) == 10 * (d * p)
  {
  }

  lemma {:induction false} NatIsDecimal(s: string)
    requires AllDigits(s)
    ensures NatOf(s) == Decimal(s)
    decreases |s|
  {
    if s != [] {
      var init := s[..|s| - 1];
      NatIsDecimal(init);
      OneMoreDigit(init, s[|s| - 1]);
      assert s == init + [s[|s| - 1]];
      hide Decimal;
    }
  }

  /** `w` is digits, perhaps behind a sign, and stands for `n`. */
  ghost predicate Denotes(w: string, n: int, d: string) {
    d != [] && AllDigits(d) && ((n == Decimal(d) && (w == d || w == "+" + d)) || (n == 0 - Decimal(d) && w == "-" + d))
  }

  /** The words read as integers: an optional sign and decimal digits, leading zeros included, of 64-bit value. */
  lemma IntegerWords(w: string, n: int)
    ensures ParseInt(w) == Some(n) <==> -0x8000_0000_0000_0000 <= n < 0x8000_0000_0000_0000 && exists d :: Denotes(w, n, d)
  {
    if ParseInt(w) == Some(n) {
      var d := if w[0] == '-' || w[0] == '+' then w[1..] else w;
      NatIsDecimal(d);
      assert w[0] == '-' || w[0] == '+' ==> w == [w[0]] + d;
      assert Denotes(w, n, d);
    }
    if d :| Denotes(w, n, d) {
      NatIsDecimal(d);
      assert IsDigit(d[0]);
      assert w != d ==> w[1..] == d;
    }
  }

  lemma {:induction false} NatOfDigits(n: nat)
    ensures NatOf(Digits(n)) == n
  {
    if n >= 10 {
      NatOfDigits(n / 10);
      assert Digits(n)[..|Digits(n)| - 1] == Digits(n / 10);
    }
  }

  /** Printed integers read back exactly when they fit 64 bits. */
  lemma IntRoundTrip(n: int)
    ensures ParseInt(PrintInt(n)) == Bounded(n)
  {
    if n < 0 {
      NatOfDigits(-n);
      assert PrintInt(n)[1..] == Digits(-n);
    } else {
      NatOfDigits(n);
      assert IsDigit(Digits(n)[0]);
    }
  }

  /** Numbers are printed without leading zeros, with a sign only when negative. */
  lemma PrintedForm(n: int)
    ensures PrintInt(n)[0] == '-' <==> n < 0
    ensures n > 0 ==> PrintInt(n)[0] != '0'
    ensures n < 0 ==> |PrintInt(n)| > 1 && PrintInt(n)[1] != '0'
    ensures PrintInt(0) == "0"
  {
    if n < 0 {
      NoLeadingZero(-n);
      assert PrintInt(n)[1..] == Digits(-n);
    } else if n > 0 {
      NoLeadingZero(n);
    }
    assert IsDigit(Digits(if n < 0 then -n else n)[0]);
  }

  lemma {:induction false} NoLeadingZero(n: nat)
    requires n > 0
    ensures Digits(n)[0] != '0'
  {
    if n >= 10 {
      NoLeadingZero(n / 10);
    }
  }

  // ------------------------------------------------------------- dictsort

  /** Order of `String`: by code point, a prefix first. */
  predicate AtMost(a: string, b: string) {
    a == [] || (b != [] && (a[0] < b[0] || (a[0] == b[0] && AtMost(a[1..], b[1..]))))
  }

  ghost predicate FirstDiffersAt(a: string, b: string, k: nat) {
    k < |a| && k < |b| && a[..k] == b[..k] && a[k] < b[k]
  }

  /** The order is the lexicographic one. */
  lemma {:induction false} AtMostIff(a: string, b: string)
    ensures AtMost(a, b) <==> a <= b || exists k: nat :: FirstDiffersAt(a, b, k)
    decreases |a|
  {
    if a == [] {
    } else if b == [] {
      assert forall k: nat :: !FirstDiffersAt(a, b, k);
    } else if a[0] == b[0] {
      var s, t := a[1..], b[1..];
      AtMostIff(s, t);
      assert a == [a[0]] + s && b == [b[0]] + t;
      if k: nat :| FirstDiffersAt(s, t, k) {
        assert a[..k + 1] == [a[0]] + s[..k] && b[..k + 1] == [b[0]] + t[..k];
        assert FirstDiffersAt(a, b, k + 1);
      }
      if k: nat :| FirstDiffersAt(a, b, k) {
        assert s[..k - 1] == a[..k][1..] && t[..k - 1] == b[..k][1..];
        assert FirstDiffersAt(s, t, k - 1);
      }
    } else if a[0] < b[0] {
      assert FirstDiffersAt(a, b, 0);
    } else {
      assert forall k: nat | 0 < k <= |a| && k <= |b| :: a[..k][0] != b[..k][0];
    }
  }

  /** Behind every entry whose folded key is not greater: the stable place. */
  function InsertByKey(l: Lib, x: (string, Value), s: Entries): (r: Entries)
    ensures |r| == |s| + 1
  {
    if s == [] then [x]
    else
      var last := s[|s| - 1];
      if AtMost(l.lower(last.0), l.lower(x.0)) then s + [x] else InsertByKey(l, x, s[..|s| - 1]) + [last]
  }

  /** jinja `dictsort`: stable, case-insensitive. */
  function DictSort(l: Lib, s: Entries): (r: Entries)
    ensures |r| == |s|
  {
    if s == [] then [] else InsertByKey(l, s[|s| - 1], DictSort(l, s[..|s| - 1]))
  }

  lemma {:induction false} InsertPermutes(l: Lib, x: (string, Value), s: Entries)
    ensures multiset(InsertByKey(l, x, s)) == multiset(s) + multiset{x}
    decreases |s|
  {
    if s != [] {
      var last := s[|s| - 1];
      assert s == s[..|s| - 1] + [last];
      if !AtMost(l.lower(last.0), l.lower(x.0)) {
        InsertPermutes(l, x, s[..|s| - 1]);
      }
    }
  }

  lemma {:induction false} SortPermutes(l: Lib, s: Entries)
    ensures multiset(DictSort(l, s)) == multiset(s)
    decreases |s|
  {
    if s != [] {
      assert s == s[..|s| - 1] + [s[|s| - 1]];
      SortPermutes(l, s[..|s| - 1]);
      InsertPermutes(l, s[|s| - 1], DictSort(l, s[..|s| - 1]));
    }
  }

  ghost predicate Sorted(l: Lib, s: Entries) {
    forall i, j | 0 <= i < j < |s| :: AtMost(l.lower(s[i].0), l.lower(s[j].0))
  }

  lemma {:induction false} AtMostTotal(a: string, b: string)
    ensures AtMost(a, b) || AtMost(b, a)
    decreases |a|
  {
    if a != [] && b != [] && a[0] == b[0] {
      AtMostTotal(a[1..], b[1..]);
    }
  }

  lemma {:induction false} AtMostTransitive(a: string, b: string, c: string)
    requires AtMost(a, b) && AtMost(b, c)
    ensures AtMost(a, c)
    decreases |a|
  {
    if a != [] && a[0] == b[0] && b[0] == c[0] {
      AtMostTransitive(a[1..], b[1..], c[1..]);
    }
  }

  lemma {:induction false} InsertKeepsSorted(l: Lib, x: (string, Value), s: Entries)
    requires Sorted(l, s)
    ensures Sorted(l, InsertByKey(l, x, s))
    decreases |s|
  {
    if s != [] {
      var last, init := s[|s| - 1], s[..|s| - 1];
      if AtMost(l.lower(last.0), l.lower(x.0)) {
        forall i | 0 <= i < |s|
          ensures AtMost(l.lower(s[i].0), l.lower(x.0))
        {
          if i < |s| - 1 {
            AtMostTransitive(l.lower(s[i].0), l.lower(last.0), l.lower(x.0));
          }
        }
      } else {
        InsertKeepsSorted(l, x, init);
        AtMostTotal(l.lower(last.0), l.lower(x.0));
        InsertPermutes(l, x, init);
        var q := InsertByKey(l, x, init);
        forall i | 0 <= i < |q|
          ensures AtMost(l.lower(q[i].0), l.lower(last.0))
        {
          assert q[i] in multiset(q);
          assert q[i] == x || q[i] in init;
        }
      }
    }
  }

  lemma {:induction false} DictSortSorts(l: Lib, s: Entries)
    ensures Sorted(l, DictSort(l, s))
    decreases |s|
  {
    if s != [] {
      DictSortSorts(l, s[..|s| - 1]);
      InsertKeepsSorted(l, s[|s| - 1], DictSort(l, s[..|s| - 1]));
    }
  }

  lemma {:induction false} InsertPlace(l: Lib, x: (string, Value), s: Entries) returns (p: nat)
    ensures p <= |s| && InsertByKey(l, x, s) == s[..p] + [x] + s[p..]
    ensures forall j | p <= j < |s| :: l.lower(s[j].0) != l.lower(x.0)
    decreases |s|
  {
    hide AtMost;
    p := |s|;
    if s != [] {
      var last := s[|s| - 1];
      if !AtMost(l.lower(last.0), l.lower(x.0)) {
        AtMostTotal(l.lower(x.0), l.lower(x.0));
        p := InsertPlace(l, x, s[..|s| - 1]);
        assert s[..|s| - 1][p..] + [last] == s[p..];
      }
    }
  }

  /** A rearrangement, given by where each entry stood: no two from the same place, equal keys in their old order. */
  ghost predicate Stable(keys: seq<string>, order: seq<nat>, n: nat)
    requires n <= |keys|
  {
    && |order| == n && (forall i | 0 <= i < n :: order[i] < n) && (forall i, j | 0 <= i < j < n :: order[i] != order[j])
    && forall i, j | 0 <= i < j < n && keys[order[i]] == keys[order[j]] :: order[i] < order[j]
  }

  lemma StableInsert(keys: seq<string>, before: seq<nat>, n: nat, p: nat)
    requires n < |keys| && Stable(keys, before, n) && p <= n && forall j | p <= j < n :: keys[before[j]] != keys[n]
    ensures Stable(keys, before[..p] + [n] + before[p..], n + 1)
  {
    var order := before[..p] + [n] + before[p..];
    assert forall i | 0 <= i <= n :: order[i] == if i < p then before[i] else if i == p then n else before[i - 1];
  }

  function Folded(l: Lib, s: Entries): (keys: seq<string>)
    ensures |keys| == |s| && forall i | 0 <= i < |s| :: keys[i] == l.lower(s[i].0)
  {
    seq(|s|, i requires 0 <= i < |s| => l.lower(s[i].0))
  }

  lemma {:induction false} SortOrder(l: Lib, s: Entries, n: nat) returns (order: seq<nat>)
    requires n <= |s|
    ensures Stable(Folded(l, s), order, n) && forall i | 0 <= i < n :: DictSort(l, s[..n])[i] == s[order[i]]
    decreases n
  {
    hide InsertByKey;
    order := [];
    if n > 0 {
      var init := s[..n - 1];
      assert s[..n][..n - 1] == init && s[..n][n - 1] == s[n - 1];
      var before := SortOrder(l, s, n - 1);
      var d := DictSort(l, init);
      var p := InsertPlace(l, s[n - 1], d);
      assert forall j | p <= j < n - 1 :: Folded(l, s)[before[j]] == l.lower(d[j].0);
      hide Stable;
      StableInsert(Folded(l, s), before, n - 1, p);
      order := before[..p] + [n - 1] + before[p..];
    }
  }

  /** Sorting rearranges the entries, and those with the same folded key keep their order. */
  lemma DictSortIsStable(l: Lib, s: Entries) returns (order: seq<nat>)
    ensures |order| == |s| && (forall i | 0 <= i < |s| :: order[i] < |s| && DictSort(l, s)[i] == s[order[i]])
    ensures forall i, j | 0 <= i < j < |s| :: order[i] != order[j]
    ensures forall i, j | 0 <= i < j < |s| && l.lower(s[order[i]].0) == l.lower(s[order[j]].0) :: order[i] < order[j]
  {
    order := SortOrder(l, s, |s|);
    assert s[..|s|] == s;
  }

  lemma SortedSameEntries(l: Lib, s: Entries)
    ensures forall x :: x in DictSort(l, s) <==> x in s
  {
    SortPermutes(l, s);
    assert forall x :: x in DictSort(l, s) <==> x in multiset(DictSort(l, s));
    assert forall x :: x in s <==> x in multiset(s);
  }

  // ---------------------------------------------------- canonical key order

  /** The tree with every object's entries in `dictsort` order. */
  function Canon(l: Lib, v: Value): Value {
    match v
    case Arr(items) => Arr(seq(|items|, i requires 0 <= i < |items| => Canon(l, items[i])))
    case Obj(es) => Obj(DictSort(l, seq(|es|, i requires 0 <= i < |es| => (es[i].0, Canon(l, es[i].1)))))
    case _ => v
  }

  function CanonEntries(l: Lib, es: Entries): (r: Entries)
    ensures |r| == |es|
  {
    seq(|es|, i requires 0 <= i < |es| => (es[i].0, Canon(l, es[i].1)))
  }

  /** Equality of JSON values: objects compare as maps, whatever their order. */
  ghost predicate Same(a: Value, b: Value) {
    match a
    case Arr(xs) => b.Arr? && |xs| == |b.items| && forall i | 0 <= i < |xs| :: Same(xs[i], b.items[i])
    case Obj(xs) => b.Obj? && |xs| == |b.entries| && forall i | 0 <= i < |xs| :: exists j | 0 <= j < |b.entries| :: xs[i].0 == b.entries[j].0 && Same(xs[i].1, b.entries[j].1)
    case _ => a == b
  }

  predicate HasKey(es: Entries, k: string) {
    exists j | 0 <= j < |es| :: es[j].0 == k
  }

  /** Objects with distinct keys are the same when they have the same keys and, under each, the same value. */
  lemma SameObjects(a: Entries, b: Entries)
    requires DistinctKeys(a) && DistinctKeys(b)
    ensures Same(Obj(a), Obj(b)) <==>
      && |a| == |b| && (forall i | 0 <= i < |a| :: HasKey(b, a[i].0))
      && forall i, j | 0 <= i < |a| && 0 <= j < |b| && a[i].0 == b[j].0 :: Same(a[i].1, b[j].1)
  {
    if Same(Obj(a), Obj(b)) {
      forall i, j | 0 <= i < |a| && 0 <= j < |b| && a[i].0 == b[j].0
        ensures Same(a[i].1, b[j].1)
      {
        var m :| 0 <= m < |b| && a[i].0 == b[m].0 && Same(a[i].1, b[m].1);
        assert m == j;
      }
    } else if |a| == |b| && forall i | 0 <= i < |a| :: HasKey(b, a[i].0) {
      var i :| 0 <= i < |a| && forall j | 0 <= j < |b| :: !(a[i].0 == b[j].0 && Same(a[i].1, b[j].1));
      var j :| 0 <= j < |b| && b[j].0 == a[i].0;
      assert !Same(a[i].1, b[j].1);
    }
  }

  lemma {:induction false} CanonIsSame(l: Lib, v: Value)
    ensures Same(v, Canon(l, v))
  {
    match v
    case Arr(items) =>
      forall i | 0 <= i < |items|
        ensures Same(items[i], Canon(l, v).items[i])
      {
        CanonIsSame(l, items[i]);
      }
    case Obj(es) =>
      var r := Canon(l, v).entries;
      forall i | 0 <= i < |es|
        ensures exists j | 0 <= j < |r| :: es[i].0 == r[j].0 && Same(es[i].1, r[j].1)
      {
        CanonIsSame(l, es[i].1);
        var c := CanonEntries(l, es);
        SortedSameEntries(l, c);
        assert c[i] in c && r == DictSort(l, c);
        var j :| 0 <= j < |r| && r[j] == c[i];
      }
    case _ =>
  }

  lemma {:induction false} InsertCommutes(l: Lib, x: (string, Value), s: Entries)
    ensures CanonEntries(l, InsertByKey(l, x, s)) == InsertByKey(l, (x.0, Canon(l, x.1)), CanonEntries(l, s))
    decreases |s|
  {
    hide Canon, AtMost;
    if s != [] {
      var init := s[..|s| - 1];
      InsertCommutes(l, x, init);
      assert CanonEntries(l, s)[..|s| - 1] == CanonEntries(l, init);
    }
  }

  /** Sorting looks at keys only, so it does not matter whether values are put in order before or after. */
  lemma {:induction false} SortCommutes(l: Lib, s: Entries)
    ensures CanonEntries(l, DictSort(l, s)) == DictSort(l, CanonEntries(l, s))
    decreases |s|
  {
    if s == [] {
    } else {
      var init := s[..|s| - 1];
      SortCommutes(l, init);
      InsertCommutes(l, s[|s| - 1], DictSort(l, init));
      assert CanonEntries(l, s)[..|s| - 1] == CanonEntries(l, init);
    }
  }

  // -------------------------------------------------------------- printing

  function PrintKey(escape: bool, k: string): string {
    if escape then QUOTE + k + QUOTE else k
  }

  /** A tree printed in the entry order it has. */
  function Print(l: Lib, escape: bool, v: Value): string {
    match v
    case Null => "None"
    case Bool(b) => if b then "true" else "false"
    case Int(n) => PrintInt(n)
    case Real(bits) => l.show(bits)
    case Str(s) => QUOTE + s + QUOTE
    case Arr(items) => "[" + PrintItems(l, escape, items) + "]"
    case Obj(es) => "{" + PrintMembers(l, escape, es) + "}"
  }

  function PrintItems(l: Lib, escape: bool, items: seq<Value>): string {
    if items == [] then ""
    else if |items| == 1 then Print(l, escape, items[0])
    else Print(l, escape, items[0]) + "," + PrintItems(l, escape, items[1..])
  }

  function PrintMember(l: Lib, escape: bool, e: (string, Value)): string {
    PrintKey(escape, e.0) + ":" + Print(l, escape, e.1)
  }

  function PrintMembers(l: Lib, escape: bool, es: Entries): string {
    if es == [] then ""
    else if |es| == 1 then PrintMember(l, escape, es[0])
    else PrintMember(l, escape, es[0]) + "," + PrintMembers(l, escape, es[1..])
  }

  lemma {:induction false} PrintItemsSnoc(l: Lib, escape: bool, items: seq<Value>, v: Value)
    ensures PrintItems(l, escape, items + [v]) == PrintItems(l, escape, items) + (if items == [] then "" else ",") + Print(l, escape, v)
    decreases |items|
  {
    if |items| == 0 {
      assert items + [v] == [v];
    } else {
      PrintItemsSnoc(l, escape, items[1..], v);
      assert (items + [v])[1..] == items[1..] + [v];
    }
  }

  lemma {:induction false} PrintMembersSnoc(l: Lib, escape: bool, es: Entries, e: (string, Value))
    ensures PrintMembers(l, escape, es + [e]) == PrintMembers(l, escape, es) + (if es == [] then "" else ",") + PrintMember(l, escape, e)
    decreases |es|
  {
    hide PrintMember;
    if |es| == 0 {
      assert es + [e] == [e];
    } else {
      PrintMembersSnoc(l, escape, es[1..], e);
      assert (es + [e])[1..] == es[1..] + [e];
    }
  }

  /** `format_argument`. */
  method FormatArgument(l: Lib, v: Value, escape: bool, out0: string) returns (out: string)
    ensures out == out0 + Print(l, escape, Canon(l, v))
    decreases v, 2
  {
    match v
    case Str(s) => out := out0 + "<|\"|>"; out := out + s; out := out + "<|\"|>";
    case Bool(b) => out := out0 + if b then "true" else "false";
    case Obj(es) => out := FormatObject(l, v, escape, out0);
    case Arr(items) => out := FormatArray(l, v, escape, out0);
    case Null => out := out0 + "None";
    case Int(n) => out := out0 + PrintInt(n);
    case Real(bits) => out := out0 + l.show(bits);
  }

  method FormatArray(l: Lib, v: Value, escape: bool, out0: string) returns (out: string)
    requires v.Arr?
    ensures out == out0 + Print(l, escape, Canon(l, v))
    decreases v, 1
  {
    ghost var c := Canon(l, v).items;
    assert Print(l, escape, Canon(l, v)) == "[" + PrintItems(l, escape, c) + "]";
    assert forall i | 0 <= i < |c| :: c[i] == Canon(l, v.items[i]);
    hide Print, PrintItems, Canon;
    NoMembers(l, escape);
    out := out0 + "[";
    var i := 0;
    while i < |v.items|
      invariant i <= |v.items| && out == out0 + "[" + PrintItems(l, escape, c[..i])
    {
      PrintItemsSnoc(l, escape, c[..i], c[i]);
      Prefix(c, i);
      Reassociate(out0 + "[", PrintItems(l, escape, c[..i]), if i > 0 then "," else "", Print(l, escape, c[i]));
      if i > 0 {
        out := out + ",";
      }
      out := FormatArgument(l, v.items[i], escape, out);
      i := i + 1;
    }
    assert c[..i] == c;
    out := out + "]";
  }

  /** One entry of an object. */
  method FormatMember(l: Lib, k: string, v: Value, escape: bool, out0: string) returns (out: string)
    ensures out == out0 + PrintMember(l, escape, (k, Canon(l, v)))
    decreases v, 3
  {
    out := out0;
    if escape {
      out := out + "<|\"|>";
      out := out + k;
      out := out + "<|\"|>";
    } else {
      out := out + k;
    }
    out := out + ":";
    out := FormatArgument(l, v, escape, out);
  }

  method FormatObject(l: Lib, v: Value, escape: bool, out0: string) returns (out: string)
    requires v.Obj?
    ensures out == out0 + Print(l, escape, Canon(l, v))
    decreases v, 1
  {
    var es := DictSort(l, v.entries);
    ghost var c := CanonEntries(l, es);
    hide Print, PrintMembers, PrintMember, Canon, DictSort, CanonEntries;
    CanonObject(l, escape, v);
    NoMembers(l, escape);
    out := out0 + "{";
    var i := 0;
    while i < |es|
      invariant i <= |es| && out == out0 + "{" + PrintMembers(l, escape, c[..i])
    {
      PrintMembersSnoc(l, escape, c[..i], c[i]);
      Prefix(c, i);
      Reassociate(out0 + "{", PrintMembers(l, escape, c[..i]), if i > 0 then "," else "", PrintMember(l, escape, c[i]));
      if i > 0 {
        out := out + ",";
      }
      ghost var j := EntryAt(l, v.entries, i);
      CanonAt(l, es, i);
      out := FormatMember(l, es[i].0, es[i].1, escape, out);
      i := i + 1;
    }
    assert c[..i] == c;
    out := out + "}";
  }

  lemma CanonObject(l: Lib, escape: bool, v: Value)
    requires v.Obj?
    ensures Print(l, escape, Canon(l, v)) == "{" + PrintMembers(l, escape, CanonEntries(l, DictSort(l, v.entries))) + "}"
  {
    SortCommutes(l, v.entries);
  }

  lemma CanonAt(l: Lib, es: Entries, i: nat)
    requires i < |es|
    ensures CanonEntries(l, es)[i] == (es[i].0, Canon(l, es[i].1))
  {
  }

  lemma EntryAt(l: Lib, s: Entries, i: nat) returns (j: nat)
    requires i < |s|
    ensures j < |s| && s[j] == DictSort(l, s)[i]
  {
    SortedSameEntries(l, s);
    assert DictSort(l, s)[i] in s;
    j :| 0 <= j < |s| && s[j] == DictSort(l, s)[i];
  }

  lemma Prefix<T>(s: seq<T>, i: nat)
    requires i < |s|
    ensures s[..i + 1] == s[..i] + [s[i]]
  {
  }

  lemma Reassociate(a: string, b: string, c: string, d: string)
    ensures a + (b + c + d) == a + b + c + d
  {
  }

  lemma NoMembers(l: Lib, escape: bool)
    ensures PrintMembers(l, escape, []) == "" && PrintItems(l, escape, []) == ""
  {
  }
}
