/**
  Printing an argument tree and parsing it back. Which strings, keys, integers
  and names survive is stated exactly, and so is which trees do, as far as their
  keys survive.
 */
module ToolRoundTrips {
  import opened Values
  import opened ToolCalls

  // ------------------------------------------------------ finding things

  lemma {:induction false} FindAnyPast(w: string, rest: string, stops: string)
    requires forall i | 0 <= i < |w| :: w[i] !in stops
    requires rest == [] || rest[0] in stops
    ensures FindAny(w + rest, stops) == |w|
  {
    if w == [] {
      assert w + rest == rest;
    } else {
      assert (w + rest)[1..] == w[1..] + rest;
      FindAnyPast(w[1..], rest, stops);
    }
  }

  lemma FindAnyStops(w: string, rest: string, stops: string, i: nat)
    requires i < |w| && w[i] in stops
    ensures FindAny(w + rest, stops) <= i
  {
    assert (w + rest)[i] == w[i];
  }

  /** The marker cannot straddle its own start: none of its later characters is its first. */
  lemma QuoteDoesNotStraddle(s: string, rest: string, k: nat)
    requires k < |s|
    ensures QuoteAt(s + QUOTE + rest, k) <==> QuoteAt(s, k)
  {
    var t := s + QUOTE + rest;
    assert k + 5 > |s| ==> t[k..][|s| - k] == t[|s|] == QUOTE[0];
    assert k + 5 <= |s| ==> t[k..][..5] == s[k..][..5];
  }

  lemma FindQuoteIs(s: string, i: nat)
    requires i <= |s| && (i < |s| ==> QuoteAt(s, i)) && forall k: nat | k < i :: !QuoteAt(s, k)
    ensures FindQuote(s) == i
  {
    var f := FindQuote(s);
    assert f < |s| ==> QuoteAt(s, f);
  }

  lemma FindClosingQuote(s: string, rest: string)
    ensures FindQuote(s + QUOTE + rest) == FindQuote(s)
  {
    var t, i := s + QUOTE + rest, FindQuote(s);
    forall k: nat | k < i
      ensures !QuoteAt(t, k)
    {
      QuoteDoesNotStraddle(s, rest, k);
    }
    if i < |s| {
      QuoteDoesNotStraddle(s, rest, i);
    } else {
      assert t[i..] == QUOTE + rest;
    }
    FindQuoteIs(t, i);
  }

  /** A quoted string comes back exactly when it does not contain the marker. */
  lemma StringRoundTripIff(s: string, rest: string)
    ensures QUOTE <= QUOTE + s + QUOTE + rest
    ensures Quoted(QUOTE + s + QUOTE + rest) == Done(s, rest) <==> !HasQuote(s)
  {
    var body := (QUOTE + s + QUOTE + rest)[|QUOTE|..];
    assert body == s + QUOTE + rest;
    FindClosingQuote(s, rest);
    var i := FindQuote(s);
    assert i < |body|;
    if i == |s| {
      assert body[..i] == s && body[i + |QUOTE|..] == rest;
    } else {
      assert |body[..i]| < |s|;
    }
  }

  // ------------------------------------------------------------ trimming

  lemma {:induction false} TrimEndTrims(s: string)
    ensures TrimEnd(s) != [] ==> !IsWs(TrimEnd(s)[|TrimEnd(s)| - 1]) && TrimEnd(s)[0] == s[0]
  {
    if s != [] && IsWs(s[|s| - 1]) {
      TrimEndTrims(s[..|s| - 1]);
    }
  }

  lemma TrimIsIdentityIff(s: string)
    ensures Trim(s) == s <==> Trimmed(s)
  {
    TrimEndTrims(SkipWs(s));
  }

  // ---------------------------------------------------------------- keys

  predicate BareKeyChars(k: string) {
    forall i | 0 <= i < |k| :: k[i] !in ":,{}"
  }

  predicate GoodKey(escape: bool, k: string) {
    if escape then !HasQuote(k)
    else k != [] && Trimmed(k) && !(QUOTE <= k) && BareKeyChars(k)
  }

  /** The marker is not a bare key's start even when the text that follows completes it. */
  lemma QuoteNeedsKey(k: string, rest: string)
    requires QUOTE <= k + ":" + rest
    ensures QUOTE <= k
  {
    var t := k + ":" + rest;
    assert t[|k|] == ':';
    if |k| >= |QUOTE| {
      assert t[..|QUOTE|] == k[..|QUOTE|];
    }
  }

  lemma BareKeyBack(k: string, rest: string)
    requires !(QUOTE <= k) && BareKeyChars(k)
    ensures Key(k + ":" + rest) == if Trim(k) == [] then Failed(EmptyKey) else Done(Trim(k), ":" + rest)
  {
    var t := k + ":" + rest;
    if QUOTE <= t {
      QuoteNeedsKey(k, rest);
    }
    assert t == k + (":" + rest);
    FindAnyPast(k, ":" + rest, ":,{}");
    assert t[..|k|] == k && t[|k|..] == ":" + rest;
  }

  /** A key that starts with the marker is taken for a quoted one, and what comes back cannot start with it. */
  lemma QuotedLosesMarker(k: string, rest: string)
    requires QUOTE <= k
    ensures Key(k + ":" + rest) != Done(k, ":" + rest)
  {
    var t := k + ":" + rest;
    assert QUOTE <= t;
    var body := t[|QUOTE|..];
    var i := FindQuote(body);
    if i < |body| && body[..i] == k {
      assert false;
    }
  }

  /** A printed key comes back, with the colon next, exactly for these keys. */
  lemma KeyRoundTripIff(escape: bool, k: string, rest: string)
    ensures Key(SkipWs(PrintKey(escape, k) + ":" + rest)) == Done(k, ":" + rest) <==> GoodKey(escape, k)
  {
    if escape {
      assert QUOTE + k + QUOTE + ":" + rest == QUOTE + k + QUOTE + (":" + rest);
      StringRoundTripIff(k, ":" + rest);
    } else {
      BareKeyRoundTripIff(k, rest);
    }
  }

  lemma BareKeyRoundTripIff(k: string, rest: string)
    ensures Key(SkipWs(k + ":" + rest)) == Done(k, ":" + rest) <==> GoodKey(false, k)
  {
    var t := k + ":" + rest;
    TrimIsIdentityIff(k);
    if k != [] && IsWs(k[0]) {
      SpaceIsLost(k, rest);
    } else {
      assert SkipWs(t) == t;
      if QUOTE <= k {
        QuotedLosesMarker(k, rest);
      } else if BareKeyChars(k) {
        BareKeyBack(k, rest);
      } else {
        var i :| 0 <= i < |k| && k[i] in ":,{}";
        StructureIsLost(k, rest, i);
      }
    }
  }

  lemma {:induction false} SkipWsAtMost(s: string)
    ensures s != [] && IsWs(s[0]) ==> |SkipWs(s)| < |s|
  {
  }

  /** A key read back never starts with a space when bare; when quoted, the remainder is too short. */
  lemma SpaceIsLost(k: string, rest: string)
    requires k != [] && IsWs(k[0])
    ensures Key(SkipWs(k + ":" + rest)) != Done(k, ":" + rest)
  {
    var t := SkipWs(k + ":" + rest);
    SkipWsAtMost(k + ":" + rest);
    var r := Key(t);
    if r.Done? && r.rest == ":" + rest {
      KeyAndRestFit(t);
    }
  }

  /** A key and what is left after it fit in what was read. */
  lemma KeyAndRestFit(t: string)
    requires Key(t).Done?
    ensures |Key(t).value| + |Key(t).rest| <= |t|
  {
  }

  lemma StructureIsLost(k: string, rest: string, i: nat)
    requires !(QUOTE <= k) && i < |k| && k[i] in ":,{}"
    ensures Key(k + ":" + rest) != Done(k, ":" + rest)
  {
    var t := k + ":" + rest;
    if QUOTE <= t {
      QuoteNeedsKey(k, rest);
    }
    assert t == k + (":" + rest);
    FindAnyStops(k, ":" + rest, ":,{}", i);
  }

  // ------------------------------------------------------------ bare words

  /** What can follow a value: the end, or a character that ends a bare word. */
  predicate Follows(rest: string) {
    rest == [] || rest[0] in ",}]"
  }

  /** A word the bare-scalar branch reads whole. */
  predicate Word(w: string) {
    && w != [] && Trimmed(w) && !(QUOTE <= w) && w[0] != '{' && w[0] != '['
    && forall i | 0 <= i < |w| :: w[i] !in ",}]"
  }

  lemma WordIsBare(w: string, rest: string)
    requires Word(w) && Follows(rest)
    ensures SkipWs(w + rest) == w + rest && !(QUOTE <= w + rest)
  {
    var t := w + rest;
    assert rest != [] ==> t[|w|] == rest[0];
    assert |w| >= |QUOTE| ==> t[..|QUOTE|] == w[..|QUOTE|];
  }

  lemma WordBack(l: Lib, w: string, rest: string)
    requires Word(w) && Follows(rest)
    ensures ParseValue(l, w + rest) == Done(Scalar(l, w), rest)
  {
    var t := w + rest;
    WordIsBare(w, rest);
    FindAnyPast(w, rest, ",}]");
    TrimIsIdentityIff(w);
    hide FindAny, Trim, SkipWs, Scalar, Trimmed;
    assert t[..|w|] == w && t[|w|..] == rest;
    assert t[0] == w[0];
  }

  lemma IntIsWord(n: int)
    ensures Word(PrintInt(n)) && PrintInt(n) !in {"true", "false", "None", "null"}
  {
    var w := PrintInt(n);
    var c := w[0];
    assert c == '-' || IsDigit(c);
    forall i | 0 <= i < |w|
      ensures w[i] == '-' || IsDigit(w[i])
    {
      assert n < 0 && i > 0 ==> w[i] == Digits(-n)[i - 1];
    }
  }

  /** An integer comes back as itself exactly when it fits 64 bits. */
  lemma IntRoundTripIff(l: Lib, n: int, rest: string)
    requires Follows(rest)
    ensures ParseValue(l, PrintInt(n) + rest) == Done(Int(n), rest) <==> InI64(n)
  {
    IntIsWord(n);
    WordBack(l, PrintInt(n), rest);
    IntRoundTrip(n);
  }

  predicate GoodFloat(l: Lib, bits: nat) {
    var w := l.show(bits);
    Word(w) && w !in {"true", "false", "None", "null"} && ParseInt(w).None? && l.read(w) == Some(bits)
  }

  // ---------------------------------------------------------- whole trees

  ghost predicate Good(l: Lib, escape: bool, v: Value) {
    match v
    case Null => true
    case Bool(_) => true
    case Int(n) => InI64(n)
    case Real(bits) => GoodFloat(l, bits)
    case Str(s) => !HasQuote(s)
    case Arr(items) => forall i | 0 <= i < |items| :: Good(l, escape, items[i])
    case Obj(es) => DistinctKeys(es) && forall i | 0 <= i < |es| :: GoodKey(escape, es[i].0) && Good(l, escape, es[i].1)
  }

  /** A printed tree starts with a character that is not space. */
  lemma PrintedHead(l: Lib, escape: bool, v: Value, rest: string)
    requires v.Real? ==> GoodFloat(l, v.bits)
    ensures SkipWs(Print(l, escape, v) + rest) == Print(l, escape, v) + rest
  {
    var p := Print(l, escape, v);
    if v.Int? {
      IntIsWord(v.n);
    }
    assert p != [] && !IsWs(p[0]);
  }

  lemma ScalarBack(l: Lib, escape: bool, v: Value, rest: string)
    requires Good(l, escape, v) && !v.Arr? && !v.Obj? && Follows(rest)
    ensures ParseValue(l, Print(l, escape, v) + rest) == Done(v, rest)
  {
    match v
    case Null => WordBack(l, "None", rest);
    case Bool(b) => WordBack(l, if b then "true" else "false", rest);
    case Int(n) => IntRoundTripIff(l, n, rest);
    case Real(bits) => WordBack(l, l.show(bits), rest);
    case Str(s) =>
      var t := QUOTE + s + QUOTE + rest;
      assert SkipWs(t) == t;
      StringRoundTripIff(s, rest);
  }

  lemma {:induction false} PrintedBack(l: Lib, escape: bool, v: Value, rest: string)
    requires Good(l, escape, v) && Follows(rest)
    ensures ParseValue(l, Print(l, escape, v) + rest) == Done(v, rest)
    decreases v, 1
  {
    match v
    case Arr(items) => ArrayBack(l, escape, v, rest);
    case Obj(es) => ObjectBack(l, escape, v, rest);
    case _ => ScalarBack(l, escape, v, rest);
  }

  lemma {:induction false} ArrayBack(l: Lib, escape: bool, v: Value, rest: string)
    requires Good(l, escape, v) && v.Arr?
    ensures ParseValue(l, Print(l, escape, v) + rest) == Done(v, rest)
    decreases v, 0
  {
    var items, p := v.items, PrintItems(l, escape, v.items);
    var t := Print(l, escape, v) + rest;
    assert t == "[" + (p + "]" + rest) && t[1..] == p + "]" + rest;
    hide Good, Print;
    assert SkipWs(t) == t && !(QUOTE <= t);
    if items == [] {
      assert t[1..] == "]" + rest;
      assert SkipWs(t[1..]) == t[1..] && t[1..][1..] == rest;
    } else {
      ItemsHead(l, escape, v, rest);
      ItemsBack(l, escape, v, 0, rest);
      assert items[0..] == items && items[..0] == [];
    }
  }

  lemma ItemsHead(l: Lib, escape: bool, v: Value, rest: string)
    requires v.Arr? && v.items != [] && (v.items[0].Real? ==> GoodFloat(l, v.items[0].bits))
    ensures SkipWs(PrintItems(l, escape, v.items) + "]" + rest) == PrintItems(l, escape, v.items) + "]" + rest
    ensures !Starts(PrintItems(l, escape, v.items) + "]" + rest, ']')
  {
    var first := Print(l, escape, v.items[0]);
    PrintedHead(l, escape, v.items[0], "");
    if v.items[0].Int? {
      IntIsWord(v.items[0].n);
    }
    assert first + "" == first && first != [] && !IsWs(first[0]) && first[0] != ']';
    assert PrintItems(l, escape, v.items)[0] == first[0];
  }

  lemma ItemStep(l: Lib, s: string, acc: seq<Value>, x: Value, more: string)
    requires ParseValue(l, s) == Done(x, "," + more)
    ensures ParseItems(l, s, acc) == ParseItems(l, more, acc + [x])
  {
    SkipPunctuation(more);
    hide ParseValue, SkipWs;
    assert ("," + more)[1..] == more;
  }

  lemma LastItem(l: Lib, s: string, acc: seq<Value>, x: Value, rest: string)
    requires ParseValue(l, s) == Done(x, "]" + rest)
    ensures ParseItems(l, s, acc) == Done(Arr(acc + [x]), rest)
  {
    SkipPunctuation(rest);
    hide ParseValue, SkipWs;
    assert ("]" + rest)[1..] == rest;
  }

  lemma {:induction false} ItemsBack(l: Lib, escape: bool, v: Value, i: nat, rest: string)
    requires Good(l, escape, v) && v.Arr? && i < |v.items|
    ensures ParseItems(l, PrintItems(l, escape, v.items[i..]) + "]" + rest, v.items[..i]) == Done(v, rest)
    decreases v, 0, |v.items| - i
  {
    var items, x, acc := v.items, v.items[i], v.items[..i];
    assert Good(l, escape, x);
    hide Good, Print, ParseValue, ParseItems;
    var s := PrintItems(l, escape, items[i..]) + "]" + rest;
    assert acc + [x] == items[..i + 1];
    if i + 1 == |items| {
      assert items[i..] == [x] && items[..i + 1] == items;
      assert s == Print(l, escape, x) + ("]" + rest);
      PrintedBack(l, escape, x, "]" + rest);
      LastItem(l, s, acc, x, rest);
    } else {
      var more := PrintItems(l, escape, items[i + 1..]) + "]" + rest;
      assert items[i..][0] == x && items[i..][1..] == items[i + 1..];
      assert s == Print(l, escape, x) + ("," + more);
      PrintedBack(l, escape, x, "," + more);
      ItemStep(l, s, acc, x, more);
      ItemsBack(l, escape, v, i + 1, rest);
    }
  }

  lemma {:induction false} ObjectBack(l: Lib, escape: bool, v: Value, rest: string)
    requires Good(l, escape, v) && v.Obj?
    ensures ParseObject(l, Print(l, escape, v) + rest) == Done(v, rest)
    ensures ParseValue(l, Print(l, escape, v) + rest) == Done(v, rest)
    decreases v, 0
  {
    var es, p := v.entries, PrintMembers(l, escape, v.entries);
    var t := Print(l, escape, v) + rest;
    assert t == "{" + (p + "}" + rest) && t[1..] == p + "}" + rest;
    hide Good, Print;
    assert SkipWs(t) == t && !(QUOTE <= t);
    if es == [] {
      assert t[1..] == "}" + rest;
      assert SkipWs(t[1..]) == t[1..] && t[1..][1..] == rest;
    } else {
      MembersHead(l, escape, v, rest);
      MembersBack(l, escape, v, 0, rest);
      assert es[0..] == es && es[..0] == [];
    }
  }

  lemma MembersHead(l: Lib, escape: bool, v: Value, rest: string)
    requires v.Obj? && v.entries != [] && GoodKey(escape, v.entries[0].0)
    ensures SkipWs(PrintMembers(l, escape, v.entries) + "}" + rest) == PrintMembers(l, escape, v.entries) + "}" + rest
    ensures !Starts(PrintMembers(l, escape, v.entries) + "}" + rest, '}')
  {
    var k := PrintKey(escape, v.entries[0].0);
    assert k != [] && !IsWs(k[0]) && k[0] != '}';
    hide Good, Print;
    assert PrintMembers(l, escape, v.entries)[0] == k[0];
  }

  /** One entry, up to what follows its value. */
  lemma MemberBack(l: Lib, escape: bool, e: (string, Value), after: string)
    requires GoodKey(escape, e.0) && ParseValue(l, Print(l, escape, e.1) + after) == Done(e.1, after)
    ensures ReadsMember(l, PrintMember(l, escape, e) + after, e, after)
  {
    var p := Print(l, escape, e.1) + after;
    assert PrintMember(l, escape, e) + after == PrintKey(escape, e.0) + ":" + p;
    KeyRoundTripIff(escape, e.0, p);
    assert (":" + p)[1..] == p;
    SkipPunctuation(p);
  }

  lemma SkipPunctuation(p: string)
    ensures SkipWs(":" + p) == ":" + p && SkipWs("," + p) == "," + p && SkipWs("}" + p) == "}" + p && SkipWs("]" + p) == "]" + p
  {
  }

  lemma InsertNew(es: Entries, i: nat)
    requires DistinctKeys(es) && i < |es|
    ensures Insert(es[..i], es[i].0, es[i].1) == es[..i + 1]
  {
  }

  /** The key of the front entry has been read, and its value with it. */
  ghost predicate ReadsMember(l: Lib, t: string, e: (string, Value), after: string) {
    var key := Key(SkipWs(t));
    key.Done? && key.value == e.0 && SkipWs(key.rest) == key.rest && Starts(key.rest, ':') && ParseValue(l, key.rest[1..]) == Done(e.1, after)
  }

  lemma MemberStep(l: Lib, t: string, acc: Entries, e: (string, Value), more: string)
    requires ReadsMember(l, t, e, "," + more)
    ensures ParseMembers(l, t, acc) == ParseMembers(l, more, Insert(acc, e.0, e.1))
  {
    SkipPunctuation(more);
    hide ParseValue, SkipWs, Key, Insert;
    assert ("," + more)[1..] == more;
  }

  lemma LastMember(l: Lib, t: string, acc: Entries, e: (string, Value), rest: string)
    requires ReadsMember(l, t, e, "}" + rest)
    ensures ParseMembers(l, t, acc) == Done(Obj(Insert(acc, e.0, e.1)), rest)
  {
    SkipPunctuation(rest);
    hide ParseValue, SkipWs, Key, Insert;
    assert ("}" + rest)[1..] == rest;
  }

  /** The text after the entry at `i`. */
  function AfterMember(l: Lib, escape: bool, es: Entries, i: nat, rest: string): string
    requires i < |es|
  {
    if i + 1 == |es| then "}" + rest else "," + (PrintMembers(l, escape, es[i + 1..]) + "}" + rest)
  }

  lemma SplitMember(l: Lib, escape: bool, es: Entries, i: nat, rest: string)
    requires i < |es|
    ensures PrintMembers(l, escape, es[i..]) + "}" + rest == PrintMember(l, escape, es[i]) + AfterMember(l, escape, es, i, rest)
  {
    hide PrintMember;
    assert es[i..][0] == es[i];
    if i + 1 == |es| {
      assert es[i..] == [es[i]];
    } else {
      assert es[i..][1..] == es[i + 1..];
    }
  }

  lemma {:induction false} MembersBack(l: Lib, escape: bool, v: Value, i: nat, rest: string)
    requires Good(l, escape, v) && v.Obj? && i < |v.entries|
    ensures ParseMembers(l, PrintMembers(l, escape, v.entries[i..]) + "}" + rest, v.entries[..i]) == Done(v, rest)
    decreases v, 0, |v.entries| - i
  {
    var es, e := v.entries, v.entries[i];
    assert Good(l, escape, e.1) && GoodKey(escape, e.0) && DistinctKeys(es);
    hide Good, GoodKey, Print, PrintMembers, ParseValue, ParseMembers, PrintMember, Insert, ReadsMember, DistinctKeys;
    InsertNew(es, i);
    SplitMember(l, escape, es, i, rest);
    var s, after := PrintMembers(l, escape, es[i..]) + "}" + rest, AfterMember(l, escape, es, i, rest);
    PrintedBack(l, escape, e.1, after);
    MemberBack(l, escape, e, after);
    if i + 1 == |es| {
      assert es[..i + 1] == es;
      LastMember(l, s, es[..i], e, rest);
    } else {
      MemberStep(l, s, es[..i], e, PrintMembers(l, escape, es[i + 1..]) + "}" + rest);
      MembersBack(l, escape, v, i + 1, rest);
    }
  }

  // ------------------------------------------------------ sorting is harmless

  lemma InsertedEntries(l: Lib, x: (string, Value), s: Entries, e: (string, Value))
    ensures e in InsertByKey(l, x, s) <==> e == x || e in s
  {
    InsertPermutes(l, x, s);
    assert e in InsertByKey(l, x, s) <==> e in multiset(InsertByKey(l, x, s));
    assert e in s <==> e in multiset(s);
  }

  lemma {:induction false} InsertKeepsDistinct(l: Lib, x: (string, Value), s: Entries)
    requires DistinctKeys(s) && forall i | 0 <= i < |s| :: s[i].0 != x.0
    ensures DistinctKeys(InsertByKey(l, x, s))
    decreases |s|
  {
    hide AtMost;
    if s != [] && !AtMost(l.lower(s[|s| - 1].0), l.lower(x.0)) {
      var init, last := s[..|s| - 1], s[|s| - 1];
      InsertKeepsDistinct(l, x, init);
      var q := InsertByKey(l, x, init);
      forall i | 0 <= i < |q|
        ensures q[i].0 != last.0
      {
        InsertedEntries(l, x, init, q[i]);
      }
    }
  }

  lemma {:induction false} SortKeepsDistinct(l: Lib, s: Entries)
    requires DistinctKeys(s)
    ensures DistinctKeys(DictSort(l, s))
    decreases |s|
  {
    if s != [] {
      var init, x := s[..|s| - 1], s[|s| - 1];
      SortKeepsDistinct(l, init);
      var q := DictSort(l, init);
      SortedSameEntries(l, init);
      forall i | 0 <= i < |q|
        ensures q[i].0 != x.0
      {
        assert q[i] in q;
      }
      InsertKeepsDistinct(l, x, q);
    }
  }

  lemma {:induction false} CanonIsGood(l: Lib, escape: bool, v: Value)
    requires Good(l, escape, v)
    ensures Good(l, escape, Canon(l, v))
  {
    match v
    case Arr(items) =>
      forall i | 0 <= i < |items|
        ensures Good(l, escape, Canon(l, v).items[i])
      {
        CanonIsGood(l, escape, items[i]);
      }
    case Obj(es) =>
      forall i | 0 <= i < |es|
        ensures Good(l, escape, Canon(l, es[i].1))
      {
        CanonIsGood(l, escape, es[i].1);
      }
      CanonObjectIsGood(l, escape, es);
    case _ =>
  }

  lemma CanonObjectIsGood(l: Lib, escape: bool, es: Entries)
    requires DistinctKeys(es) && forall i | 0 <= i < |es| :: GoodKey(escape, es[i].0) && Good(l, escape, Canon(l, es[i].1))
    ensures Good(l, escape, Obj(DictSort(l, CanonEntries(l, es))))
  {
    var c := CanonEntries(l, es);
    var r := DictSort(l, c);
    SortKeepsDistinct(l, c);
    hide DictSort, GoodKey;
    forall i | 0 <= i < |r|
      ensures GoodKey(escape, r[i].0) && Good(l, escape, r[i].1)
    {
      var j := EntryAt(l, c, i);
    }
  }

  // ------------------------------------------- what the parser can return

  /** A tree every leaf and key of which passes its test; with `distinct`, no object repeats a key. */
  ghost predicate Every(v: Value, distinct: bool, leaf: Value -> bool, key: string -> bool) {
    match v
    case Arr(items) => forall i | 0 <= i < |items| :: Every(items[i], distinct, leaf, key)
    case Obj(es) =>
      (distinct ==> DistinctKeys(es)) && forall i | 0 <= i < |es| :: key(es[i].0) && Every(es[i].1, distinct, leaf, key)
    case _ => leaf(v)
  }

  /** A bare word that stays a string. */
  predicate BareText(s: string) {
    s != [] && Trimmed(s) && !(QUOTE <= s) && forall i | 0 <= i < |s| :: s[i] !in ",}]"
  }

  predicate ReadableLeaf(v: Value) {
    (v.Int? ==> InI64(v.n)) && (v.Str? ==> !HasQuote(v.s) || BareText(v.s))
  }

  predicate ReadableKey(k: string) {
    !HasQuote(k) || GoodKey(false, k)
  }

  /** Strings and keys were quoted, hence free of the marker, or bare; integers fit. */
  ghost predicate Readable(v: Value) {
    Every(v, false, ReadableLeaf, ReadableKey)
  }

  lemma {:induction false} TrimEndIsPrefix(s: string)
    ensures TrimEnd(s) <= s
  {
    if s != [] && IsWs(s[|s| - 1]) {
      TrimEndIsPrefix(s[..|s| - 1]);
    }
  }

  lemma PrefixesChain(a: string, b: string, c: string)
    ensures a <= b && b <= c ==> a <= c
  {
    if a <= b && b <= c {
      assert forall i | 0 <= i < |a| :: a[i] == b[i] == c[i];
    }
  }

  /** What is trimmed out of the front of a text that does not start with space or the marker. */
  lemma TrimmedFront(t: string, i: nat)
    requires i <= |t| && SkipWs(t) == t && !(QUOTE <= t)
    ensures Trim(t[..i]) <= t[..i] && Trimmed(Trim(t[..i])) && !(QUOTE <= Trim(t[..i]))
  {
    var u := t[..i];
    FrontKeepsHead(t, i);
    TrimEndIsPrefix(u);
    TrimEndTrims(u);
    hide TrimEnd, SkipWs;
    PrefixesChain(QUOTE, TrimEnd(u), u);
    PrefixesChain(QUOTE, u, t);
  }

  lemma FrontKeepsHead(t: string, i: nat)
    requires i <= |t| && SkipWs(t) == t
    ensures SkipWs(t[..i]) == t[..i] && t[..i] <= t && (i > 0 ==> !IsWs(t[..i][0]))
  {
  }

  lemma QuotedHasNoQuote(s: string)
    requires QUOTE <= s && Quoted(s).Done?
    ensures !HasQuote(Quoted(s).value)
  {
    var body := s[|QUOTE|..];
    var i := FindQuote(body);
    var q := body[..i];
    var f := FindQuote(q);
    if f < |q| {
      assert q[f..][..5] == body[f..][..5];
      assert QuoteAt(body, f);
    }
  }

  lemma KeyIsReadable(t: string)
    requires SkipWs(t) == t && Key(t).Done?
    ensures ReadableKey(Key(t).value)
  {
    if QUOTE <= t {
      QuotedHasNoQuote(t);
    } else {
      TrimmedFront(t, FindAny(t, ":,{}"));
    }
  }

  lemma BareIsReadable(l: Lib, t: string)
    requires SkipWs(t) == t && !(QUOTE <= t) && Bare(l, t).Done?
    ensures Readable(Bare(l, t).value)
  {
    var i := FindAny(t, ",}]");
    TrimmedFront(t, i);
    assert BareText(Trim(t[..i]));
    IntsFit(Trim(t[..i]));
    hide FindAny, Trim, ParseInt;
  }

  lemma IntsFit(w: string)
    ensures ParseInt(w).Some? ==> InI64(ParseInt(w).value)
  {
  }

  lemma {:induction false} SkipWsTwice(s: string)
    ensures SkipWs(SkipWs(s)) == SkipWs(s)
  {
    if s != [] && IsWs(s[0]) {
      SkipWsTwice(s[1..]);
    }
  }

  /** Whatever the parser returns, on any text, is readable: no other tree can ever come back. */
  lemma {:induction false} ParsedIsReadable(l: Lib, s: string)
    ensures ParseValue(l, s).Done? ==> Readable(ParseValue(l, s).value)
    decreases |s|, 2
  {
    var t := SkipWs(s);
    SkipWsTwice(s);
    hide SkipWs, Key, Quoted, Bare, ReadableLeaf, ReadableKey;
    if QUOTE <= t {
      if Quoted(t).Done? {
        QuotedIsReadable(t);
      }
    } else if Starts(t, '{') {
      ObjectIsReadable(l, t);
    } else if Starts(t, '[') {
      var u := SkipWs(t[1..]);
      if !Starts(u, ']') {
        ItemsAreReadable(l, u, []);
      }
    } else if Bare(l, t).Done? {
      BareIsReadable(l, t);
    }
  }

  lemma QuotedIsReadable(t: string)
    requires QUOTE <= t && Quoted(t).Done?
    ensures Readable(Str(Quoted(t).value))
  {
    QuotedHasNoQuote(t);
  }

  lemma {:induction false} ItemsAreReadable(l: Lib, s: string, acc: seq<Value>)
    requires forall i | 0 <= i < |acc| :: Readable(acc[i])
    ensures ParseItems(l, s, acc).Done? ==> Readable(ParseItems(l, s, acc).value)
    decreases |s|, 3
  {
    ParsedIsReadable(l, s);
    hide SkipWs, ParseValue, ReadableLeaf, ReadableKey;
    var first := ParseValue(l, s);
    if first.Done? {
      var u := SkipWs(first.rest);
      if Starts(u, ',') {
        ItemsAreReadable(l, u[1..], acc + [first.value]);
      }
    }
  }

  lemma {:induction false} ObjectIsReadable(l: Lib, s: string)
    ensures ParseObject(l, s).Done? ==> Readable(ParseObject(l, s).value)
    decreases |s|, 1
  {
    hide SkipWs, ParseMembers, ReadableLeaf, ReadableKey;
    if Starts(s, '{') {
      var t := SkipWs(s[1..]);
      if !Starts(t, '}') {
        MembersAreReadable(l, t, []);
      }
    }
  }

  lemma InsertIsReadable(acc: Entries, k: string, v: Value)
    requires Readable(Obj(acc)) && ReadableKey(k) && Readable(v)
    ensures Readable(Obj(Insert(acc, k, v)))
  {
    hide ReadableLeaf, ReadableKey;
  }

  lemma {:induction false} MembersAreReadable(l: Lib, s: string, acc: Entries)
    requires Readable(Obj(acc))
    ensures ParseMembers(l, s, acc).Done? ==> Readable(ParseMembers(l, s, acc).value)
    decreases |s|, 3
  {
    var t := SkipWs(s);
    SkipWsTwice(s);
    hide SkipWs, Key, ParseValue, Readable, ReadableKey, Insert;
    var key := Key(t);
    if key.Done? {
      KeyIsReadable(t);
      var u := SkipWs(key.rest);
      if Starts(u, ':') {
        ParsedIsReadable(l, u[1..]);
        var val := ParseValue(l, u[1..]);
        if val.Done? {
          InsertIsReadable(acc, key.value, val.value);
          var w := SkipWs(val.rest);
          if Starts(w, ',') {
            MembersAreReadable(l, w[1..], Insert(acc, key.value, val.value));
          }
        }
      }
    }
  }

  /** Equal JSON values pass the same tests, repeated keys aside. */
  lemma {:induction false} SameKeepsEvery(a: Value, b: Value, leaf: Value -> bool, key: string -> bool)
    requires Same(a, b) && Every(b, false, leaf, key)
    ensures Every(a, false, leaf, key)
  {
    match a
    case Arr(items) =>
      forall i | 0 <= i < |items|
        ensures Every(items[i], false, leaf, key)
      {
        SameKeepsEvery(items[i], b.items[i], leaf, key);
      }
    case Obj(es) =>
      forall i | 0 <= i < |es|
        ensures key(es[i].0) && Every(es[i].1, false, leaf, key)
      {
        var j :| 0 <= j < |b.entries| && es[i].0 == b.entries[j].0 && Same(es[i].1, b.entries[j].1);
        SameKeepsEvery(es[i].1, b.entries[j].1, leaf, key);
      }
    case _ =>
  }

  lemma {:induction false} CanonKeepsEvery(l: Lib, v: Value, distinct: bool, leaf: Value -> bool, key: string -> bool)
    requires Every(v, distinct, leaf, key)
    ensures Every(Canon(l, v), distinct, leaf, key)
  {
    match v
    case Arr(items) =>
      forall i | 0 <= i < |items|
        ensures Every(Canon(l, v).items[i], distinct, leaf, key)
      {
        CanonKeepsEvery(l, items[i], distinct, leaf, key);
      }
    case Obj(es) =>
      forall i | 0 <= i < |es|
        ensures Every(Canon(l, es[i].1), distinct, leaf, key)
      {
        CanonKeepsEvery(l, es[i].1, distinct, leaf, key);
      }
      CanonObjectKeepsEvery(l, es, distinct, leaf, key);
    case _ =>
  }

  lemma CanonObjectKeepsEvery(l: Lib, es: Entries, distinct: bool, leaf: Value -> bool, key: string -> bool)
    requires distinct ==> DistinctKeys(es)
    requires forall i | 0 <= i < |es| :: key(es[i].0) && Every(Canon(l, es[i].1), distinct, leaf, key)
    ensures Every(Obj(DictSort(l, CanonEntries(l, es))), distinct, leaf, key)
  {
    var c := CanonEntries(l, es);
    var r := DictSort(l, c);
    if distinct {
      SortKeepsDistinct(l, c);
    }
    hide DictSort;
    forall i | 0 <= i < |r|
      ensures key(r[i].0) && Every(r[i].1, distinct, leaf, key)
    {
      var j := EntryAt(l, c, i);
    }
  }

  // ------------------------------------- where a bad string stops the parser

  predicate GoodLeaf(l: Lib, v: Value) {
    && (v.Int? ==> InI64(v.n)) && (v.Real? ==> GoodFloat(l, v.bits)) && (v.Str? ==> !HasQuote(v.s))
  }

  predicate FrameLeaf(l: Lib, v: Value) {
    v.Real? ==> GoodFloat(l, v.bits)
  }

  /** Keys that come back, and floats that do; nothing is asked of strings and integers. */
  ghost predicate Framed(l: Lib, v: Value) {
    Every(v, true, x => FrameLeaf(l, x), k => GoodKey(false, k))
  }

  ghost predicate LeavesComeBack(l: Lib, v: Value) {
    Every(v, false, x => GoodLeaf(l, x), k => GoodKey(false, k))
  }

  lemma {:induction false} GoodIff(l: Lib, v: Value)
    ensures Good(l, false, v) <==> Framed(l, v) && LeavesComeBack(l, v)
  {
    match v
    case Arr(items) =>
      forall i | 0 <= i < |items|
        ensures Good(l, false, items[i]) <==> Framed(l, items[i]) && LeavesComeBack(l, items[i])
      {
        GoodIff(l, items[i]);
      }
    case Obj(es) =>
      forall i | 0 <= i < |es|
        ensures Good(l, false, es[i].1) <==> Framed(l, es[i].1) && LeavesComeBack(l, es[i].1)
      {
        GoodIff(l, es[i].1);
      }
    case _ =>
  }

  /** The parse failed, or stands before something no list or object can go on with. */
  predicate Jams(r: Parsed<Value>) {
    r.Done? ==> var u := SkipWs(r.rest); u != [] && u[0] !in ",}]"
  }

  lemma {:induction false} SkipWsOfTail(a: string, b: string)
    requires (forall i | 0 <= i < |a| :: a[i] !in ",}]") && b != [] && b[0] == '<'
    ensures SkipWs(a + b) != [] && SkipWs(a + b)[0] !in ",}]"
    decreases |a|
  {
    if a == [] {
      assert a + b == b;
    } else {
      assert (a + b)[1..] == a[1..] + b;
      if IsWs(a[0]) {
        SkipWsOfTail(a[1..], b);
      }
    }
  }

  lemma TailOfCut(s: string, rest: string)
    requires HasQuote(s) && forall i | 0 <= i < |s| :: s[i] !in ",}]"
    ensures FindQuote(s) + |QUOTE| <= |s|
    ensures var u := SkipWs(s[FindQuote(s) + |QUOTE|..] + (QUOTE + rest)); u != [] && u[0] !in ",}]"
  {
    QuoteFits(s);
    hide FindQuote, SkipWs, HasQuote;
    var a, b := s[FindQuote(s) + |QUOTE|..], QUOTE + rest;
    assert forall k | 0 <= k < |a| :: a[k] == s[FindQuote(s) + |QUOTE| + k];
    SkipWsOfTail(a, b);
  }

  /** A string with the marker in it is cut there, and what follows is no punctuation. */
  lemma CutStringJams(l: Lib, s: string, rest: string)
    requires HasQuote(s) && forall i | 0 <= i < |s| :: s[i] !in ",}]"
    ensures Jams(ParseValue(l, QUOTE + s + QUOTE + rest))
  {
    QuoteIsFirst(s + QUOTE + rest);
    hide SkipWs, Quoted, FindQuote, HasQuote, ParseValue;
    TailOfCut(s, rest);
    CutString(s, rest);
    Reassociate(QUOTE, s, rest);
    StringFirst(l, QUOTE + s + QUOTE + rest);
  }

  lemma Reassociate(q: string, s: string, rest: string)
    ensures q + s + q + rest == q + (s + q + rest)
  {
  }

  lemma QuoteIsFirst(more: string)
    ensures SkipWs(QUOTE + more) == QUOTE + more && QUOTE <= QUOTE + more
  {
  }

  lemma StringFirst(l: Lib, t: string)
    requires SkipWs(t) == t && QUOTE <= t && Quoted(t).Done?
    ensures ParseValue(l, t) == Done(Str(Quoted(t).value), Quoted(t).rest)
  {
    hide SkipWs, Quoted;
  }

  lemma CutString(s: string, rest: string)
    requires HasQuote(s)
    ensures FindQuote(s) + |QUOTE| <= |s|
    ensures Quoted(QUOTE + s + QUOTE + rest) == Done(s[..FindQuote(s)], s[FindQuote(s) + |QUOTE|..] + (QUOTE + rest))
  {
    QuoteFits(s);
    FindClosingQuote(s, rest);
    Unwrapped(QUOTE, s, rest, FindQuote(s));
    QuotedUpTo(QUOTE + s + QUOTE + rest);
    hide FindQuote, Quoted, HasQuote;
  }

  lemma QuoteFits(s: string)
    requires HasQuote(s)
    ensures FindQuote(s) + |QUOTE| <= |s|
  {
    assert QUOTE <= s[FindQuote(s)..];
  }

  lemma QuotedUpTo(t: string)
    requires QUOTE <= t && HasQuote(t[|QUOTE|..])
    ensures var body := t[|QUOTE|..];
            FindQuote(body) + |QUOTE| <= |body| && Quoted(t) == Done(body[..FindQuote(body)], body[FindQuote(body) + |QUOTE|..])
  {
  }

  /** Slices of `q s q rest`. */
  lemma Unwrapped(q: string, s: string, rest: string, i: nat)
    requires i + |q| <= |s|
    ensures q <= q + s + q + rest
    ensures var body := (q + s + q + rest)[|q|..];
            body == s + q + rest && body[..i] == s[..i] && body[i + |q|..] == s[i + |q|..] + (q + rest)
  {
    var body := (q + s + q + rest)[|q|..];
    assert body == s + q + rest;
    assert body == s + (q + rest);
    Dropped(s, q + rest, i);
    Dropped(s, q + rest, i + |q|);
  }

  lemma Dropped(a: string, b: string, n: nat)
    requires n <= |a|
    ensures (a + b)[..n] == a[..n] && (a + b)[n..] == a[n..] + b
  {
  }

  lemma {:induction false} StuckPrinted(l: Lib, v: Value, rest: string)
    requires Framed(l, v) && Readable(v) && !Good(l, false, v) && Follows(rest)
    ensures Jams(ParseValue(l, Print(l, false, v) + rest))
    decreases v, 1
  {
    match v
    case Str(s) => CutStringJams(l, s, rest);
    case Arr(items) => StuckArray(l, v, rest);
    case Obj(es) => StuckObject(l, v, rest);
    case _ =>
  }

  lemma {:induction false} StuckArray(l: Lib, v: Value, rest: string)
    requires Framed(l, v) && Readable(v) && !Good(l, false, v) && v.Arr?
    ensures ParseValue(l, Print(l, false, v) + rest).Failed?
    decreases v, 0
  {
    var items, p := v.items, PrintItems(l, false, v.items);
    var t := Print(l, false, v) + rest;
    assert t == "[" + (p + "]" + rest) && t[1..] == p + "]" + rest;
    var bad :| 0 <= bad < |items| && !Good(l, false, items[bad]);
    assert Framed(l, items[0]);
    ItemsHead(l, false, v, rest);
    StuckItems(l, v, 0, bad, rest);
    hide Good, Print, Framed, Readable;
    assert items[0..] == items && items[..0] == [];
  }

  lemma JammedItem(l: Lib, s: string, acc: seq<Value>)
    requires Jams(ParseValue(l, s))
    ensures ParseItems(l, s, acc).Failed?
  {
    hide ParseValue, SkipWs;
  }

  lemma {:induction false} StuckItems(l: Lib, v: Value, i: nat, bad: nat, rest: string)
    requires Framed(l, v) && Readable(v) && v.Arr? && i <= bad < |v.items| && !Good(l, false, v.items[bad])
    ensures ParseItems(l, PrintItems(l, false, v.items[i..]) + "]" + rest, v.items[..i]).Failed?
    decreases v, 0, |v.items| - i
  {
    var items, x, acc := v.items, v.items[i], v.items[..i];
    assert Framed(l, x) && Readable(x);
    hide Good, Print, ParseValue, ParseItems, Framed, Readable;
    var s, after := PrintItems(l, false, items[i..]) + "]" + rest, AfterItem(l, items, i, rest);
    SplitItem(l, items, i, rest);
    if !Good(l, false, x) {
      StuckPrinted(l, x, after);
      JammedItem(l, s, acc);
    } else {
      PrintedBack(l, false, x, after);
      ItemStep(l, s, acc, x, PrintItems(l, false, items[i + 1..]) + "]" + rest);
      assert acc + [x] == items[..i + 1];
      StuckItems(l, v, i + 1, bad, rest);
    }
  }

  /** The text after the item at `i`. */
  function AfterItem(l: Lib, items: seq<Value>, i: nat, rest: string): (r: string)
    requires i < |items|
    ensures Follows(r)
  {
    if i + 1 == |items| then "]" + rest else "," + (PrintItems(l, false, items[i + 1..]) + "]" + rest)
  }

  lemma SplitItem(l: Lib, items: seq<Value>, i: nat, rest: string)
    requires i < |items|
    ensures PrintItems(l, false, items[i..]) + "]" + rest == Print(l, false, items[i]) + AfterItem(l, items, i, rest)
  {
    hide Print;
    assert items[i..][0] == items[i];
    if i + 1 == |items| {
      assert items[i..] == [items[i]];
    } else {
      assert items[i..][1..] == items[i + 1..];
    }
  }

  lemma {:induction false} StuckObject(l: Lib, v: Value, rest: string)
    requires Framed(l, v) && Readable(v) && !Good(l, false, v) && v.Obj?
    ensures ParseObject(l, Print(l, false, v) + rest).Failed?
    ensures ParseValue(l, Print(l, false, v) + rest).Failed?
    decreases v, 0
  {
    var es, p := v.entries, PrintMembers(l, false, v.entries);
    var t := Print(l, false, v) + rest;
    assert t == "{" + (p + "}" + rest) && t[1..] == p + "}" + rest;
    var bad :| 0 <= bad < |es| && !Good(l, false, es[bad].1);
    MembersHead(l, false, v, rest);
    StuckMembers(l, v, 0, bad, rest);
    hide Good, Print, Framed, Readable;
    assert SkipWs(t) == t && !(QUOTE <= t);
    assert es[0..] == es && es[..0] == [];
  }

  /** An entry whose value jams stops the object. */
  lemma JammedMember(l: Lib, e: (string, Value), after: string, acc: Entries)
    requires GoodKey(false, e.0) && Jams(ParseValue(l, Print(l, false, e.1) + after))
    ensures ParseMembers(l, PrintMember(l, false, e) + after, acc).Failed?
  {
    var p := Print(l, false, e.1) + after;
    assert PrintMember(l, false, e) + after == PrintKey(false, e.0) + ":" + p;
    KeyRoundTripIff(false, e.0, p);
    assert (":" + p)[1..] == p;
    SkipPunctuation(p);
    hide ParseValue, SkipWs, Print, Key, Insert, GoodKey;
  }

  /** A good entry with more behind it is read, and the parser goes on. */
  lemma GoOn(l: Lib, es: Entries, i: nat, rest: string)
    requires i + 1 < |es| && DistinctKeys(es) && GoodKey(false, es[i].0) && Good(l, false, es[i].1)
    ensures ParseMembers(l, PrintMembers(l, false, es[i..]) + "}" + rest, es[..i]) ==
            ParseMembers(l, PrintMembers(l, false, es[i + 1..]) + "}" + rest, es[..i + 1])
  {
    hide Good, GoodKey, Print, PrintMembers, ParseValue, ParseMembers, PrintMember, Insert, ReadsMember, DistinctKeys;
    InsertNew(es, i);
    SplitMember(l, false, es, i, rest);
    var after := AfterMember(l, false, es, i, rest);
    PrintedBack(l, false, es[i].1, after);
    MemberBack(l, false, es[i], after);
    MemberStep(l, PrintMembers(l, false, es[i..]) + "}" + rest, es[..i], es[i], PrintMembers(l, false, es[i + 1..]) + "}" + rest);
  }

  lemma {:induction false} StuckMembers(l: Lib, v: Value, i: nat, bad: nat, rest: string)
    requires Framed(l, v) && Readable(v) && v.Obj? && i <= bad < |v.entries| && !Good(l, false, v.entries[bad].1)
    ensures ParseMembers(l, PrintMembers(l, false, v.entries[i..]) + "}" + rest, v.entries[..i]).Failed?
    decreases v, 0, |v.entries| - i
  {
    var es, e := v.entries, v.entries[i];
    assert Framed(l, e.1) && Readable(e.1) && GoodKey(false, e.0) && DistinctKeys(es);
    hide Good, GoodKey, Print, PrintMembers, ParseValue, ParseMembers, PrintMember, Insert, ReadsMember, DistinctKeys, Framed, Readable;
    SplitMember(l, false, es, i, rest);
    var after := AfterMember(l, false, es, i, rest);
    if !Good(l, false, e.1) {
      StuckPrinted(l, e.1, after);
      JammedMember(l, e, after, es[..i]);
    } else {
      GoOn(l, es, i, rest);
      StuckMembers(l, v, i + 1, bad, rest);
    }
  }

  // ------------------------------------------------------------ whole calls

  /** The text between the call markers: arguments that are no object are inserted verbatim if a string, else dropped. */
  function CallText(l: Lib, name: string, args: Value): string {
    "call:" + name +
    match args
    case Obj(_) => Print(l, false, Canon(l, args))
    case Str(raw) => "{" + raw + "}"
    case _ => "{}"
  }

  /** The tool-call part of `render_prompt`. */
  method RenderToolCall(l: Lib, name: string, args: Value, out0: string) returns (out: string)
    ensures out == out0 + "<|tool_call>" + CallText(l, name, args) + "<tool_call|>"
  {
    out := out0 + "<|tool_call>call:";
    out := out + name;
    match args {
      case Obj(es) => out := FormatObject(l, args, false, out);
      case Str(raw) => out := out + "{"; out := out + raw; out := out + "}";
      case _ => out := out + "{"; out := out + "}";
    }
    out := out + "<tool_call|>";
  }

  predicate GoodName(name: string) {
    name != [] && Trimmed(name) && '{' !in name
  }

  /** What `TryParse` makes of a name followed by arguments. */
  lemma NameBack(l: Lib, name: string, body: string)
    requires Starts(body, '{') && '{' !in name
    ensures TryParse(l, "call:" + name + body) ==
      if Trim(name) == [] then NoCall(EmptyName)
      else match ParseObject(l, body)
           case Failed(e) => NoCall(e)
           case Done(args, after) => if SkipWs(after) == [] then Call(Trim(name), args) else NoCall(TrailingInput)
  {
    var raw := "call:" + name + body;
    hide ParseObject, Trim, SkipWs;
    assert raw[..5] == "call:" && raw[5..] == name + body;
    FindAnyPast(name, body, "{");
    assert (name + body)[..|name|] == name && (name + body)[|name|..] == body;
  }

  lemma {:induction false} TrimShortens(s: string, i: nat)
    requires i <= |s|
    ensures |Trim(s[..i])| <= i
  {
  }

  lemma NameIsCut(l: Lib, name: string, body: string)
    requires '{' in name
    ensures TryParse(l, "call:" + name + body).Call? ==> TryParse(l, "call:" + name + body).name != name
  {
    var raw := "call:" + name + body;
    hide ParseObject, Trim, SkipWs;
    assert raw[5..] == name + body;
    var i :| 0 <= i < |name| && name[i] == '{';
    FindAnyStops(name, body, "{", i);
    TrimShortens(raw[5..], FindAny(raw[5..], "{"));
  }

  /** Arguments that no text parses to do not come back. */
  lemma UnreadableIsLost(l: Lib, raw: string, args: Value)
    requires !Readable(args)
    ensures TryParse(l, raw).Call? ==> !Same(args, TryParse(l, raw).args)
  {
    var r := TryParse(l, raw);
    if r.Call? && Same(args, r.args) {
      hide ParseObject, FindAny, Trim, SkipWs;
      var rest := raw[5..];
      ObjectIsReadable(l, rest[FindAny(rest, "{")..]);
      SameKeepsEvery(args, r.args, ReadableLeaf, ReadableKey);
    }
  }

  /** Printed arguments that are not good as a whole fail to parse, or cannot be what the parser returns. */
  lemma BadArgumentsAreLost(l: Lib, name: string, args: Value)
    requires args.Obj? && Framed(l, args) && !Good(l, false, args) && '{' !in name
    ensures var r := TryParse(l, CallText(l, name, args)); r.Call? ==> !Same(args, r.args)
  {
    if Readable(args) {
      var c := Canon(l, args);
      var body := Print(l, false, c);
      CanonKeepsEvery(l, args, false, ReadableLeaf, ReadableKey);
      CanonKeepsEvery(l, args, true, x => FrameLeaf(l, x), k => GoodKey(false, k));
      assert !Good(l, false, c) by {
        if Good(l, false, c) {
          GoodIff(l, c);
          CanonIsSame(l, args);
          SameKeepsEvery(args, c, x => GoodLeaf(l, x), k => GoodKey(false, k));
          GoodIff(l, args);
        }
      }
      StuckObject(l, c, "");
      assert body + "" == body && Starts(body, '{');
      hide Good, Canon, Print, ParseObject, TryParse, Same, Framed, Readable;
      NameBack(l, name, body);
    } else {
      UnreadableIsLost(l, CallText(l, name, args), args);
    }
  }

  /**
    Rendering a call and parsing it returns the same name and, up to the order of object entries, the same
    arguments, exactly when the name is trimmed, non-empty and free of braces, every integer fits 64 bits and no
    string contains the quote marker; the arguments come back in `dictsort` order.
   */
  lemma CallRoundTripIff(l: Lib, name: string, args: Value)
    requires args.Obj? && Framed(l, args)
    ensures var r := TryParse(l, CallText(l, name, args));
            && (GoodName(name) && Good(l, false, args) ==> r == Call(name, Canon(l, args)))
            && ((r.Call? && r.name == name && Same(args, r.args)) <==> GoodName(name) && LeavesComeBack(l, args))
  {
    GoodIff(l, args);
    CanonIsSame(l, args);
    var c := Canon(l, args);
    var body := Print(l, false, c);
    if Good(l, false, args) {
      CanonIsGood(l, false, args);
      ObjectBack(l, false, c, "");
    }
    assert body + "" == body && Starts(body, '{');
    TrimIsIdentityIff(name);
    hide Good, Canon, Print, ParseObject, TryParse, Same, Framed, LeavesComeBack;
    if '{' in name {
      NameIsCut(l, name, body);
    } else if Good(l, false, args) {
      NameBack(l, name, body);
    } else {
      BadArgumentsAreLost(l, name, args);
    }
  }

  /** Pre-serialised or missing arguments: anything that is neither object nor string parses as the empty object. */
  lemma OtherArgumentsAreDropped(l: Lib, name: string, args: Value)
    requires GoodName(name) && !args.Obj? && !args.Str?
    ensures TryParse(l, CallText(l, name, args)) == Call(name, Obj([]))
  {
    TrimIsIdentityIff(name);
    NameBack(l, name, "{}");
    assert "{}"[1..] == "}" && "}"[1..] == "";
  }
}
