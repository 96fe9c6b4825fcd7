/**
  The recursive-descent parser for tool-call arguments. Each function reads from
  the front of the remaining input and returns what is left; the class is the
  same parser with a position it advances.
 */
module ToolCalls {
  import opened Values

  datatype ParseError =
    | ExpectedBrace | UnterminatedKey | EmptyKey | ExpectedColon | ExpectedCommaOrBrace
    | ExpectedCommaOrBracket | EmptyValue | UnterminatedString
    | MissingPrefix | MissingBrace | EmptyName | TrailingInput

  datatype Parsed<+T> = Done(value: T, rest: string) | Failed(error: ParseError)

  // ------------------------------------------------------------ scanning

  /** `char::is_whitespace`: the Unicode White_Space property. */
  predicate IsWs(c: char) {
    var v := c as int;
    || 9 <= v <= 13 || v == 0x20 || v == 0x85 || v == 0xA0 || v == 0x1680 || 0x2000 <= v <= 0x200A
    || v == 0x2028 || v == 0x2029 || v == 0x202F || v == 0x205F || v == 0x3000
  }

  /** The 25 code points of that property. */
  lemma WhitespaceIs(c: char)
    ensures IsWs(c) <==> c as int in {
      0x09, 0x0A, 0x0B, 0x0C, 0x0D, 0x20, 0x85, 0xA0, 0x1680, 0x2000, 0x2001, 0x2002, 0x2003, 0x2004, 0x2005,
      0x2006, 0x2007, 0x2008, 0x2009, 0x200A, 0x2028, 0x2029, 0x202F, 0x205F, 0x3000}
  {
  }

  predicate AllWs(s: string) {
    forall i | 0 <= i < |s| :: IsWs(s[i])
  }

  /** `trim_start`. */
  function SkipWs(s: string): (r: string)
    ensures |r| <= |s|
    ensures r != [] ==> !IsWs(r[0])
  {
    if s != [] && IsWs(s[0]) then SkipWs(s[1..]) else s
  }

  function TrimEnd(s: string): (r: string)
    ensures |r| <= |s|
  {
    if s != [] && IsWs(s[|s| - 1]) then TrimEnd(s[..|s| - 1]) else s
  }

  function Trim(s: string): (r: string)
    ensures |r| <= |s|
  {
    TrimEnd(SkipWs(s))
  }

  predicate Trimmed(s: string) {
    s != [] ==> !IsWs(s[0]) && !IsWs(s[|s| - 1])
  }

  /** Trimming takes away all the white space at both ends, and nothing else. */
  lemma TrimIs(s: string) returns (before: string, after: string)
    ensures s == before + Trim(s) + after && (forall c | c in before + after :: IsWs(c))
    ensures Trim(s) != [] ==> !IsWs(Trim(s)[0]) && !IsWs(Trim(s)[|Trim(s)| - 1])
  {
    before := SkipIs(s);
    after := TrimEndIs(SkipWs(s));
    assert s == before + (Trim(s) + after);
    assert Trim(s) != [] ==> SkipWs(s)[0] == Trim(s)[0];
  }

  lemma {:induction false} SkipIs(s: string) returns (before: string)
    ensures s == before + SkipWs(s) && AllWs(before)
  {
    before := [];
    if s != [] && IsWs(s[0]) {
      before := SkipIs(s[1..]);
      before := [s[0]] + before;
    }
  }

  lemma {:induction false} TrimEndIs(s: string) returns (after: string)
    ensures s == TrimEnd(s) + after && AllWs(after) && (TrimEnd(s) != [] ==> !IsWs(TrimEnd(s)[|TrimEnd(s)| - 1]))
  {
    after := [];
    if s != [] && IsWs(s[|s| - 1]) {
      var init := s[..|s| - 1];
      after := TrimEndIs(init);
      assert s == init + [s[|s| - 1]];
      after := after + [s[|s| - 1]];
    }
  }

  predicate Starts(s: string, c: char) {
    s != [] && s[0] == c
  }

  /** Index of the first character in `stops`, or the length. */
  function FindAny(s: string, stops: string): (i: nat)
    ensures i <= |s| && (i < |s| ==> s[i] in stops)
    ensures forall k | 0 <= k < i :: s[k] !in stops
  {
    if s == [] || s[0] in stops then 0 else 1 + FindAny(s[1..], stops)
  }

  /** Index of the first quote marker, or the length. */
  function FindQuote(s: string): (i: nat)
    ensures i <= |s| && (i < |s| ==> QUOTE <= s[i..])
    ensures forall k: nat | k < i :: !QuoteAt(s, k)
  {
    if s == [] || QUOTE <= s then 0 else
      var i := 1 + FindQuote(s[1..]);
      assert forall k: nat | 0 < k < i :: QuoteAt(s, k) == QuoteAt(s[1..], k - 1);
      i
  }

  predicate QuoteAt(s: string, k: nat) {
    k <= |s| && QUOTE <= s[k..]
  }

  predicate HasQuote(s: string) {
    FindQuote(s) < |s|
  }

  // ------------------------------------------------------- the grammar

  /** `quoted`: up to the next marker. */
  function Quoted(s: string): (r: Parsed<string>)
    requires QUOTE <= s
    ensures r.Done? ==> |r.rest| < |s|
  {
    var body := s[|QUOTE|..];
    var i := FindQuote(body);
    if i == |body| then Failed(UnterminatedString)
    else Done(body[..i], body[i + |QUOTE|..])
  }

  /** `key`: quoted, or bare up to a structural character. */
  function Key(s: string): (r: Parsed<string>)
    ensures r.Done? ==> |r.rest| < |s|
  {
    if QUOTE <= s then Quoted(s)
    else
      var i := FindAny(s, ":,{}");
      if i == |s| then Failed(UnterminatedKey)
      else if Trim(s[..i]) == [] then Failed(EmptyKey)
      else Done(Trim(s[..i]), s[i..])
  }

  /** A bare word: keyword, integer, float, or failing those a string. */
  function Scalar(l: Lib, w: string): Value
  {
    if w == "true" then Bool(true)
    else if w == "false" then Bool(false)
    else if w == "None" || w == "null" then Null
    else if ParseInt(w).Some? then Int(ParseInt(w).value)
    else if l.read(w).Some? then Real(l.read(w).value)
    else Str(w)
  }

  function Bare(l: Lib, s: string): (r: Parsed<Value>)
    ensures r.Done? ==> |r.rest| < |s|
  {
    var i := FindAny(s, ",}]");
    var w := Trim(s[..i]);
    if w == [] then Failed(EmptyValue) else Done(Scalar(l, w), s[i..])
  }

  function KeyIndex(es: Entries, k: string): (i: nat)
    ensures i <= |es| && (i < |es| ==> es[i].0 == k)
    ensures forall j | 0 <= j < i :: es[j].0 != k
  {
    if es == [] || es[0].0 == k then 0 else 1 + KeyIndex(es[1..], k)
  }

  /** Insertion into an order-keeping map: a repeated key keeps its place and takes the new value. */
  function Insert(es: Entries, k: string, v: Value): (r: Entries)
    ensures DistinctKeys(es) ==> DistinctKeys(r)
  {
    var i := KeyIndex(es, k);
    if i < |es| then es[i := (k, v)] else es + [(k, v)]
  }

  /** What an object says of a key. */
  function Lookup(es: Entries, k: string): Option<Value> {
    if exists i | 0 <= i < |es| :: es[i].0 == k then Some(es[KeyIndex(es, k)].1) else None
  }

  /** After an entry is read, its key has the new value, every other key what it had, and no key has moved. */
  lemma InsertIs(es: Entries, k: string, v: Value, other: string)
    ensures Lookup(Insert(es, k, v), k) == Some(v)
    ensures other != k ==> Lookup(Insert(es, k, v), other) == Lookup(es, other)
    ensures |es| <= |Insert(es, k, v)| <= |es| + 1 && (|Insert(es, k, v)| == |es| <==> Lookup(es, k) != None)
    ensures forall i | 0 <= i < |es| :: Insert(es, k, v)[i].0 == es[i].0
  {
    var r, i := Insert(es, k, v), KeyIndex(es, k);
    assert r[if i < |es| then i else |es|] == (k, v);
    assert KeyIndex(r, k) == if i < |es| then i else |es|;
    if other != k {
      var j := KeyIndex(es, other);
      if j < |es| {
        assert r[j] == es[j];
        assert KeyIndex(r, other) == j;
      } else {
        assert forall m | 0 <= m < |r| :: r[m].0 != other;
      }
    }
  }

  /** `value`. */
  function ParseValue(l: Lib, s: string): (r: Parsed<Value>)
    ensures r.Done? ==> |r.rest| < |s|
    decreases |s|, 2
  {
    var t := SkipWs(s);
    if QUOTE <= t then
      match Quoted(t)
      case Done(q, rest) => Done(Str(q), rest)
      case Failed(e) => Failed(e)
    else if Starts(t, '{') then ParseObject(l, t)
    else if Starts(t, '[') then
      var u := SkipWs(t[1..]);
      if Starts(u, ']') then Done(Arr([]), u[1..]) else ParseItems(l, u, [])
    else Bare(l, t)
  }

  function ParseItems(l: Lib, s: string, acc: seq<Value>): (r: Parsed<Value>)
    ensures r.Done? ==> |r.rest| < |s|
    decreases |s|, 3
  {
    match ParseValue(l, s)
    case Failed(e) => Failed(e)
    case Done(v, rest) =>
      var u := SkipWs(rest);
      if Starts(u, ',') then ParseItems(l, u[1..], acc + [v])
      else if Starts(u, ']') then Done(Arr(acc + [v]), u[1..])
      else Failed(ExpectedCommaOrBracket)
  }

  /** `object`. */
  function ParseObject(l: Lib, s: string): (r: Parsed<Value>)
    ensures r.Done? ==> |r.rest| < |s|
    decreases |s|, 1
  {
    if !Starts(s, '{') then Failed(ExpectedBrace)
    else
      var t := SkipWs(s[1..]);
      if Starts(t, '}') then Done(Obj([]), t[1..]) else ParseMembers(l, t, [])
  }

  function ParseMembers(l: Lib, s: string, acc: Entries): (r: Parsed<Value>)
    ensures r.Done? ==> |r.rest| < |s|
    decreases |s|, 3
  {
    var t := SkipWs(s);
    match Key(t)
    case Failed(e) => Failed(e)
    case Done(k, rest) =>
      var u := SkipWs(rest);
      if !Starts(u, ':') then Failed(ExpectedColon)
      else
        match ParseValue(l, u[1..])
        case Failed(e) => Failed(e)
        case Done(v, rest2) =>
          var w := SkipWs(rest2);
          if Starts(w, ',') then ParseMembers(l, w[1..], Insert(acc, k, v))
          else if Starts(w, '}') then Done(Obj(Insert(acc, k, v)), w[1..])
          else Failed(ExpectedCommaOrBrace)
  }

  datatype Call = Call(name: string, args: Value) | NoCall(error: ParseError)

  /** `try_parse_tool_call`. */
  function TryParse(l: Lib, raw: string): Call {
    if !("call:" <= raw) then NoCall(MissingPrefix)
    else
      var rest := raw[5..];
      var brace := FindAny(rest, "{");
      if brace == |rest| then NoCall(MissingBrace)
      else
        var name := Trim(rest[..brace]);
        if name == [] then NoCall(EmptyName)
        else
          match ParseObject(l, rest[brace..])
          case Failed(e) => NoCall(e)
          case Done(args, after) => if SkipWs(after) == [] then Call(name, args) else NoCall(TrailingInput)
  }

  // ---------------------------------------------------------- the class

  datatype Outcome<+T> = Ok(value: T) | Err(error: ParseError)

  function OutcomeOf<T>(p: Parsed<T>): Outcome<T> {
    match p
    case Done(v, _) => Ok(v)
    case Failed(e) => Err(e)
  }

  lemma {:induction false} SkipWsIsSuffix(s: string)
    ensures SkipWs(s) == s[|s| - |SkipWs(s)|..]
  {
    if s != [] && IsWs(s[0]) {
      SkipWsIsSuffix(s[1..]);
    }
  }

  class ArgParser {
    const input: string
    var pos: nat

    predicate Valid()
      reads this
    {
      pos <= |input|
    }

    function Rest(): string
      requires Valid()
      reads this
    {
      input[pos..]
    }

    constructor (text: string)
      ensures Valid() && Rest() == text && fresh(this)
    {
      input, pos := text, 0;
    }

    method SkipSpace()
      requires Valid()
      modifies this
      ensures Valid() && Rest() == SkipWs(old(Rest())) && pos >= old(pos)
    {
      SkipWsIsSuffix(Rest());
      pos := pos + (|Rest()| - |SkipWs(Rest())|);
    }

    method Eat(c: char) returns (ok: bool)
      requires Valid()
      modifies this
      ensures Valid() && ok == Starts(old(Rest()), c) && pos >= old(pos)
      ensures Rest() == if ok then old(Rest())[1..] else old(Rest())
      ensures ok ==> pos > old(pos)
    {
      ok := pos < |input| && input[pos] == c;
      if ok {
        pos := pos + 1;
      }
    }

    method TakeQuoted() returns (r: Outcome<string>)
      requires Valid() && QUOTE <= Rest()
      modifies this
      ensures Valid() && r == OutcomeOf(Quoted(old(Rest())))
      ensures r.Ok? ==> Rest() == Quoted(old(Rest())).rest && pos > old(pos)
    {
      pos := pos + 5;
      var end := FindQuote(Rest());
      if end == |Rest()| {
        return Err(UnterminatedString);
      }
      r := Ok(Rest()[..end]);
      pos := pos + end + 5;
    }

    method TakeKey() returns (r: Outcome<string>)
      requires Valid()
      modifies this
      ensures Valid() && r == OutcomeOf(Key(old(Rest())))
      ensures r.Ok? ==> Rest() == Key(old(Rest())).rest && pos > old(pos)
    {
      if "<|\"|>" <= Rest() {
        r := TakeQuoted();
        return;
      }
      var end := FindAny(Rest(), ":,{}");
      if end == |Rest()| {
        return Err(UnterminatedKey);
      }
      var key := Trim(Rest()[..end]);
      if key == [] {
        return Err(EmptyKey);
      }
      pos := pos + end;
      r := Ok(key);
    }

    method TakeBare(l: Lib) returns (r: Outcome<Value>)
      requires Valid()
      modifies this
      ensures Valid() && r == OutcomeOf(Bare(l, old(Rest())))
      ensures r.Ok? ==> Rest() == Bare(l, old(Rest())).rest && pos > old(pos)
    {
      var end := FindAny(Rest(), ",}]");
      var word := Trim(Rest()[..end]);
      pos := pos + end;
      if word == "" {
        return Err(EmptyValue);
      } else if word == "true" {
        return Ok(Bool(true));
      } else if word == "false" {
        return Ok(Bool(false));
      } else if word == "None" || word == "null" {
        return Ok(Null);
      }
      var n, x := ParseInt(word), l.read(word);
      r := Ok(if n.Some? then Int(n.value) else if x.Some? then Real(x.value) else Str(word));
    }

    /** `value`. */
    method TakeValue(l: Lib) returns (r: Outcome<Value>)
      requires Valid()
      modifies this
      ensures Valid() && r == OutcomeOf(ParseValue(l, old(Rest())))
      ensures r.Ok? ==> Rest() == ParseValue(l, old(Rest())).rest && pos > old(pos)
      decreases |input| - pos, 2
    {
      SkipSpace();
      if "<|\"|>" <= Rest() {
        var q := TakeQuoted();
        return if q.Ok? then Ok(Str(q.value)) else Err(q.error);
      }
      if pos < |input| && input[pos] == '{' {
        r := TakeObject(l);
        return;
      }
      var open := Eat('[');
      if open {
        SkipSpace();
        var shut := Eat(']');
        if shut {
          return Ok(Arr([]));
        }
        r := TakeItems(l);
        return;
      }
      r := TakeBare(l);
    }

    /** The loop of `value` over array items. */
    method TakeItems(l: Lib) returns (r: Outcome<Value>)
      requires Valid()
      modifies this
      ensures Valid() && r == OutcomeOf(ParseItems(l, old(Rest()), []))
      ensures r.Ok? ==> Rest() == ParseItems(l, old(Rest()), []).rest && pos > old(pos)
      decreases |input| - pos, 3
    {
      hide ParseValue;
      var items := [];
      while true
        invariant Valid() && pos >= old(pos)
        invariant ParseItems(l, old(Rest()), []) == ParseItems(l, Rest(), items)
        decreases |input| - pos
      {
        var v := TakeValue(l);
        if v.Err? {
          return Err(v.error);
        }
        SkipSpace();
        items := items + [v.value];
        var comma := Eat(',');
        if comma {
          continue;
        }
        var shut := Eat(']');
        return if shut then Ok(Arr(items)) else Err(ExpectedCommaOrBracket);
      }
    }

    /** `object`. */
    method TakeObject(l: Lib) returns (r: Outcome<Value>)
      requires Valid()
      modifies this
      ensures Valid() && r == OutcomeOf(ParseObject(l, old(Rest())))
      ensures r.Ok? ==> Rest() == ParseObject(l, old(Rest())).rest && pos > old(pos)
      decreases |input| - pos, 1
    {
      hide ParseMembers;
      var open := Eat('{');
      if !open {
        return Err(ExpectedBrace);
      }
      SkipSpace();
      var shut := Eat('}');
      if shut {
        return Ok(Obj([]));
      }
      r := TakeMembers(l);
    }

    /** The loop of `object` over its entries. */
    method TakeMembers(l: Lib) returns (r: Outcome<Value>)
      requires Valid()
      modifies this
      ensures Valid() && r == OutcomeOf(ParseMembers(l, old(Rest()), []))
      ensures r.Ok? ==> Rest() == ParseMembers(l, old(Rest()), []).rest && pos > old(pos)
      decreases |input| - pos, 3
    {
      hide ParseValue, Key;
      var entries: Entries := [];
      while true
        invariant Valid() && pos >= old(pos)
        invariant ParseMembers(l, old(Rest()), []) == ParseMembers(l, Rest(), entries)
        decreases |input| - pos
      {
        SkipSpace();
        var key := TakeKey();
        if key.Err? {
          return Err(key.error);
        }
        SkipSpace();
        var colon := Eat(':');
        if !colon {
          return Err(ExpectedColon);
        }
        var v := TakeValue(l);
        if v.Err? {
          return Err(v.error);
        }
        ghost var before := entries;
        var at := KeyIndex(entries, key.value);
        entries := if at < |entries| then entries[at := (key.value, v.value)] else entries + [(key.value, v.value)];
        assert entries == Insert(before, key.value, v.value);
        SkipSpace();
        var comma := Eat(',');
        if comma {
          continue;
        }
        var shut := Eat('}');
        return if shut then Ok(Obj(entries)) else Err(ExpectedCommaOrBrace);
      }
    }
  }

  /** `try_parse_tool_call`, running the parser from the first brace. */
  method TryParseToolCall(l: Lib, raw: string) returns (r: Call)
    ensures r == TryParse(l, raw)
  {
    hide ParseObject;
    if !("call:" <= raw) {
      return NoCall(MissingPrefix);
    }
    var rest := raw[5..];
    var brace := FindAny(rest, "{");
    if brace == |rest| {
      return NoCall(MissingBrace);
    }
    var name := Trim(rest[..brace]);
    if name == [] {
      return NoCall(EmptyName);
    }
    var p := new ArgParser(rest[brace..]);
    var args := p.TakeObject(l);
    if args.Err? {
      return NoCall(args.error);
    }
    p.SkipSpace();
    r := if p.Rest() == [] then Call(name, args.value) else NoCall(TrailingInput);
  }
}
