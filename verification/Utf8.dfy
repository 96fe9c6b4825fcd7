/**
  UTF-8 as the standard library decodes it: section 4 of RFC 3629 for which byte
  sequences are characters, and one U+FFFD per maximal subpart of anything else.
 */
module Utf8 {

  type byte = b: int | 0 <= b < 256

  const REPLACEMENT: char := 0xFFFD as char

  /** The encoding of one scalar value. */
  function Encode(c: char): (bs: seq<byte>)
    ensures 1 <= |bs| <= 4
  {
    var v := c as int;
    if v < 0x80 then [v]
    else if v < 0x800 then [0xC0 + v / 64, 0x80 + v % 64]
    else if v < 0x10000 then [0xE0 + v / 4096, 0x80 + v / 64 % 64, 0x80 + v % 64]
    else [0xF0 + v / 262144, 0x80 + v / 4096 % 64, 0x80 + v / 64 % 64, 0x80 + v % 64]
  }

  function EncodeAll(s: string): seq<byte> {
    if s == [] then [] else Encode(s[0]) + EncodeAll(s[1..])
  }

  lemma {:induction false} EncodeAppend(s: string, t: string)
    ensures EncodeAll(s + t) == EncodeAll(s) + EncodeAll(t)
    decreases |s|
  {
    if s == [] {
      assert s + t == t;
    } else {
      EncodeAppend(s[1..], t);
      assert (s + t)[1..] == s[1..] + t && (s + t)[0] == s[0];
    }
  }

  // --------------------------------------------------- the first character

  predicate IsCont(b: byte) {
    0x80 <= b <= 0xBF
  }

  /** Length promised by a lead byte; 0 if it can start nothing. */
  function Width(b: byte): (w: nat)
    ensures w <= 4
  {
    if b < 0x80 then 1
    else if 0xC2 <= b <= 0xDF then 2
    else if 0xE0 <= b <= 0xEF then 3
    else if 0xF0 <= b <= 0xF4 then 4
    else 0
  }

  /** Second bytes allowed after a lead byte: no overlong forms, no surrogates, nothing past U+10FFFF. */
  predicate SecondOk(lead: byte, b: byte) {
    if lead == 0xE0 then 0xA0 <= b <= 0xBF
    else if lead == 0xED then 0x80 <= b <= 0x9F
    else if lead == 0xF0 then 0x90 <= b <= 0xBF
    else if lead == 0xF4 then 0x80 <= b <= 0x8F
    else IsCont(b)
  }

  /** The payload bits of a byte. */
  function Val(b: byte, tag: int): int {
    b as int - tag
  }

  /** What the start of a byte sequence is: a character, garbage of a known length, or not yet decidable. */
  datatype Front = Char(n: nat, c: char) | Bad(n: nat) | Partial

  function Scan(bs: seq<byte>): (f: Front)
    requires bs != []
    ensures f.Char? ==> 1 <= f.n <= |bs| && f.n <= 4
    ensures f.Bad? ==> 1 <= f.n < 4 && f.n <= |bs|
    ensures f.Partial? ==> |bs| <= 3
  {
    var b0 := bs[0];
    var w := Width(b0);
    if w == 1 then Char(1, b0 as char)
    else if w == 0 then Bad(1)
    else if |bs| == 1 then Partial
    else if !SecondOk(b0, bs[1]) then Bad(1)
    else if w == 2 then Char(2, (Val(b0, 0xC0) * 64 + Val(bs[1], 0x80)) as char)
    else if |bs| == 2 then Partial
    else if !IsCont(bs[2]) then Bad(2)
    else if w == 3 then Char(3, (Val(b0, 0xE0) * 4096 + Val(bs[1], 0x80) * 64 + Val(bs[2], 0x80)) as char)
    else if |bs| == 3 then Partial
    else if !IsCont(bs[3]) then Bad(3)
    else Char(4, (Val(b0, 0xF0) * 262144 + Val(bs[1], 0x80) * 4096 + Val(bs[2], 0x80) * 64 + Val(bs[3], 0x80)) as char)
  }

  /** More bytes change nothing once the front is decided. */
  lemma ScanIsStable(bs: seq<byte>, more: seq<byte>)
    requires bs != [] && !Scan(bs).Partial?
    ensures Scan(bs + more) == Scan(bs)
  {
  }

  /** Decoding an encoded character finds exactly that character. */
  lemma ScanOfEncode(c: char, more: seq<byte>)
    ensures Scan(Encode(c) + more) == Char(|Encode(c)|, c)
  {
    var v := c as int;
    if v < 0x80 {
    } else if v < 0x800 {
      assert v == v / 64 * 64 + v % 64;
    } else if v < 0x10000 {
      Digits3(v);
    } else {
      Digits4(v);
    }
  }

  lemma Digits3(v: int)
    requires 0x800 <= v < 0x10000
    ensures v == v / 4096 * 4096 + v / 64 % 64 * 64 + v % 64
    ensures v / 4096 == 0 ==> v / 64 % 64 >= 0x20
    ensures (v < 0xD800 || 0xE000 <= v) && v / 4096 == 0xD ==> v / 64 % 64 <= 0x1F
  {
    assert v / 64 == v / 4096 * 64 + v / 64 % 64;
  }

  lemma Digits4(v: int)
    requires 0x10000 <= v < 0x110000
    ensures v == v / 262144 * 262144 + v / 4096 % 64 * 4096 + v / 64 % 64 * 64 + v % 64
    ensures v / 262144 == 0 ==> v / 4096 % 64 >= 0x10
    ensures v / 262144 == 4 ==> v / 4096 % 64 <= 0xF
    ensures v / 262144 <= 4
  {
    assert v / 64 == v / 4096 * 64 + v / 64 % 64;
    assert v / 4096 == v / 262144 * 64 + v / 4096 % 64;
  }

  /** Conversely, a character found at the front is spelled by exactly those bytes. */
  lemma ScanFindsEncoding(bs: seq<byte>)
    requires bs != [] && Scan(bs).Char?
    ensures bs[..Scan(bs).n] == Encode(Scan(bs).c)
  {
    var f := Scan(bs);
    if f.n == 2 {
      Spell2(f.c, Val(bs[0], 0xC0), Val(bs[1], 0x80));
    } else if f.n == 3 {
      Spell3(f.c, Val(bs[0], 0xE0), Val(bs[1], 0x80), Val(bs[2], 0x80));
    } else if f.n == 4 {
      Spell4(f.c, Val(bs[0], 0xF0), Val(bs[1], 0x80), Val(bs[2], 0x80), Val(bs[3], 0x80));
    }
  }

  lemma Spell2(c: char, x: int, y: int)
    requires c as int == x * 64 + y && 2 <= x < 32 && 0 <= y < 64
    ensures Encode(c) == [0xC0 + x, 0x80 + y]
  {
    Split(c as int, 64, x, y);
  }

  lemma Spell3(c: char, x: int, y: int, z: int)
    requires c as int == x * 4096 + y * 64 + z && 0 <= x < 16 && 0 <= y < 64 && 0 <= z < 64 && c as int >= 0x800
    ensures Encode(c) == [0xE0 + x, 0x80 + y, 0x80 + z]
  {
    Split(c as int, 64, x * 64 + y, z);
    Split(c as int, 4096, x, y * 64 + z);
    Split(x * 64 + y, 64, x, y);
  }

  lemma Spell4(c: char, w: int, x: int, y: int, z: int)
    requires c as int == w * 262144 + x * 4096 + y * 64 + z
    requires 0 <= w < 8 && 0 <= x < 64 && 0 <= y < 64 && 0 <= z < 64 && c as int >= 0x10000
    ensures Encode(c) == [0xF0 + w, 0x80 + x, 0x80 + y, 0x80 + z]
  {
    Split(c as int, 64, w * 4096 + x * 64 + y, z);
    Split(c as int, 4096, w * 64 + x, y * 64 + z);
    Split(c as int, 262144, w, x * 4096 + y * 64 + z);
    Split(w * 4096 + x * 64 + y, 64, w * 64 + x, y);
    Split(w * 64 + x, 64, w, x);
  }

  lemma Split(v: int, m: int, q: int, r: int)
    requires m in {64, 4096, 262144} && 0 <= r < m && v == q * m + r
    ensures v / m == q && v % m == r
  {
  }

  // ------------------------------------------------------ maximal subparts

  /** `s` starts some character without finishing it. */
  ghost predicate StartsChar(s: seq<byte>) {
    exists c: char :: |s| < |Encode(c)| && s <= Encode(c)
  }

  /** No prefix of `bs` is a character. */
  ghost predicate NoCharAtFront(bs: seq<byte>) {
    forall c: char :: !(Encode(c) <= bs)
  }

  /** The least way to finish a started character. */
  function Pad(bs: seq<byte>): seq<byte>
    requires bs != []
  {
    var two := if |bs| == 1 then bs + [if bs[0] == 0xE0 then 0xA0 else if bs[0] == 0xF0 then 0x90 else 0x80] else bs;
    var three := if |two| == 2 && Width(bs[0]) >= 3 then two + [0x80] else two;
    if |three| == 3 && Width(bs[0]) == 4 then three + [0x80] else three
  }

  /** Undecided bytes really do start a character, so withholding them is right. */
  lemma PartialStartsChar(bs: seq<byte>)
    requires bs != [] && Scan(bs).Partial?
    ensures StartsChar(bs) && NoCharAtFront(bs)
  {
    var full := Pad(bs);
    ScanFindsEncoding(full);
    assert full == full[..Scan(full).n] && bs <= full;
  }

  /** A rejection is decided by the rejected bytes and the one after them. */
  lemma RejectionIsLocal(a: seq<byte>, b: seq<byte>)
    requires a != [] && Scan(a).Bad? && Scan(a).n < |a|
    requires Scan(a).n < |b| && a[..Scan(a).n + 1] == b[..Scan(a).n + 1]
    ensures Scan(b) == Scan(a)
  {
    var n := Scan(a).n;
    assert forall i | 0 <= i <= n :: a[i] == a[..n + 1][i] && b[i] == b[..n + 1][i];
  }

  /** `Bad(n)` is the maximal subpart rule: the longest start of a character, or one byte. */
  lemma BadIsMaximalSubpart(bs: seq<byte>, k: nat)
    requires bs != [] && Scan(bs).Bad? && Scan(bs).n < k <= |bs|
    ensures forall c: char :: !(bs[..k] < Encode(c)) && !(Encode(c) <= bs)
    ensures Scan(bs).n == 1 || StartsChar(bs[..Scan(bs).n])
  {
    var n := Scan(bs).n;
    forall c: char | bs[..k] <= Encode(c)
      ensures false
    {
      assert bs[..n + 1] == bs[..k][..n + 1];
      RejectionIsLocal(bs, Encode(c) + []);
      ScanOfEncode(c, []);
    }
    BadHasNoChar(bs);
    if n > 1 {
      PartialStartsChar(bs[..n]);
    }
  }

  lemma BadHasNoChar(bs: seq<byte>)
    requires bs != [] && Scan(bs).Bad?
    ensures NoCharAtFront(bs)
  {
    forall c: char | Encode(c) <= bs
      ensures false
    {
      assert bs == Encode(c) + bs[|Encode(c)|..];
      ScanOfEncode(c, bs[|Encode(c)|..]);
    }
  }

  // -------------------------------------------------------- whole sequences

  /** `String::from_utf8_lossy`. */
  function Lossy(bs: seq<byte>): string
    decreases |bs|
  {
    if bs == [] then []
    else match Scan(bs)
      case Char(n, c) => [c] + Lossy(bs[n..])
      case Bad(n) => [REPLACEMENT] + Lossy(bs[n..])
      case Partial => [REPLACEMENT]
  }

  /** `str::from_utf8`: the text, or how far it is valid and how long the error is (`None` at a cut-off character). */
  datatype Check = Valid(s: string) | Invalid(upTo: nat, errorLen: ErrorLen)

  datatype ErrorLen = None | Some(n: nat)

  function FromUtf8(bs: seq<byte>): (r: Check)
    ensures r.Invalid? ==> r.upTo <= |bs| && (r.errorLen.Some? ==> 0 < r.errorLen.n && r.upTo + r.errorLen.n <= |bs|)
    ensures r.Invalid? && r.errorLen.None? ==> |bs| - r.upTo <= 3
    decreases |bs|
  {
    if bs == [] then Valid([])
    else match Scan(bs)
      case Char(n, c) =>
        (match FromUtf8(bs[n..])
         case Valid(s) => Valid([c] + s)
         case Invalid(u, e) => Invalid(n + u, e))
      case Bad(n) => Invalid(0, Some(n))
      case Partial => Invalid(0, None)
  }

  /** Encoding then checking gives the text back. */
  lemma {:induction false} FromUtf8OfEncoding(s: string)
    ensures FromUtf8(EncodeAll(s)) == Valid(s)
    decreases |s|
  {
    if s != [] {
      ScanOfEncode(s[0], EncodeAll(s[1..]));
      FromUtf8OfEncoding(s[1..]);
      assert EncodeAll(s)[|Encode(s[0])|..] == EncodeAll(s[1..]);
    }
  }

  /** Text that checks out is spelled by exactly its encoding. */
  lemma {:induction false} FromUtf8IsInverse(bs: seq<byte>)
    requires FromUtf8(bs).Valid?
    ensures EncodeAll(FromUtf8(bs).s) == bs
    decreases |bs|
  {
    hide Scan, Encode;
    if bs != [] {
      var f := Scan(bs);
      FromUtf8IsInverse(bs[f.n..]);
      ScanFindsEncoding(bs);
      assert bs == bs[..f.n] + bs[f.n..];
    }
  }

  /** On well-formed input the lossy decoder loses nothing. */
  lemma {:induction false} LossyOfEncoding(s: string)
    ensures Lossy(EncodeAll(s)) == s
    decreases |s|
  {
    if s != [] {
      ScanOfEncode(s[0], EncodeAll(s[1..]));
      LossyOfEncoding(s[1..]);
      assert EncodeAll(s)[|Encode(s[0])|..] == EncodeAll(s[1..]);
    }
  }
}
