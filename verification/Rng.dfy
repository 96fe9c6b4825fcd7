/**
  The sampler's generator: splitmix64 seeding of xoshiro256++.

  Everything here is a function of 64-bit words. The claims are that nothing is
  lost: the seeding finaliser is a bijection, different seeds give different
  states, and a step can be undone. That the generator never reaches its one
  fixed point, the all-zero state, follows.

  Each operation has its own function, with lemmas that unfold it on its own
  argument; the proofs above those lemmas are equational.
 */
module Rng {

  datatype Words = Words(a: bv64, b: bv64, c: bv64, d: bv64)

  const ZERO: Words := Words(0, 0, 0, 0)

  // --------------------------------------------------------------- seeding

  function Shift30(z: bv64): bv64 { z ^ (z >> 30) }
  function Shift27(z: bv64): bv64 { z ^ (z >> 27) }
  function Shift31(z: bv64): bv64 { z ^ (z >> 31) }
  function Times1(z: bv64): bv64 { z * 0xBF58_476D_1CE4_E5B9 }
  function Times2(z: bv64): bv64 { z * 0x94D0_49BB_1331_11EB }

  function Unshift30(y: bv64): bv64 { y ^ (y >> 30) ^ (y >> 60) }
  function Unshift27(y: bv64): bv64 { y ^ (y >> 27) ^ (y >> 54) }
  function Unshift31(y: bv64): bv64 { y ^ (y >> 31) ^ (y >> 62) }
  function Untimes1(y: bv64): bv64 { y * 0x96DE_1B17_3F11_9089 }
  function Untimes2(y: bv64): bv64 { y * 0x3196_42B2_D24D_8EC3 }

  /** The splitmix64 finaliser. */
  function Finalise(z: bv64): bv64 {
    Shift31(Times2(Shift27(Times1(Shift30(z)))))
  }

  function Unfinalise(y: bv64): bv64 {
    Unshift30(Untimes1(Unshift27(Untimes2(Unshift31(y)))))
  }

  // Definitions unfolded on their own arguments, so that what follows needs no arithmetic.

  lemma ShiftsOf(z: bv64)
    ensures Shift30(z) == z ^ (z >> 30) && Unshift30(z) == z ^ (z >> 30) ^ (z >> 60)
    ensures Shift27(z) == z ^ (z >> 27) && Unshift27(z) == z ^ (z >> 27) ^ (z >> 54)
    ensures Shift31(z) == z ^ (z >> 31) && Unshift31(z) == z ^ (z >> 31) ^ (z >> 62)
  {
  }

  lemma ShiftsCancel(z: bv64)
    ensures Unshift30(z ^ (z >> 30)) == z && Shift30(z ^ (z >> 30) ^ (z >> 60)) == z
    ensures Unshift27(z ^ (z >> 27)) == z && Shift27(z ^ (z >> 27) ^ (z >> 54)) == z
    ensures Unshift31(z ^ (z >> 31)) == z && Shift31(z ^ (z >> 31) ^ (z >> 62)) == z
  {
  }

  /** A xor-shift is undone by repeating it at the multiples of its distance. */
  lemma ShiftsBack(z: bv64)
    ensures Unshift30(Shift30(z)) == z && Shift30(Unshift30(z)) == z
    ensures Unshift27(Shift27(z)) == z && Shift27(Unshift27(z)) == z
    ensures Unshift31(Shift31(z)) == z && Shift31(Unshift31(z)) == z
  {
    hide *;
    ShiftsOf(z);
    ShiftsCancel(z);
  }

  lemma TimesOf(z: bv64)
    ensures Times1(z) == z * 0xBF58_476D_1CE4_E5B9 && Untimes1(z) == z * 0x96DE_1B17_3F11_9089
    ensures Times2(z) == z * 0x94D0_49BB_1331_11EB && Untimes2(z) == z * 0x3196_42B2_D24D_8EC3
  {
  }

  lemma TimesCancel(z: bv64)
    ensures Untimes1(z * 0xBF58_476D_1CE4_E5B9) == z && Times1(z * 0x96DE_1B17_3F11_9089) == z
    ensures Untimes2(z * 0x94D0_49BB_1331_11EB) == z && Times2(z * 0x3196_42B2_D24D_8EC3) == z
  {
  }

  /** Odd multipliers have inverses. */
  lemma TimesBack(z: bv64)
    ensures Untimes1(Times1(z)) == z && Times1(Untimes1(z)) == z
    ensures Untimes2(Times2(z)) == z && Times2(Untimes2(z)) == z
  {
    hide *;
    TimesOf(z);
    TimesCancel(z);
  }

  lemma ZeroStays()
    ensures Shift30(0) == 0 && Times1(0) == 0 && Shift27(0) == 0 && Times2(0) == 0 && Shift31(0) == 0
  {
  }

  /** The finaliser is a bijection of 64-bit words that fixes zero. */
  lemma FinaliseIsBijection(z: bv64)
    ensures Unfinalise(Finalise(z)) == z && Finalise(Unfinalise(z)) == z
    ensures Finalise(z) == 0 <==> z == 0
  {
    hide Shift30, Shift27, Shift31, Times1, Times2, Unshift30, Unshift27, Unshift31, Untimes1, Untimes2;
    UnfinaliseBack(z);
    ShiftsBack(z);
    TimesBack(Unshift31(z));
    ShiftsBack(Untimes2(Unshift31(z)));
    TimesBack(Unshift27(Untimes2(Unshift31(z))));
    ShiftsBack(Untimes1(Unshift27(Untimes2(Unshift31(z)))));
    FinaliseFixesOnlyZero(z);
  }

  lemma FinaliseFixesOnlyZero(z: bv64)
    ensures Finalise(0) == 0
    ensures Finalise(z) == 0 ==> z == 0
  {
    hide Shift30, Shift27, Shift31, Times1, Times2, Unshift30, Unshift27, Unshift31, Untimes1, Untimes2;
    ZeroStays();
    UnfinaliseBack(z);
    UnfinaliseBack(0);
  }

  lemma UnfinaliseBack(z: bv64)
    ensures Unfinalise(Finalise(z)) == z
  {
    hide Shift30, Shift27, Shift31, Times1, Times2, Unshift30, Unshift27, Unshift31, Untimes1, Untimes2;
    ShiftsBack(z);
    TimesBack(Shift30(z));
    ShiftsBack(Times1(Shift30(z)));
    TimesBack(Shift27(Times1(Shift30(z))));
    ShiftsBack(Times2(Shift27(Times1(Shift30(z)))));
  }

  /** The counter, advanced by the golden ratio. */
  function Advance(x: bv64): bv64 {
    x + 0x9E37_79B9_7F4A_7C15
  }

  function Seeded(seed: bv64): Words {
    var x1 := Advance(seed);
    var x2 := Advance(x1);
    var x3 := Advance(x2);
    Words(Finalise(x1), Finalise(x2), Finalise(x3), Finalise(Advance(x3)))
  }

  lemma AdvanceMoves(x: bv64)
    ensures Advance(x) != x
  {
  }

  lemma AdvanceIsInjective(x: bv64, y: bv64)
    requires Advance(x) == Advance(y)
    ensures x == y
  {
  }

  /** No seed expands to the all-zero state: the first two words are never both zero. */
  lemma SeededIsNotZero(seed: bv64)
    ensures Seeded(seed) != ZERO
    ensures var s := Seeded(seed); s.a != 0 || s.b != 0
  {
    hide Finalise, Unfinalise, Advance;
    FinaliseIsBijection(Advance(seed));
    FinaliseIsBijection(Advance(Advance(seed)));
    AdvanceMoves(Advance(seed));
  }

  /** Different seeds give different states. */
  lemma SeedsDiffer(x: bv64, y: bv64)
    requires Seeded(x) == Seeded(y)
    ensures x == y
  {
    hide Finalise, Unfinalise, Advance;
    FinaliseIsBijection(Advance(x));
    FinaliseIsBijection(Advance(y));
    AdvanceIsInjective(x, y);
  }

  // -------------------------------------------------------------- stepping

  function Xor(x: bv64, y: bv64): bv64 { x ^ y }
  function Plus(x: bv64, y: bv64): bv64 { x + y }
  function Up17(x: bv64): bv64 { x << 17 }
  function Turn23(x: bv64): bv64 { x.RotateLeft(23) }
  function Turn45(x: bv64): bv64 { x.RotateLeft(45) }

  /** The word returned from a state. */
  function Output(s: Words): bv64 {
    Plus(Turn23(Plus(s.a, s.d)), s.a)
  }

  /** The state after it. */
  function Next(s: Words): Words {
    var c := Xor(s.c, s.a);
    var d := Xor(s.d, s.b);
    Words(Xor(s.a, d), Xor(s.b, c), Xor(c, Up17(s.b)), Turn45(d))
  }

  /** The published first words of splitmix64 from seed zero. */
  lemma SeededFromZero()
    ensures Seeded(0) == Words(0xE220_A839_7B1D_CDAF, 0x6E78_9E6A_A1B9_65F4, 0x06C4_5D18_8009_454F, 0xF88B_B8A8_724C_81EC)
  {
    FirstWord();
    SecondWord();
    ThirdWord();
    FourthWord();
    hide Finalise;
    CounterFromZero();
    hide Advance;
  }

  lemma CounterFromZero()
    ensures Advance(0) == 0x9E37_79B9_7F4A_7C15 && Advance(0x9E37_79B9_7F4A_7C15) == 0x3C6E_F372_FE94_F82A
    ensures Advance(0x3C6E_F372_FE94_F82A) == 0xDAA6_6D2C_7DDF_743F && Advance(0xDAA6_6D2C_7DDF_743F) == 0x78DD_E6E5_FD29_F054
  {
  }

  lemma FirstWord()
    ensures Finalise(0x9E37_79B9_7F4A_7C15) == 0xE220_A839_7B1D_CDAF
  {
  }

  lemma SecondWord()
    ensures Finalise(0x3C6E_F372_FE94_F82A) == 0x6E78_9E6A_A1B9_65F4
  {
  }

  lemma ThirdWord()
    ensures Finalise(0xDAA6_6D2C_7DDF_743F) == 0x06C4_5D18_8009_454F
  {
  }

  lemma FourthWord()
    ensures Finalise(0x78DD_E6E5_FD29_F054) == 0xF88B_B8A8_724C_81EC
  {
  }

  /** The first draw from seed zero. */
  lemma FirstDraw()
    ensures Output(Seeded(0)) == 0x5317_5D61_490B_23DF
    ensures Next(Seeded(0)) == Words(0x74D3_8EFB_A8E8_29B7, 0x8A9C_6B4B_5AAD_ED14, 0xD831_B653_30FC_88E0, 0xBC83_12DE_64D8_5A7E)
  {
    SeededFromZero();
    hide Seeded;
    OutputFromZero();
    NextFromZero();
    hide Output, Next;
  }

  lemma OutputFromZero()
    ensures Output(Words(0xE220_A839_7B1D_CDAF, 0x6E78_9E6A_A1B9_65F4, 0x06C4_5D18_8009_454F, 0xF88B_B8A8_724C_81EC)) == 0x5317_5D61_490B_23DF
  {
  }

  lemma NextFromZero()
    ensures Next(Words(0xE220_A839_7B1D_CDAF, 0x6E78_9E6A_A1B9_65F4, 0x06C4_5D18_8009_454F, 0xF88B_B8A8_724C_81EC)) ==
            Words(0x74D3_8EFB_A8E8_29B7, 0x8A9C_6B4B_5AAD_ED14, 0xD831_B653_30FC_88E0, 0xBC83_12DE_64D8_5A7E)
  {
  }

  // Each word of the previous state, from the words of the next one.

  function BackA(a: bv64, b: bv64, c: bv64, d: bv64): bv64 {
    a ^ d.RotateRight(45)
  }

  function BackB(a: bv64, b: bv64, c: bv64, d: bv64): bv64 {
    var y := b ^ c;
    y ^ (y << 17) ^ (y << 34) ^ (y << 51)
  }

  function BackC(a: bv64, b: bv64, c: bv64, d: bv64): bv64 {
    var y := b ^ c;
    b ^ (y ^ (y << 17) ^ (y << 34) ^ (y << 51)) ^ (a ^ d.RotateRight(45))
  }

  function BackD(a: bv64, b: bv64, c: bv64, d: bv64): bv64 {
    var y := b ^ c;
    d.RotateRight(45) ^ (y ^ (y << 17) ^ (y << 34) ^ (y << 51))
  }

  function Previous(s: Words): Words {
    Words(BackA(s.a, s.b, s.c, s.d), BackB(s.a, s.b, s.c, s.d), BackC(s.a, s.b, s.c, s.d), BackD(s.a, s.b, s.c, s.d))
  }

  lemma NextA(a: bv64, b: bv64, c: bv64, d: bv64)
    ensures Xor(a, Xor(d, b)) == a ^ (d ^ b)
  {
  }

  lemma NextB(a: bv64, b: bv64, c: bv64, d: bv64)
    ensures Xor(b, Xor(c, a)) == b ^ (c ^ a)
  {
  }

  lemma NextC(a: bv64, b: bv64, c: bv64, d: bv64)
    ensures Xor(Xor(c, a), Up17(b)) == (c ^ a) ^ (b << 17)
  {
  }

  lemma NextD(a: bv64, b: bv64, c: bv64, d: bv64)
    ensures Turn45(Xor(d, b)) == (d ^ b).RotateLeft(45)
  {
  }

  lemma BackAOfNext(a: bv64, b: bv64, c: bv64, d: bv64)
    ensures BackA(a ^ (d ^ b), b ^ (c ^ a), (c ^ a) ^ (b << 17), (d ^ b).RotateLeft(45)) == a
  {
  }

  lemma BackBOfNext(a: bv64, b: bv64, c: bv64, d: bv64)
    ensures BackB(a ^ (d ^ b), b ^ (c ^ a), (c ^ a) ^ (b << 17), (d ^ b).RotateLeft(45)) == b
  {
  }

  lemma BackCOfNext(a: bv64, b: bv64, c: bv64, d: bv64)
    ensures BackC(a ^ (d ^ b), b ^ (c ^ a), (c ^ a) ^ (b << 17), (d ^ b).RotateLeft(45)) == c
  {
  }

  lemma BackDOfNext(a: bv64, b: bv64, c: bv64, d: bv64)
    ensures BackD(a ^ (d ^ b), b ^ (c ^ a), (c ^ a) ^ (b << 17), (d ^ b).RotateLeft(45)) == d
  {
  }

  lemma NextOfZero()
    ensures Next(ZERO) == ZERO
  {
  }

  /** The step loses nothing, so from a non-zero state the all-zero one is out of reach. */
  lemma NextIsInjective(s: Words)
    ensures Previous(Next(s)) == s
    ensures Next(s) == ZERO <==> s == ZERO
  {
    PreviousOfNext(s);
    PreviousOfNext(ZERO);
    NextOfZero();
    hide Next, Previous;
  }

  lemma PreviousOfNext(s: Words)
    ensures Previous(Next(s)) == s
  {
    hide Xor, Up17, Turn45, BackA, BackB, BackC, BackD;
    var a, b, c, d := s.a, s.b, s.c, s.d;
    NextA(a, b, c, d);
    NextB(a, b, c, d);
    NextC(a, b, c, d);
    NextD(a, b, c, d);
    BackAOfNext(a, b, c, d);
    BackBOfNext(a, b, c, d);
    BackCOfNext(a, b, c, d);
    BackDOfNext(a, b, c, d);
  }

  /** However far a seeded generator runs, it is never stuck at zero. */
  lemma {:induction false} GeneratorLives(seed: bv64, states: seq<Words>)
    requires states != [] && states[0] == Seeded(seed) && forall i | 0 < i < |states| :: states[i] == Next(states[i - 1])
    ensures forall i | 0 <= i < |states| :: states[i] != Words(0, 0, 0, 0)
    decreases |states|
  {
    var n := |states| - 1;
    if n == 0 {
      SeededIsNotZero(seed);
    } else {
      GeneratorLives(seed, states[..n]);
      NextIsInjective(states[n - 1]);
      assert states[..n][n - 1] == states[n - 1];
    }
    hide Next, Seeded;
  }

  /** The generator as the sampler holds it: four words, updated in place. */
  class Generator {
    var s: array<bv64>

    ghost predicate Valid()
      reads this
    {
      s.Length == 4
    }

    ghost function State(): Words
      requires Valid()
      reads this, s
    {
      Words(s[0], s[1], s[2], s[3])
    }

    /** Seeding: four finalised words of the advancing counter. */
    constructor (seed: bv64)
      ensures Valid() && fresh(s) && State() == Seeded(seed)
    {
      s := new bv64[4];
      new;
      hide Finalise, Advance;
      var x := Advance(seed);
      s[0] := Finalise(x);
      x := Advance(x);
      s[1] := Finalise(x);
      x := Advance(x);
      s[2] := Finalise(x);
      x := Advance(x);
      s[3] := Finalise(x);
    }

    /** `next_u64`. */
    method NextWord() returns (w: bv64)
      requires Valid()
      modifies s
      ensures w == Output(old(State())) && State() == Next(old(State()))
    {
      hide Xor, Plus, Up17, Turn23, Turn45;
      w := Plus(Turn23(Plus(s[0], s[3])), s[0]);
      var t := Up17(s[1]);
      s[2] := Xor(s[2], s[0]);
      s[3] := Xor(s[3], s[1]);
      s[1] := Xor(s[1], s[2]);
      s[0] := Xor(s[0], s[3]);
      s[2] := Xor(s[2], t);
      s[3] := Turn45(s[3]);
    }
  }
}

/** Words as numbers. */
module Units {

  const TWO53: int := 9007199254740992
  const TWO64: int := 18446744073709551616

  /** The word shifted right by 11, over 2^53. */
  function Unit(w: bv64): (u: real)
    ensures 0.0 <= u < 1.0
  {
    ((w as int) / 2048) as real / 9007199254740992.0
  }

  /** The uniform number is the word as a fraction of 2^64, rounded down to a multiple of 2^-53. */
  lemma UnitIsFraction(w: bv64)
    ensures Unit(w) <= (w as int) as real / TWO64 as real < Unit(w) + 1.0 / TWO53 as real
  {
    var n := w as int;
    var q := n / 2048;
    assert 2048 * q <= n < 2048 * q + 2048;
    assert (2048 * q) as real <= n as real < (2048 * q + 2048) as real;
  }

  lemma TopBitIsClear(v: bv64)
    requires v as int < 0x8000_0000_0000_0000
    ensures v < 0x8000_0000_0000_0000
  {
  }

  lemma Doubled(v: bv64)
    requires v < 0x8000_0000_0000_0000
    ensures (v << 1) as int == 2 * (v as int)
  {
  }

  lemma OddNext(v: bv64)
    ensures ((v << 1) | 1) as int == (v << 1) as int + 1
  {
  }

  /** Every number of 64 bits is some word. */
  lemma {:induction false} WordOf(n: nat) returns (w: bv64)
    requires n < TWO64
    ensures w as int == n
  {
    if n == 0 {
      w := 0;
    } else {
      var v := WordOf(n / 2);
      TopBitIsClear(v);
      Doubled(v);
      OddNext(v);
      w := if n % 2 == 0 then v << 1 else (v << 1) | 1;
    }
  }

  /** Every multiple of 2^-53 below one is drawn from some word. */
  lemma EveryFraction(m: nat) returns (w: bv64)
    requires m < TWO53
    ensures Unit(w) == m as real / TWO53 as real
  {
    w := WordOf(m * 2048);
    UnitOf(w, m * 2048);
    assert m * 2048 / 2048 == m;
    hide Unit;
  }

  lemma UnitOf(w: bv64, n: nat)
    requires w as int == n
    ensures Unit(w) == (n / 2048) as real / TWO53 as real
  {
  }
}
