// The reproducible generator: SplitMix64 seeding and the xoshiro256++ state
// step, on 64-bit words. Each word operation is a function of its own, so that
// the proofs reason about words by its laws and not bit by bit.
module Xoshiro {
  type Word = bv64

  function Xor(x: Word, y: Word): Word { x ^ y }

  function Plus(x: Word, y: Word): Word { x + y }

  function Shl17(x: Word): Word { x << 17 }

  function RotL23(x: Word): Word { x.RotateLeft(23) }

  function RotL45(x: Word): Word { x.RotateLeft(45) }

  function RotR45(x: Word): Word { x.RotateRight(45) }

  lemma XorLaws(x: Word, y: Word)
    ensures Xor(Xor(x, y), y) == x && Xor(x, Xor(y, x)) == y && Xor(x, y) == Xor(y, x)
  {
  }

  lemma XorAssoc(x: Word, y: Word, z: Word)
    ensures Xor(Xor(x, y), z) == Xor(x, Xor(y, z)) && Xor(Xor(x, y), Xor(y, z)) == Xor(x, z)
  {
  }

  lemma RotateLaws(x: Word)
    ensures RotR45(RotL45(x)) == x && RotL45(RotR45(x)) == x
  {
  }

  // ---- SplitMix64 ----

  function Bump(x: Word): Word { x + 0x9E37_79B9_7F4A_7C15 }

  function Fold30(x: Word): Word { x ^ (x >> 30) }

  function Fold27(x: Word): Word { x ^ (x >> 27) }

  function Fold31(x: Word): Word { x ^ (x >> 31) }

  function Mul1(x: Word): Word { x * 0xBF58_476D_1CE4_E5B9 }

  function Mul2(x: Word): Word { x * 0x94D0_49BB_1331_11EB }

  // The output function of SplitMix64.
  function Mix(z: Word): Word {
    Fold31(Mul2(Fold27(Mul1(Fold30(z)))))
  }

  // Each stage is undone: a fold by folding back the bits it moved, a
  // multiplication by the inverse of its odd factor modulo 2^64.
  function Unfold30(y: Word): Word { y ^ (y >> 30) ^ (y >> 60) }

  function Unfold27(y: Word): Word { y ^ (y >> 27) ^ (y >> 54) }

  function Unfold31(y: Word): Word { y ^ (y >> 31) ^ (y >> 62) }

  function Div1(y: Word): Word { y * 0x96DE_1B17_3F11_9089 }

  function Div2(y: Word): Word { y * 0x3196_42B2_D24D_8EC3 }

  function Unmix(y: Word): Word {
    Unfold30(Div1(Unfold27(Div2(Unfold31(y)))))
  }

  // `x` is what each inverse makes of `y`, stated on the operators themselves.
  predicate Undo30(y: Word, x: Word) { y ^ (y >> 30) ^ (y >> 60) == x }

  predicate Undo27(y: Word, x: Word) { y ^ (y >> 27) ^ (y >> 54) == x }

  predicate Undo31(y: Word, x: Word) { y ^ (y >> 31) ^ (y >> 62) == x }

  predicate UndoMul1(y: Word, x: Word) { y * 0x96DE_1B17_3F11_9089 == x }

  predicate UndoMul2(y: Word, x: Word) { y * 0x3196_42B2_D24D_8EC3 == x }

  lemma FoldsUndone(x: Word)
    ensures Unfold30(Fold30(x)) == x && Unfold27(Fold27(x)) == x && Unfold31(Fold31(x)) == x
  {
    assert Undo30(x ^ (x >> 30), x) && Undo27(x ^ (x >> 27), x) && Undo31(x ^ (x >> 31), x);
    var a, b, c := Undo30(Fold30(x), x), Undo27(Fold27(x), x), Undo31(Fold31(x), x);
    assert a && b && c;
  }

  lemma MulsUndone(x: Word)
    ensures Div1(Mul1(x)) == x && Div2(Mul2(x)) == x
  {
    assert UndoMul1(x * 0xBF58_476D_1CE4_E5B9, x) && UndoMul2(x * 0x94D0_49BB_1331_11EB, x);
    var a, b := UndoMul1(Mul1(x), x), UndoMul2(Mul2(x), x);
    assert a && b;
  }

  // The output function is injective: it has a left inverse.
  lemma UnmixMix(z: Word)
    ensures Unmix(Mix(z)) == z
  {
    var x := Fold30(z);
    var a := Mul1(x);
    var w := Fold27(a);
    FoldsUndone(Mul2(w));
    MulsUndone(w);
    FoldsUndone(a);
    MulsUndone(x);
    FoldsUndone(z);
  }

  method SplitMix64(state: Word) returns (state': Word, out: Word)
    ensures state' == Bump(state) && out == Mix(state')
    ensures Unmix(out) == state' && state' != state
  {
    UnmixMix(Bump(state));
    BumpsApart(state);
    state' := Bump(state);
    var z := state';
    z := Mul1(Fold30(z));
    z := Mul2(Fold27(z));
    out := Fold31(z);
  }

  // ---- The 256-bit state ----

  datatype State = State(s0: Word, s1: Word, s2: Word, s3: Word)

  const ZERO: State := State(0, 0, 0, 0)

  function Step(s: State): State {
    var s2, s3 := Xor(s.s2, s.s0), Xor(s.s3, s.s1);
    State(Xor(s.s0, s3), Xor(s.s1, s2), Xor(s2, Shl17(s.s1)), RotL45(s3))
  }

  function Fold17(x: Word): Word { x ^ (x << 17) }

  function Unfold17(x: Word): Word { x ^ (x << 17) ^ (x << 34) ^ (x << 51) }

  function Unstep(s: State): State {
    var s3 := RotR45(s.s3);
    var s0, s1 := Xor(s.s0, s3), Unfold17(Xor(s.s1, s.s2));
    State(s0, s1, Xor(Xor(s.s1, s1), s0), Xor(s3, s1))
  }

  predicate Undo17(y: Word, x: Word) { y ^ (y << 17) ^ (y << 34) ^ (y << 51) == x }

  predicate Redo17(y: Word, x: Word) { y ^ (y << 17) == x }

  lemma Fold17Undone(x: Word)
    ensures Xor(x, Shl17(x)) == Fold17(x) && Unfold17(Fold17(x)) == x && Fold17(Unfold17(x)) == x
  {
    assert Undo17(x ^ (x << 17), x) && Redo17(x ^ (x << 17) ^ (x << 34) ^ (x << 51), x);
    var a, b := Undo17(Fold17(x), x), Redo17(Unfold17(x), x);
    assert a && b;
  }

  // The state step is a bijection on 256-bit states.
  lemma StepBijective(s: State)
    ensures Unstep(Step(s)) == s
    ensures Step(Unstep(s)) == s
  {
    UnstepStep(s);
    StepUnstep(s);
  }

  lemma UnstepStep(s: State)
    ensures Unstep(Step(s)) == s
  {
    var s2, s3 := Xor(s.s2, s.s0), Xor(s.s3, s.s1);
    RotateLaws(s3);
    XorLaws(s.s0, s3);
    XorAssoc(s.s1, s2, Shl17(s.s1));
    Fold17Undone(s.s1);
    XorLaws(s2, s.s1);
    XorLaws(s.s2, s.s0);
    XorLaws(s.s3, s.s1);
  }

  lemma StepUnstep(s: State)
    ensures Step(Unstep(s)) == s
  {
    var r, x := RotR45(s.s3), Xor(s.s1, s.s2);
    var s0, s1 := Xor(s.s0, r), Unfold17(x);
    XorLaws(Xor(s.s1, s1), s0);
    XorLaws(r, s1);
    XorLaws(s.s0, r);
    XorLaws(s1, s.s1);
    XorAssoc(s.s1, s1, Shl17(s1));
    Fold17Undone(s1);
    Fold17Undone(x);
    XorLaws(s.s1, s.s2);
    XorLaws(s.s2, s.s1);
    RotateLaws(s.s3);
  }

  lemma StepFixesZero(s: State)
    ensures Step(s) == ZERO <==> s == ZERO
  {
    assert Step(ZERO) == ZERO;
    StepBijective(s);
    StepBijective(ZERO);
  }

  // ---- Seeding and draws ----

  function Advance(seed: Word, n: nat): Word {
    if n == 0 then seed else Bump(Advance(seed, n - 1))
  }

  function Seeded(seed: Word): State {
    State(Mix(Advance(seed, 1)), Mix(Advance(seed, 2)), Mix(Advance(seed, 3)), Mix(Advance(seed, 4)))
  }

  predicate BumpsFrom(y: Word, x: Word) { y + 0x9E37_79B9_7F4A_7C15 != x }

  lemma BumpsApart(x: Word)
    ensures Bump(x) != x && Bump(Bump(x)) != x && Bump(Bump(Bump(x))) != x
  {
    assert BumpsFrom(x, x);
    assert BumpsFrom(x + 0x9E37_79B9_7F4A_7C15, x);
    var a, b := BumpsFrom(x, x), BumpsFrom(Bump(x), x);
    assert a && b;
    assert BumpsFrom((x + 0x9E37_79B9_7F4A_7C15) + 0x9E37_79B9_7F4A_7C15, x);
    TwoBumps(x);
    var c := BumpsFrom(Bump(Bump(x)), x);
    assert c;
  }

  lemma TwoBumps(x: Word)
    ensures Bump(Bump(x)) == (x + 0x9E37_79B9_7F4A_7C15) + 0x9E37_79B9_7F4A_7C15
  {
  }

  // The four seeded words are pairwise distinct.
  lemma SeededDistinct(seed: Word)
    ensures var s := Seeded(seed);
            s.s0 != s.s1 && s.s0 != s.s2 && s.s0 != s.s3 && s.s1 != s.s2 && s.s1 != s.s3 && s.s2 != s.s3
  {
    var a := Advance(seed, 1);
    var b := Bump(a);
    var c := Bump(b);
    var d := Bump(c);
    assert Advance(seed, 2) == b && Advance(seed, 3) == c && Advance(seed, 4) == d;
    BumpsApart(a);
    BumpsApart(b);
    BumpsApart(c);
    UnmixMix(a);
    UnmixMix(b);
    UnmixMix(c);
    UnmixMix(d);
  }

  lemma SeededNonZero(seed: Word)
    ensures Seeded(seed) != ZERO
  {
    SeededDistinct(seed);
  }

  function Draws(s: State, n: nat): State {
    if n == 0 then s else Step(Draws(s, n - 1))
  }

  lemma {:induction false} DrawsAvoidZero(s: State, n: nat)
    requires s != ZERO
    ensures Draws(s, n) != ZERO
  {
    if n > 0 {
      DrawsAvoidZero(s, n - 1);
      StepFixesZero(Draws(s, n - 1));
    }
  }

  // No number of draws ever brings a seeded generator to the all-zero state.
  lemma {:induction false} NeverZero(seed: Word, n: nat)
    ensures Draws(Seeded(seed), n) != ZERO
  {
    SeededNonZero(seed);
    DrawsAvoidZero(Seeded(seed), n);
  }

  // Generators with different states never merge.
  lemma {:induction false} DrawsInjective(a: State, b: State, n: nat)
    requires Draws(a, n) == Draws(b, n)
    ensures a == b
  {
    if n > 0 {
      StepBijective(Draws(a, n - 1));
      StepBijective(Draws(b, n - 1));
      DrawsInjective(a, b, n - 1);
    }
  }

  // Different seeds never come to share a state after equally many draws.
  lemma SeedsNeverMerge(a: Word, b: Word, n: nat)
    requires Draws(Seeded(a), n) == Draws(Seeded(b), n)
    ensures a == b
  {
    DrawsInjective(Seeded(a), Seeded(b), n);
    SeededInjective(a, b);
  }

  lemma SeededInjective(a: Word, b: Word)
    requires Seeded(a).s0 == Seeded(b).s0
    ensures a == b
  {
    FirstWord(a);
    FirstWord(b);
    MixInjective(Bump(a), Bump(b));
    BumpInjective(a, b);
  }

  lemma FirstWord(seed: Word)
    ensures Seeded(seed).s0 == Mix(Bump(seed))
  {
    assert Advance(seed, 1) == Bump(seed);
  }

  lemma MixInjective(a: Word, b: Word)
    requires Mix(a) == Mix(b)
    ensures a == b
  {
    UnmixMix(a);
    UnmixMix(b);
  }

  lemma BumpInjective(a: Word, b: Word)
    requires Bump(a) == Bump(b)
    ensures a == b
  {
  }

  lemma {:induction false} DrawsAdd(s: State, m: nat, n: nat)
    ensures Draws(Draws(s, m), n) == Draws(s, m + n)
  {
    if n > 0 { DrawsAdd(s, m, n - 1); }
  }

  // The first state a generator repeats is the one it started from.
  lemma RepeatsFromStart(s: State, m: nat, n: nat)
    requires m < n && Draws(s, m) == Draws(s, n)
    ensures Draws(s, n - m) == s
  {
    DrawsAdd(s, n - m, m);
    DrawsInjective(Draws(s, n - m), s, m);
  }

  // The word a draw returns.
  function Output(s: State): Word {
    Plus(RotL23(Plus(s.s0, s.s3)), s.s0)
  }

  function RotR23(x: Word): Word { x.RotateRight(23) }

  function Minus(x: Word, y: Word): Word { x - y }

  lemma RotateBack(x: Word)
    ensures RotR23(RotL23(x)) == x
  {
  }

  lemma PlusLaws(x: Word, y: Word)
    ensures Minus(Plus(x, y), y) == x && Plus(x, y) == Plus(y, x)
  {
  }

  // A draw and the first word of the state determine the last: subtract,
  // rotate back and subtract again.
  lemma OutputDeterminesLast(s: State)
    ensures Minus(RotR23(Minus(Output(s), s.s0)), s.s0) == s.s3
  {
    PlusLaws(RotL23(Plus(s.s0, s.s3)), s.s0);
    RotateBack(Plus(s.s0, s.s3));
    PlusLaws(s.s3, s.s0);
  }

  // The published values: SplitMix64 from seed 0, and xoshiro256++ from the
  // state 1, 2, 3, 4.
  lemma ReferenceSeeding()
    ensures Mix(Advance(0, 1)) == 0xE220_A839_7B1D_CDAF
  {
    var z := Bump(0);
    assert z == 0x9E37_79B9_7F4A_7C15;
    assert Fold30(z) == 0x9E37_79BB_0797_9AF0;
    assert Mul1(0x9E37_79BB_0797_9AF0) == 0x6F68_261B_57E7_A770;
    assert Fold27(0x6F68_261B_57E7_A770) == 0x6F68_2616_BAE3_641A;
    assert Mul2(0x6F68_2616_BAE3_641A) == 0xE220_A838_BF5C_9DDE;
    assert Fold31(0xE220_A838_BF5C_9DDE) == 0xE220_A839_7B1D_CDAF;
  }

  lemma ReferenceDraws()
    ensures var s := State(1, 2, 3, 4);
            && Output(s) == 41943041 && Step(s) == State(7, 0, 0x4_0002, 0xC000_0000_0000)
            && Output(Step(s)) == 58720359
            && Step(Step(s)) == State(0xC000_0000_0007, 0x4_0005, 0x4_0005, 0x1800_0000)
            && Output(Step(Step(s))) == 3588806011781223
  {
    var t := State(7, 0, 0x4_0002, 0xC000_0000_0000);
    var u := State(0xC000_0000_0007, 0x4_0005, 0x4_0005, 0x1800_0000);
    assert Step(State(1, 2, 3, 4)) == t;
    assert Step(t) == u;
    assert Output(t) == 58720359 && Output(u) == 3588806011781223;
  }

  class Xoshiro256pp {
    const s: array<Word>

    ghost predicate Valid()
      reads this
    {
      s.Length == 4
    }

    ghost function View(): State
      requires Valid()
      reads this, s
    {
      State(s[0], s[1], s[2], s[3])
    }

    constructor (seed: Word)
      ensures Valid() && fresh(s) && View() == Seeded(seed)
    {
      s := new Word[4];
      new;
      var sm := seed;
      for i := 0 to 4
        invariant sm == Advance(seed, i)
        invariant forall j | 0 <= j < i :: s[j] == Mix(Advance(seed, j + 1))
      {
        var word;
        sm, word := SplitMix64(sm);
        s[i] := word;
      }
    }

    method NextU64() returns (result: Word)
      requires Valid()
      modifies s
      ensures Valid() && result == Output(old(View())) && View() == Step(old(View()))
    {
      result := Plus(RotL23(Plus(s[0], s[3])), s[0]);
      var t := Shl17(s[1]);
      s[2] := Xor(s[2], s[0]);
      s[3] := Xor(s[3], s[1]);
      s[1] := Xor(s[1], s[2]);
      s[0] := Xor(s[0], s[3]);
      s[2] := Xor(s[2], t);
      s[3] := RotL45(s[3]);
    }
  }
}
