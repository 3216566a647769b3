/** The counter-based 64-bit generator behind every seed value (migration/source/seed/spec.py). */
module Mixer {
  import opened Arith
  import opened Bits

  /** 2 to the power 64: `& M64` is the remainder by it. */
  const WORD := 0x1_0000_0000_0000_0000
  const GAMMA := 0x9E3779B97F4A7C15
  const MULT2 := 0xBF58476D1CE4E5B9
  const MULT3 := 0x94D049BB133111EB
  const SEED := 0x4F54544552574B53

  const WORD_BITS := 64
  const SHIFT2 := 30
  const SHIFT3 := 27
  const SHIFT4 := 31
  const FIELD_BITS := 6
  const FIELDS := 64
  const INDEX_BITS := 58

  // Inverses of the odd multipliers modulo 2^64.
  const UNMULT2 := 0x96DE1B173F119089
  const UNMULT3 := 0x319642B2D24D8EC3

  datatype Stream = RETNPLCY | DOCARCH | FILEAUD | PLANTED

  function StreamId(s: Stream): nat {
    match s
    case RETNPLCY => 1
    case DOCARCH => 2
    case FILEAUD => 3
    case PLANTED => 4
  }

  function AddMod(x: nat, c: int): (r: nat)
    ensures r < WORD
  {
    (x + c) % WORD
  }

  function MulMod(x: nat, c: nat): (r: nat)
    ensures r < WORD
  {
    x * c % WORD
  }

  /** One shift-xor and multiply, and its undoing. */
  function Round(x: nat, shift: nat, mult: nat): nat { MulMod(ShiftXor(x, shift), mult) }

  function Unround(y: nat, shift: nat, unmult: nat): nat { UnshiftXor(MulMod(y, unmult), shift) }

  function UnshiftXor(y: nat, k: nat): nat { Xor(y, Xor(Shr(y, k), Shr(y, 2 * k))) }

  function SplitMix64(x: nat): nat {
    var x1 := AddMod(x, GAMMA);
    var x2 := Round(x1, SHIFT2, MULT2);
    var x3 := Round(x2, SHIFT3, MULT3);
    ShiftXor(x3, SHIFT4)
  }

  /** The four steps undone in reverse order. */
  function Unmix64(y: nat): nat {
    var x3 := UnshiftXor(y, SHIFT4);
    var x2 := Unround(x3, SHIFT3, UNMULT3);
    var x1 := Unround(x2, SHIFT2, UNMULT2);
    AddMod(x1, -GAMMA)
  }

  lemma MulModTwice(x: nat, c: nat, d: nat)
    requires x < WORD && c * d % WORD == 1
    ensures MulMod(MulMod(x, c), d) == x
  {
    var q, k := x * c / WORD, c * d / WORD;
    var r := MulMod(x, c);
    assert x * c == WORD * q + r && c * d == WORD * k + 1;
    assert (x * c) * d == x * (c * d);
    assert x * (WORD * k + 1) == WORD * (x * k) + x;
    assert (WORD * q + r) * d == WORD * (q * d) + r * d;
    DivUnique(r * d, WORD, x * k - q * d, x);
  }

  lemma AddModTwice(x: nat, c: int)
    requires x < WORD
    ensures AddMod(AddMod(x, c), -c) == x
  {
    var q := (x + c) / WORD;
    DivUnique(AddMod(x, c) - c, WORD, -q, x);
  }

  lemma WordIsPow2()
    ensures WORD == Pow2(WORD_BITS)
    ensures FIELDS == Pow2(FIELD_BITS)
  {
    assert Pow2(8) == 0x100;
    Pow2Add(8, 8);
    Pow2Add(16, 16);
    Pow2Add(32, 32);
    assert FIELD_BITS == 6 && Pow2(6) == 64;
    assert WORD_BITS == 64;
  }

  /** The mixer is a bijection on 64-bit words: `Unmix64` undoes it on both sides. */
  lemma MixerBijective(x: nat)
    requires x < WORD
    ensures SplitMix64(x) < WORD && Unmix64(SplitMix64(x)) == x
    ensures Unmix64(x) < WORD && SplitMix64(Unmix64(x)) == x
  {
    MixThenUnmix(x);
    UnmixThenMix(x);
  }

  lemma RoundUndone(x: nat, shift: nat, mult: nat, unmult: nat)
    requires x < WORD && 3 * shift >= WORD_BITS && mult * unmult % WORD == 1
    ensures Round(x, shift, mult) < WORD
    ensures Unround(Round(x, shift, mult), shift, unmult) == x
  {
    WordIsPow2();
    ShiftXorUndone(x, shift, WORD_BITS);
    MulModTwice(ShiftXor(x, shift), mult, unmult);
  }

  lemma RoundRedone(y: nat, shift: nat, mult: nat, unmult: nat)
    requires y < WORD && 3 * shift >= WORD_BITS && unmult * mult % WORD == 1
    ensures Unround(y, shift, unmult) < WORD
    ensures Round(Unround(y, shift, unmult), shift, mult) == y
  {
    WordIsPow2();
    ShiftXorRedone(MulMod(y, unmult), shift, WORD_BITS);
    MulModTwice(y, unmult, mult);
  }

  lemma MultipliersInvert()
    ensures MULT2 * UNMULT2 % WORD == 1 && MULT3 * UNMULT3 % WORD == 1
    ensures UNMULT2 * MULT2 % WORD == 1 && UNMULT3 * MULT3 % WORD == 1
  {
    DivUnique(MULT2 * UNMULT2, WORD, 0x70C3BCA78F27F46C, 1);
    DivUnique(MULT3 * UNMULT3, WORD, 0x1CD336EDA85F1453, 1);
  }

  lemma MixThenUnmix(x: nat)
    requires x < WORD
    ensures SplitMix64(x) < WORD && Unmix64(SplitMix64(x)) == x
  {
    WordIsPow2();
    var x1 := AddMod(x, GAMMA);
    var x2 := Round(x1, SHIFT2, MULT2);
    var x3 := Round(x2, SHIFT3, MULT3);
    AddModTwice(x, GAMMA);
    MultipliersInvert();
    RoundUndone(x1, SHIFT2, MULT2, UNMULT2);
    RoundUndone(x2, SHIFT3, MULT3, UNMULT3);
    ShiftXorUndone(x3, SHIFT4, WORD_BITS);
  }

  lemma UnmixThenMix(y: nat)
    requires y < WORD
    ensures Unmix64(y) < WORD && SplitMix64(Unmix64(y)) == y
  {
    WordIsPow2();
    var x3 := UnshiftXor(y, SHIFT4);
    var x2 := Unround(x3, SHIFT3, UNMULT3);
    var x1 := Unround(x2, SHIFT2, UNMULT2);
    ShiftXorRedone(y, SHIFT4, WORD_BITS);
    MultipliersInvert();
    RoundRedone(x3, SHIFT3, MULT3, UNMULT3);
    RoundRedone(x2, SHIFT2, MULT2, UNMULT2);
    AddModTwice(x1, -GAMMA);
  }

  function StreamBase(s: Stream): nat { SplitMix64(Xor(SEED, StreamId(s))) }

  function H(s: Stream, index: nat, field: nat): nat {
    SplitMix64(Xor(StreamBase(s), Or(Shl(index, FIELD_BITS), field)))
  }

  lemma HashIsWord(x: nat)
    ensures SplitMix64(x) < WORD
  {
    WordIsPow2();
    ShiftXorUndone(Round(Round(AddMod(x, GAMMA), SHIFT2, MULT2), SHIFT3, MULT3), SHIFT4, WORD_BITS);
  }

  lemma CounterIsWord(index: nat, field: nat)
    requires index < Pow2(INDEX_BITS) && field < FIELDS
    ensures Or(Shl(index, FIELD_BITS), field) == Shl(index, FIELD_BITS) + field < WORD
  {
    WordIsPow2();
    OrOfDisjoint(index, FIELD_BITS, field);
    ShlBelow(index, FIELD_BITS, INDEX_BITS);
  }

  /** The mixer in plain arithmetic, with its five constants. */
  lemma MixerSteps(x: nat)
    ensures var a := (x + 0x9E37_79B9_7F4A_7C15) % 0x1_0000_0000_0000_0000;
            var b := Xor(a, a / 0x4000_0000) * 0xBF58_476D_1CE4_E5B9 % 0x1_0000_0000_0000_0000;
            var c := Xor(b, b / 0x800_0000) * 0x94D0_49BB_1331_11EB % 0x1_0000_0000_0000_0000;
            SplitMix64(x) == Xor(c, c / 0x8000_0000)
  {
    var x1 := AddMod(x, GAMMA);
    var x2 := Round(x1, SHIFT2, MULT2);
    var x3 := Round(x2, SHIFT3, MULT3);
    ShiftsArePowers(x1, SHIFT2);
    ShiftsArePowers(x2, SHIFT3);
    ShiftsArePowers(x3, SHIFT4);
    ShiftSizes();
  }

  lemma ShiftSizes()
    ensures Pow2(SHIFT2) == 0x4000_0000 && Pow2(SHIFT3) == 0x800_0000 && Pow2(SHIFT4) == 0x8000_0000
  {
    assert Pow2(10) == 1024;
    Pow2Add(10, 10);
    Pow2Add(20, 10);
    Pow2Add(20, 7);
    Pow2Add(30, 1);
  }

  /** What is mixed into the base of a stream: the row number, followed by six bits of field number. */
  lemma CounterIs(index: nat, field: nat)
    requires index < Pow2(INDEX_BITS) && field < 64
    ensures Or(Shl(index, FIELD_BITS), field) == 64 * index + field
  {
    CounterIsWord(index, field);
    SixtyFourTimes(index, FIELD_BITS);
  }

  lemma SixtyFourTimes(index: nat, k: nat)
    requires k == 6
    ensures Shl(index, k) == 64 * index
  {
    ShiftsArePowers(index, k);
    assert Pow2(6) == 64;
  }

  /** The base mixes the number of the stream into the seed, whose bytes spell a name. */
  lemma StreamNumbers(s: Stream, id: nat)
    requires id == match s case RETNPLCY => 1 case DOCARCH => 2 case FILEAUD => 3 case PLANTED => 4
    ensures StreamBase(s) == SplitMix64(Xor(SEED, id))
    ensures SEED == 0x4F54_5445_0000_0000 + 0x5257_4B53
  {
  }

  /** Within one stream no two (row, field) pairs share a value while rows stay below 2^58. */
  lemma HashesDistinct(s: Stream, i: nat, f: nat, j: nat, g: nat)
    requires i < Pow2(INDEX_BITS) && j < Pow2(INDEX_BITS) && f < FIELDS && g < FIELDS
    ensures H(s, i, f) == H(s, j, g) <==> i == j && f == g
  {
    WordIsPow2();
    var base, a, b := StreamBase(s), Or(Shl(i, FIELD_BITS), f), Or(Shl(j, FIELD_BITS), g);
    HashIsWord(Xor(SEED, StreamId(s)));
    CounterIsWord(i, f);
    CounterIsWord(j, g);
    XorBelow(base, a, WORD_BITS);
    XorBelow(base, b, WORD_BITS);
    MixThenUnmix(Xor(base, a));
    MixThenUnmix(Xor(base, b));
    XorCancels(base, a);
    XorCancels(base, b);
    ShlInjective(i, f, j, g, FIELD_BITS);
  }

  /** `pick`: a value below `n` for a row and a field. */
  function Pick(s: Stream, index: nat, field: nat, n: nat): (k: nat)
    requires n > 0
    ensures k < n
  {
    H(s, index, field) % n
  }
}
