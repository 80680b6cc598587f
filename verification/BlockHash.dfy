/** The 64-bit block hash: four lanes of multiply and xor over the 8-byte words of a
    block of 128 or 4096 bytes, combined and mixed. */
module BlockHash {
  import opened Words

  const K1: u64 := 0x9E3779B97F4A7C15
  const K2: u64 := 0xBF58476D1CE4E5B9
  const K3: u64 := 0x94D049BB133111EB

  type Bytes = seq<u8>

  predicate Supported(data: Bytes) { |data| == 128 || |data| == 4096 }

  /** A word in memory, low byte first. */
  function LittleEndian(bs: Bytes): (w: nat)
    ensures w < Pow2(8 * |bs|)
  {
    if bs == [] then 0
    else
      Pow2Add(8, 8 * (|bs| - 1));
      WordSizes();
      bs[0] + 0x100 * LittleEndian(bs[1..])
  }

  /** `fh_load64` */
  function Load64(data: Bytes, at: nat): u64
    requires at + 8 <= |data|
  {
    WordSizes();
    LittleEndian(data[at..at + 8])
  }

  function Times(x: u64, k: u64): u64 { x * k % U64_SIZE }

  function XorWords(a: u64, b: u64): u64 {
    WordSizes();
    XorBounded(a, b, 64);
    Xor(a, b)
  }

  function FoldWord(h: u64, k: nat): u64 {
    WordSizes();
    FoldBounded(h, k, 64);
    FoldRight(h, k)
  }

  const SHIFT_A: nat := 33
  const SHIFT_B: nat := 29
  const SHIFT_C: nat := 32

  /** `fh_mix` */
  function FhMix(h: u64): u64 {
    FoldWord(Times(FoldWord(Times(FoldWord(h, SHIFT_A), K2), SHIFT_B), K3), SHIFT_C)
  }

  function Absorb(lane: u64, w: u64, k: u64): u64 { Times(XorWords(lane, w), k) }

  datatype Lanes = Lanes(h0: u64, h1: u64, h2: u64, h3: u64)

  const START: Lanes := Lanes(K1, K2, K3, XorWords(K1, K2))

  /** One round over the four words at a byte offset. */
  function Round(l: Lanes, data: Bytes, at: nat): Lanes
    requires at + 32 <= |data|
  {
    Lanes(Absorb(l.h0, Load64(data, at), K1), Absorb(l.h1, Load64(data, at + 8), K2),
          Absorb(l.h2, Load64(data, at + 16), K3), Absorb(l.h3, Load64(data, at + 24), K1))
  }

  function Rounds(data: Bytes, n: nat): Lanes
    requires 32 * n <= |data|
  {
    if n == 0 then START else Round(Rounds(data, n - 1), data, 32 * (n - 1))
  }

  function Combine(l: Lanes): u64 {
    XorWords(Times(XorWords(Times(XorWords(Times(l.h0, K1), l.h1), K2), l.h2), K3), l.h3)
  }

  /** The hash of a block: all its rounds, the lanes combined, the length mixed in. */
  function HashOf(data: Bytes): u64
    requires Supported(data)
  {
    FhMix(XorWords(Combine(Rounds(data, |data| / 32)), |data|))
  }

  // ---------------------------------------------------------------------------
  // Three forms of the hash
  // ---------------------------------------------------------------------------

  /** `fast_hash_128`, unrolled. */
  method FastHash128(data: Bytes) returns (h: u64)
    requires |data| == 128
    ensures h == HashOf(data)
  {
    hide Absorb, Load64, XorWords, Times, FhMix;
    var h0, h1, h2, h3 := K1, K2, K3, XorWords(K1, K2);
    h0 := Absorb(h0, Load64(data, 0), K1);
    h1 := Absorb(h1, Load64(data, 8), K2);
    h2 := Absorb(h2, Load64(data, 16), K3);
    h3 := Absorb(h3, Load64(data, 24), K1);
    assert Lanes(h0, h1, h2, h3) == Rounds(data, 1);
    h0 := Absorb(h0, Load64(data, 32), K1);
    h1 := Absorb(h1, Load64(data, 40), K2);
    h2 := Absorb(h2, Load64(data, 48), K3);
    h3 := Absorb(h3, Load64(data, 56), K1);
    assert Lanes(h0, h1, h2, h3) == Rounds(data, 2);
    h0 := Absorb(h0, Load64(data, 64), K1);
    h1 := Absorb(h1, Load64(data, 72), K2);
    h2 := Absorb(h2, Load64(data, 80), K3);
    h3 := Absorb(h3, Load64(data, 88), K1);
    assert Lanes(h0, h1, h2, h3) == Rounds(data, 3);
    h0 := Absorb(h0, Load64(data, 96), K1);
    h1 := Absorb(h1, Load64(data, 104), K2);
    h2 := Absorb(h2, Load64(data, 112), K3);
    h3 := Absorb(h3, Load64(data, 120), K1);
    assert Lanes(h0, h1, h2, h3) == Rounds(data, 4);
    h := h0;
    h := XorWords(Times(h, K1), h1);
    h := XorWords(Times(h, K2), h2);
    h := XorWords(Times(h, K3), h3);
    h := FhMix(XorWords(h, 128));
  }

  /** `fast_hash_4096_scalar`, by byte offset. */
  method FastHash4096Scalar(data: Bytes) returns (h: u64)
    requires |data| == 4096
    ensures h == HashOf(data)
  {
    hide Absorb, Load64, XorWords, Times, FhMix;
    var h0, h1, h2, h3 := K1, K2, K3, XorWords(K1, K2);
    var i := 0;
    while i < 4096
      invariant i % 32 == 0 && i <= 4096
      invariant Lanes(h0, h1, h2, h3) == Rounds(data, i / 32)
    {
      h0 := Absorb(h0, Load64(data, i + 0), K1);
      h1 := Absorb(h1, Load64(data, i + 8), K2);
      h2 := Absorb(h2, Load64(data, i + 16), K3);
      h3 := Absorb(h3, Load64(data, i + 24), K1);
      i := i + 32;
    }
    h := h0;
    h := XorWords(Times(h, K1), h1);
    h := XorWords(Times(h, K2), h2);
    h := XorWords(Times(h, K3), h3);
    h := FhMix(XorWords(h, 4096));
  }

  /** The looped `fast_hash`, by word index, for either length. */
  method FastHashLooped(data: Bytes) returns (h: u64)
    requires Supported(data)
    ensures h == HashOf(data)
  {
    hide Absorb, Load64, XorWords, Times, FhMix;
    var words := |data| / 8;
    var h0, h1, h2, h3 := K1, K2, K3, XorWords(K1, K2);
    var i := 0;
    while i < words
      invariant i % 4 == 0 && i <= words
      invariant Lanes(h0, h1, h2, h3) == Rounds(data, i / 4)
    {
      h0 := Absorb(h0, Load64(data, (i + 0) * 8), K1);
      h1 := Absorb(h1, Load64(data, (i + 1) * 8), K2);
      h2 := Absorb(h2, Load64(data, (i + 2) * 8), K3);
      h3 := Absorb(h3, Load64(data, (i + 3) * 8), K1);
      i := i + 4;
    }
    h := h0;
    h := XorWords(Times(h, K1), h1);
    h := XorWords(Times(h, K2), h2);
    h := XorWords(Times(h, K3), h3);
    h := FhMix(XorWords(h, |data|));
  }

  /** `fast_hash`, the dispatcher on the length. */
  method FastHash(data: Bytes) returns (h: u64)
    requires Supported(data)
    ensures h == HashOf(data)
  {
    if |data| == 128 {
      h := FastHash128(data);
    } else {
      h := FastHash4096Scalar(data);
    }
  }

  // ---------------------------------------------------------------------------
  // The hash bit by bit
  // ---------------------------------------------------------------------------

  /** `r` is the exclusive or of two words, by its bits. */
  ghost predicate XorsTo(a: nat, b: nat, r: nat) {
    forall i: nat :: Bit(r, i) == (Bit(a, i) != Bit(b, i))
  }

  /** `r` is a word with each bit taken against the one `k` places up. */
  ghost predicate FoldsTo(x: nat, k: nat, r: nat) {
    forall i: nat :: Bit(r, i) == (Bit(x, i) != Bit(x, i + k))
  }

  lemma XorWordsBits(a: u64, b: u64)
    ensures XorsTo(a, b, XorWords(a, b))
  {
    forall i: nat ensures Bit(XorWords(a, b), i) == (Bit(a, i) != Bit(b, i)) {
      XorBits(a, b, i);
    }
  }

  lemma FoldWordBits(x: u64, k: nat)
    ensures FoldsTo(x, k, FoldWord(x, k))
  {
    forall i: nat ensures Bit(FoldWord(x, k), i) == (Bit(x, i) != Bit(x, i + k)) {
      FoldBits(x, k, i);
    }
  }

  /** The finalizer: three folds, by 33, 29 and 32 places, and two products between. */
  lemma FhMixByBits(h: u64) returns (a: u64, c: u64)
    ensures FoldsTo(h, 33, a)
    ensures FoldsTo(a * 0xBF58476D1CE4E5B9 % 0x1_0000_0000_0000_0000, 29, c)
    ensures FoldsTo(c * 0x94D049BB133111EB % 0x1_0000_0000_0000_0000, 32, FhMix(h))
  {
    hide FoldWord, FoldsTo;
    a := FoldWord(h, SHIFT_A);
    c := FoldWord(Times(a, K2), SHIFT_B);
    FoldWordBits(h, SHIFT_A);
    FoldWordBits(Times(a, K2), SHIFT_B);
    FoldWordBits(Times(c, K3), SHIFT_C);
  }

  /** Before the first round the lanes hold the constants, the last lane the exclusive
      or of the first two. */
  lemma LanesAtStart(data: Bytes)
    ensures var l := Rounds(data, 0);
      && l.h0 == 0x9E3779B97F4A7C15 && l.h1 == 0xBF58476D1CE4E5B9 && l.h2 == 0x94D049BB133111EB
      && XorsTo(0x9E3779B97F4A7C15, 0xBF58476D1CE4E5B9, l.h3)
  {
    hide XorWords, XorsTo;
    XorWordsBits(K1, K2);
  }

  /** A round takes each lane against its word of the block and multiplies it by its
      constant. */
  lemma LaneStep(data: Bytes, n: nat, c: nat) returns (x: u64)
    requires 32 * n + 32 <= |data| && c < 4
    ensures XorsTo(Lane(Rounds(data, n), c), Load64(data, 32 * n + 8 * c), x)
    ensures var k := if c == 1 then 0xBF58476D1CE4E5B9 else if c == 2 then 0x94D049BB133111EB else 0x9E3779B97F4A7C15;
      Lane(Rounds(data, n + 1), c) == x * k % 0x1_0000_0000_0000_0000
  {
    hide XorWords, XorsTo, Load64;
    var l := Rounds(data, n);
    x := XorWords(Lane(l, c), Load64(data, 32 * n + 8 * c));
    XorWordsBits(Lane(l, c), Load64(data, 32 * n + 8 * c));
    RoundLane(l, data, 32 * n, c);
  }

  /** The lanes are combined in turn, the length of the block goes in last. */
  lemma HashByBits(data: Bytes) returns (p: u64, q: u64, r: u64, t: u64)
    requires Supported(data)
    ensures var l := Rounds(data, |data| / 32);
      && XorsTo(l.h0 * 0x9E3779B97F4A7C15 % 0x1_0000_0000_0000_0000, l.h1, p)
      && XorsTo(p * 0xBF58476D1CE4E5B9 % 0x1_0000_0000_0000_0000, l.h2, q)
      && XorsTo(q * 0x94D049BB133111EB % 0x1_0000_0000_0000_0000, l.h3, r)
      && XorsTo(r, |data|, t) && HashOf(data) == FhMix(t)
  {
    hide XorWords, XorsTo, Load64, FhMix, Rounds;
    var l := Rounds(data, |data| / 32);
    p := XorWords(Times(l.h0, K1), l.h1);
    q := XorWords(Times(p, K2), l.h2);
    r := XorWords(Times(q, K3), l.h3);
    t := XorWords(r, |data|);
    XorWordsBits(Times(l.h0, K1), l.h1);
    XorWordsBits(Times(p, K2), l.h2);
    XorWordsBits(Times(q, K3), l.h3);
    XorWordsBits(r, |data|);
  }

  /** A word of the block has its bytes' bits, low byte first. */
  lemma LoadBits(data: Bytes, at: nat, b: nat, i: nat)
    requires at + 8 <= |data| && b < 8 && i < 8
    ensures Bit(Load64(data, at), 8 * b + i) == Bit(data[at + b], i)
  {
    assert data[at..at + 8][b] == data[at + b];
    LittleEndianBits(data[at..at + 8], b, i);
  }

  lemma {:induction false} LittleEndianBits(bs: Bytes, b: nat, i: nat)
    requires b < |bs| && i < 8
    ensures Bit(LittleEndian(bs), 8 * b + i) == Bit(bs[b], i)
  {
    if b == 0 {
      LowByteBits(bs[0], LittleEndian(bs[1..]), i);
    } else {
      LittleEndianBits(bs[1..], b - 1, i);
      HighByteBits(bs[0], LittleEndian(bs[1..]), 8 * (b - 1) + i);
    }
  }

  lemma {:induction false} LowByteBits(x: nat, rest: nat, i: nat)
    requires i < 8
    ensures Bit(x + 0x100 * rest, i) == Bit(x, i)
  {
    LowBits(x, rest, 8, i);
  }

  lemma {:induction false} LowBits(x: nat, rest: nat, k: nat, i: nat)
    requires i < k
    ensures Bit(x + Pow2(k) * rest, i) == Bit(x, i)
    decreases i
  {
    var y := x + Pow2(k) * rest;
    assert y == x + 2 * (Pow2(k - 1) * rest);
    if i > 0 {
      LowBits(x / 2, rest, k - 1, i - 1);
    }
  }

  lemma HighByteBits(x: u8, rest: nat, i: nat)
    ensures Bit(x + 0x100 * rest, i + 8) == Bit(rest, i)
  {
    hide Shr, Bit, Pow2;
    ShrBits(x + 0x100 * rest, 8, i);
    ShrDivides(x + 0x100 * rest, 8);
    WordSizes();
    DivModUnique(x + 0x100 * rest, 0x100, rest, x);
  }

  // ---------------------------------------------------------------------------
  // No step loses anything
  // ---------------------------------------------------------------------------

  lemma XorWordsInjective(a: u64, b: u64, c: u64, d: u64)
    requires XorWords(a, c) == XorWords(b, d)
    ensures a == b <==> c == d
  {
    XorCommutes(a, c);
    XorCommutes(b, d);
    if a == b {
      XorInjective(c, d, a);
    } else if c == d {
      XorInjective(a, b, c);
    }
  }

  /** Each key is odd, and its inverse modulo 2^64 undoes the multiplication. */
  function Inverse(k: u64): u64
    requires k == K1 || k == K2 || k == K3
  {
    if k == K1 then 0xF1DE83E19937733D else if k == K2 then 0x96DE1B173F119089 else 0x319642B2D24D8EC3
  }

  lemma TimesInverse(x: u64, k: u64)
    requires k == K1 || k == K2 || k == K3
    ensures Times(Times(x, k), Inverse(k)) == x
  {
    var q: int := x * k / U64_SIZE;
    if k == K1 {
      SameResidue64(Times(x, K1) * 0xF1DE83E19937733D, x, 0x957BBF35006ED677 * x - 0xF1DE83E19937733D * q);
    } else if k == K2 {
      SameResidue64(Times(x, K2) * 0x96DE1B173F119089, x, 0x70C3BCA78F27F46C * x - 0x96DE1B173F119089 * q);
    } else {
      SameResidue64(Times(x, K3) * 0x319642B2D24D8EC3, x, 0x1CD336EDA85F1453 * x - 0x319642B2D24D8EC3 * q);
    }
  }

  lemma SameResidue64(a: int, b: int, t: int)
    requires a == b + U64_SIZE * t
    ensures a % U64_SIZE == b % U64_SIZE
  {
  }

  lemma TimesInjective(x: u64, y: u64, k: u64)
    requires (k == K1 || k == K2 || k == K3) && Times(x, k) == Times(y, k)
    ensures x == y
  {
    hide Times, Inverse;
    TimesInverse(x, k);
    TimesInverse(y, k);
  }

  lemma FoldWordInjective(x: u64, y: u64, k: nat)
    requires k >= 1 && FoldWord(x, k) == FoldWord(y, k)
    ensures x == y
  {
    FoldInjective(x, y, k);
  }

  /** The finalizer maps different words to different words. */
  lemma FhMixInjective(x: u64, y: u64)
    requires FhMix(x) == FhMix(y)
    ensures x == y
  {
    hide Times, FoldWord;
    var a, b := FoldWord(x, SHIFT_A), FoldWord(y, SHIFT_A);
    var c, d := FoldWord(Times(a, K2), SHIFT_B), FoldWord(Times(b, K2), SHIFT_B);
    FoldWordInjective(Times(c, K3), Times(d, K3), SHIFT_C);
    TimesInjective(c, d, K3);
    FoldWordInjective(Times(a, K2), Times(b, K2), SHIFT_B);
    TimesInjective(a, b, K2);
    FoldWordInjective(x, y, SHIFT_A);
  }

  lemma AbsorbInjective(l: u64, m: u64, v: u64, w: u64, k: u64)
    requires (k == K1 || k == K2 || k == K3) && Absorb(l, v, k) == Absorb(m, w, k)
    ensures l == m <==> v == w
  {
    hide Times, XorWords;
    TimesInjective(XorWords(l, v), XorWords(m, w), k);
    XorWordsInjective(l, m, v, w);
  }

  // ---------------------------------------------------------------------------
  // One changed word always shows
  // ---------------------------------------------------------------------------

  function Lane(l: Lanes, c: nat): u64
    requires c < 4
  {
    if c == 0 then l.h0 else if c == 1 then l.h1 else if c == 2 then l.h2 else l.h3
  }

  /** Lanes that differ in one place only. */
  predicate DifferInLane(l: Lanes, m: Lanes, c: nat) {
    c < 4 && Lane(l, c) != Lane(m, c) && forall d :: 0 <= d < 4 && d != c ==> Lane(l, d) == Lane(m, d)
  }

  /** Blocks whose words are the same except for the j-th. */
  predicate DifferInWord(a: Bytes, b: Bytes, j: nat) {
    && |a| == |b| && 8 * j + 8 <= |a| && Load64(a, 8 * j) != Load64(b, 8 * j)
    && forall i {:trigger Load64(a, i)} :: 0 <= i && i % 8 == 0 && i + 8 <= |a| && i != 8 * j ==> Load64(a, i) == Load64(b, i)
  }

  lemma RoundDiffers(l: Lanes, m: Lanes, a: Bytes, b: Bytes, at: nat, c: nat)
    requires at + 32 <= |a| == |b| && c < 4
    requires forall d :: 0 <= d < 4 && d != c ==> Lane(l, d) == Lane(m, d) && Load64(a, at + 8 * d) == Load64(b, at + 8 * d)
    requires Lane(l, c) == Lane(m, c) <==> Load64(a, at + 8 * c) != Load64(b, at + 8 * c)
    ensures DifferInLane(Round(l, a, at), Round(m, b, at), c)
  {
    hide Absorb, Load64;
    forall d | 0 <= d < 4 && d != c ensures Lane(Round(l, a, at), d) == Lane(Round(m, b, at), d) {
      RoundLane(l, a, at, d);
      RoundLane(m, b, at, d);
    }
    RoundLane(l, a, at, c);
    RoundLane(m, b, at, c);
    if Lane(Round(l, a, at), c) == Lane(Round(m, b, at), c) {
      AbsorbInjective(Lane(l, c), Lane(m, c), Load64(a, at + 8 * c), Load64(b, at + 8 * c), LaneKey(c));
    }
  }

  function LaneKey(c: nat): u64 { if c == 1 then K2 else if c == 2 then K3 else K1 }

  lemma RoundLane(l: Lanes, data: Bytes, at: nat, c: nat)
    requires at + 32 <= |data| && c < 4
    ensures Lane(Round(l, data, at), c) == Absorb(Lane(l, c), Load64(data, at + 8 * c), LaneKey(c))
  {
    hide Absorb, Load64;
    assert at + 8 * 0 == at;
  }

  lemma RoundSame(l: Lanes, a: Bytes, b: Bytes, at: nat)
    requires at + 32 <= |a| == |b|
    requires forall d :: 0 <= d < 4 ==> Load64(a, at + 8 * d) == Load64(b, at + 8 * d)
    ensures Round(l, a, at) == Round(l, b, at)
  {
    hide Absorb, Load64;
    assert Load64(a, at + 8 * 0) == Load64(b, at + 8 * 0) && Load64(a, at + 8 * 1) == Load64(b, at + 8 * 1);
    assert Load64(a, at + 8 * 2) == Load64(b, at + 8 * 2) && Load64(a, at + 8 * 3) == Load64(b, at + 8 * 3);
  }

  /** The words of the n-th round, apart from the changed one, are the same. */
  lemma WordsOfRound(a: Bytes, b: Bytes, j: nat, n: nat)
    requires DifferInWord(a, b, j) && 32 * n + 32 <= |a|
    ensures forall d :: 0 <= d < 4 && 4 * n + d != j ==> Load64(a, 32 * n + 8 * d) == Load64(b, 32 * n + 8 * d)
    ensures 4 * n <= j < 4 * n + 4 ==> j % 4 == j - 4 * n && 32 * n + 8 * (j % 4) == 8 * j
  {
    hide Load64;
    forall d | 0 <= d < 4 && 4 * n + d != j ensures Load64(a, 32 * n + 8 * d) == Load64(b, 32 * n + 8 * d) {
      assert (32 * n + 8 * d) % 8 == 0;
    }
  }

  lemma DifferSameLength(a: Bytes, b: Bytes, j: nat)
    requires DifferInWord(a, b, j)
    ensures |a| == |b| && 8 * j + 8 <= |a| && Load64(a, 8 * j) != Load64(b, 8 * j)
  {
  }

  /** The changed word reaches its own lane, and stays there alone. */
  lemma {:induction false} RoundsDiffer(a: Bytes, b: Bytes, j: nat, n: nat)
    requires DifferInWord(a, b, j) && 32 * n <= |a|
    ensures if j < 4 * n then DifferInLane(Rounds(a, n), Rounds(b, n), j % 4) else Rounds(a, n) == Rounds(b, n)
  {
    hide Round, Load64, DifferInWord;
    if n > 0 {
      var m := n - 1;
      RoundsDiffer(a, b, j, m);
      WordsOfRound(a, b, j, m);
      DifferSameLength(a, b, j);
      var x, y := Rounds(a, m), Rounds(b, m);
      if j < 4 * m {
        assert forall d :: 0 <= d < 4 ==> Load64(a, 32 * m + 8 * d) == Load64(b, 32 * m + 8 * d);
        RoundDiffers(x, y, a, b, 32 * m, j % 4);
      } else if j < 4 * n {
        assert forall d :: 0 <= d < 4 && d != j % 4 ==> Load64(a, 32 * m + 8 * d) == Load64(b, 32 * m + 8 * d);
        RoundDiffers(x, y, a, b, 32 * m, j % 4);
      } else {
        RoundSame(x, a, b, 32 * m);
      }
    }
  }

  /** Lanes that differ in one place combine to different words. */
  lemma CombineSees(l: Lanes, m: Lanes, c: nat)
    requires DifferInLane(l, m, c)
    ensures Combine(l) != Combine(m)
  {
    hide Times, XorWords;
    var a, b := XorWords(Times(l.h0, K1), l.h1), XorWords(Times(m.h0, K1), m.h1);
    var d, e := XorWords(Times(a, K2), l.h2), XorWords(Times(b, K2), m.h2);
    assert Lane(l, 0) == l.h0 && Lane(l, 1) == l.h1 && Lane(l, 2) == l.h2 && Lane(l, 3) == l.h3;
    assert Lane(m, 0) == m.h0 && Lane(m, 1) == m.h1 && Lane(m, 2) == m.h2 && Lane(m, 3) == m.h3;
    if Combine(l) == Combine(m) {
      XorWordsInjective(Times(d, K3), Times(e, K3), l.h3, m.h3);
      if c != 3 {
        TimesInjective(d, e, K3);
        XorWordsInjective(Times(a, K2), Times(b, K2), l.h2, m.h2);
        if c != 2 {
          TimesInjective(a, b, K2);
          XorWordsInjective(Times(l.h0, K1), Times(m.h0, K1), l.h1, m.h1);
          if c != 1 {
            TimesInjective(l.h0, m.h0, K1);
          }
        }
      }
    }
  }

  /** Two blocks of either length that differ in one aligned word never share a hash. */
  lemma OneWordSensitivity(a: Bytes, b: Bytes, j: nat)
    requires Supported(a) && DifferInWord(a, b, j)
    ensures HashOf(a) != HashOf(b)
  {
    hide Combine, Rounds, XorWords, FhMix, DifferInLane, Load64;
    var n := |a| / 32;
    RoundsDiffer(a, b, j, n);
    CombineSees(Rounds(a, n), Rounds(b, n), j % 4);
    var x, y := Combine(Rounds(a, n)), Combine(Rounds(b, n));
    if HashOf(a) == HashOf(b) {
      FhMixInjective(XorWords(x, |a|), XorWords(y, |b|));
      XorWordsInjective(x, y, |a|, |b|);
    }
  }

  lemma {:induction false} LittleEndianInjective(a: Bytes, b: Bytes)
    requires |a| == |b| && LittleEndian(a) == LittleEndian(b)
    ensures a == b
  {
    if a != [] {
      assert a[0] == LittleEndian(a) % 0x100 && b[0] == LittleEndian(b) % 0x100;
      LittleEndianInjective(a[1..], b[1..]);
      assert a == [a[0]] + a[1..] && b == [b[0]] + b[1..];
    }
  }

  /** In bytes: a change anywhere within one aligned word changes the hash. */
  lemma OneWordOfBytes(a: Bytes, b: Bytes, j: nat, i: nat)
    requires Supported(a) && |a| == |b| && 8 * j <= i < 8 * j + 8 <= |a| && a[i] != b[i]
    requires forall k :: 0 <= k < |a| && !(8 * j <= k < 8 * j + 8) ==> a[k] == b[k]
    ensures HashOf(a) != HashOf(b)
  {
    hide HashOf, LittleEndian;
    assert a[i] == a[8 * j..8 * j + 8][i - 8 * j] && b[i] == b[8 * j..8 * j + 8][i - 8 * j];
    if Load64(a, 8 * j) == Load64(b, 8 * j) {
      LittleEndianInjective(a[8 * j..8 * j + 8], b[8 * j..8 * j + 8]);
    }
    forall k {:trigger Load64(a, k)} | 0 <= k && k % 8 == 0 && k + 8 <= |a| && k != 8 * j ensures Load64(a, k) == Load64(b, k) {
      assert a[k..k + 8] == b[k..k + 8];
    }
    OneWordSensitivity(a, b, j);
  }
}
