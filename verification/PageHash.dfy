/** The random-sampling page hash and its incremental form.

    A page is its `|nums|` words of 32 bits (HASH_STRENGTH_FULL, at least ten) and
    `nums` is the table of sampled positions. A hash of strength `s` mixes the words
    at virtual indices 0, 1, ..., s - 1, where the indices from HASH_STRENGTH_FULL on
    start again at the head of the table; HASH_STRENGTH_MAX goes ten past it. */
module PageHash {
  import opened Words

  type Page = seq<u32>

  const SEED: u32 := 0xdeadbeef
  const SHIFT_R: nat := 12

  /** A table of sampled positions fits a page when each entry names a word of it. */
  predicate Fits(page: Page, nums: seq<nat>) {
    |nums| >= 10 && |page| == |nums| && forall i :: 0 <= i < |nums| ==> nums[i] < |page|
  }

  function StrengthMax(nums: seq<nat>): nat { |nums| + 10 }

  // ---------------------------------------------------------------------------
  // One mixing step and the step that takes it back
  // ---------------------------------------------------------------------------

  /** `hash += hash << 8` */
  function Spread(x: u32): u32 { (x + x * 0x100 % U32_SIZE) % U32_SIZE }

  /** `hash -= hash << 8; hash += hash << 16` */
  function Unspread(x: u32): u32 {
    var c := (x - x * 0x100 % U32_SIZE) % U32_SIZE;
    (c + c * 0x1_0000 % U32_SIZE) % U32_SIZE
  }

  /** `hash ^= hash >> k` */
  function FoldBy(x: u32, k: nat): u32 {
    WordSizes();
    FoldBounded(x, k, 32);
    FoldRight(x, k)
  }

  function Stir(x: u32): u32 { FoldBy(Spread(x), SHIFT_R) }

  function Unstir(x: u32): u32 { Unspread(FoldBy(FoldBy(x, SHIFT_R), 2 * SHIFT_R)) }

  /** One round of HASH_FROM_TO on the word `w`. */
  function Mix(h: u32, w: u32): u32 { Stir((h + w) % U32_SIZE) }

  /** One round of HASH_FROM_DOWN_TO on the word `w`. */
  function Unmix(h: u32, w: u32): u32 { (Unstir(h) - w) % U32_SIZE }

  /** (1 - 2^8)(1 + 2^16) is the inverse of 1 + 2^8 modulo 2^32, on either side. */
  lemma SpreadInverse(x: u32)
    ensures Unspread(Spread(x)) == x && Spread(Unspread(x)) == x
  {
    UnspreadSpread(x, Spread(x));
    SpreadUnspread(x, Unspread(x));
  }

  lemma UnspreadSpread(x: int, s: u32)
    requires 0 <= x < U32_SIZE && s == Spread(x)
    ensures Unspread(s) == x
  {
    SpreadMultiplies(x);
    UnspreadMultiplies(s);
    var q: int := 257 * x / U32_SIZE;
    SameResidue(-16711935 * (s as int), x, (0 - x) + 16711935 * q);
  }

  lemma SpreadUnspread(x: int, u: u32)
    requires 0 <= x < U32_SIZE && u == Unspread(x)
    ensures Spread(u) == x
  {
    SpreadMultiplies(u);
    UnspreadMultiplies(x);
    var r: int := -16711935 * x / U32_SIZE;
    SameResidue(257 * u, x, (0 - x) - 257 * r);
  }

  lemma SameResidue(a: int, b: int, t: int)
    requires a == b + U32_SIZE * t
    ensures a % U32_SIZE == b % U32_SIZE
  {
  }

  lemma SpreadMultiplies(x: u32)
    ensures Spread(x) == 257 * x % U32_SIZE
  {
  }

  /** 16711935 = 255 * (1 + 2^16) */
  lemma UnspreadMultiplies(x: u32)
    ensures Unspread(x) == -16711935 * x % U32_SIZE
  {
    var c: int := (x - x * 0x100 % U32_SIZE) % U32_SIZE;
    SubtractShifted(x);
    AddShifted(c);
    var q: int := -255 * x / U32_SIZE;
    SameResidue(65537 * c, -16711935 * x, -65537 * q);
  }

  lemma SubtractShifted(x: u32)
    ensures (x - x * 0x100 % U32_SIZE) % U32_SIZE == -255 * x % U32_SIZE
  {
    SameResidue(x - x * 0x100 % U32_SIZE, -255 * x, x * 0x100 / U32_SIZE);
  }

  lemma AddShifted(c: u32)
    ensures (c + c * 0x1_0000 % U32_SIZE) % U32_SIZE == 65537 * c % U32_SIZE
  {
    SameResidue(65537 * c, c + c * 0x1_0000 % U32_SIZE, c * 0x1_0000 / U32_SIZE);
  }

  /** Folding by 12, 12 and 24 folds by 48, which leaves a 32-bit word alone. */
  lemma FoldInverse(x: u32)
    ensures FoldBy(FoldBy(FoldBy(x, SHIFT_R), SHIFT_R), 2 * SHIFT_R) == x
    ensures FoldBy(FoldBy(FoldBy(x, SHIFT_R), 2 * SHIFT_R), SHIFT_R) == x
  {
    WordSizes();
    FoldTwice(x, SHIFT_R);
    FoldTwice(x, 2 * SHIFT_R);
    FoldNothing(x, 4 * SHIFT_R, 32);
    FoldsCommute(FoldBy(x, SHIFT_R), 2 * SHIFT_R, SHIFT_R);
  }

  lemma UnstirStir(x: u32)
    ensures Unstir(Stir(x)) == x
  {
    FoldInverse(Spread(x));
    SpreadInverse(x);
  }

  lemma StirUnstir(x: u32)
    ensures Stir(Unstir(x)) == x
  {
    FoldInverse(x);
    SpreadInverse(FoldBy(FoldBy(x, SHIFT_R), 2 * SHIFT_R));
  }

  lemma UnmixMix(h: u32, w: u32)
    ensures Unmix(Mix(h, w), w) == h
  {
    hide Stir, Unstir;
    UnstirStir((h + w) % U32_SIZE);
    AddThenSubtract(h, w);
  }

  lemma MixUnmix(h: u32, w: u32)
    ensures Mix(Unmix(h, w), w) == h
  {
    hide Stir, Unstir;
    StirUnstir(h);
    AddThenSubtract(Unstir(h), w);
  }

  lemma AddThenSubtract(h: u32, w: u32)
    ensures ((h + w) % U32_SIZE - w) % U32_SIZE == h
    ensures ((h - w) % U32_SIZE + w) % U32_SIZE == h
  {
  }

  lemma MixInjective(h: u32, h': u32, w: u32, w': u32)
    requires Mix(h, w) == Mix(h', w')
    ensures (h == h') == (w == w')
  {
    hide Stir, Unstir;
    UnstirStir((h + w) % U32_SIZE);
    UnstirStir((h' + w') % U32_SIZE);
  }

  /** One step bit by bit: the sum of hash and word, times 1 + 2^8, and each bit of
      that against the one twelve places up. */
  lemma MixBits(h: u32, w: u32, i: nat)
    ensures var x := 257 * (h + w) % 0x1_0000_0000;
      Bit(Mix(h, w), i) == (Bit(x, i) != Bit(x, i + 12))
  {
    var s := (h + w) % U32_SIZE;
    SpreadMultiplies(s);
    SameResidue(257 * (h + w), 257 * s, 257 * ((h + w) / U32_SIZE));
    FoldBits(Spread(s), SHIFT_R, i);
    hide Spread;
  }

  // ---------------------------------------------------------------------------
  // Mixing a run of words
  // ---------------------------------------------------------------------------

  function MixAll(h: u32, ws: seq<u32>): u32 {
    if ws == [] then h else Mix(MixAll(h, ws[..|ws| - 1]), ws[|ws| - 1])
  }

  function UnmixAll(h: u32, ws: seq<u32>): u32
    decreases |ws|
  {
    if ws == [] then h else UnmixAll(Unmix(h, ws[|ws| - 1]), ws[..|ws| - 1])
  }

  lemma {:induction false} UnmixMixAll(h: u32, ws: seq<u32>)
    ensures UnmixAll(MixAll(h, ws), ws) == h
  {
    hide Mix, Unmix;
    if ws != [] {
      UnmixMix(MixAll(h, ws[..|ws| - 1]), ws[|ws| - 1]);
      UnmixMixAll(h, ws[..|ws| - 1]);
    }
  }

  lemma {:induction false} MixUnmixAll(h: u32, ws: seq<u32>)
    ensures MixAll(UnmixAll(h, ws), ws) == h
    decreases |ws|
  {
    hide Mix, Unmix;
    if ws != [] {
      MixUnmixAll(Unmix(h, ws[|ws| - 1]), ws[..|ws| - 1]);
      MixUnmix(h, ws[|ws| - 1]);
    }
  }

  lemma {:induction false} MixAllConcat(h: u32, a: seq<u32>, b: seq<u32>)
    ensures MixAll(h, a + b) == MixAll(MixAll(h, a), b)
  {
    hide Mix;
    if b == [] {
      assert a + b == a;
    } else {
      var c := b[..|b| - 1];
      assert (a + b)[..|a + b| - 1] == a + c;
      MixAllConcat(h, a, c);
    }
  }

  lemma UnmixAllConcat(h: u32, a: seq<u32>, b: seq<u32>)
    ensures UnmixAll(h, a + b) == UnmixAll(UnmixAll(h, b), a)
  {
    var g := UnmixAll(UnmixAll(h, b), a);
    MixAllConcat(g, a, b);
    MixUnmixAll(UnmixAll(h, b), a);
    MixUnmixAll(h, b);
    UnmixMixAll(g, a + b);
  }

  /** Two runs that differ at one place only never mix to the same hash. */
  lemma {:induction false} MixAllSeesOneChange(h: u32, a: seq<u32>, b: seq<u32>, k: nat)
    requires |a| == |b| && k < |a| && a[k] != b[k]
    requires forall i :: 0 <= i < |a| && i != k ==> a[i] == b[i]
    ensures MixAll(h, a) != MixAll(h, b)
  {
    hide Mix;
    var n := |a| - 1;
    if k == n {
      assert a[..n] == b[..n];
      if MixAll(h, a) == MixAll(h, b) {
        MixInjective(MixAll(h, a[..n]), MixAll(h, b[..n]), a[n], b[n]);
      }
    } else {
      MixAllSeesOneChange(h, a[..n], b[..n], k);
      if MixAll(h, a) == MixAll(h, b) {
        MixInjective(MixAll(h, a[..n]), MixAll(h, b[..n]), a[n], b[n]);
      }
    }
  }

  // ---------------------------------------------------------------------------
  // Sampled words, hashes and rehashing
  // ---------------------------------------------------------------------------

  /** The entry of the table behind a virtual index: past the end it starts again. */
  function Slot(v: nat, full: nat): nat
    requires full >= 10 && v < full + 10
  {
    if v < full then v else v - full
  }

  /** The words of the page at virtual indices i, ..., j - 1. */
  function Window(page: Page, nums: seq<nat>, i: nat, j: nat): (ws: seq<u32>)
    requires Fits(page, nums) && i <= j <= StrengthMax(nums)
    ensures |ws| == j - i
  {
    seq(j - i, k requires 0 <= k < j - i => page[nums[Slot(i + k, |nums|)]])
  }

  /** The hash of a page at a strength, from scratch. */
  function SampleHash(page: Page, nums: seq<nat>, strength: nat): u32
    requires Fits(page, nums) && strength <= StrengthMax(nums)
  {
    MixAll(SEED, Window(page, nums, 0, strength))
  }

  /** What moving a hash from one strength to another means: mix the words in
      between, or take them out again, last one first. */
  function Rehash(page: Page, nums: seq<nat>, from: nat, to: nat, hash: u32): u32
    requires Fits(page, nums) && from <= StrengthMax(nums) && to <= StrengthMax(nums)
  {
    if from <= to then MixAll(hash, Window(page, nums, from, to))
    else UnmixAll(hash, Window(page, nums, to, from))
  }

  /** Nothing sampled leaves the seed; one word more is one step more. */
  lemma SampleHashSteps(page: Page, nums: seq<nat>, strength: nat)
    requires Fits(page, nums) && strength < StrengthMax(nums)
    ensures SampleHash(page, nums, 0) == 0xdeadbeef
    ensures var v := if strength < |nums| then strength else strength - |nums|;
      SampleHash(page, nums, strength + 1) == Mix(SampleHash(page, nums, strength), page[nums[v]])
  {
    hide Mix, MixAll;
    var ws, last := Window(page, nums, 0, strength), Window(page, nums, strength, strength + 1);
    WindowSplits(page, nums, 0, strength, strength + 1);
    assert last == [page[nums[Slot(strength + 0, |nums|)]]];
    MixOne(SEED, ws, last[0]);
    NoWordsMixed(SEED, Window(page, nums, 0, 0));
  }

  lemma NoWordsMixed(h: u32, ws: seq<u32>)
    requires ws == []
    ensures MixAll(h, ws) == h
  {
  }

  lemma WindowSplits(page: Page, nums: seq<nat>, i: nat, j: nat, k: nat)
    requires Fits(page, nums) && i <= j <= k <= StrengthMax(nums)
    ensures Window(page, nums, i, j) + Window(page, nums, j, k) == Window(page, nums, i, k)
  {
    var a, b, c := Window(page, nums, i, j), Window(page, nums, j, k), Window(page, nums, i, k);
    forall v | 0 <= v < k - i ensures (a + b)[v] == c[v] {
      if v >= j - i {
        assert j + (v - (j - i)) == i + v;
      }
    }
  }

  lemma WindowGrows(page: Page, nums: seq<nat>, i: nat, j: nat)
    requires Fits(page, nums) && i <= j < |nums|
    ensures Window(page, nums, i, j + 1) == Window(page, nums, i, j) + [page[nums[j]]]
  {
    WindowSplits(page, nums, i, j, j + 1);
    assert Window(page, nums, j, j + 1)[0] == page[nums[Slot(j + 0, |nums|)]];
  }

  lemma MixOne(h: u32, ws: seq<u32>, w: u32)
    ensures MixAll(h, ws + [w]) == Mix(MixAll(h, ws), w)
    ensures UnmixAll(h, ws + [w]) == UnmixAll(Unmix(h, w), ws)
  {
    hide Mix, Unmix;
    assert (ws + [w])[..|ws + [w]| - 1] == ws;
  }

  /** Past HASH_STRENGTH_FULL the sampled words are those at the head of the table. */
  lemma WindowWraps(page: Page, nums: seq<nat>, i: nat, j: nat)
    requires Fits(page, nums) && i <= j <= 10
    ensures Window(page, nums, |nums| + i, |nums| + j) == Window(page, nums, i, j)
  {
    forall k | 0 <= k < j - i
      ensures Window(page, nums, |nums| + i, |nums| + j)[k] == Window(page, nums, i, j)[k]
    {
      assert Slot(|nums| + i + k, |nums|) == i + k == Slot(i + k, |nums|);
    }
  }

  lemma RehashFromOrigin(page: Page, nums: seq<nat>, a: nat, b: nat, origin: u32)
    requires Fits(page, nums) && a <= StrengthMax(nums) && b <= StrengthMax(nums)
    ensures Rehash(page, nums, a, b, MixAll(origin, Window(page, nums, 0, a)))
         == MixAll(origin, Window(page, nums, 0, b))
  {
    if a <= b {
      WindowSplits(page, nums, 0, a, b);
      MixAllConcat(origin, Window(page, nums, 0, a), Window(page, nums, a, b));
    } else {
      WindowSplits(page, nums, 0, b, a);
      MixAllConcat(origin, Window(page, nums, 0, b), Window(page, nums, b, a));
      UnmixMixAll(MixAll(origin, Window(page, nums, 0, b)), Window(page, nums, b, a));
    }
  }

  /** Moving the hash of a page between any two strengths gives the hash that
      sampling the page at the new strength gives. */
  lemma IncrementalIsFromScratch(page: Page, nums: seq<nat>, from: nat, to: nat)
    requires Fits(page, nums) && from <= StrengthMax(nums) && to <= StrengthMax(nums)
    ensures Rehash(page, nums, from, to, SampleHash(page, nums, from)) == SampleHash(page, nums, to)
  {
    RehashFromOrigin(page, nums, from, to, SEED);
  }

  /** From any hash, sampled or not, two moves are one, whatever lies in between. */
  lemma RehashPathIndependent(page: Page, nums: seq<nat>, a: nat, b: nat, c: nat, hash: u32)
    requires Fits(page, nums)
    requires a <= StrengthMax(nums) && b <= StrengthMax(nums) && c <= StrengthMax(nums)
    ensures Rehash(page, nums, b, c, Rehash(page, nums, a, b, hash)) == Rehash(page, nums, a, c, hash)
  {
    var origin := UnmixAll(hash, Window(page, nums, 0, a));
    MixUnmixAll(hash, Window(page, nums, 0, a));
    RehashFromOrigin(page, nums, a, b, origin);
    RehashFromOrigin(page, nums, b, c, origin);
    RehashFromOrigin(page, nums, a, c, origin);
  }

  /** Moving back undoes a move, from any hash and in either direction. */
  lemma RehashUndoes(page: Page, nums: seq<nat>, a: nat, b: nat, hash: u32)
    requires Fits(page, nums) && a <= StrengthMax(nums) && b <= StrengthMax(nums)
    ensures Rehash(page, nums, b, a, Rehash(page, nums, a, b, hash)) == hash
  {
    RehashPathIndependent(page, nums, a, b, a, hash);
    assert Window(page, nums, a, a) == [];
  }

  // ---------------------------------------------------------------------------
  // The loops
  // ---------------------------------------------------------------------------

  /** HASH_FROM_TO */
  method HashFromTo(page: Page, nums: seq<nat>, from: nat, to: nat, hash: u32) returns (r: u32)
    requires Fits(page, nums) && from <= to <= |nums|
    ensures r == MixAll(hash, Window(page, nums, from, to))
  {
    hide Mix;
    r := hash;
    for index := from to to
      invariant r == MixAll(hash, Window(page, nums, from, index))
    {
      WindowGrows(page, nums, from, index);
      var pos := nums[index];
      MixOne(hash, Window(page, nums, from, index), page[pos]);
      r := Mix(r, page[pos]);
    }
  }

  /** HASH_FROM_DOWN_TO; the signed index ends one below `to`. */
  method HashFromDownTo(page: Page, nums: seq<nat>, from: nat, to: nat, hash: u32) returns (r: u32)
    requires Fits(page, nums) && to <= from <= |nums|
    ensures r == UnmixAll(hash, Window(page, nums, to, from))
  {
    hide Unmix;
    r := hash;
    var index: int := from - 1;
    while index >= to
      invariant to - 1 <= index < from
      invariant UnmixAll(r, Window(page, nums, to, index + 1)) == UnmixAll(hash, Window(page, nums, to, from))
    {
      WindowGrows(page, nums, to, index);
      var pos := nums[index];
      MixOne(r, Window(page, nums, to, index), page[pos]);
      r := Unmix(r, page[pos]);
      index := index - 1;
    }
  }

  method RandomSampleHash(page: Page, nums: seq<nat>, strength: nat) returns (hash: u32)
    requires Fits(page, nums) && strength <= StrengthMax(nums)
    ensures hash == SampleHash(page, nums, strength)
  {
    var full := |nums|;
    hash := SEED;
    var loop := strength;
    if loop > full {
      loop := full;
    }
    hash := HashFromTo(page, nums, 0, loop, hash);
    if strength > full {
      loop := strength - full;
      hash := HashFromTo(page, nums, 0, loop, hash);
      WindowWraps(page, nums, 0, loop);
      WindowSplits(page, nums, 0, full, strength);
      MixAllConcat(SEED, Window(page, nums, 0, full), Window(page, nums, full, strength));
    }
  }

  lemma EmptyMove(page: Page, nums: seq<nat>, s: nat, hash: u32)
    requires Fits(page, nums) && s <= StrengthMax(nums)
    ensures MixAll(hash, Window(page, nums, s, s)) == UnmixAll(hash, Window(page, nums, s, s)) == hash
  {
  }

  method DeltaHash(page: Page, nums: seq<nat>, from: nat, to: nat, hash: u32) returns (r: u32)
    requires Fits(page, nums) && from <= StrengthMax(nums) && to <= StrengthMax(nums)
    ensures r == Rehash(page, nums, from, to, hash)
  {
    hide Window, MixAll, UnmixAll;
    var full := |nums|;
    if to > from {
      if from >= full {
        r := HashFromTo(page, nums, from - full, to - full, hash);
        WindowWraps(page, nums, from - full, to - full);
      } else if to <= full {
        r := HashFromTo(page, nums, from, to, hash);
      } else {
        r := HashFromTo(page, nums, from, full, hash);
        r := HashFromTo(page, nums, 0, to - full, r);
        WindowWraps(page, nums, 0, to - full);
        WindowSplits(page, nums, from, full, to);
        MixAllConcat(hash, Window(page, nums, from, full), Window(page, nums, full, to));
      }
    } else {
      EmptyMove(page, nums, from, hash);
      if from <= full {
        r := HashFromDownTo(page, nums, from, to, hash);
      } else if to >= full {
        r := HashFromDownTo(page, nums, from - full, to - full, hash);
        WindowWraps(page, nums, to - full, from - full);
      } else {
        r := HashFromDownTo(page, nums, from - full, 0, hash);
        r := HashFromDownTo(page, nums, full, to, r);
        WindowWraps(page, nums, 0, from - full);
        WindowSplits(page, nums, to, full, from);
        UnmixAllConcat(hash, Window(page, nums, to, full), Window(page, nums, full, from));
      }
    }
  }
}
