/** The table of sampled positions, what a hash over it can see, and the hashes of
    the zero page. */
module Sampling {
  import opened Words
  import opened PageHash
  import opened Lists
  import Counting

  // ---------------------------------------------------------------------------
  // Permutations
  // ---------------------------------------------------------------------------

  ghost predicate Inverts(nums: seq<nat>, inv: seq<nat>) {
    && |inv| == |nums|
    && (forall i :: 0 <= i < |nums| ==> nums[i] < |nums| && inv[nums[i]] == i)
    && (forall w :: 0 <= w < |inv| ==> inv[w] < |nums| && nums[inv[w]] == w)
  }

  /** Every position is named once and only once. */
  ghost predicate IsPermutation(nums: seq<nat>) {
    exists inv :: Inverts(nums, inv)
  }

  function Identity(n: nat): (s: seq<nat>)
    ensures |s| == n
  {
    seq(n, i => i)
  }

  function Swap(s: seq<nat>, i: nat, j: nat): (r: seq<nat>)
    requires i < |s| && j < |s|
    ensures |r| == |s| && r[i] == s[j] && r[j] == s[i]
  {
    s[i := s[j]][j := s[i]]
  }

  /** An offset for each place, none reaching past the end. */
  predicate Offsets(offs: seq<nat>) {
    forall i :: 0 <= i < |offs| ==> offs[i] < |offs| - i
  }

  /** The shuffle from place `i` on: each place trades with one not yet settled. */
  function Shuffle(nums: seq<nat>, offs: seq<nat>, i: nat): (r: seq<nat>)
    requires |offs| == |nums| && Offsets(offs) && i <= |nums|
    ensures |r| == |nums|
    decreases |nums| - i
  {
    if i == |nums| then nums else Shuffle(Swap(nums, i, i + offs[i]), offs, i + 1)
  }

  lemma IdentityPermutes(n: nat)
    ensures IsPermutation(Identity(n))
  {
    assert Inverts(Identity(n), Identity(n));
  }

  lemma IsIdentity(s: seq<nat>)
    requires forall k :: 0 <= k < |s| ==> s[k] == k
    ensures s == Identity(|s|)
  {
  }

  lemma SwapPermutes(nums: seq<nat>, i: nat, j: nat)
    requires IsPermutation(nums) && i < |nums| && j < |nums|
    ensures IsPermutation(Swap(nums, i, j))
  {
    var inv :| Inverts(nums, inv);
    assert Inverts(Swap(nums, i, j), Swap(inv, nums[i], nums[j]));
  }

  /** Whatever is drawn, the shuffle ends with a permutation. */
  lemma {:induction false} ShufflePermutes(nums: seq<nat>, offs: seq<nat>, i: nat)
    requires |offs| == |nums| && Offsets(offs) && i <= |nums| && IsPermutation(nums)
    ensures IsPermutation(Shuffle(nums, offs, i))
    decreases |nums| - i
  {
    if i < |nums| {
      SwapPermutes(nums, i, i + offs[i]);
      ShufflePermutes(Swap(nums, i, i + offs[i]), offs, i + 1);
    }
  }

  /** Places already passed are settled. */
  lemma {:induction false} ShuffleSettles(nums: seq<nat>, offs: seq<nat>, i: nat, k: nat)
    requires |offs| == |nums| && Offsets(offs) && k < i <= |nums|
    ensures Shuffle(nums, offs, i)[k] == nums[k]
    decreases |nums| - i
  {
    if i < |nums| {
      ShuffleSettles(Swap(nums, i, i + offs[i]), offs, i + 1, k);
    }
  }

  predicate AgreeBelow(a: seq<nat>, b: seq<nat>, i: nat)
    requires |a| == |b| && i <= |a|
  {
    forall k :: 0 <= k < i ==> a[k] == b[k]
  }

  /** The next wanted entry is still among the unsettled ones; trading it in settles it. */
  lemma FindUnsettled(nums: seq<nat>, p: seq<nat>, i: nat) returns (j: nat)
    requires IsPermutation(nums) && IsPermutation(p) && |nums| == |p| && i < |p|
    requires AgreeBelow(nums, p, i)
    ensures i <= j < |nums| && AgreeBelow(Swap(nums, i, j), p, i + 1)
    ensures IsPermutation(Swap(nums, i, j))
  {
    var inv :| Inverts(nums, inv);
    var pinv :| Inverts(p, pinv);
    j := inv[p[i]];
    forall k | 0 <= k < i ensures nums[k] != p[i] {
      assert pinv[p[k]] == k && pinv[p[i]] == i;
    }
    SwapPermutes(nums, i, j);
  }

  /** Every permutation comes out of the shuffle for some offsets ... */
  lemma {:induction false} ShuffleReaches(nums: seq<nat>, p: seq<nat>, i: nat) returns (offs: seq<nat>)
    requires IsPermutation(nums) && IsPermutation(p) && |nums| == |p| && i <= |p|
    requires AgreeBelow(nums, p, i)
    ensures |offs| == |nums| && Offsets(offs) && Shuffle(nums, offs, i) == p
    decreases |nums| - i
  {
    if i == |nums| {
      offs := seq(|nums|, k => 0);
    } else {
      hide IsPermutation;
      var j := FindUnsettled(nums, p, i);
      var rest := ShuffleReaches(Swap(nums, i, j), p, i + 1);
      offs := rest[i := j - i];
      ShuffleIgnoresPast(Swap(nums, i, j), rest, offs, i + 1);
    }
  }

  lemma {:induction false} ShuffleIgnoresPast(nums: seq<nat>, a: seq<nat>, b: seq<nat>, i: nat)
    requires |a| == |b| == |nums| && Offsets(a) && Offsets(b) && i <= |nums|
    requires forall k :: i <= k < |a| ==> a[k] == b[k]
    ensures Shuffle(nums, a, i) == Shuffle(nums, b, i)
    decreases |nums| - i
  {
    if i < |nums| {
      ShuffleIgnoresPast(Swap(nums, i, i + a[i]), a, b, i + 1);
    }
  }

  /** ... and for no others. */
  lemma {:induction false} ShuffleDistinguishes(nums: seq<nat>, a: seq<nat>, b: seq<nat>, i: nat)
    requires |a| == |b| == |nums| && Offsets(a) && Offsets(b) && i <= |nums| && IsPermutation(nums)
    requires Shuffle(nums, a, i) == Shuffle(nums, b, i)
    ensures forall k :: i <= k < |nums| ==> a[k] == b[k]
    decreases |nums| - i
  {
    hide IsPermutation;
    if i < |nums| {
      var na, nb := Swap(nums, i, i + a[i]), Swap(nums, i, i + b[i]);
      ShuffleSettles(na, a, i + 1, i);
      ShuffleSettles(nb, b, i + 1, i);
      NamedOnce(nums, i + a[i], i + b[i]);
      SwapPermutes(nums, i, i + a[i]);
      ShuffleDistinguishes(na, a, b, i + 1);
    }
  }

  lemma NamedOnce(nums: seq<nat>, i: nat, j: nat)
    requires IsPermutation(nums) && i < |nums| && j < |nums| && nums[i] == nums[j]
    ensures i == j
  {
    var inv :| Inverts(nums, inv);
    assert inv[nums[i]] == i && inv[nums[j]] == j;
  }

  /** The shuffle pairs the vectors of offsets with the permutations, one to one. */
  lemma ShuffleIsBijective(p: seq<nat>) returns (offs: seq<nat>)
    requires IsPermutation(p)
    ensures |offs| == |p| && Offsets(offs) && Shuffle(Identity(|p|), offs, 0) == p
    ensures forall o :: |o| == |p| && Offsets(o) && Shuffle(Identity(|p|), o, 0) == p ==> o == offs
  {
    IdentityPermutes(|p|);
    offs := ShuffleReaches(Identity(|p|), p, 0);
    forall o | |o| == |p| && Offsets(o) && Shuffle(Identity(|p|), o, 0) == p ensures o == offs {
      ShuffleDistinguishes(Identity(|p|), o, offs, 0);
    }
  }

  /** What the raw random words come to: the offset at place `i` is the draw modulo
      the number of places left. */
  function OffsetsOf(draws: seq<u32>): (offs: seq<nat>)
    ensures |offs| == |draws| && Offsets(offs)
  {
    seq(|draws|, i requires 0 <= i < |draws| => draws[i] % (|draws| - i))
  }

  /** The offset is below the number of places left, and differs from the draw by a
      multiple of it. */
  lemma OffsetIsRemainder(draws: seq<u32>, i: nat) returns (q: nat)
    requires i < |draws|
    ensures OffsetsOf(draws)[i] < |draws| - i && draws[i] == q * (|draws| - i) + OffsetsOf(draws)[i]
  {
    q := draws[i] / (|draws| - i);
  }

  /** Where the entry at place `k` in the end stood before the trades from `i` on, going
      back through them one by one. */
  function Origin(offs: seq<nat>, i: nat, k: nat): (p: nat)
    requires Offsets(offs) && i <= |offs| && k < |offs|
    ensures p < |offs|
    decreases |offs| - i
  {
    if i == |offs| then k
    else
      var p := Origin(offs, i + 1, k);
      if p == i then i + offs[i] else if p == i + offs[i] then i else p
  }

  /** The shuffle is its trades, first to last: followed back, each entry comes from
      its origin. */
  lemma {:induction false} ShuffleTraces(nums: seq<nat>, offs: seq<nat>, i: nat, k: nat)
    requires |offs| == |nums| && Offsets(offs) && i <= |nums| && k < |nums|
    ensures Shuffle(nums, offs, i)[k] == nums[Origin(offs, i, k)]
    decreases |nums| - i
  {
    if i < |nums| {
      ShuffleTraces(Swap(nums, i, i + offs[i]), offs, i + 1, k);
    }
  }

  /** Every permutation of at most 2^32 places is drawn by some random words. */
  lemma EveryPermutationDrawn(p: seq<nat>) returns (draws: seq<u32>)
    requires IsPermutation(p) && |p| <= U32_SIZE
    ensures |draws| == |p| && Shuffle(Identity(|p|), OffsetsOf(draws), 0) == p
  {
    hide Shuffle, IsPermutation;
    var offs := ShuffleIsBijective(p);
    draws := OffsetsDrawn(offs);
  }

  /** An offset is its own remainder. */
  lemma OffsetsDrawn(offs: seq<nat>) returns (draws: seq<u32>)
    requires Offsets(offs) && |offs| <= U32_SIZE
    ensures |draws| == |offs| && OffsetsOf(draws) == offs
  {
    draws := seq(|offs|, i requires 0 <= i < |offs| => offs[i]);
    forall i | 0 <= i < |offs| ensures OffsetsOf(draws)[i] == offs[i] {
      SmallRemainder(draws[i], |offs| - i);
    }
  }

  lemma SmallRemainder(x: nat, m: nat)
    requires x < m
    ensures x % m == x
  {
  }

  /** The two loops of `init_random_sampling` over the table. */
  method InitRandomNums(randomNums: array<nat>, draws: seq<u32>)
    requires |draws| == randomNums.Length
    modifies randomNums
    ensures randomNums[..] == Shuffle(Identity(|draws|), OffsetsOf(draws), 0)
    ensures IsPermutation(randomNums[..])
  {
    hide IsPermutation, Identity, OffsetsOf, Shuffle, Swap;
    var full := randomNums.Length;
    var i := 0;
    while i < full
      invariant i <= full
      invariant forall k :: 0 <= k < i ==> randomNums[k] == k
    {
      randomNums[i] := i;
      i := i + 1;
    }
    IsIdentity(randomNums[..]);
    IdentityPermutes(full);
    ghost var offs := OffsetsOf(draws);
    ShufflePermutes(Identity(full), offs, 0);
    i := 0;
    while i < full
      invariant i <= full
      invariant Shuffle(randomNums[..], offs, i) == Shuffle(Identity(full), offs, 0)
    {
      ghost var before := randomNums[..];
      var randRange := full - i;
      DrawnOffset(draws, i);
      var swapIndex := i + draws[i] % randRange;
      var tmp := randomNums[i];
      randomNums[i] := randomNums[swapIndex];
      randomNums[swapIndex] := tmp;
      IsSwap(before, randomNums[..], i, swapIndex);
      ShuffleStep(before, offs, i);
      i := i + 1;
    }
    ShuffleEnds(randomNums[..], offs);
  }

  lemma DrawnOffset(draws: seq<u32>, i: nat)
    requires i < |draws|
    ensures OffsetsOf(draws)[i] == draws[i] % (|draws| - i) < |draws| - i
  {
  }

  lemma IsSwap(s: seq<nat>, r: seq<nat>, i: nat, j: nat)
    requires i < |s| && j < |s| && |r| == |s| && r[i] == s[j] && r[j] == s[i]
    requires forall k :: 0 <= k < |s| && k != i && k != j ==> r[k] == s[k]
    ensures r == Swap(s, i, j)
  {
  }

  lemma ShuffleStep(nums: seq<nat>, offs: seq<nat>, i: nat)
    requires |offs| == |nums| && Offsets(offs) && i < |nums|
    ensures Shuffle(nums, offs, i) == Shuffle(Swap(nums, i, i + offs[i]), offs, i + 1)
  {
  }

  lemma ShuffleEnds(nums: seq<nat>, offs: seq<nat>)
    requires |offs| == |nums| && Offsets(offs)
    ensures Shuffle(nums, offs, |nums|) == nums
  {
  }

  // ---------------------------------------------------------------------------
  // What a hash sees of a change in one word
  // ---------------------------------------------------------------------------

  /** Two pages that differ in the word `w` and nowhere else. */
  predicate DifferAt(p: Page, q: Page, w: nat) {
    |p| == |q| && w < |p| && p[w] != q[w] && forall x :: 0 <= x < |p| && x != w ==> p[x] == q[x]
  }

  /** The word `w` is read at virtual index `v` and at no other in [i, j). */
  predicate ReadOnce(nums: seq<nat>, w: nat, i: nat, j: nat, v: nat)
    requires |nums| >= 10 && i <= j <= StrengthMax(nums)
  {
    i <= v < j && nums[Slot(v, |nums|)] == w
    && forall u :: i <= u < j && u != v ==> nums[Slot(u, |nums|)] != w
  }

  predicate NeverRead(nums: seq<nat>, w: nat, i: nat, j: nat)
    requires |nums| >= 10 && i <= j <= StrengthMax(nums)
  {
    forall u :: i <= u < j ==> nums[Slot(u, |nums|)] != w
  }

  lemma OneReadTells(p: Page, q: Page, nums: seq<nat>, w: nat, i: nat, j: nat, v: nat, h: u32)
    requires Fits(p, nums) && DifferAt(p, q, w) && i <= j <= StrengthMax(nums)
    requires ReadOnce(nums, w, i, j, v)
    ensures MixAll(h, Window(p, nums, i, j)) != MixAll(h, Window(q, nums, i, j))
  {
    var a, b := Window(p, nums, i, j), Window(q, nums, i, j);
    forall k | 0 <= k < j - i && k != v - i ensures a[k] == b[k] {
      assert nums[Slot(i + k, |nums|)] != w;
    }
    assert a[v - i] == p[nums[Slot(i + (v - i), |nums|)]] && b[v - i] == q[nums[Slot(i + (v - i), |nums|)]];
    MixAllSeesOneChange(h, a, b, v - i);
  }

  lemma NoReadHides(p: Page, q: Page, nums: seq<nat>, w: nat, i: nat, j: nat)
    requires Fits(p, nums) && DifferAt(p, q, w) && i <= j <= StrengthMax(nums)
    requires NeverRead(nums, w, i, j)
    ensures Window(p, nums, i, j) == Window(q, nums, i, j)
  {
    forall k | 0 <= k < j - i ensures Window(p, nums, i, j)[k] == Window(q, nums, i, j)[k] {
      assert nums[Slot(i + k, |nums|)] != w;
    }
  }

  /** Up to HASH_STRENGTH_FULL a change of one word shows exactly when its position
      is among those sampled. */
  lemma OneWordDetected(p: Page, q: Page, nums: seq<nat>, w: nat, strength: nat)
    requires Fits(p, nums) && IsPermutation(nums) && DifferAt(p, q, w) && strength <= |nums|
    ensures SampleHash(p, nums, strength) != SampleHash(q, nums, strength)
       <==> exists k :: 0 <= k < strength && nums[k] == w
  {
    var inv :| Inverts(nums, inv);
    if k :| 0 <= k < strength && nums[k] == w {
      assert ReadOnce(nums, w, 0, strength, k) by {
        forall u | 0 <= u < strength && u != k ensures nums[Slot(u, |nums|)] != w {
          assert inv[nums[u]] == u && inv[nums[k]] == k;
        }
      }
      OneReadTells(p, q, nums, w, 0, strength, k, SEED);
    } else {
      NoReadHides(p, q, nums, w, 0, strength);
    }
  }

  /** Beyond it every word is sampled, and those sampled once still always show. */
  lemma OneWordDetectedBeyondFull(p: Page, q: Page, nums: seq<nat>, w: nat, strength: nat, k: nat)
    requires Fits(p, nums) && IsPermutation(nums) && DifferAt(p, q, w)
    requires |nums| <= strength <= StrengthMax(nums)
    requires strength - |nums| <= k < |nums| && nums[k] == w
    ensures SampleHash(p, nums, strength) != SampleHash(q, nums, strength)
  {
    var inv :| Inverts(nums, inv);
    forall u | 0 <= u < strength && u != k ensures nums[Slot(u, |nums|)] != w {
      assert inv[nums[Slot(u, |nums|)]] == Slot(u, |nums|) && inv[nums[k]] == k;
    }
    OneReadTells(p, q, nums, w, 0, strength, k, SEED);
  }

  // ---------------------------------------------------------------------------
  // All the contents of one word
  // ---------------------------------------------------------------------------

  /** What the words at virtual indices i, ..., j - 1 mix to with another content of
      the word at place `k` of the table. */
  function StateWith(page: Page, nums: seq<nat>, k: nat, i: nat, j: nat, h: u32, v: u32): u32
    requires Fits(page, nums) && k < |nums| && i <= j <= StrengthMax(nums)
  {
    MixAll(h, Window(page[nums[k] := v], nums, i, j))
  }

  /** Where the word at place `k` is read. */
  lemma PlacesRead(nums: seq<nat>, k: nat, u: nat)
    requires |nums| >= 10 && IsPermutation(nums) && k < |nums| && u < StrengthMax(nums)
    ensures nums[Slot(u, |nums|)] == nums[k] <==> u == k || u == |nums| + k
  {
    if nums[Slot(u, |nums|)] == nums[k] {
      NamedOnce(nums, Slot(u, |nums|), k);
    }
  }

  lemma StatesDiffer(page: Page, nums: seq<nat>, k: nat, i: nat, j: nat, at: nat, h: u32, u: u32, v: u32)
    requires Fits(page, nums) && k < |nums| && i <= j <= StrengthMax(nums) && u != v
    requires ReadOnce(nums, nums[k], i, j, at)
    ensures StateWith(page, nums, k, i, j, h, u) != StateWith(page, nums, k, i, j, h, v)
  {
    hide MixAll, Window, ReadOnce;
    OneReadTells(page[nums[k] := u], page[nums[k] := v], nums, nums[k], i, j, at, h);
  }

  /** The states after a stretch that reads the word once are as many as its contents. */
  lemma StatesDistinct(page: Page, nums: seq<nat>, k: nat, i: nat, j: nat, at: nat, h: u32) returns (states: seq<nat>)
    requires Fits(page, nums) && k < |nums| && i <= j <= StrengthMax(nums)
    requires ReadOnce(nums, nums[k], i, j, at)
    ensures |states| == U32_SIZE && Distinct(states) && Counting.Below(states, U32_SIZE)
    ensures forall v: u32 :: states[v] == StateWith(page, nums, k, i, j, h, v)
  {
    hide StateWith, ReadOnce;
    states := seq(U32_SIZE, v requires 0 <= v < U32_SIZE => StateWith(page, nums, k, i, j, h, v));
    forall u, v | 0 <= u < v < |states| ensures states[u] != states[v] {
      StatesDiffer(page, nums, k, i, j, at, h, u, v);
    }
  }

  /** So some content of the word brings about any hash whatever. */
  lemma EveryStateTaken(page: Page, nums: seq<nat>, k: nat, i: nat, j: nat, at: nat, h: u32, target: u32)
    returns (v: u32)
    requires Fits(page, nums) && k < |nums| && i <= j <= StrengthMax(nums)
    requires ReadOnce(nums, nums[k], i, j, at)
    ensures StateWith(page, nums, k, i, j, h, v) == target
  {
    hide StateWith, ReadOnce, Counting.Below, Distinct;
    var states := StatesDistinct(page, nums, k, i, j, at, h);
    Counting.NoneLeftOut(states, target);
    var w :| 0 <= w < |states| && states[w] == target;
    v := w;
  }

  // ---------------------------------------------------------------------------
  // A word read twice
  // ---------------------------------------------------------------------------

  lemma ReadOnceSoFar(nums: seq<nat>, k: nat, i: nat)
    requires |nums| >= 10 && IsPermutation(nums) && i <= k < 10
    ensures ReadOnce(nums, nums[k], i, |nums| + k, k)
  {
    forall u | i <= u < |nums| + k && nums[Slot(u, |nums|)] == nums[k] ensures u == k {
      PlacesRead(nums, k, u);
    }
  }

  lemma UnreadAfter(nums: seq<nat>, k: nat, j: nat)
    requires |nums| >= 10 && IsPermutation(nums) && k < 10 && |nums| + k < j <= StrengthMax(nums)
    ensures NeverRead(nums, nums[k], |nums| + k + 1, j)
  {
    forall u | |nums| + k + 1 <= u < j ensures nums[Slot(u, |nums|)] != nums[k] {
      PlacesRead(nums, k, u);
    }
  }

  lemma OneWordWindow(p: Page, nums: seq<nat>, k: nat)
    requires Fits(p, nums) && k < 10
    ensures Window(p, nums, |nums| + k, |nums| + k + 1) == [p[nums[k]]]
  {
    var m := |nums| + k;
    assert Window(p, nums, m, m + 1)[0] == p[nums[Slot(m + 0, |nums|)]];
  }

  /** The second reading and what follows it. */
  lemma AfterSecondRead(p: Page, nums: seq<nat>, k: nat, i: nat, j: nat, h: u32)
    requires Fits(p, nums) && i <= k < 10 && |nums| + k < j <= StrengthMax(nums)
    ensures MixAll(h, Window(p, nums, i, j))
         == MixAll(Mix(MixAll(h, Window(p, nums, i, |nums| + k)), p[nums[k]]), Window(p, nums, |nums| + k + 1, j))
  {
    hide Mix, MixAll, Window;
    var m := |nums| + k;
    WindowSplits(p, nums, i, m, m + 1);
    WindowSplits(p, nums, i, m + 1, j);
    OneWordWindow(p, nums, k);
    MixOne(h, Window(p, nums, i, m), p[nums[k]]);
    MixAllConcat(h, Window(p, nums, i, m + 1), Window(p, nums, m + 1, j));
  }

  /** The state before the second reading and the content of the word come to the same
      sum on both pages. */
  predicate Cancels(p: Page, q: Page, nums: seq<nat>, k: nat, i: nat, h: u32)
    requires Fits(p, nums) && Fits(q, nums) && i <= k < 10
  {
    (MixAll(h, Window(p, nums, i, |nums| + k)) + p[nums[k]]) % U32_SIZE
    == (MixAll(h, Window(q, nums, i, |nums| + k)) + q[nums[k]]) % U32_SIZE
  }

  lemma MixDependsOnSum(a: u32, b: u32, v: u32, w: u32)
    ensures Mix(a, v) == Mix(b, w) <==> (a + v) % U32_SIZE == (b + w) % U32_SIZE
  {
    hide Stir, Unstir;
    UnstirStir((a + v) % U32_SIZE);
    UnstirStir((b + w) % U32_SIZE);
  }

  lemma MixAllInjective(g: u32, h: u32, ws: seq<u32>)
    ensures MixAll(g, ws) == MixAll(h, ws) <==> g == h
  {
    hide MixAll, UnmixAll;
    UnmixMixAll(g, ws);
    UnmixMixAll(h, ws);
  }

  /** A change of a word read twice goes unseen exactly when it cancels. */
  lemma TwiceReadIff(p: Page, q: Page, nums: seq<nat>, k: nat, i: nat, j: nat, h: u32)
    requires Fits(p, nums) && Fits(q, nums) && IsPermutation(nums) && i <= k < 10
    requires DifferAt(p, q, nums[k]) && |nums| + k < j <= StrengthMax(nums)
    ensures MixAll(h, Window(p, nums, i, j)) == MixAll(h, Window(q, nums, i, j)) <==> Cancels(p, q, nums, k, i, h)
  {
    hide IsPermutation, MixAll, Window, Mix, NeverRead, DifferAt;
    AfterSecondRead(p, nums, k, i, j, h);
    AfterSecondRead(q, nums, k, i, j, h);
    UnreadAfter(nums, k, j);
    NoReadHides(p, q, nums, nums[k], |nums| + k + 1, j);
    var a, b := MixAll(h, Window(p, nums, i, |nums| + k)), MixAll(h, Window(q, nums, i, |nums| + k));
    MixAllInjective(Mix(a, p[nums[k]]), Mix(b, q[nums[k]]), Window(p, nums, |nums| + k + 1, j));
    MixDependsOnSum(a, b, p[nums[k]], q[nums[k]]);
  }

  lemma CollideIn32Bits(states: seq<nat>) returns (u: u32, v: u32)
    requires |states| == U32_SIZE && Distinct(states) && Counting.Below(states, U32_SIZE)
    ensures u != v && (states[u] + u) % U32_SIZE == (states[v] + v) % U32_SIZE
  {
    hide Distinct, Counting.Below;
    u, v := Counting.SumsCollide(states);
  }

  /** Whatever the rest of the page, some change of the word does cancel: the states
      before the second reading are a permutation of the words, and adding its word to
      each cannot leave another. */
  lemma SecondReadCollides(page: Page, nums: seq<nat>, k: nat, i: nat, h: u32) returns (u: u32, v: u32)
    requires Fits(page, nums) && IsPermutation(nums) && i <= k < 10
    ensures u != v && Cancels(page[nums[k] := u], page[nums[k] := v], nums, k, i, h)
  {
    hide IsPermutation, ReadOnce, MixAll, Window;
    ReadOnceSoFar(nums, k, i);
    var states := StatesDistinct(page, nums, k, i, |nums| + k, k, h);
    u, v := CollideIn32Bits(states);
    assert states[u] == StateWith(page, nums, k, i, |nums| + k, h, u);
    assert states[v] == StateWith(page, nums, k, i, |nums| + k, h, v);
  }

  /** So in every stretch that reads a word twice, from any hash, a change of it is
      hidden. */
  lemma TwiceReadHides(page: Page, nums: seq<nat>, k: nat, i: nat, j: nat, h: u32) returns (u: u32, v: u32)
    requires Fits(page, nums) && IsPermutation(nums) && i <= k < 10 && |nums| + k < j <= StrengthMax(nums)
    ensures u != v
    ensures MixAll(h, Window(page[nums[k] := u], nums, i, j)) == MixAll(h, Window(page[nums[k] := v], nums, i, j))
  {
    hide IsPermutation, MixAll, Window, Cancels;
    u, v := SecondReadCollides(page, nums, k, i, h);
    TwiceReadIff(page[nums[k] := u], page[nums[k] := v], nums, k, i, j, h);
  }

  /** At every strength, exactly which one-word changes go unseen: those of a word not
      sampled, and of a word sampled twice those that cancel. */
  lemma OneWordUnseenIff(p: Page, q: Page, nums: seq<nat>, k: nat, strength: nat)
    requires Fits(p, nums) && Fits(q, nums) && IsPermutation(nums) && k < |nums| && DifferAt(p, q, nums[k])
    requires strength <= StrengthMax(nums)
    ensures SampleHash(p, nums, strength) == SampleHash(q, nums, strength)
       <==> if k < strength - |nums| then Cancels(p, q, nums, k, 0, SEED) else k >= strength
  {
    hide MixAll, Window, IsPermutation, DifferAt, Cancels;
    if k < strength - |nums| {
      TwiceReadIff(p, q, nums, k, 0, strength, SEED);
    } else if strength <= |nums| {
      OneWordDetected(p, q, nums, nums[k], strength);
      forall m | 0 <= m < strength && nums[m] == nums[k] ensures m == k {
        NamedOnce(nums, m, k);
      }
    } else {
      OneWordDetectedBeyondFull(p, q, nums, nums[k], strength, k);
    }
  }

  /** The hash of the page with another content of one word. */
  function HashWith(page: Page, nums: seq<nat>, strength: nat, w: nat, v: u32): u32
    requires Fits(page, nums) && strength <= StrengthMax(nums) && w < |page|
  {
    SampleHash(page[w := v], nums, strength)
  }

  /** A strength is sure of a word if no change of it alone goes unseen. */
  ghost predicate SureOf(page: Page, nums: seq<nat>, strength: nat, w: nat)
    requires Fits(page, nums) && strength <= StrengthMax(nums) && w < |page|
  {
    forall u: u32, v: u32 :: u != v ==>
      HashWith(page, nums, strength, w, u) != HashWith(page, nums, strength, w, v)
  }

  /** At every strength, one past HASH_STRENGTH_FULL included: sure of exactly the
      words that are sampled once. */
  lemma SureIffReadOnce(page: Page, nums: seq<nat>, strength: nat, k: nat)
    requires Fits(page, nums) && IsPermutation(nums) && strength <= StrengthMax(nums) && k < |nums|
    ensures SureOf(page, nums, strength, nums[k]) <==> strength - |nums| <= k < strength
  {
    hide HashWith;
    var w := nums[k];
    if k < strength - |nums| {
      var u, v := TwiceReadInHash(page, nums, k, strength);
      assert HashWith(page, nums, strength, w, u) == HashWith(page, nums, strength, w, v);
    } else {
      forall u: u32, v: u32 | u != v
        ensures HashWith(page, nums, strength, w, u) != HashWith(page, nums, strength, w, v) <==> k < strength
      {
        OneChange(page, nums, strength, k, u, v);
      }
      if k >= strength {
        assert HashWith(page, nums, strength, w, 0) == HashWith(page, nums, strength, w, 1);
      }
    }
  }

  lemma TwiceReadInHash(page: Page, nums: seq<nat>, k: nat, strength: nat) returns (u: u32, v: u32)
    requires Fits(page, nums) && IsPermutation(nums) && k + |nums| < strength <= StrengthMax(nums)
    ensures u != v && HashWith(page, nums, strength, nums[k], u) == HashWith(page, nums, strength, nums[k], v)
  {
    hide IsPermutation, MixAll, Window;
    u, v := TwiceReadHides(page, nums, k, 0, strength, SEED);
  }

  lemma OneChange(page: Page, nums: seq<nat>, strength: nat, k: nat, u: u32, v: u32)
    requires Fits(page, nums) && IsPermutation(nums) && strength <= StrengthMax(nums) && k < |nums| && u != v
    requires strength - |nums| <= k
    ensures HashWith(page, nums, strength, nums[k], u) != HashWith(page, nums, strength, nums[k], v) <==> k < strength
  {
    hide SampleHash, IsPermutation;
    OneWordUnseenIff(page[nums[k] := u], page[nums[k] := v], nums, k, strength);
  }

  // ---------------------------------------------------------------------------
  // The hashes of the zero page
  // ---------------------------------------------------------------------------

  function ZeroPage(n: nat): (p: Page)
    ensures |p| == n
  {
    seq(n, i => 0)
  }

  /** One entry for each strength below HASH_STRENGTH_MAX. */
  predicate ZeroTable(table: seq<u32>, nums: seq<nat>)
    requires Fits(ZeroPage(|nums|), nums)
  {
    |table| == StrengthMax(nums)
    && forall s :: 0 <= s < |table| ==> table[s] == SampleHash(ZeroPage(|nums|), nums, s)
  }

  /** Two allocations, of the page and of the table; -ENOMEM is `null`. */
  method InitZeropageHashTable(nums: seq<nat>, pageMemory: bool, tableMemory: bool) returns (table: array?<u32>)
    requires Fits(ZeroPage(|nums|), nums)
    ensures table != null <==> pageMemory && tableMemory
    ensures table != null ==> fresh(table) && ZeroTable(table[..], nums)
  {
    if !pageMemory {
      return null;
    }
    var page := ZeroPage(|nums|);
    if !tableMemory {
      return null;
    }
    var hashes := new u32[|nums| + 10];
    for i := 0 to |nums| + 10
      invariant forall s :: 0 <= s < i ==> hashes[s] == SampleHash(page, nums, s)
    {
      hashes[i] := RandomSampleHash(page, nums, i);
    }
    return hashes;
  }

  /** The lookup reads the table at the strength, so HASH_STRENGTH_MAX has no entry. */
  function FindZeroPageHash(table: seq<u32>, strength: nat, hash: u32): bool
    requires strength < |table|
  {
    table[strength] == hash
  }

  /** The hash of the zero page is accepted, and each entry follows from any other
      by moving the hash between the two strengths. */
  lemma ZeroPageAccepted(table: seq<u32>, nums: seq<nat>, strength: nat, other: nat)
    requires Fits(ZeroPage(|nums|), nums) && ZeroTable(table, nums)
    requires strength < StrengthMax(nums) && other < StrengthMax(nums)
    ensures FindZeroPageHash(table, strength, SampleHash(ZeroPage(|nums|), nums, strength))
    ensures table[strength] == Rehash(ZeroPage(|nums|), nums, other, strength, table[other])
  {
    IncrementalIsFromScratch(ZeroPage(|nums|), nums, other, strength);
  }

  /** A page with a single non-zero word passes for the zero page exactly when that
      word is not sampled, or sampled twice and cancels. */
  lemma AlmostZeroPage(table: seq<u32>, page: Page, nums: seq<nat>, k: nat, strength: nat)
    requires Fits(page, nums) && IsPermutation(nums) && ZeroTable(table, nums)
    requires k < |nums| && DifferAt(page, ZeroPage(|nums|), nums[k]) && strength < StrengthMax(nums)
    ensures FindZeroPageHash(table, strength, SampleHash(page, nums, strength))
       <==> if k < strength - |nums| then Cancels(page, ZeroPage(|nums|), nums, k, 0, SEED) else k >= strength
  {
    hide SampleHash, IsPermutation, DifferAt, Cancels;
    OneWordUnseenIff(page, ZeroPage(|nums|), nums, k, strength);
  }
}
