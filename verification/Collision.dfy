/** Hashing a page with its cost on the books, and telling a changed page from a
    collision of hashes. */
module Collision {
  import opened Words
  import opened PageHash
  import opened Sampling
  import opened Benefit

  datatype MergeErr = Colli | Changed

  /** Zero is kept for "not computed yet". */
  function Sentinel(hash: u32): (r: u32)
    ensures r != 0
  {
    if hash == 0 then 1 else hash
  }

  /** The full-strength hash that a hash at `strength` extends to. */
  function ExtendedMax(page: Page, nums: seq<nat>, strength: nat, hash: u32): u32
    requires Fits(page, nums) && strength <= StrengthMax(nums)
  {
    Sentinel(Rehash(page, nums, strength, StrengthMax(nums), hash))
  }

  /** What `check_collision` answers on the page as it is now, given the cached
      full-strength hash (zero for none) and the hash of the page at `strength`. */
  function Verdict(page: Page, nums: seq<nat>, strength: nat, hashMax: u32, hash: u32): MergeErr
    requires Fits(page, nums) && strength <= StrengthMax(nums)
  {
    if hashMax != 0 then
      if hashMax == ExtendedMax(page, nums, strength, hash) then Colli else Changed
    else
      if SampleHash(page, nums, strength) == hash then Colli else Changed
  }

  // ---------------------------------------------------------------------------
  // No false alarm
  // ---------------------------------------------------------------------------

  /** Extending the hash of a page from any strength gives one and the same value. */
  lemma ExtendedMaxIsFull(page: Page, nums: seq<nat>, strength: nat)
    requires Fits(page, nums) && strength <= StrengthMax(nums)
    ensures ExtendedMax(page, nums, strength, SampleHash(page, nums, strength))
         == Sentinel(SampleHash(page, nums, StrengthMax(nums)))
  {
    hide SampleHash, Rehash;
    IncrementalIsFromScratch(page, nums, strength, StrengthMax(nums));
  }

  /** With the hash taken at this strength and the cache empty or filled at any
      earlier one, a page that did not change is never reported as changed. */
  lemma NeverCriesWolf(page: Page, nums: seq<nat>, strength: nat, earlier: nat, cached: bool)
    requires Fits(page, nums) && strength <= StrengthMax(nums) && earlier <= StrengthMax(nums)
    ensures
      var hashMax := if cached then ExtendedMax(page, nums, earlier, SampleHash(page, nums, earlier)) else 0;
      Verdict(page, nums, strength, hashMax, SampleHash(page, nums, strength)) == Colli
  {
    hide SampleHash, Rehash;
    ExtendedMaxIsFull(page, nums, strength);
    ExtendedMaxIsFull(page, nums, earlier);
  }

  // ---------------------------------------------------------------------------
  // What a change of one word gets past
  // ---------------------------------------------------------------------------

  /** Without a cache, exactly which one-word changes are reported: those of a word
      sampled once, and of a word sampled twice those that do not cancel. */
  lemma UncachedOneWord(was: Page, now: Page, nums: seq<nat>, k: nat, strength: nat)
    requires Fits(was, nums) && Fits(now, nums) && IsPermutation(nums) && k < |nums| && DifferAt(was, now, nums[k])
    requires strength <= StrengthMax(nums)
    ensures Verdict(now, nums, strength, 0, SampleHash(was, nums, strength)) == Changed
       <==> if k < strength - |nums| then !Cancels(was, now, nums, k, 0, SEED) else k < strength
  {
    hide SampleHash, IsPermutation, DifferAt, Cancels;
    OneWordUnseenIff(was, now, nums, k, strength);
  }

  /** With a cache only the words past the strength are read again: a change of a
      word that is not among them is taken for a collision. */
  lemma CachedMissesUnread(was: Page, now: Page, nums: seq<nat>, w: nat, strength: nat)
    requires Fits(was, nums) && Fits(now, nums) && DifferAt(was, now, w)
    requires strength <= StrengthMax(nums) && NeverRead(nums, w, strength, StrengthMax(nums))
    ensures var hash := SampleHash(was, nums, strength);
      Verdict(now, nums, strength, ExtendedMax(was, nums, strength, hash), hash) == Colli
  {
    hide SampleHash, MixAll;
    NoReadHides(was, now, nums, w, strength, StrengthMax(nums));
  }

  /** A word read once past the strength shows, unless the two full hashes are the
      zero and the one that the sentinel makes equal. */
  lemma CachedSeesReadOnce(was: Page, now: Page, nums: seq<nat>, w: nat, strength: nat, v: nat)
    requires Fits(was, nums) && Fits(now, nums) && DifferAt(was, now, w)
    requires strength <= StrengthMax(nums) && ReadOnce(nums, w, strength, StrengthMax(nums), v)
    ensures var hash := SampleHash(was, nums, strength);
      var a := Rehash(was, nums, strength, StrengthMax(nums), hash);
      var b := Rehash(now, nums, strength, StrengthMax(nums), hash);
      Verdict(now, nums, strength, ExtendedMax(was, nums, strength, hash), hash) == Colli
      <==> a + b == 1
  {
    hide SampleHash, MixAll;
    OneReadTells(was, now, nums, w, strength, StrengthMax(nums), v, SampleHash(was, nums, strength));
  }

  /** How the cached branch reads the word at place `k` of the table, at any strength. */
  lemma PlacesExtended(nums: seq<nat>, k: nat, strength: nat)
    requires |nums| >= 10 && IsPermutation(nums) && k < |nums| && strength <= StrengthMax(nums)
    ensures 10 <= k < strength || k < strength - |nums| ==> NeverRead(nums, nums[k], strength, StrengthMax(nums))
    ensures k >= strength && k >= 10 ==> ReadOnce(nums, nums[k], strength, StrengthMax(nums), k)
    ensures strength - |nums| <= k < 10 && k < strength ==>
      ReadOnce(nums, nums[k], strength, StrengthMax(nums), |nums| + k)
  {
    forall u | strength <= u < StrengthMax(nums)
      ensures nums[Slot(u, |nums|)] == nums[k] <==> u == k || u == |nums| + k
    {
      PlacesRead(nums, k, u);
    }
    assert k < 10 ==> Slot(|nums| + k, |nums|) == k;
  }

  /** With a cache, exactly which one-word changes get past, by the place of the word:
      all of a word not read again, of a word read twice those that cancel, and the
      two hashes that the sentinel makes equal. */
  lemma CachedOneWord(was: Page, now: Page, nums: seq<nat>, k: nat, strength: nat)
    requires Fits(was, nums) && Fits(now, nums) && IsPermutation(nums) && k < |nums| && DifferAt(was, now, nums[k])
    requires strength <= StrengthMax(nums)
    ensures var hash := SampleHash(was, nums, strength);
      var a := Rehash(was, nums, strength, StrengthMax(nums), hash);
      var b := Rehash(now, nums, strength, StrengthMax(nums), hash);
      Verdict(now, nums, strength, ExtendedMax(was, nums, strength, hash), hash) == Colli
      <==>
        || 10 <= k < strength
        || k < strength - |nums|
        || (strength <= k < 10 && Cancels(was, now, nums, k, strength, hash))
        || a + b == 1
  {
    hide SampleHash, MixAll, Window, IsPermutation, DifferAt, ReadOnce, NeverRead, Cancels;
    PlacesExtended(nums, k, strength);
    if 10 <= k < strength || k < strength - |nums| {
      CachedMissesUnread(was, now, nums, nums[k], strength);
    } else if strength <= k < 10 {
      TwiceReadIff(was, now, nums, k, strength, StrengthMax(nums), SampleHash(was, nums, strength));
    } else {
      CachedSeesReadOnce(was, now, nums, nums[k], strength, if k < 10 then |nums| + k else k);
    }
  }

  /** The hash does not depend on a word that is not sampled. */
  lemma UnsampledSameHash(page: Page, nums: seq<nat>, strength: nat, k: nat, u: u32)
    requires Fits(page, nums) && IsPermutation(nums) && strength <= k < |nums|
    ensures SampleHash(page[nums[k] := u], nums, strength) == SampleHash(page, nums, strength)
  {
    hide SampleHash, IsPermutation, Cancels;
    if page[nums[k]] == u {
      assert page[nums[k] := u] == page;
    } else {
      OneWordUnseenIff(page[nums[k] := u], page, nums, k, strength);
    }
  }

  /** The cached branch is sure of no word the strength does not sample: whatever the
      rest of the page, some change of it gets past. A word read twice has one that
      cancels; one read once takes the full-strength hash to zero and to one. */
  lemma CachedSureOfNoUnsampled(page: Page, nums: seq<nat>, strength: nat, k: nat) returns (u: u32, v: u32)
    requires Fits(page, nums) && IsPermutation(nums) && strength <= k < |nums|
    ensures u != v
    ensures var was, now := page[nums[k] := u], page[nums[k] := v];
      var hash := SampleHash(was, nums, strength);
      Verdict(now, nums, strength, ExtendedMax(was, nums, strength, hash), hash) == Colli
  {
    hide SampleHash, MixAll, Window, IsPermutation, ReadOnce;
    var hash := SampleHash(page, nums, strength);
    if k < 10 {
      u, v := TwiceReadHides(page, nums, k, strength, StrengthMax(nums), hash);
    } else {
      PlacesExtended(nums, k, strength);
      u := EveryStateTaken(page, nums, k, strength, StrengthMax(nums), k, hash, 0);
      v := EveryStateTaken(page, nums, k, strength, StrengthMax(nums), k, hash, 1);
    }
    UnsampledSameHash(page, nums, strength, k, u);
  }

  /** So an answer of "collision" does not mean an unchanged page: a change of a
      sampled word outside the first ten is reported without a cache and taken for a
      collision with one. */
  lemma BranchesDisagree(was: Page, now: Page, nums: seq<nat>, k: nat, strength: nat)
    requires Fits(was, nums) && Fits(now, nums) && IsPermutation(nums) && k < |nums| && DifferAt(was, now, nums[k])
    requires 10 <= k < strength <= StrengthMax(nums)
    ensures var hash := SampleHash(was, nums, strength);
      && Verdict(now, nums, strength, 0, hash) == Changed
      && Verdict(now, nums, strength, ExtendedMax(was, nums, strength, hash), hash) == Colli
  {
    hide SampleHash, MixAll, Window, IsPermutation, DifferAt, Cancels, Verdict;
    UncachedOneWord(was, now, nums, k, strength);
    CachedOneWord(was, now, nums, k, strength);
  }

  // ---------------------------------------------------------------------------
  // The operations and what they charge
  // ---------------------------------------------------------------------------

  /** A counter after a charge that encodes nothing. */
  function Plus(counter: u64, units: nat): u64 { (counter + units) % U64_SIZE }

  method HashPage(page: Page, nums: seq<nat>, strength: nat, costAccounting: bool, meter: BenefitMeter)
    returns (r: Result<u32>)
    requires Fits(page, nums) && strength <= StrengthMax(nums) && |nums| < U32_SIZE
    modifies if costAccounting then {meter} else {}
    ensures r.Ok? ==> r.value == SampleHash(page, nums, strength)
    ensures !costAccounting ==> r.Ok?
    ensures costAccounting ==>
      var saved := if strength < |nums| then |nums| - strength else 0;
      && r.Bug? == ChargePos(old(meter.View()), saved).Bug?
      && (r.Ok? ==> ChargePos(old(meter.View()), saved) == Ok(meter.View()))
  {
    hide SampleHash, ChargePos;
    var val := RandomSampleHash(page, nums, strength);
    if costAccounting {
      var delta: u64 := if strength < |nums| then |nums| - strength else 0;
      var _ :- meter.IncRshashPos(delta);
    }
    return Ok(val);
  }

  method HashPageMax(page: Page, nums: seq<nat>, strength: nat, hashOld: u32, meter: BenefitMeter)
    returns (r: Result<u32>)
    requires Fits(page, nums) && strength <= StrengthMax(nums) && |nums| < U32_SIZE
    modifies meter
    ensures r.Bug? == ChargeNeg(old(meter.View()), StrengthMax(nums) - strength).Bug?
    ensures r.Ok? ==>
      && ChargeNeg(old(meter.View()), StrengthMax(nums) - strength) == Ok(meter.View())
      && r.value == ExtendedMax(page, nums, strength, hashOld)
  {
    hide Rehash, ChargeNeg;
    var hashMax := DeltaHash(page, nums, strength, |nums| + 10, hashOld);
    if hashMax == 0 {
      hashMax := 1;
    }
    var _ :- meter.IncRshashNeg(StrengthMax(nums) - strength);
    return Ok(hashMax);
  }

  /** The charges of `check_collision`: the comparison, and either the rest of the
      page twice over (once here, once in `page_hash_max`) or the sampled part, added to the
      cost in 64 bits. */
  function CollisionCharges(g: Gauge, memcmpCost: u64, strength: nat, rest: u64, cached: bool): Result<Gauge>
  {
    if cached then
      var a :- ChargeNeg(g, memcmpCost);
      var b :- ChargeNeg(a, rest);
      ChargeNeg(b, rest)
    else ChargeNeg(g, (memcmpCost + strength) % U64_SIZE)
  }

  /** The units of a check. */
  function CollisionUnits(memcmpCost: u64, strength: nat, rest: u64, cached: bool): nat {
    if cached then memcmpCost + 2 * rest else memcmpCost + strength
  }

  /** A check within its room neither halts nor loses a unit. */
  lemma CollisionChargesSafe(g: Gauge, memcmpCost: u64, strength: nat, rest: u64, cached: bool, k: nat, room: (nat, nat))
    requires Sound(g) && Charged(g, k, room) && Moderate(k, g.ledger.n + 3)
    requires CollisionUnits(memcmpCost, strength, rest, cached) <= room.1
    ensures var r, units := CollisionCharges(g, memcmpCost, strength, rest, cached), CollisionUnits(memcmpCost, strength, rest, cached);
      && r.Ok? && Sound(r.value) && Charged(r.value, k, (room.0, room.1 - units))
      && r.value.ledger.neg + r.value.rshashNeg == g.ledger.neg + g.rshashNeg + units
      && r.value.ledger.pos + r.value.rshashPos == g.ledger.pos + g.rshashPos
  {
    hide Sound, Charged, Moderate, ChargeNeg;
    RoomFits(g, k, room);
    if cached {
      OneChargeSafe(g, memcmpCost, k, room, g.ledger.n + 3);
      var a, left := ChargeNeg(g, memcmpCost).value, (room.0, room.1 - memcmpCost);
      OneChargeSafe(a, rest, k, left, g.ledger.n + 3);
      OneChargeSafe(ChargeNeg(a, rest).value, rest, k, (left.0, left.1 - rest), g.ledger.n + 3);
    } else {
      DivModUnique(memcmpCost + strength, U64_SIZE, 0, memcmpCost + strength);
      OneChargeSafe(g, memcmpCost + strength, k, room, g.ledger.n + 3);
    }
  }

  lemma RoomFits(g: Gauge, k: nat, room: (nat, nat))
    requires Charged(g, k, room) && Moderate(k, g.ledger.n + 3)
    ensures room.1 < U64_SIZE
  {
    ModerateUnits(k, g.ledger.n + 3);
  }

  lemma OneChargeSafe(g: Gauge, units: u64, k: nat, room: (nat, nat), n: nat)
    requires Sound(g) && Charged(g, k, room) && units <= room.1
    requires g.ledger.n <= n && Moderate(k, n)
    ensures ChargeNeg(g, units).Ok?
    ensures var h := ChargeNeg(g, units).value;
      && Sound(h) && Charged(h, k, (room.0, room.1 - units)) && h.ledger.n <= g.ledger.n + 1
      && h.ledger.neg + h.rshashNeg == g.ledger.neg + g.rshashNeg + units
      && h.ledger.pos + h.rshashPos == g.ledger.pos + g.rshashPos
  {
    hide Sound, Charged, Moderate, ChargeNeg;
    FewerModerate(k, g.ledger.n, n);
    ChargeNegSafe(g, units, k, room);
    ChargeSound(g, units);
    EncodesAtMostOnce(g, NegCharged(units));
  }

  /** So does the credit for a hash, which never exceeds the words of a page. */
  lemma HashChargeSafe(g: Gauge, full: u64, strength: nat, k: nat, room: (nat, nat))
    requires Sound(g) && Charged(g, k, room) && Moderate(k, g.ledger.n) && full <= room.0
    ensures var units := if strength < full then full - strength else 0; var r := ChargePos(g, units);
      && r.Ok? && Sound(r.value) && Charged(r.value, k, (room.0 - units, room.1))
      && r.value.ledger.pos + r.value.rshashPos == g.ledger.pos + g.rshashPos + units
  {
    hide Sound, Charged, Moderate, ChargePos;
    var units := if strength < full then full - strength else 0;
    ChargePosSafe(g, units, k, room);
    ChargeSound(g, units);
  }

  method CheckCollision(page: Page, nums: seq<nat>, strength: nat, hashMax: u32, hash: u32,
                        memcmpCost: u64, meter: BenefitMeter)
    returns (r: Result<MergeErr>)
    requires Fits(page, nums) && strength <= StrengthMax(nums) && |nums| < U32_SIZE
    modifies meter
    ensures r.Bug? ==
      CollisionCharges(old(meter.View()), memcmpCost, strength, StrengthMax(nums) - strength, hashMax != 0).Bug?
    ensures r.Ok? ==>
      && CollisionCharges(old(meter.View()), memcmpCost, strength, StrengthMax(nums) - strength, hashMax != 0)
           == Ok(meter.View())
      && r.value == Verdict(page, nums, strength, hashMax, hash)
  {
    hide SampleHash, ExtendedMax, ChargeNeg;
    if hashMax != 0 {
      var _ :- meter.IncRshashNeg(memcmpCost);
      var _ :- meter.IncRshashNeg(StrengthMax(nums) - strength);
      var now :- HashPageMax(page, nums, strength, hash, meter);
      return Ok(if hashMax == now then Colli else Changed);
    } else {
      var _ :- meter.IncRshashNeg((memcmpCost + strength) % U64_SIZE);
      var now := HashPage(page, nums, strength, false, meter);
      return Ok(if now.value == hash then Colli else Changed);
    }
  }
}
