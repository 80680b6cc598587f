/** One round of adjusting the strength: counters, controller and stable tree together. */
module Uksm {
  import opened Words
  import opened PageHash
  import opened Sampling
  import opened Lists
  import opened RbTree
  import opened Benefit
  import opened Controller
  import opened StableTree

  class Scanner {
    const controller: HashController
    const meter: BenefitMeter
    const forest: StableForest
    var fullyScannedRound: u64

    /** The controller is in range, the counters are sound, and the hashes in the tree
        are those of the strength in force. */
    ghost predicate Valid()
      reads this, controller, meter, forest, forest.nodes
      reads if forest.Pairs() then forest.lists[forest.current] else []
    {
      && |forest.nums| == STRENGTH_FULL
      && Safe(controller.View())
      && Sound(meter.View())
      && forest.Settled(controller.hashStrength)
      && forest.Balanced()
    }

    constructor (nums: seq<nat>, live: (nat, nat) -> bool, memory: nat -> bool)
      requires |nums| == STRENGTH_FULL
      ensures Valid() && controller.View() == STARTUP_CONTROL && meter.View() == STARTUP && forest.nodes == []
      ensures fresh(controller) && fresh(meter) && fresh(forest) && fullyScannedRound == 1
    {
      hide Sound, Safe, StableForest.Settled, StableForest.Balanced;
      var c := new HashController();
      var m := new BenefitMeter();
      var f := new StableForest(nums, live, memory);
      controller, meter, forest := c, m, f;
      fullyScannedRound := 1;
      new;
      StartupSound();
      StartupSafe();
      forest.EmptySettled(controller.hashStrength);
    }

    /** `rshash_adjust`: nothing to encode, nothing done; else one step of the
        controller on the encoded benefit, the counters start over, and the tree is
        rebuilt exactly if the strength moved. */
    method RshashAdjust() returns (r: Result<bool>)
      requires Valid()
      modifies controller, meter, forest, forest.nodes
      ensures r.Bug? == Encode(old(meter.View())).Bug?
      ensures r.Ok? ==> Valid()
      ensures r.Ok? ==> r.value == (controller.hashStrength != old(controller.hashStrength))
      ensures r.Ok? && old(PagesPending(meter.View())) == 0 ==>
        && controller.View() == old(controller.View()) && meter.View() == old(meter.View())
        && forest.nodes == old(forest.nodes) && forest.current == old(forest.current)
      ensures r.Ok? && old(PagesPending(meter.View())) > 0 ==>
        && Encode(old(meter.View())).value.0.benefit.scanned > 0
        && controller.View() == Adjust(old(controller.View()),
                                       Round(Encode(old(meter.View())).value.0.benefit, fullyScannedRound))
        && meter.View() == Reset(Encode(old(meter.View())).value.0).(rshashNeg := meter.rshashNeg)
        && (!r.value ==> meter.rshashNeg == 0 && forest.current == old(forest.current) && forest.nodes == old(forest.nodes))
        && (r.value ==> forest.current != old(forest.current))
      ensures r.Ok? && r.value ==>
        forest.LostOnlyStale() &&
        Paid(old(Uncached(Members(forest.nodes))), Uncached(Members(old(forest.nodes))),
             STRENGTH_MAX - controller.hashStrength, 0, meter.rshashNeg)
      ensures r.Ok? && forest.Steady() && r.value ==>
        forest.Complete(old(forest.nodes), |old(forest.nodes)|, Members(forest.nodes),
                        Linked(old(forest.nodes)), controller.hashStrength)
      ensures r.Ok? && r.value ==>
        forest.OnlyTwinsFilled(old(forest.nodes), old(Caches(forest.nodes)), Caches(old(forest.nodes)), controller.hashStrength)
      ensures r.Ok? && forest.Steady() && r.value ==>
        forest.TwinsFilled(old(forest.nodes), |old(forest.nodes)|, old(Caches(forest.nodes)), Caches(old(forest.nodes)),
                           controller.hashStrength)
    {
      hide Safe, Sound, Encode, Adjust, PagesPending, Paid, Uncached, Members, Caches;
      hide StableForest.OnlyTwinsFilled, StableForest.TwinsFilled;
      hide StableForest.Balanced, StableForest.Complete, StableForest.Built, EachShares;
      ghost var before := meter.View();
      var prevHashStrength := controller.hashStrength;
      EncodeFacts(before);
      var any :- meter.EncodeBenefit();
      if !any {
        return Ok(false);
      }
      var round: Round := Round(meter.benefit, fullyScannedRound);
      AdjustSafe(controller.View(), round);
      SafeStrength(Adjust(controller.View(), round));
      controller.AdjustState(round);
      ResetSound(meter.View());
      meter.ResetBenefit();
      if prevHashStrength != controller.hashStrength {
        assert Uncached(Members(forest.nodes)) == old(Uncached(Members(forest.nodes)));
        assert Caches(forest.nodes) == old(Caches(forest.nodes));
        Rebuild(prevHashStrength);
      }
      return Ok(prevHashStrength != controller.hashStrength);
    }

    /** The same on counters under the charging discipline, with `k` units a page at
        least the price of rehashing every node in full: the round does not halt, and
        leaves the counters under the discipline. */
    method RshashAdjustInRoom(ghost k: nat, ghost room: (nat, nat)) returns (changed: bool)
      requires Valid() && Charged(meter.View(), k, room) && Moderate(k, meter.ledger.n)
      requires k >= STRENGTH_MAX * |forest.nodes|
      modifies controller, meter, forest, forest.nodes
      ensures Valid() && changed == (controller.hashStrength != old(controller.hashStrength))
      ensures old(PagesPending(meter.View())) == 0 ==> Charged(meter.View(), k, room)
      ensures old(PagesPending(meter.View())) > 0 ==>
        meter.rshashNeg <= k && Charged(meter.View(), k, (k, k - meter.rshashNeg))
    {
      hide Safe, Sound, Encode, Adjust, PagesPending, Paid, Uncached, Charged, Moderate, Reset;
      hide StableForest.Settled, StableForest.Balanced, StableForest.Complete;
      ghost var before, nodes, unfilled := meter.View(), forest.nodes, Uncached(Members(forest.nodes));
      EncodeSafe(before, k, room);
      UncachedAtMost(nodes);
      var r := RshashAdjust();
      changed := r.value;
      if PagesPending(before) > 0 {
        if changed {
          SafeStrength(controller.View());
          RebuildInRoom(before, meter.View(), unfilled, Uncached(Members(nodes)), |nodes|, controller.hashStrength, k, room);
        } else {
          RoundInRoom(before, meter.View(), k, room);
        }
      }
    }

    /** The tree follows the strength; only the negative charges grow meanwhile. */
    method Rebuild(prev: nat)
      requires |forest.nums| == STRENGTH_FULL && forest.Settled(prev) && forest.Balanced()
      requires controller.hashStrength <= STRENGTH_MAX
      requires Sound(meter.View()) && PagesPending(meter.View()) == 0
      modifies meter, forest, forest.nodes
      ensures forest.Settled(controller.hashStrength) && forest.Balanced()
      ensures forest.current == 1 - old(forest.current) && forest.LostOnlyStale()
      ensures Paid(old(Uncached(Members(forest.nodes))), Uncached(Members(old(forest.nodes))),
                   STRENGTH_MAX - controller.hashStrength, old(meter.rshashNeg), meter.rshashNeg)
      ensures Sound(meter.View()) && meter.View() == old(meter.View()).(rshashNeg := meter.rshashNeg)
      ensures forest.Steady() ==>
        forest.Complete(old(forest.nodes), |old(forest.nodes)|, Members(forest.nodes),
                        Linked(old(forest.nodes)), controller.hashStrength)
      ensures forest.OnlyTwinsFilled(old(forest.nodes), old(Caches(forest.nodes)), Caches(old(forest.nodes)), controller.hashStrength)
      ensures forest.Steady() ==>
        forest.TwinsFilled(old(forest.nodes), |old(forest.nodes)|, old(Caches(forest.nodes)), Caches(old(forest.nodes)),
                           controller.hashStrength)
    {
      hide Sound, StableForest.Balanced, StableForest.Complete, StableForest.Hashed, Paid, Uncached, Caches;
      hide StableForest.OnlyTwinsFilled, StableForest.TwinsFilled;
      SettledHashed(prev);
      ghost var before := meter.View();
      forest.StableTreeDeltaHash(prev, controller.hashStrength, meter);
      SoundIgnoresCharges(before, meter.View());
    }

    lemma SettledHashed(strength: nat)
      requires forest.Settled(strength)
      ensures forall n :: n in forest.nodes ==> forest.Hashed(n, strength)
    {
      hide PageHash.Fits, PageHash.SampleHash, FirstLevelOk, SubTreeOk;
      forall n | n in forest.nodes ensures forest.Hashed(n, strength) {
        assert n in Members(forest.nodes);
        assert forest.NodeOk(n, forest.lists[forest.current], strength);
      }
    }
  }

  /** What there is to know of an encode that found something. */
  lemma EncodeFacts(g: Gauge)
    requires Sound(g)
    ensures Encode(g).Ok? ==>
      var (h, any) := Encode(g).value;
      && Sound(h) && PagesPending(h) == PagesPending(Reset(h)) == 0 && any == (PagesPending(g) > 0)
      && (!any ==> h == g) && (any ==> h.benefit.scanned > 0 && h.rshashNeg == 0)
  {
    if Encode(g).Ok? {
      EncodeSound(g);
    }
  }

  /** The table of zero-page hashes ends one strength short: some rounds from startup,
      numbered from one, bring the controller to a strength at which the table has no
      entry. */
  lemma ZeroTableFallsShort(table: seq<u32>, nums: seq<nat>) returns (rs: seq<Round>)
    requires |nums| == STRENGTH_FULL && Fits(ZeroPage(|nums|), nums) && ZeroTable(table, nums)
    ensures Adjusts(STARTUP_CONTROL, rs).strength == |table| && Numbered(rs, 0, RoundNumber)
  {
    hide SampleHash, AdjustStill, AdjustTryDown, AdjustTryUp;
    var first: Round := Round(Scaled(0, 0, 1, 0), 1);
    StartupSafe();
    AdjustSafe(STARTUP_CONTROL, first);
    var rest := MaximumReachable(Adjust(STARTUP_CONTROL, first), 1, RoundNumber);
    rs := [first] + rest;
    NumberedOn(first, rest, 0, RoundNumber);
    assert rs[1..] == rest;
  }

  lemma UncachedAtMost(ns: seq<StableNode>)
    ensures |Uncached(Members(ns))| <= |ns|
  {
    MembersAtMost(ns);
    SubsetSmaller(Uncached(Members(ns)), Members(ns));
  }

  lemma RoundInRoom(g: Gauge, h: Gauge, k: nat, room: (nat, nat))
    requires Sound(g) && Charged(g, k, room) && Moderate(k, g.ledger.n) && PagesPending(g) > 0
    requires Encode(g).Ok? && h == Reset(Encode(g).value.0).(rshashNeg := h.rshashNeg) && h.rshashNeg <= k
    ensures Charged(h, k, (k, k - h.rshashNeg))
  {
    hide Encode, Sound, Moderate;
    EncodeSafe(g, k, room);
    EncodeFacts(g);
  }

  lemma RebuildInRoom(g: Gauge, h: Gauge, before: set<StableNode>, after: set<StableNode>, nodes: nat,
                      strength: nat, k: nat, room: (nat, nat))
    requires Sound(g) && Charged(g, k, room) && Moderate(k, g.ledger.n) && PagesPending(g) > 0
    requires Encode(g).Ok? && h == Reset(Encode(g).value.0).(rshashNeg := h.rshashNeg)
    requires strength <= STRENGTH_MAX && Paid(before, after, STRENGTH_MAX - strength, 0, h.rshashNeg)
    requires |before| <= nodes && STRENGTH_MAX * nodes <= k
    ensures h.rshashNeg <= k && Charged(h, k, (k, k - h.rshashNeg))
  {
    hide Encode, Sound, Charged, Paid, Reset;
    ModerateUnits(k, g.ledger.n);
    ScaleMonotone(STRENGTH_MAX - strength, STRENGTH_MAX, |before|);
    PaidFits(before, after, STRENGTH_MAX - strength, h.rshashNeg);
    hide Moderate;
    RoundInRoom(g, h, k, room);
  }

  lemma SafeStrength(c: Control)
    requires Safe(c)
    ensures 1 <= c.strength <= STRENGTH_MAX
  {
  }

  lemma SoundIgnoresCharges(g: Gauge, h: Gauge)
    requires Sound(g) && h == g.(rshashNeg := h.rshashNeg)
    ensures Sound(h)
  {
  }
}
