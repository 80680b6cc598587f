/** Where the benefit counters lose what they count: exactly when, and runs from
    startup that get there. */
module Limits {
  import opened Words
  import opened Benefit

  // ---------------------------------------------------------------------------
  // Runs
  // ---------------------------------------------------------------------------

  lemma RunOn(g: Gauge, es: seq<Event>, h: Gauge)
    requires es != [] && Step(g, es[0]) == Ok(h)
    ensures Run(g, es) == Run(h, es[1..])
  {
  }

  lemma {:induction false} RunConcat(g: Gauge, a: seq<Event>, b: seq<Event>)
    ensures Run(g, a + b) == if Run(g, a).Ok? then Run(Run(g, a).value, b) else Bug
    decreases |a|
  {
    hide Step;
    if a == [] {
      assert a + b == b;
    } else {
      assert (a + b)[1..] == a[1..] + b;
      if Step(g, a[0]).Ok? {
        RunConcat(Step(g, a[0]).value, a[1..], b);
      }
    }
  }

  function Repeat(e: Event, n: nat): (es: seq<Event>)
    ensures |es| == n && forall i :: 0 <= i < n ==> es[i] == e
  {
    seq(n, _ => e)
  }

  lemma RepeatOnce(e: Event, n: nat)
    ensures n > 0 ==> Repeat(e, n)[1..] == Repeat(e, n - 1)
    ensures Repeat(e, n + 1) == Repeat(e, n) + [e]
  {
  }

  lemma RunOne(g: Gauge, e: Event)
    ensures Run(g, [e]) == Step(g, e)
  {
    assert [e][1..] == [];
  }

  // ---------------------------------------------------------------------------
  // Charges
  // ---------------------------------------------------------------------------

  /** A charge goes missing exactly when it would overflow the running counter and no
      page is pending, so that nothing is encoded to make room for it. */
  lemma ChargeLostIff(g: Gauge, units: u64)
    ensures ChargePos(g, units).Ok? ==>
      var h := ChargePos(g, units).value;
      h.ledger.pos + h.rshashPos != g.ledger.pos + g.rshashPos + units
      <==> CanOverflow(g.rshashPos, units) && PagesPending(g) == 0
    ensures ChargeNeg(g, units).Ok? ==>
      var h := ChargeNeg(g, units).value;
      h.ledger.neg + h.rshashNeg != g.ledger.neg + g.rshashNeg + units
      <==> CanOverflow(g.rshashNeg, units) && PagesPending(g) == 0
  {
    hide Encode, PagesPending;
    if Encode(g).Ok? {
      EncodeMoves(g);
    }
  }

  /** A charge encodes exactly when it would overflow the running counter and a page is
      pending; otherwise only that counter changes. */
  lemma ChargeEncodesIff(g: Gauge, units: u64)
    ensures ChargePos(g, units).Ok? ==>
      var h := ChargePos(g, units).value;
      && (h.ledger.n == g.ledger.n + 1 <==> g.rshashPos + units >= U64_SIZE && PagesPending(g) > 0)
      && (h.ledger.n != g.ledger.n + 1 ==> h == g.(rshashPos := h.rshashPos))
    ensures ChargeNeg(g, units).Ok? ==>
      var h := ChargeNeg(g, units).value;
      && (h.ledger.n == g.ledger.n + 1 <==> g.rshashNeg + units >= U64_SIZE && PagesPending(g) > 0)
      && (h.ledger.n != g.ledger.n + 1 ==> h == g.(rshashNeg := h.rshashNeg))
  {
    hide Encode, PagesPending;
    if Encode(g).Ok? {
      EncodeMoves(g);
    }
  }

  /** The unit doubles exactly when one of the three sums at the present unit would not
      fit in 64 bits; otherwise the totals are those sums. */
  lemma UnitDoublesIff(b: Scaled, pos: u64, neg: u64, pages: u64)
    ensures var c, unit := Added(b, pos, neg, pages), Pow2(b.base);
      && (c.base == b.base + 1 <==>
            || b.pos + pos / unit >= U64_SIZE || b.neg + neg / unit >= U64_SIZE || b.scanned + pages / unit >= U64_SIZE)
      && (c.base != b.base + 1 ==>
            && c.pos == b.pos + pos / unit && c.neg == b.neg + neg / unit
            && c.scanned == b.scanned + pages / unit && c.base == b.base)
  {
    hide Shr;
    ShrDivides(pos, b.base);
    ShrDivides(neg, b.base);
    ShrDivides(pages, b.base);
    AddedNeverWraps(b, pos, neg, pages);
  }

  /** When it doubles, every total is halved before its sum is. */
  lemma UnitDoubled(b: Scaled, pos: u64, neg: u64, pages: u64)
    requires Added(b, pos, neg, pages).base == b.base + 1
    ensures var c, unit := Added(b, pos, neg, pages), Pow2(b.base);
      && c.pos == b.pos / 2 + pos / unit / 2 && c.neg == b.neg / 2 + neg / unit / 2
      && c.scanned == b.scanned / 2 + pages / unit / 2
  {
    hide Shr;
    HalvedShift(pos, b.base);
    HalvedShift(neg, b.base);
    HalvedShift(pages, b.base);
    Halves(b.pos);
    Halves(b.neg);
    Halves(b.scanned);
    AddedNeverWraps(b, pos, neg, pages);
  }

  lemma HalvedShift(x: nat, base: nat)
    ensures Shr(x, base + 1) == x / Pow2(base) / 2
  {
    ShrShr(x, base, 1);
    Halves(Shr(x, base));
    ShrDivides(x, base);
  }

  /** An encode moves the running counters to the ledger, or leaves them. */
  lemma EncodeMoves(g: Gauge)
    requires Encode(g).Ok?
    ensures var h := Encode(g).value.0;
      if PagesPending(g) == 0 then h == g
      else
        && h.ledger.n == g.ledger.n + 1
        && h.rshashPos == h.rshashNeg == 0
        && h.ledger.pos == g.ledger.pos + g.rshashPos && h.ledger.neg == g.ledger.neg + g.rshashNeg
  {
    hide Added;
  }

  lemma NothingToEncode(g: Gauge)
    requires g.scanned == g.scannedLast
    ensures Encode(g) == Ok((g, false))
  {
  }

  /** Equal charges add up as long as they fit. */
  lemma {:induction false} ChargesAddUp(g: Gauge, units: u64, n: nat, total: nat)
    requires total == n * units && g.rshashPos + total <= U64_MAX
    ensures Run(g, Repeat(PosCharged(units), n)) == Ok(g.(rshashPos := g.rshashPos + total))
    decreases n
  {
    hide Step, Run, Repeat;
    if n == 0 {
      RunNothing(g, Repeat(PosCharged(units), 0));
    } else {
      OneTimesLess(n, units);
      ChargeFits(g, units);
      RunOn(g, Repeat(PosCharged(units), n), g.(rshashPos := g.rshashPos + units));
      RepeatOnce(PosCharged(units), n);
      ChargesAddUp(g.(rshashPos := g.rshashPos + units), units, n - 1, total - units);
    }
  }

  lemma RunNothing(g: Gauge, es: seq<Event>)
    requires es == []
    ensures Run(g, es) == Ok(g)
  {
  }

  lemma OneTimesLess(n: nat, units: nat)
    requires n > 0
    ensures n * units == (n - 1) * units + units && (n - 1) * units >= 0
  {
    Distribute(n - 1, 1, units);
    ScaleMonotone(0, n - 1, units);
  }

  lemma ChargeFits(g: Gauge, units: u64)
    requires g.rshashPos + units <= U64_MAX
    ensures Step(g, PosCharged(units)) == Ok(g.(rshashPos := g.rshashPos + units))
  {
    hide Encode;
  }

  /** So many charges of `units` fill the counter. */
  function Filling(units: u64): (n: nat)
    requires units > 0
    ensures n >= 1 && n * units <= U64_MAX < n * units + units
  {
    FillsBelow(units);
    U64_MAX / units
  }

  lemma FillsBelow(units: u64)
    requires units > 0
    ensures var n := U64_MAX / units; n >= 1 && n * units <= U64_MAX < n * units + units
  {
    var n := U64_MAX / units;
    assert U64_MAX == n * units + U64_MAX % units;
    if n == 0 {
      assert false;
    }
  }

  /** From startup: however small the charges, with no page counted to encode them
      they wrap the running counter in the end. */
  lemma UnpagedChargesWrap(units: u64)
    requires units > 0
    ensures var n := Filling(units) + 1;
      Run(STARTUP, Repeat(PosCharged(units), n)) == Ok(STARTUP.(rshashPos := n * units - U64_SIZE))
  {
    hide Encode, Run;
    var n, e := Filling(units), PosCharged(units);
    var full := STARTUP.(rshashPos := n * units);
    ChargesAddUp(STARTUP, units, n, n * units);
    RepeatOnce(e, n);
    RunConcat(STARTUP, Repeat(e, n), [e]);
    RunOne(full, e);
    NothingToEncode(full);
    Distribute(n, 1, units);
    WrapsOnce(n * units + units);
  }

  lemma WrapsOnce(x: nat)
    requires U64_SIZE <= x < 2 * U64_SIZE
    ensures x % U64_SIZE == x - U64_SIZE
  {
    DivModUnique(x, U64_SIZE, 1, x - U64_SIZE);
  }

  // ---------------------------------------------------------------------------
  // The BUG_ON
  // ---------------------------------------------------------------------------

  /** The BUG_ON fires exactly when pages are pending, one of the totals would
      overflow, and neither the scaled page count nor what is to be added to it
      survives halving. */
  lemma EncodeBugsIff(g: Gauge)
    requires Sound(g)
    ensures var b, pages := g.benefit, PagesPending(g);
      Encode(g).Bug? <==>
        && pages > 0 && Crowded(b, g.rshashPos, g.rshashNeg, pages)
        && b.scanned <= 1 && Shr(pages, b.base) <= 1
  {
    var b, pages := g.benefit, PagesPending(g);
    hide Shr, Approximates, Added, Sound;
    BugIffNoPagesLeft(g);
    if pages > 0 {
      SoundTracks(g);
      NoPagesLeftIff(b, g.ledger, g.rshashPos, g.rshashNeg, pages);
    }
  }

  lemma SoundTracks(g: Gauge)
    requires Sound(g)
    ensures Tracks(g.benefit, g.ledger)
  {
  }

  lemma BugIffNoPagesLeft(g: Gauge)
    ensures var pages := PagesPending(g);
      Encode(g).Bug? <==> pages > 0 && Added(g.benefit, g.rshashPos, g.rshashNeg, pages).scanned == 0
  {
  }

  lemma NoPagesLeftIff(b: Scaled, l: Ledger, pos: u64, neg: u64, pages: u64)
    requires Tracks(b, l) && pages > 0
    ensures Added(b, pos, neg, pages).scanned == 0
       <==> Crowded(b, pos, neg, pages) && b.scanned <= 1 && Shr(pages, b.base) <= 1
  {
    FirstNeverCrowded(b, l, pos, neg, pages);
    AddedNeverWraps(b, pos, neg, pages);
    ShrShr(pages, b.base, 1);
    assert Shr(b.scanned, 1) == b.scanned / 2 && Shr(Shr(pages, b.base), 1) == Shr(pages, b.base) / 2;
  }

  /** Charges of the same size, two fillings of the counter for two pages. */
  function HeavyRun(units: u64): seq<Event>
    requires units > 0
  {
    var n := Filling(units);
    [PageExamined] + Repeat(PosCharged(units), n + 1) + [PageExamined] + Repeat(PosCharged(units), n)
  }

  /** From startup: however small the charges, two pages and enough of them reach the
      BUG_ON. */
  lemma HeavyChargesHalt(units: u64)
    requires units > 0
    ensures Run(STARTUP, HeavyRun(units)).Bug?
  {
    hide Encode, Run;
    var n, e := Filling(units), PosCharged(units);
    var a, b, c := [PageExamined], Repeat(e, n + 1), Repeat(e, n);
    var over := OnePageOver(units);
    FirstFilling(units);
    assert a + b + a + c == (a + b) + (a + c);
    RunConcat(STARTUP, a + b, a + c);
    RunConcat(over, a, c);
    RunOne(over, PageExamined);
    SecondFilling(Tick(over), units);
  }

  /** After the first page and filling. */
  function OnePageOver(units: u64): Gauge
    requires units > 0
  {
    var total := Filling(units) * units;
    Tick(STARTUP).(rshashPos := units, benefit := Scaled(total, 0, 1, 0), scannedLast := 1,
                   ledger := Ledger(1, total, 0, 1), encoded := 1)
  }

  lemma FirstFilling(units: u64)
    requires units > 0
    ensures Run(STARTUP, [PageExamined] + Repeat(PosCharged(units), Filling(units) + 1)) == Ok(OnePageOver(units))
  {
    hide Encode, Run;
    var n, e := Filling(units), PosCharged(units);
    RunOne(STARTUP, PageExamined);
    RunConcat(STARTUP, [PageExamined], Repeat(e, n + 1));
    ChargesAddUp(Tick(STARTUP), units, n, n * units);
    RepeatOnce(e, n);
    RunConcat(Tick(STARTUP), Repeat(e, n), [e]);
    var full := Tick(STARTUP).(rshashPos := n * units);
    RunOne(full, e);
    FirstPageEncodes(full, n * units);
  }

  lemma FirstPageEncodes(g: Gauge, units: u64)
    requires g == Tick(STARTUP).(rshashPos := units)
    ensures Encode(g) == Ok((g.(rshashPos := 0, benefit := Scaled(units, 0, 1, 0), scannedLast := 1,
                                ledger := Ledger(1, units, 0, 1), encoded := 1), true))
  {
    hide Shr;
    ShrNone(units);
    ShrNone(0);
    ShrNone(1);
    assert PagesPending(g) == 1;
    assert Added(NO_BENEFIT, units, 0, 1) == Scaled(units, 0, 1, 0);
  }

  lemma SecondFilling(g: Gauge, units: u64)
    requires units > 0 && g.rshashPos == units && g.rshashNeg == 0 && PagesPending(g) == 1
    requires g.benefit == Scaled(Filling(units) * units, 0, 1, 0)
    ensures Run(g, Repeat(PosCharged(units), Filling(units))).Bug?
  {
    hide Encode, Run, PagesPending;
    var n, e := Filling(units), PosCharged(units);
    Distribute(n - 1, 1, units);
    ChargesAddUp(g, units, n - 1, (n - 1) * units);
    RepeatOnce(e, n - 1);
    RunConcat(g, Repeat(e, n - 1), [e]);
    var full := g.(rshashPos := n * units);
    RunOne(full, e);
    PendingIgnoresCharges(g, full);
    CrowdedPageHalts(full, n * units);
  }

  lemma CrowdedPageHalts(g: Gauge, total: u64)
    requires g.benefit == Scaled(total, 0, 1, 0) && g.rshashPos == total && g.rshashNeg == 0
    requires CanOverflow(total, total) && PagesPending(g) == 1
    ensures Encode(g).Bug?
  {
    hide Shr;
    ShrNone(total);
    assert Crowded(g.benefit, total, 0, 1);
    AddedNeverWraps(g.benefit, total, 0, 1);
    HalfOfOne();
  }

  lemma HalfOfOne()
    ensures Shr(1, 1) == 0
  {
  }

  lemma ShrNone(x: nat)
    ensures Shr(x, 0) == x
  {
  }

  // ---------------------------------------------------------------------------
  // The store of counted-out pages
  // ---------------------------------------------------------------------------

  /** The store after so many wraps of the page counter. */
  function StoreAfter(wraps: nat): (g: Gauge)
    ensures g.scanned == U64_MAX
  {
    if wraps == 0 then STARTUP.(scanned := U64_MAX) else Stored(StoreAfter(wraps - 1))
  }

  /** The pages it stands for. */
  function StoredPages(g: Gauge): nat { g.stored * Pow2(g.storedBase) }

  /** The store stands for all pages counted out exactly up to the first wrap: from the
      second on some are lost for good. */
  lemma {:induction false} StoreExactIff(wraps: nat)
    ensures StoredPages(StoreAfter(wraps)) <= wraps * U64_MAX
    ensures StoredPages(StoreAfter(wraps)) == wraps * U64_MAX <==> wraps <= 1
  {
    hide StoreAfter, StoredPages, Stored;
    FirstWrap();
    if wraps == 2 {
      SecondWrapLoses();
    } else if wraps > 2 {
      StoreExactIff(wraps - 1);
      NextStore(wraps - 1);
      NeverRecovers(StoreAfter(wraps - 1));
    }
  }

  lemma NextStore(wraps: nat)
    ensures StoreAfter(wraps + 1) == Stored(StoreAfter(wraps))
  {
  }

  lemma FirstWrap()
    ensures StoredPages(StoreAfter(0)) == 0
    ensures StoreAfter(1).stored == U64_MAX && StoreAfter(1).storedBase == 0
    ensures StoredPages(StoreAfter(1)) == U64_MAX
  {
    hide StoreAfter, Stored;
    NothingStored();
    NextStore(0);
    FirstStore(StoreAfter(0));
    assert Pow2(0) == 1;
  }

  lemma NothingStored()
    ensures StoreAfter(0).stored == 0 && StoreAfter(0).storedBase == 0
  {
  }

  lemma FirstStore(g: Gauge)
    requires g.scanned == U64_MAX && g.stored == 0 && g.storedBase == 0
    ensures Stored(g).stored == U64_MAX && Stored(g).storedBase == 0
  {
    hide Shr;
    ShrNone(U64_MAX);
  }

  /** The second wrap drops two pages. */
  lemma SecondWrapLoses()
    ensures StoreAfter(2).stored == U64_MAX - 1 && StoreAfter(2).storedBase == 1
    ensures StoredPages(StoreAfter(2)) == 2 * U64_MAX - 2
  {
    hide StoreAfter, Stored;
    FirstWrap();
    NextStore(1);
    SecondStore(StoreAfter(1));
    assert Pow2(1) == 2 by { assert Pow2(0) == 1; }
  }

  lemma SecondStore(g: Gauge)
    requires g.scanned == U64_MAX && g.stored == U64_MAX && g.storedBase == 0
    ensures Stored(g).stored == U64_MAX - 1 && Stored(g).storedBase == 1
  {
    hide Shr;
    ShrNone(U64_MAX);
    HalfOfMax();
  }

  lemma HalfOfMax()
    ensures Shr(U64_MAX, 1) == 0x7FFF_FFFF_FFFF_FFFF
  {
    assert Shr(U64_MAX, 1) == U64_MAX / 2;
  }

  /** One wrap adds at most what was counted. */
  lemma NeverRecovers(g: Gauge)
    requires g.scanned == U64_MAX
    ensures StoredPages(Stored(g)) <= StoredPages(g) + U64_MAX
  {
    hide Shr;
    StoredNeverWraps(g);
    ShrDivides(g.scanned, g.storedBase);
    ShrShr(g.scanned, g.storedBase, 1);
    var unit, d := Pow2(g.storedBase), Shr(g.scanned, g.storedBase);
    QuotientTimes(U64_MAX, unit);
    if CanOverflow(g.stored, d) {
      Halves(g.stored);
      Halves(d);
      Distribute(2 * (g.stored / 2), 2 * (d / 2), unit);
      ScaleMonotone(2 * (g.stored / 2), g.stored, unit);
      ScaleMonotone(2 * (d / 2), d, unit);
      Regroup2(g.stored / 2 + d / 2, unit);
    } else {
      Distribute(g.stored, d, unit);
    }
  }

  lemma Halves(x: nat)
    ensures Shr(x, 1) == x / 2 && 2 * (x / 2) <= x
  {
  }

  lemma QuotientTimes(x: nat, unit: nat)
    requires unit > 0
    ensures x / unit * unit <= x
  {
  }

  lemma Regroup2(x: nat, unit: nat)
    ensures x * (2 * unit) == 2 * x * unit
  {
  }

  /** The gauge of a run has the store of its wraps. */
  predicate FollowsStore(g: Gauge) {
    g.stored == StoreAfter(g.wraps).stored && g.storedBase == StoreAfter(g.wraps).storedBase
  }

  lemma StoredDependsOn(g: Gauge, h: Gauge)
    requires g.scanned == h.scanned && g.stored == h.stored && g.storedBase == h.storedBase
    ensures Stored(g).stored == Stored(h).stored && Stored(g).storedBase == Stored(h).storedBase
    ensures Stored(g).wraps == g.wraps
  {
  }

  lemma StepFollows(g: Gauge, e: Event)
    requires Sound(g) && FollowsStore(g) && Step(g, e).Ok?
    ensures Sound(Step(g, e).value) && FollowsStore(Step(g, e).value)
  {
    hide Sound, Encode, Stored;
    if Encode(g).Ok? {
      EncodeKeepsRest(g);
    }
    match e {
      case PageExamined =>
        ExamineSound(g);
        if g.scanned == U64_MAX {
          StoredDependsOn(Encode(g).value.0, StoreAfter(g.wraps));
        }
      case PosCharged(units) => ChargeSound(g, units);
      case NegCharged(units) => ChargeSound(g, units);
      case RoundEnded => EndRoundSound(g);
    }
  }

  lemma {:induction false} RunFollows(g: Gauge, es: seq<Event>)
    requires Sound(g) && FollowsStore(g) && Run(g, es).Ok?
    ensures Sound(Run(g, es).value) && FollowsStore(Run(g, es).value)
    decreases |es|
  {
    hide Sound, FollowsStore, Step;
    if es != [] {
      StepFollows(g, es[0]);
      RunFollows(Step(g, es[0]).value, es[1..]);
    }
  }

  lemma StartupFollows()
    ensures FollowsStore(STARTUP)
  {
  }

  /** What runs from startup keep, disciplined or not. */
  lemma StartupRunFollows(es: seq<Event>)
    requires Run(STARTUP, es).Ok?
    ensures var g := Run(STARTUP, es).value;
      StoredPages(g) == StoredPages(StoreAfter(g.wraps)) && g.wraps * U64_MAX + g.scanned == g.examined
  {
    hide Run, Sound, FollowsStore, StoredPages;
    StartupSound();
    StartupFollows();
    RunFollows(STARTUP, es);
    FollowsMeans(Run(STARTUP, es).value);
  }

  lemma FollowsMeans(g: Gauge)
    requires Sound(g) && FollowsStore(g)
    ensures StoredPages(g) == StoredPages(StoreAfter(g.wraps)) && g.wraps * U64_MAX + g.scanned == g.examined
  {
    hide StoreAfter, Tracks, Approximates;
  }

  /** Over every run from startup, disciplined or not: the store together with the page
      counter tells how many pages were examined exactly as long as the counter did not
      wrap a second time. */
  lemma PagesLostIff(es: seq<Event>)
    requires Run(STARTUP, es).Ok?
    ensures var g := Run(STARTUP, es).value;
      && StoredPages(g) + g.scanned <= g.examined
      && (StoredPages(g) + g.scanned == g.examined <==> g.wraps <= 1)
  {
    hide Run, StoreAfter, StoredPages;
    StartupRunFollows(es);
    StoreExactIff(Run(STARTUP, es).value.wraps);
  }

  /** Some run from startup gets there: enough pages do. */
  lemma PagesLost() returns (es: seq<Event>)
    ensures Run(STARTUP, es).Ok? && Run(STARTUP, es).value.wraps == 2
    ensures var g := Run(STARTUP, es).value; StoredPages(g) + g.scanned == g.examined - 2
  {
    hide Run, StoreAfter, StoredPages, Repeat;
    var n: nat := 2 * U64_MAX + 1;
    es := Repeat(PageExamined, n);
    PagesRun(n);
    StartupRunFollows(es);
    SecondWrapLoses();
    TwoWraps(Run(STARTUP, es).value);
  }

  lemma TwoWraps(g: Gauge)
    requires g.wraps * U64_MAX + g.scanned == g.examined == 2 * U64_MAX + 1
    ensures g.wraps == 2 && g.scanned == 1
  {
  }

  /** Pages without charges never halt. */
  lemma PagesRun(n: nat)
    ensures var r := Run(STARTUP, Repeat(PageExamined, n)); r.Ok? && r.value.examined == n
  {
    hide Run, Repeat, Sound, Disciplined, Due, Accounted;
    StartupSound();
    PagesInRoom(STARTUP, n);
    StartupRunSafe(Repeat(PageExamined, n), 0);
    PagesCounted(STARTUP, n);
  }

  lemma {:induction false} PagesInRoom(g: Gauge, n: nat)
    ensures Disciplined(g, Repeat(PageExamined, n), 0, (0, 0))
    decreases n
  {
    hide Step;
    if n > 0 {
      RepeatOnce(PageExamined, n);
      if Step(g, PageExamined).Ok? {
        PagesInRoom(Step(g, PageExamined).value, n - 1);
      }
    }
  }

  lemma {:induction false} PagesCounted(g: Gauge, n: nat)
    requires Sound(g) && Run(g, Repeat(PageExamined, n)).Ok?
    ensures Run(g, Repeat(PageExamined, n)).value.examined == g.examined + n
    decreases n
  {
    hide Sound, ExaminePage;
    if n > 0 {
      RepeatOnce(PageExamined, n);
      ExamineSound(g);
      PagesCounted(Step(g, PageExamined).value, n - 1);
    }
  }

  // ---------------------------------------------------------------------------
  // A discipline that can be read off the charges
  // ---------------------------------------------------------------------------

  /** Every charge keeps within its room. */
  predicate WithinRoom(g: Gauge, es: seq<Event>, k: nat, room: (nat, nat))
    decreases |es|
  {
    es != [] ==>
      && Allowed(es[0], room)
      && (Step(g, es[0]).Ok? ==> WithinRoom(Step(g, es[0]).value, es[1..], k, RoomAfter(g, es[0], k, room)))
  }

  /** There is no need to count encodes: no event makes more than one. */
  lemma {:induction false} ShortRunDisciplined(g: Gauge, es: seq<Event>, k: nat, room: (nat, nat))
    requires WithinRoom(g, es, k, room) && Moderate(k, g.ledger.n + |es|)
    ensures Disciplined(g, es, k, room)
    decreases |es|
  {
    hide Step, Moderate;
    FewerModerate(k, g.ledger.n, g.ledger.n + |es|);
    if es != [] && Step(g, es[0]).Ok? {
      var h := Step(g, es[0]).value;
      EncodesAtMostOnce(g, es[0]);
      FewerModerate(k, h.ledger.n + |es[1..]|, g.ledger.n + |es|);
      ShortRunDisciplined(h, es[1..], k, RoomAfter(g, es[0], k, room));
    }
  }

  /** A run of charges within their rooms is safe if `k` times its length, plus one,
      stays below 2^63. */
  lemma ShortRunSafe(es: seq<Event>, k: nat)
    requires WithinRoom(STARTUP, es, k, (0, 0)) && k * (|es| + 1) < 0x8000_0000_0000_0000
    ensures Run(STARTUP, es).Ok? && Sound(Run(STARTUP, es).value)
    ensures Accounted(Run(STARTUP, es).value, Due(STARTUP, es, (0, 0)))
  {
    hide Sound, Disciplined, Run, Due, Accounted, WithinRoom;
    ShortRunDisciplined(STARTUP, es, k, (0, 0));
    StartupRunSafe(es, k);
  }
}
