/** Benefit counters of the sampled hash: charges, page counts, and the scaled
    totals that survive 64-bit overflow. */
module Benefit {
  import opened Words

  /** BUG_ON stops the machine; everything else yields a value. */
  datatype Result<+T> = Ok(value: T) | Bug {
    predicate IsFailure() { Bug? }

    function PropagateFailure<U>(): Result<U>
      requires Bug?
    {
      Bug
    }

    function Extract(): T
      requires Ok?
    {
      value
    }
  }

  /** `struct uksm_benefit` */
  datatype Scaled = Scaled(pos: u64, neg: u64, scanned: u64, base: nat)

  /** What was encoded since the last reset, unscaled: how many times, and how much. */
  datatype Ledger = Ledger(n: nat, pos: nat, neg: nat, scanned: nat)

  /** The counters of the scanner, and the bookkeeping the code does not keep:
      the ledger, the pages examined since startup, how many of them were ever
      encoded, and how often the page counter started again. */
  datatype Gauge = Gauge(
    rshashPos: u64, rshashNeg: u64, benefit: Scaled,
    scanned: u64, scannedLast: u64, stored: u64, storedBase: nat,
    ledger: Ledger, examined: nat, encoded: nat, wraps: nat)

  const NO_BENEFIT: Scaled := Scaled(0, 0, 0, 0)
  const EMPTY_LEDGER: Ledger := Ledger(0, 0, 0, 0)
  const STARTUP: Gauge := Gauge(0, 0, NO_BENEFIT, 0, 0, 0, 0, EMPTY_LEDGER, 0, 0, 0)

  predicate CanOverflow(x: u64, delta: u64) { U64_MAX - x < delta }

  // ---------------------------------------------------------------------------
  // What each operation computes
  // ---------------------------------------------------------------------------

  /** Halve the counters when one of them would overflow. */
  function Rescaled(b: Scaled, crowded: bool): Scaled {
    if crowded then Scaled(Shr(b.pos, 1), Shr(b.neg, 1), Shr(b.scanned, 1), b.base + 1) else b
  }

  function Crowded(b: Scaled, pos: u64, neg: u64, scanned: u64): bool {
    || CanOverflow(b.pos, Shr(pos, b.base))
    || CanOverflow(b.neg, Shr(neg, b.base))
    || CanOverflow(b.scanned, Shr(scanned, b.base))
  }

  /** The scaled totals after the raw charges have been added. */
  function Added(b: Scaled, pos: u64, neg: u64, scanned: u64): Scaled {
    var r := Rescaled(b, Crowded(b, pos, neg, scanned));
    r.(pos := (r.pos + Shr(pos, r.base)) % U64_SIZE,
       neg := (r.neg + Shr(neg, r.base)) % U64_SIZE,
       scanned := (r.scanned + Shr(scanned, r.base)) % U64_SIZE)
  }

  function PagesPending(g: Gauge): u64 { (g.scanned - g.scannedLast) % U64_SIZE }

  /** `encode_benefit`: the flag says whether there was anything to encode. */
  function Encode(g: Gauge): Result<(Gauge, bool)> {
    var pages := PagesPending(g);
    if pages == 0 then Ok((g, false))
    else
      var b := Added(g.benefit, g.rshashPos, g.rshashNeg, pages);
      if b.scanned == 0 then Bug
      else Ok((g.(benefit := b, rshashPos := 0, rshashNeg := 0, scannedLast := g.scanned,
                  ledger := Ledger(g.ledger.n + 1, g.ledger.pos + g.rshashPos,
                                   g.ledger.neg + g.rshashNeg, g.ledger.scanned + pages),
                  encoded := g.encoded + pages), true))
  }

  function Reset(g: Gauge): Gauge { g.(benefit := NO_BENEFIT, ledger := EMPTY_LEDGER) }

  function ChargePos(g: Gauge, delta: u64): Result<Gauge> {
    var (h, _) :- if CanOverflow(g.rshashPos, delta) then Encode(g) else Ok((g, false));
    Ok(h.(rshashPos := (h.rshashPos + delta) % U64_SIZE))
  }

  function ChargeNeg(g: Gauge, delta: u64): Result<Gauge> {
    var (h, _) :- if CanOverflow(g.rshashNeg, delta) then Encode(g) else Ok((g, false));
    Ok(h.(rshashNeg := (h.rshashNeg + delta) % U64_SIZE))
  }

  /** The store of counted-out pages, halved when it would overflow. */
  function Stored(g: Gauge): Gauge {
    var delta := Shr(g.scanned, g.storedBase);
    if CanOverflow(g.stored, delta)
    then g.(stored := (Shr(g.stored, 1) + Shr(delta, 1)) % U64_SIZE, storedBase := g.storedBase + 1)
    else g.(stored := (g.stored + delta) % U64_SIZE)
  }

  /** The page counter at its maximum: encode, store what was counted, start over. */
  function CountOut(g: Gauge): Result<Gauge> {
    var (e, _) :- Encode(g);
    Ok(Stored(e).(scanned := 0, scannedLast := 0, wraps := e.wraps + 1))
  }

  /** `inc_uksm_pages_scanned` */
  function ExaminePage(g: Gauge): Result<Gauge> {
    var h :- if g.scanned == U64_MAX then CountOut(g) else Ok(g);
    Ok(Tick(h))
  }

  function Tick(g: Gauge): Gauge {
    g.(scanned := (g.scanned + 1) % U64_SIZE, examined := g.examined + 1)
  }

  /** The part of `rshash_adjust` that touches the counters: encode what is pending,
      and start over if that was anything. */
  function EndRound(g: Gauge): Result<Gauge> {
    var (h, any) :- Encode(g);
    Ok(if any then Reset(h) else h)
  }

  // ---------------------------------------------------------------------------
  // Scaled totals keep their meaning
  // ---------------------------------------------------------------------------

  /** After `n` additions, `x` counts units of `unit` and falls short of the exact
      total by less than `n` of them. */
  predicate Approximates(x: nat, unit: nat, total: nat, n: nat) {
    x * unit <= total && (if n == 0 then total == 0 else total < (x + n) * unit)
  }

  predicate Tracks(b: Scaled, l: Ledger) {
    && Approximates(b.pos, Pow2(b.base), l.pos, l.n)
    && Approximates(b.neg, Pow2(b.base), l.neg, l.n)
    && Approximates(b.scanned, Pow2(b.base), l.scanned, l.n)
    && l.pos <= l.n * U64_MAX && l.neg <= l.n * U64_MAX && l.scanned <= l.n * U64_MAX
    && (l.n == 0 ==> b == NO_BENEFIT)
    && (l.n > 0 ==> b.scanned > 0 && Pow2(b.base) < 2 * l.n)
  }

  lemma ScaleMonotone(a: int, b: int, unit: nat)
    requires a <= b
    ensures a * unit <= b * unit
  {
    Distribute(a, b - a, unit);
  }

  lemma Accumulate(x: nat, d: nat, unit: nat, total: nat, n: nat)
    requires unit >= 1 && Approximates(x, unit, total, n) && (n == 0 ==> x == 0)
    ensures Approximates(x + d / unit, unit, total + d, n + 1)
  {
    var q := d / unit;
    assert d == q * unit + d % unit;
    Distribute(x, q, unit);
    Distribute(x + n, q + 1, unit);
    Distribute(q, 1, unit);
    assert x + q + (n + 1) == (x + n) + (q + 1);
  }

  /** Halving costs at most one more doubled unit, whatever `n` already allows. */
  lemma AccumulateHalved(x: nat, d: nat, q: nat, unit: nat, total: nat, n: nat)
    requires unit >= 1 && n >= 1 && Approximates(x, unit, total, n) && q == d / unit
    ensures Approximates(x / 2 + q / 2, 2 * unit, total + d, n + 1)
  {
    var y := x / 2 + q / 2;
    Accumulate(x, d, unit, total, n);
    ScaleMonotone(2 * y, x + q, unit);
    ScaleMonotone(x + q + (n + 1), 2 * (y + (n + 1)), unit);
    assert y * (2 * unit) == (2 * y) * unit;
    assert (y + (n + 1)) * (2 * unit) == (2 * (y + (n + 1))) * unit;
  }

  /** One counter through one encode, rescaled or not. */
  lemma CounterStep(x: u64, d: u64, base: nat, crowded: bool, total: nat, n: nat)
    requires Approximates(x, Pow2(base), total, n) && (n == 0 ==> x == 0)
    requires n == 0 ==> !crowded
    ensures var x' := (if crowded then Shr(x, 1) else x);
      var base' := (if crowded then base + 1 else base);
      Approximates(x' + Shr(d, base'), Pow2(base'), total + d, n + 1)
  {
    ShrDivides(d, base);
    if crowded {
      AccumulateHalved(x, d, Shr(d, base), Pow2(base), total, n);
      ShrShr(d, base, 1);
      assert Shr(x, 1) == x / 2 && Shr(Shr(d, base), 1) == Shr(d, base) / 2;
    } else {
      Accumulate(x, d, Pow2(base), total, n);
    }
  }

  /** A sum that would overflow at unit 2^base needs more encodes than 2^base. */
  lemma OverflowNeedsEncodes(x: u64, d: u64, base: nat, total: nat, n: nat)
    requires Approximates(x, Pow2(base), total, n) && (n == 0 ==> x == 0)
    requires total <= n * U64_MAX && CanOverflow(x, Shr(d, base))
    ensures Pow2(base) <= n && U64_SIZE * Pow2(base) <= total + d
  {
    var unit, q := Pow2(base), d / Pow2(base);
    ShrDivides(d, base);
    Accumulate(x, d, unit, total, n);
    ScaleMonotone(U64_SIZE, x + q, unit);
    Distribute(n, 1, U64_MAX);
    assert U64_SIZE * unit <= (n + 1) * U64_MAX;
  }

  lemma CrowdedNeedsEncodes(b: Scaled, l: Ledger, pos: u64, neg: u64, pages: u64)
    requires Tracks(b, l) && Crowded(b, pos, neg, pages)
    ensures Pow2(b.base) <= l.n
  {
    hide Approximates, Shr;
    if CanOverflow(b.pos, Shr(pos, b.base)) {
      OverflowNeedsEncodes(b.pos, pos, b.base, l.pos, l.n);
    } else if CanOverflow(b.neg, Shr(neg, b.base)) {
      OverflowNeedsEncodes(b.neg, neg, b.base, l.neg, l.n);
    } else {
      OverflowNeedsEncodes(b.scanned, pages, b.base, l.scanned, l.n);
    }
  }

  /** Two halved words always fit in one word. */
  lemma HalvesFit(b: Scaled, pos: u64, neg: u64, pages: u64)
    ensures var r := Rescaled(b, Crowded(b, pos, neg, pages));
      && r.pos + Shr(pos, r.base) <= U64_MAX
      && r.neg + Shr(neg, r.base) <= U64_MAX
      && r.scanned + Shr(pages, r.base) <= U64_MAX
  {
    HalfFits(b.pos, pos, b.base);
    HalfFits(b.neg, neg, b.base);
    HalfFits(b.scanned, pages, b.base);
  }

  lemma HalfFits(x: u64, d: u64, base: nat)
    ensures Shr(x, 1) + Shr(d, base + 1) <= U64_MAX
  {
    ShrShr(d, base, 1);
    assert Shr(x, 1) == x / 2 && Shr(Shr(d, base), 1) == Shr(d, base) / 2;
  }

  /** Right after a reset everything fits. */
  lemma FirstNeverCrowded(b: Scaled, l: Ledger, pos: u64, neg: u64, pages: u64)
    requires Tracks(b, l)
    ensures l.n == 0 ==> !Crowded(b, pos, neg, pages) && Shr(pages, b.base) == pages
  {
  }

  /** Whatever is encoded, none of the three additions wraps. */
  lemma AddedNeverWraps(b: Scaled, pos: u64, neg: u64, pages: u64)
    ensures var r := Rescaled(b, Crowded(b, pos, neg, pages));
      Added(b, pos, neg, pages)
        == r.(pos := r.pos + Shr(pos, r.base), neg := r.neg + Shr(neg, r.base),
              scanned := r.scanned + Shr(pages, r.base))
  {
    HalvesFit(b, pos, neg, pages);
  }

  /** The counters go on standing for the exact totals, and the unit stays below
      twice the number of encodes. */
  lemma AddedTracks(b: Scaled, l: Ledger, pos: u64, neg: u64, pages: u64)
    requires Tracks(b, l)
    ensures var c, n := Added(b, pos, neg, pages), l.n + 1;
      && Approximates(c.pos, Pow2(c.base), l.pos + pos, n)
      && Approximates(c.neg, Pow2(c.base), l.neg + neg, n)
      && Approximates(c.scanned, Pow2(c.base), l.scanned + pages, n)
      && Pow2(c.base) < 2 * n
  {
    AddedNeverWraps(b, pos, neg, pages);
    FirstNeverCrowded(b, l, pos, neg, pages);
    var crowded := Crowded(b, pos, neg, pages);
    hide Approximates, Shr, Added, Crowded;
    CounterStep(b.pos, pos, b.base, crowded, l.pos, l.n);
    CounterStep(b.neg, neg, b.base, crowded, l.neg, l.n);
    CounterStep(b.scanned, pages, b.base, crowded, l.scanned, l.n);
    if crowded {
      CrowdedNeedsEncodes(b, l, pos, neg, pages);
    }
  }

  // ---------------------------------------------------------------------------
  // What every operation keeps
  // ---------------------------------------------------------------------------

  /** The counters track the ledger, no examined page is lost or counted twice,
      and the store stands for the pages counted out at each wrap. */
  predicate Sound(g: Gauge) {
    && Tracks(g.benefit, g.ledger)
    && g.scannedLast <= g.scanned
    && g.encoded + (g.scanned - g.scannedLast) == g.examined
    && g.wraps * U64_MAX + g.scanned == g.examined
    && Approximates(g.stored, Pow2(g.storedBase), g.wraps * U64_MAX, g.wraps)
    && (g.wraps == 0 ==> g.stored == 0)
  }

  lemma StartupSound()
    ensures Sound(STARTUP)
  {
  }

  lemma EncodeSound(g: Gauge)
    requires Sound(g) && Encode(g).Ok?
    ensures Sound(Encode(g).value.0) && PagesPending(Encode(g).value.0) == 0
    ensures Encode(g).value.1 == (PagesPending(g) > 0)
  {
    if PagesPending(g) > 0 {
      AddedTracks(g.benefit, g.ledger, g.rshashPos, g.rshashNeg, PagesPending(g));
      Distribute(g.ledger.n, 1, U64_MAX);
    }
  }

  lemma ResetSound(g: Gauge)
    requires Sound(g)
    ensures Sound(Reset(g))
  {
  }

  lemma StoredNeverWraps(g: Gauge)
    ensures Stored(g).stored ==
      if CanOverflow(g.stored, Shr(g.scanned, g.storedBase))
      then Shr(g.stored, 1) + Shr(g.scanned, g.storedBase + 1)
      else g.stored + Shr(g.scanned, g.storedBase)
  {
    HalfFits(g.stored, g.scanned, g.storedBase);
    ShrShr(g.scanned, g.storedBase, 1);
  }

  /** The store is halved, not overflowed, and is off by less than one unit a wrap. */
  lemma StoredSound(g: Gauge)
    requires Approximates(g.stored, Pow2(g.storedBase), g.wraps * U64_MAX, g.wraps)
    requires g.scanned == U64_MAX && (g.wraps == 0 ==> g.stored == 0)
    ensures Approximates(Stored(g).stored, Pow2(Stored(g).storedBase), (g.wraps + 1) * U64_MAX, g.wraps + 1)
  {
    hide Approximates, Shr, Pow2;
    StoredNeverWraps(g);
    ShrBelow(g.scanned, g.storedBase);
    var crowded := CanOverflow(g.stored, Shr(g.scanned, g.storedBase));
    CounterStep(g.stored, U64_MAX, g.storedBase, crowded, g.wraps * U64_MAX, g.wraps);
    Distribute(g.wraps, 1, U64_MAX);
  }

  lemma ShrBelow(x: u64, k: nat)
    ensures Shr(x, k) <= U64_MAX
  {
  }

  lemma CountOutSound(g: Gauge)
    requires Sound(g) && g.scanned == U64_MAX && CountOut(g).Ok?
    ensures var h := CountOut(g).value;
      Sound(h) && h.scanned == 0 && h.examined == g.examined && PagesPending(h) == 0
  {
    EncodeKeepsRest(g);
    EncodeSound(g);
    hide Encode, Tracks, Shr, Pow2;
    StoredSound(Encode(g).value.0);
    Distribute(g.wraps, 1, U64_MAX);
  }

  /** Encoding leaves the page counter and the store alone. */
  lemma EncodeKeepsRest(g: Gauge)
    requires Encode(g).Ok?
    ensures var h := Encode(g).value.0;
      && h.scanned == g.scanned && h.examined == g.examined && h.wraps == g.wraps
      && h.stored == g.stored && h.storedBase == g.storedBase
  {
  }

  lemma ExamineSound(g: Gauge)
    requires Sound(g) && ExaminePage(g).Ok?
    ensures Sound(ExaminePage(g).value)
    ensures ExaminePage(g).value.examined == g.examined + 1
  {
    hide CountOut, Tracks, Approximates;
    if g.scanned == U64_MAX {
      CountOutSound(g);
    }
  }

  lemma ChargeSound(g: Gauge, delta: u64)
    requires Sound(g)
    ensures ChargePos(g, delta).Ok? ==> Sound(ChargePos(g, delta).value)
    ensures ChargeNeg(g, delta).Ok? ==> Sound(ChargeNeg(g, delta).value)
  {
    hide Encode, Tracks, Approximates;
    if Encode(g).Ok? {
      EncodeSound(g);
    }
  }

  lemma EndRoundSound(g: Gauge)
    requires Sound(g) && EndRound(g).Ok?
    ensures Sound(EndRound(g).value) && PagesPending(EndRound(g).value) == 0
    ensures PagesPending(g) > 0 ==> EndRound(g).value.ledger == EMPTY_LEDGER
  {
    EncodeSound(g);
  }

  // ---------------------------------------------------------------------------
  // Runs, and the charges under which none of them crashes
  // ---------------------------------------------------------------------------

  datatype Event = PageExamined | PosCharged(units: u64) | NegCharged(units: u64) | RoundEnded

  function Step(g: Gauge, e: Event): Result<Gauge> {
    match e
    case PageExamined => ExaminePage(g)
    case PosCharged(units) => ChargePos(g, units)
    case NegCharged(units) => ChargeNeg(g, units)
    case RoundEnded => EndRound(g)
  }

  function Run(g: Gauge, es: seq<Event>): Result<Gauge>
    decreases |es|
  {
    if es == [] then Ok(g)
    else
      var h :- Step(g, es[0]);
      Run(h, es[1..])
  }

  /** What may still be charged after an event: `k` units of either kind for a page
      just examined, and as much once more for the rebuild that follows a round in
      which something was encoded. */
  function RoomAfter(g: Gauge, e: Event, k: nat, room: (nat, nat)): (nat, nat) {
    match e
    case PageExamined => (k, k)
    case PosCharged(units) => (if units <= room.0 then room.0 - units else 0, room.1)
    case NegCharged(units) => (room.0, if units <= room.1 then room.1 - units else 0)
    case RoundEnded => if PagesPending(g) > 0 then (k, k) else (0, 0)
  }

  predicate Allowed(e: Event, room: (nat, nat)) {
    && (e.PosCharged? ==> e.units <= room.0)
    && (e.NegCharged? ==> e.units <= room.1)
  }

  /** `k` units an encode, over one encode more, leave a 64-bit counter half empty. */
  predicate Moderate(k: nat, n: nat) { k * (n + 1) < 0x8000_0000_0000_0000 }

  lemma ModerateUnits(k: nat, n: nat)
    requires Moderate(k, n)
    ensures k < 0x8000_0000_0000_0000
  {
    Distribute(n, 1, k);
  }

  /** Every charge keeps within its room, and no round encodes too often. */
  predicate Disciplined(g: Gauge, es: seq<Event>, k: nat, room: (nat, nat))
    decreases |es|
  {
    && Moderate(k, g.ledger.n)
    && (es != [] ==>
          && Allowed(es[0], room)
          && (Step(g, es[0]).Ok? ==>
                Disciplined(Step(g, es[0]).value, es[1..], k, RoomAfter(g, es[0], k, room))))
  }

  /** The units charged since the counters last started over, after an event. */
  function DueAfter(g: Gauge, e: Event, due: (nat, nat)): (nat, nat) {
    match e
    case PageExamined => due
    case PosCharged(units) => (due.0 + units, due.1)
    case NegCharged(units) => (due.0, due.1 + units)
    case RoundEnded => if PagesPending(g) > 0 then (0, 0) else due
  }

  function Due(g: Gauge, es: seq<Event>, due: (nat, nat)): (nat, nat)
    decreases |es|
  {
    if es == [] || Step(g, es[0]).Bug? then due
    else Due(Step(g, es[0]).value, es[1..], DueAfter(g, es[0], due))
  }

  /** Every unit due is in the ledger or in the running counter. */
  predicate Accounted(g: Gauge, due: (nat, nat)) {
    g.ledger.pos + g.rshashPos == due.0 && g.ledger.neg + g.rshashNeg == due.1
  }

  /** One kind of charge against the pages that account for it. */
  predicate Covered(ledger: nat, running: nat, room: nat, pages: nat, pending: nat, k: nat) {
    && ledger + running + room <= k * (pages + pending + 1)
    && running + room <= k * (pending + 1)
    && room <= k
  }

  predicate Charged(g: Gauge, k: nat, room: (nat, nat)) {
    && Covered(g.ledger.pos, g.rshashPos, room.0, g.ledger.scanned, PagesPending(g), k)
    && Covered(g.ledger.neg, g.rshashNeg, room.1, g.ledger.scanned, PagesPending(g), k)
  }

  /** Rescaling to nothing would take more charged units than the pages allow. */
  lemma ScannedSurvives(b: Scaled, l: Ledger, pos: u64, neg: u64, pages: u64, k: nat)
    requires Tracks(b, l) && pages > 0 && Moderate(k, l.n)
    requires l.pos + pos <= k * (l.scanned + pages + 1) && l.neg + neg <= k * (l.scanned + pages + 1)
    ensures Added(b, pos, neg, pages).scanned > 0
  {
    FirstNeverCrowded(b, l, pos, neg, pages);
    AddedNeverWraps(b, pos, neg, pages);
    if CanOverflow(b.scanned, Shr(pages, b.base)) {
      ShrShr(pages, b.base, 1);
      HalvesOfLarge(b.scanned, Shr(pages, b.base));
    } else if CanOverflow(b.pos, Shr(pos, b.base)) {
      OverflowNeedsEncodes(b.pos, pos, b.base, l.pos, l.n);
      AddedTracks(b, l, pos, neg, pages);
      PagesTooFew(k, l.n + 1, Pow2(b.base), l.scanned + pages, Added(b, pos, neg, pages).scanned);
    } else if CanOverflow(b.neg, Shr(neg, b.base)) {
      OverflowNeedsEncodes(b.neg, neg, b.base, l.neg, l.n);
      AddedTracks(b, l, pos, neg, pages);
      PagesTooFew(k, l.n + 1, Pow2(b.base), l.scanned + pages, Added(b, pos, neg, pages).scanned);
    }
  }

  lemma HalvesOfLarge(x: u64, y: u64)
    requires CanOverflow(x, y)
    ensures Shr(x, 1) + Shr(y, 1) > 0
  {
    assert Shr(x, 1) == x / 2 && Shr(y, 1) == y / 2;
  }

  /** With no scaled page left, the exact pages are fewer than `n` doubled units. */
  lemma PagesTooFew(k: nat, n: nat, unit: nat, pages: nat, x: nat)
    requires k * n < 0x8000_0000_0000_0000 && unit >= 1 && n >= 1
    requires Approximates(x, 2 * unit, pages, n)
    ensures x > 0 || k * (pages + 1) < U64_SIZE * unit
  {
    if x == 0 {
      ScaleMonotone(pages + 1, n * (2 * unit), k);
      assert n * (2 * unit) * k == (k * n) * (2 * unit);
      ScaleMonotone(k * n, 0x7FFF_FFFF_FFFF_FFFF, 2 * unit);
    }
  }

  lemma CoveredOnePage(ledger: nat, running: nat, room: nat, pages: nat, pending: nat, k: nat)
    requires Covered(ledger, running, room, pages, pending, k)
    ensures Covered(ledger, running, k, pages, pending + 1, k)
  {
    assert k * (pages + (pending + 1) + 1) == k * (pages + pending + 1) + k;
    assert k * (pending + 1 + 1) == k * (pending + 1) + k;
  }

  lemma CoveredEncoded(ledger: nat, running: nat, room: nat, pages: nat, pending: nat, k: nat)
    requires Covered(ledger, running, room, pages, pending, k)
    ensures Covered(ledger + running, 0, room, pages + pending, 0, k)
  {
  }

  lemma CoveredCharge(ledger: nat, running: nat, room: nat, pages: nat, pending: nat, k: nat, units: nat)
    requires Covered(ledger, running, room, pages, pending, k) && units <= room
    ensures Covered(ledger, running + units, room - units, pages, pending, k)
  {
  }

  /** A running counter about to overflow has pages to encode with it. */
  lemma FullCounterHasPages(ledger: nat, running: u64, room: nat, pages: nat, pending: nat, k: nat, units: u64)
    requires Covered(ledger, running, room, pages, pending, k) && units <= room
    requires k < 0x8000_0000_0000_0000
    ensures CanOverflow(running, units) ==> pending > 0
    ensures pending == 0 ==> running + units <= k
  {
  }

  lemma EncodeSafe(g: Gauge, k: nat, room: (nat, nat))
    requires Sound(g) && Charged(g, k, room) && Moderate(k, g.ledger.n)
    ensures Encode(g).Ok?
    ensures var h := Encode(g).value.0;
      && Charged(h, k, room)
      && h.ledger.pos + h.rshashPos == g.ledger.pos + g.rshashPos
      && h.ledger.neg + h.rshashNeg == g.ledger.neg + g.rshashNeg
      && h.ledger.scanned + PagesPending(h) == g.ledger.scanned + PagesPending(g)
      && (PagesPending(g) > 0 ==> h.rshashPos == h.rshashNeg == 0)
  {
    hide Tracks, Shr, Added, Covered;
    var pages := PagesPending(g);
    if pages > 0 {
      ChargesCovered(g, k, room);
      ScannedSurvives(g.benefit, g.ledger, g.rshashPos, g.rshashNeg, pages, k);
      CoveredEncoded(g.ledger.pos, g.rshashPos, room.0, g.ledger.scanned, pages, k);
      CoveredEncoded(g.ledger.neg, g.rshashNeg, room.1, g.ledger.scanned, pages, k);
    }
  }

  lemma ChargesCovered(g: Gauge, k: nat, room: (nat, nat))
    requires Charged(g, k, room)
    ensures g.ledger.pos + g.rshashPos <= k * (g.ledger.scanned + PagesPending(g) + 1)
    ensures g.ledger.neg + g.rshashNeg <= k * (g.ledger.scanned + PagesPending(g) + 1)
  {
  }

  lemma PendingIgnoresCharges(g: Gauge, h: Gauge)
    requires g.scanned == h.scanned && g.scannedLast == h.scannedLast
    ensures PagesPending(g) == PagesPending(h)
  {
  }

  /** Within the room for a page a charge never wraps the running counter: every
      unit charged since the reset is in the ledger or in the counter. */
  lemma ChargePosFits(g: Gauge, units: u64, k: nat, room: (nat, nat))
    requires Charged(g, k, room) && units <= room.0 && !CanOverflow(g.rshashPos, units)
    ensures var h := g.(rshashPos := (g.rshashPos + units) % U64_SIZE);
      h.rshashPos == g.rshashPos + units && Charged(h, k, (room.0 - units, room.1))
  {
    hide Covered, PagesPending;
    CoveredCharge(g.ledger.pos, g.rshashPos, room.0, g.ledger.scanned, PagesPending(g), k, units);
    PendingIgnoresCharges(g, g.(rshashPos := (g.rshashPos + units) % U64_SIZE));
  }

  lemma ChargePosSafe(g: Gauge, units: u64, k: nat, room: (nat, nat))
    requires Sound(g) && Charged(g, k, room) && Moderate(k, g.ledger.n)
    requires units <= room.0
    ensures ChargePos(g, units).Ok?
    ensures var h := ChargePos(g, units).value;
      && Charged(h, k, (room.0 - units, room.1))
      && h.ledger.pos + h.rshashPos == g.ledger.pos + g.rshashPos + units
      && h.ledger.neg + h.rshashNeg == g.ledger.neg + g.rshashNeg
  {
    hide Encode, Sound, Covered, Moderate, PagesPending;
    if CanOverflow(g.rshashPos, units) {
      EncodeSafe(g, k, room);
      ModerateUnits(k, g.ledger.n);
      FullCounterHasPages(g.ledger.pos, g.rshashPos, room.0, g.ledger.scanned, PagesPending(g), k, units);
      ChargePosFits(Encode(g).value.0, units, k, room);
    } else {
      ChargePosFits(g, units, k, room);
    }
  }

  lemma ChargeNegFits(g: Gauge, units: u64, k: nat, room: (nat, nat))
    requires Charged(g, k, room) && units <= room.1 && !CanOverflow(g.rshashNeg, units)
    ensures var h := g.(rshashNeg := (g.rshashNeg + units) % U64_SIZE);
      h.rshashNeg == g.rshashNeg + units && Charged(h, k, (room.0, room.1 - units))
  {
    hide Covered, PagesPending;
    CoveredCharge(g.ledger.neg, g.rshashNeg, room.1, g.ledger.scanned, PagesPending(g), k, units);
    PendingIgnoresCharges(g, g.(rshashNeg := (g.rshashNeg + units) % U64_SIZE));
  }

  lemma ChargeNegSafe(g: Gauge, units: u64, k: nat, room: (nat, nat))
    requires Sound(g) && Charged(g, k, room) && Moderate(k, g.ledger.n)
    requires units <= room.1
    ensures ChargeNeg(g, units).Ok?
    ensures var h := ChargeNeg(g, units).value;
      && Charged(h, k, (room.0, room.1 - units))
      && h.ledger.neg + h.rshashNeg == g.ledger.neg + g.rshashNeg + units
      && h.ledger.pos + h.rshashPos == g.ledger.pos + g.rshashPos
  {
    hide Encode, Sound, Covered, Moderate, PagesPending;
    if CanOverflow(g.rshashNeg, units) {
      EncodeSafe(g, k, room);
      ModerateUnits(k, g.ledger.n);
      FullCounterHasPages(g.ledger.neg, g.rshashNeg, room.1, g.ledger.scanned, PagesPending(g), k, units);
      ChargeNegFits(Encode(g).value.0, units, k, room);
    } else {
      ChargeNegFits(g, units, k, room);
    }
  }

  lemma CountOutSafe(g: Gauge, k: nat, room: (nat, nat))
    requires Sound(g) && Charged(g, k, room) && Moderate(k, g.ledger.n)
    ensures CountOut(g).Ok? && Charged(CountOut(g).value, k, room)
    ensures forall due :: Accounted(g, due) ==> Accounted(CountOut(g).value, due)
  {
    hide Encode, Covered, Moderate, Tracks, Approximates;
    EncodeSafe(g, k, room);
    EncodeSound(g);
  }

  lemma TickPends(g: Gauge)
    requires g.scannedLast <= g.scanned < U64_MAX
    ensures PagesPending(Tick(g)) == PagesPending(g) + 1
  {
  }

  lemma TickSafe(g: Gauge, k: nat, room: (nat, nat))
    requires g.scannedLast <= g.scanned < U64_MAX && Charged(g, k, room)
    ensures Charged(Tick(g), k, (k, k))
  {
    hide Covered, PagesPending;
    TickPends(g);
    CoveredOnePage(g.ledger.pos, g.rshashPos, room.0, g.ledger.scanned, PagesPending(g), k);
    CoveredOnePage(g.ledger.neg, g.rshashNeg, room.1, g.ledger.scanned, PagesPending(g), k);
  }

  lemma ExamineSafe(g: Gauge, k: nat, room: (nat, nat))
    requires Sound(g) && Charged(g, k, room) && Moderate(k, g.ledger.n)
    ensures ExaminePage(g).Ok? && Charged(ExaminePage(g).value, k, (k, k))
    ensures forall due :: Accounted(g, due) ==> Accounted(ExaminePage(g).value, due)
  {
    hide CountOut, Charged, Moderate, Tracks, Approximates;
    if g.scanned == U64_MAX {
      CountOutSafe(g, k, room);
      CountOutSound(g);
      TickSafe(CountOut(g).value, k, room);
    } else {
      TickSafe(g, k, room);
    }
  }

  lemma EndRoundSafe(g: Gauge, k: nat, room: (nat, nat))
    requires Sound(g) && Charged(g, k, room) && Moderate(k, g.ledger.n)
    ensures EndRound(g).Ok? && Charged(EndRound(g).value, k, RoomAfter(g, RoundEnded, k, room))
    ensures forall due :: Accounted(g, due) ==> Accounted(EndRound(g).value, DueAfter(g, RoundEnded, due))
  {
    EncodeSafe(g, k, room);
    EncodeSound(g);
  }

  /** No event makes more than one encode. */
  lemma EncodesAtMostOnce(g: Gauge, e: Event)
    requires Step(g, e).Ok?
    ensures Step(g, e).value.ledger.n <= g.ledger.n + 1
  {
    hide Added, Shr;
  }

  lemma FewerModerate(k: nat, m: nat, n: nat)
    requires m <= n && Moderate(k, n)
    ensures Moderate(k, m)
  {
    ScaleMonotone(m + 1, n + 1, k);
  }

  /** Under the discipline no run stops at the BUG_ON, every state of it is sound, and
      no charged unit is lost to a wrapped counter. */
  lemma {:induction false} DisciplinedRunSafe(g: Gauge, es: seq<Event>, k: nat, room: (nat, nat), due: (nat, nat))
    requires Sound(g) && Charged(g, k, room) && Disciplined(g, es, k, room) && Accounted(g, due)
    ensures Run(g, es).Ok? && Sound(Run(g, es).value)
    ensures Accounted(Run(g, es).value, Due(g, es, due))
    decreases |es|
  {
    if es != [] {
      var e := es[0];
      hide Sound, Charged, ExaminePage, ChargePos, ChargeNeg, EndRound, Moderate;
      match e {
        case PageExamined => ExamineSafe(g, k, room); ExamineSound(g);
        case PosCharged(units) => ChargePosSafe(g, units, k, room); ChargeSound(g, units);
        case NegCharged(units) => ChargeNegSafe(g, units, k, room); ChargeSound(g, units);
        case RoundEnded => EndRoundSafe(g, k, room); EndRoundSound(g);
      }
      DisciplinedRunSafe(Step(g, e).value, es[1..], k, RoomAfter(g, e, k, room), DueAfter(g, e, due));
    }
  }

  lemma StartupCharged(k: nat)
    ensures Charged(STARTUP, k, (0, 0)) && Accounted(STARTUP, (0, 0))
  {
  }

  /** In particular from startup, whatever the pages and charges. */
  lemma StartupRunSafe(es: seq<Event>, k: nat)
    requires Disciplined(STARTUP, es, k, (0, 0))
    ensures Run(STARTUP, es).Ok? && Sound(Run(STARTUP, es).value)
    ensures Accounted(Run(STARTUP, es).value, Due(STARTUP, es, (0, 0)))
  {
    hide Sound, Charged, Disciplined, Run, Due, Accounted;
    StartupSound();
    StartupCharged(k);
    DisciplinedRunSafe(STARTUP, es, k, (0, 0), (0, 0));
  }

  // ---------------------------------------------------------------------------
  // The counters in place
  // ---------------------------------------------------------------------------

  /** The global counters; the ghost fields keep the bookkeeping of a `Gauge`. */
  class BenefitMeter {
    var rshashPos: u64
    var rshashNeg: u64
    var benefit: Scaled
    var pagesScanned: u64
    var pagesScannedLast: u64
    var pagesScannedStored: u64
    var pagesScannedBase: nat
    ghost var ledger: Ledger
    ghost var examined: nat
    ghost var encoded: nat
    ghost var wraps: nat

    ghost function View(): Gauge
      reads this
    {
      Gauge(rshashPos, rshashNeg, benefit, pagesScanned, pagesScannedLast,
            pagesScannedStored, pagesScannedBase, ledger, examined, encoded, wraps)
    }

    constructor ()
      ensures View() == STARTUP
    {
      rshashPos, rshashNeg, benefit := 0, 0, NO_BENEFIT;
      pagesScanned, pagesScannedLast, pagesScannedStored, pagesScannedBase := 0, 0, 0, 0;
      ledger, examined, encoded, wraps := EMPTY_LEDGER, 0, 0, 0;
    }

    method EncodeBenefit() returns (r: Result<bool>)
      modifies this
      ensures r.Bug? == Encode(old(View())).Bug?
      ensures r.Ok? ==> Encode(old(View())) == Ok((View(), r.value))
    {
      var scannedDelta: u64 := (pagesScanned - pagesScannedLast) % U64_SIZE;
      if scannedDelta == 0 {
        return Ok(false);
      }
      ledger := Ledger(ledger.n + 1, ledger.pos + rshashPos, ledger.neg + rshashNeg,
                       ledger.scanned + scannedDelta);
      encoded := encoded + scannedDelta;
      AddScaled(scannedDelta);
      if benefit.scanned == 0 {
        return Bug;
      }
      rshashPos, rshashNeg := 0, 0;
      pagesScannedLast := pagesScanned;
      return Ok(true);
    }

    /** The middle of `encode_benefit`: scale the raw counts and add them. */
    method AddScaled(pages: u64)
      modifies this`benefit
      ensures benefit == Added(old(benefit), rshashPos, rshashNeg, pages)
    {
      hide Shr;
      var b, base := benefit, benefit.base;
      ShrShr(pages, base, 1);
      ShrShr(rshashPos, base, 1);
      ShrShr(rshashNeg, base, 1);
      var scannedDelta: u64 := Shr(pages, base);
      var posDelta: u64 := Shr(rshashPos, base);
      var negDelta: u64 := Shr(rshashNeg, base);
      if || CanOverflow(b.pos, posDelta) || CanOverflow(b.neg, negDelta) || CanOverflow(b.scanned, scannedDelta) {
        b := Scaled(Shr(b.pos, 1), Shr(b.neg, 1), Shr(b.scanned, 1), b.base + 1);
        scannedDelta := Shr(scannedDelta, 1);
        negDelta := Shr(negDelta, 1);
        posDelta := Shr(posDelta, 1);
      }
      benefit := b.(pos := (b.pos + posDelta) % U64_SIZE,
                    neg := (b.neg + negDelta) % U64_SIZE,
                    scanned := (b.scanned + scannedDelta) % U64_SIZE);
    }

    method ResetBenefit()
      modifies this
      ensures View() == Reset(old(View()))
    {
      benefit := Scaled(0, 0, 0, 0);
      ledger := EMPTY_LEDGER;
    }

    method IncRshashPos(delta: u64) returns (r: Result<()>)
      modifies this
      ensures r.Bug? == ChargePos(old(View()), delta).Bug?
      ensures r.Ok? ==> ChargePos(old(View()), delta) == Ok(View())
    {
      hide Encode;
      if CanOverflow(rshashPos, delta) {
        var _ :- EncodeBenefit();
      }
      rshashPos := (rshashPos + delta) % U64_SIZE;
      return Ok(());
    }

    method IncRshashNeg(delta: u64) returns (r: Result<()>)
      modifies this
      ensures r.Bug? == ChargeNeg(old(View()), delta).Bug?
      ensures r.Ok? ==> ChargeNeg(old(View()), delta) == Ok(View())
    {
      hide Encode;
      if CanOverflow(rshashNeg, delta) {
        var _ :- EncodeBenefit();
      }
      rshashNeg := (rshashNeg + delta) % U64_SIZE;
      return Ok(());
    }

    method IncUksmPagesScanned() returns (r: Result<()>)
      modifies this
      ensures r.Bug? == ExaminePage(old(View())).Bug?
      ensures r.Ok? ==> ExaminePage(old(View())) == Ok(View())
    {
      hide Encode, Shr;
      if pagesScanned == U64_MAX {
        var _ :- EncodeBenefit();
        var delta: u64 := Shr(pagesScanned, pagesScannedBase);
        if CanOverflow(pagesScannedStored, delta) {
          pagesScannedStored := Shr(pagesScannedStored, 1);
          delta := Shr(delta, 1);
          pagesScannedBase := pagesScannedBase + 1;
        }
        pagesScannedStored := (pagesScannedStored + delta) % U64_SIZE;
        pagesScanned, pagesScannedLast := 0, 0;
        wraps := wraps + 1;
      }
      pagesScanned := (pagesScanned + 1) % U64_SIZE;
      examined := examined + 1;
      return Ok(());
    }
  }
}
