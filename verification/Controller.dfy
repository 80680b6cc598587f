/** The adaptive strength controller: one step a scan round, driven by the benefit
    counters of that round. */
module Controller {
  import opened Words
  import opened Benefit

  const STRENGTH_FULL: nat := 1024
  const STRENGTH_MAX: nat := STRENGTH_FULL + 10
  const DELTA_MAX: nat := 5

  datatype Phase = Still | TryUp | TryDown | New | PreStill

  datatype Direction = GoUp | GoDown | Obscure | Stay

  /** The strength, its step, the two run lengths and `rshash_state`. */
  datatype Control = Control(
    strength: nat, delta: nat, negContZero: u64, contObscure: u64,
    phase: Phase, preDirect: Direction, belowCount: u8, windowIndex: u8, stableBenefit: u64,
    turnPointDown: nat, turnBenefitDown: u64, turnPointUp: nat, turnBenefitUp: u64, stablePoint: nat)

  const STARTUP_CONTROL: Control :=
    Control(STRENGTH_FULL / 16, 0, 0, 0, New, GoUp, 0, 0, 0, 0, 0, 0, 0, 0)

  /** What a round shows the controller: the encoded counters, of at least one page,
      and the number of the round. */
  datatype RoundRaw = Round(benefit: Scaled, number: u64)
  type Round = r: RoundRaw | r.benefit.scanned > 0 witness Round(Scaled(0, 0, 1, 0), 1)

  // ---------------------------------------------------------------------------
  // Reading the counters
  // ---------------------------------------------------------------------------

  function CurrentNegRatio(b: Scaled): nat {
    if b.neg == 0 then 0
    else if b.pos == 0 || b.neg > b.pos then 100
    else if b.neg > U64_MAX / 100 then b.neg / (b.pos / 100)
    else b.neg * 100 / b.pos
  }

  function CurrentBenefit(b: Scaled): u64
    requires b.scanned > 0
  {
    if b.neg > b.pos then 0 else (b.pos - b.neg) / b.scanned
  }

  /** The ratio is a percentage: the rounded-down one, or one more where the divisor
      was scaled to keep the product within 64 bits. */
  lemma NegRatioIsPercentage(b: Scaled)
    ensures 0 <= CurrentNegRatio(b) <= 100
    ensures 0 < b.neg <= b.pos ==>
      b.neg * 100 / b.pos <= CurrentNegRatio(b) <= b.neg * 100 / b.pos + 1
  {
    if 0 < b.neg <= b.pos {
      QuotientBounds(b.neg * 100, b.pos);
      var m := b.neg * 100 / b.pos;
      assert m <= 100 by { QuotientAtMost(b.neg * 100, b.pos, 100); }
      if b.neg > U64_MAX / 100 {
        var q := b.pos / 100;
        ScaledDivisor(b.neg, b.pos, q, m);
      }
    }
  }

  /** A ratio of zero means less than one per cent, not that nothing was wasted. */
  lemma NegRatioZeroIff(b: Scaled)
    ensures CurrentNegRatio(b) == 0 <==> b.neg == 0 || 100 * b.neg < b.pos
    ensures CurrentNegRatio(Scaled(101, 1, 1, 0)) == 0
  {
    if 0 < b.neg <= b.pos {
      if b.neg > U64_MAX / 100 {
        QuotientAtLeast(b.neg, b.pos / 100, 1);
      } else if 100 * b.neg < b.pos {
        QuotientBelow(b.neg * 100, b.pos, 1);
      } else {
        QuotientAtLeast(b.neg * 100, b.pos, 1);
      }
    }
    assert 100 / 101 == 0;
  }

  /** Scaling the divisor instead of the product gives one per cent too much exactly when
      one more of the scaled divisor still fits. */
  lemma NegRatioRoundsUpIff(b: Scaled)
    requires 0 < b.neg <= b.pos
    ensures var m := b.neg * 100 / b.pos;
      CurrentNegRatio(b) == m + 1 <==> b.neg > U64_MAX / 100 && (m + 1) * (b.pos / 100) <= b.neg
  {
    NegRatioIsPercentage(b);
    var m := b.neg * 100 / b.pos;
    if b.neg > U64_MAX / 100 {
      if (m + 1) * (b.pos / 100) <= b.neg {
        QuotientAtLeast(b.neg, b.pos / 100, m + 1);
      } else {
        QuotientBelow(b.neg, b.pos / 100, m + 1);
      }
    }
  }

  /** It happens: 49 per cent come out as 50. */
  lemma NegRatioRoundsUp()
    ensures var b := Scaled(18446744073709551599, 9223372036854775750, 1, 0);
      b.neg * 100 / b.pos == 49 && CurrentNegRatio(b) == 50
  {
  }

  lemma QuotientBounds(x: nat, y: nat)
    requires y > 0
    ensures x / y * y <= x < (x / y + 1) * y
  {
    Distribute(x / y, 1, y);
  }

  lemma QuotientAtMost(x: nat, y: nat, k: nat)
    requires y > 0 && x <= k * y
    ensures x / y <= k
  {
    QuotientBounds(x, y);
    if x / y > k {
      ScaleMonotone(k + 1, x / y, y);
    }
  }

  lemma QuotientAtLeast(x: nat, y: nat, k: nat)
    requires y > 0 && k * y <= x
    ensures k <= x / y
  {
    QuotientBounds(x, y);
    if x / y < k {
      ScaleMonotone(x / y + 1, k, y);
    }
  }

  lemma ScaledDivisor(neg: u64, pos: u64, q: nat, m: nat)
    requires U64_MAX / 100 < neg <= pos && q == pos / 100 && m <= 100
    requires m * pos <= neg * 100 < (m + 1) * pos
    ensures q > 0 && m <= neg / q <= m + 1 && neg / q <= 100
  {
    assert 100 * q <= pos <= 100 * q + 99;
    ScaleMonotone(100 * q, pos, m);
    assert m * (100 * q) == 100 * (m * q);
    QuotientAtLeast(neg, q, m);
    ScaleMonotone(pos, 100 * q + 99, m + 1);
    assert (m + 1) * (100 * q + 99) == 100 * ((m + 1) * q) + 99 * (m + 1);
    Distribute(m + 1, 1, q);
    assert neg < (m + 2) * q;
    QuotientBelow(neg, q, m + 2);
    QuotientBelow(neg, q, 101);
  }

  lemma QuotientBelow(x: nat, y: nat, k: nat)
    requires y > 0 && x < k * y
    ensures x / y < k
  {
    QuotientBounds(x, y);
    if x / y >= k {
      ScaleMonotone(k, x / y, y);
    }
  }

  // ---------------------------------------------------------------------------
  // One step
  // ---------------------------------------------------------------------------

  function Raised(strength: nat, delta: nat): nat {
    var s := strength + Pow2(delta);
    if s > STRENGTH_MAX then STRENGTH_MAX else s
  }

  function Lowered(strength: nat, delta: nat): nat {
    if strength <= Pow2(delta) + 1 then 1 else strength - Pow2(delta)
  }

  function NextDelta(delta: nat): nat {
    if delta + 1 > DELTA_MAX then DELTA_MAX else delta + 1
  }

  function Up(c: Control): Control {
    c.(strength := Raised(c.strength, c.delta), delta := NextDelta(c.delta))
  }

  function Down(c: Control): Control {
    c.(strength := Lowered(c.strength, c.delta), delta := NextDelta(c.delta))
  }

  /** The distance from the stable benefit, in percent of it; the product with 100
      is taken in 64 bits. */
  function GapPercent(now: u64, stable: u64): int
    requires stable > 0
  {
    var gap := if now > stable then now - stable else stable - now;
    100 * gap % U64_SIZE / stable
  }

  /** `judge_rshash_direction`, with the two run lengths it leaves behind. */
  function Judge(c: Control, r: Round): (Direction, Control) {
    var ratio := CurrentNegRatio(r.benefit);
    if And(r.number, 0xFF) == 10 then (Obscure, c.(contObscure := 0))
    else if ratio == 0 then
      var zeros: u64 := (c.negContZero + 1) % U64_SIZE;
      (if zeros > 2 then GoDown else Stay, c.(negContZero := zeros))
    else if ratio > 90 then (GoUp, c.(negContZero := 0, contObscure := 0))
    else if c.stableBenefit == 0 then (Obscure, c.(negContZero := 0, contObscure := 0))
    else
      if GapPercent(CurrentBenefit(r.benefit), c.stableBenefit) > 50 then
        var odd: u64 := (c.contObscure + 1) % U64_SIZE;
        (if odd > 2 then Obscure else Stay, c.(negContZero := 0, contObscure := odd))
      else (Stay, c.(negContZero := 0, contObscure := 0))
  }

  /** The present point becomes the stable one and both turning points. */
  function StartDown(c: Control, now: u64): Control {
    Down(c).(stablePoint := c.strength, turnPointDown := c.strength, turnPointUp := c.strength,
             turnBenefitDown := now, turnBenefitUp := now, windowIndex := 0, phase := TryDown)
  }

  function AdjustStill(c: Control, r: Round): Control {
    var now := CurrentBenefit(r.benefit);
    var (dir, j) := Judge(c, r);
    match dir
    case GoUp =>
      Up(if j.preDirect == GoDown then j.(delta := 0) else j).(stableBenefit := now, preDirect := GoUp)
    case GoDown =>
      Down(if j.preDirect == GoUp then j.(delta := 0) else j).(stableBenefit := now, preDirect := GoDown)
    case Obscure => StartDown(j, now)
    case Stay => j
  }

  /** The window moves on; every fifth round forgets the count of rounds below. */
  function NextWindow(c: Control): Control {
    c.(windowIndex := (c.windowIndex + 1) % 0x100,
       belowCount := if c.windowIndex % 5 == 0 then 0 else c.belowCount)
  }

  /** A round below the bar is counted; one above the best so far becomes the best. */
  function NoteDown(c: Control, now: u64): Control {
    if now < c.stableBenefit then c.(belowCount := (c.belowCount + 1) % 0x100)
    else if now > c.turnBenefitDown then c.(turnPointDown := c.strength, turnBenefitDown := now)
    else c
  }

  function NoteUp(c: Control, now: u64): Control {
    if now < c.turnBenefitDown then c.(belowCount := (c.belowCount + 1) % 0x100)
    else if now > c.turnBenefitUp then c.(turnPointUp := c.strength, turnBenefitUp := now)
    else c
  }

  /** Back to the stable point and one step up from it. */
  function StartUp(c: Control): Control {
    c.(strength := Raised(c.stablePoint, 0), delta := 0, windowIndex := 0, phase := TryUp)
  }

  /** The judge is asked only when fewer than three rounds were below. */
  function AdjustTryDown(c: Control, r: Round): Control {
    var n := NoteDown(NextWindow(c), CurrentBenefit(r.benefit));
    if n.belowCount >= 3 then StartUp(n)
    else
      var (dir, j) := Judge(n, r);
      if dir == GoUp || j.strength == 1 then StartUp(j) else Down(j)
  }

  function Settle(c: Control): Control {
    c.(strength := if c.turnBenefitUp > c.turnBenefitDown then c.turnPointUp else c.turnPointDown,
       phase := PreStill)
  }

  function AdjustTryUp(c: Control, r: Round): Control {
    var n := NoteUp(NextWindow(c), CurrentBenefit(r.benefit));
    if n.belowCount >= 3 then Settle(n)
    else
      var (dir, j) := Judge(n, r);
      if dir == GoDown || j.strength == STRENGTH_MAX then Settle(j) else Up(j)
  }

  /** The switch of `rshash_adjust`. */
  function Adjust(c: Control, r: Round): Control {
    match c.phase
    case Still => AdjustStill(c, r)
    case TryDown => AdjustTryDown(c, r)
    case TryUp => AdjustTryUp(c, r)
    case New => c.(stableBenefit := CurrentBenefit(r.benefit), phase := Still, delta := 0)
    case PreStill => c.(stableBenefit := CurrentBenefit(r.benefit), phase := Still, delta := 0)
  }

  function Adjusts(c: Control, rs: seq<Round>): Control
    decreases |rs|
  {
    if rs == [] then c else Adjusts(Adjust(c, rs[0]), rs[1..])
  }

  // ---------------------------------------------------------------------------
  // What every step keeps
  // ---------------------------------------------------------------------------

  predicate Sweeping(c: Control) { c.phase.TryDown? || c.phase.TryUp? }

  /** Rounds of a phase that can still change the strength: the step doubles to 32,
      and then 32 words go at a time. */
  function DownLeft(c: Control): int { DELTA_MAX - c.delta + (c.strength - 1 + 31) / 32 }

  function UpLeft(c: Control): int { DELTA_MAX - c.delta + (STRENGTH_MAX - c.strength + 31) / 32 }

  predicate Safe(c: Control) {
    && 1 <= c.strength <= STRENGTH_MAX
    && c.delta <= DELTA_MAX
    && c.belowCount <= 3
    && (Sweeping(c) ==>
          && 1 <= c.turnPointDown <= c.stablePoint <= c.turnPointUp <= STRENGTH_MAX
          && (c.windowIndex % 5 != 0 ==> c.belowCount <= 2))
    && (c.phase.TryDown? ==> c.strength <= c.stablePoint && c.windowIndex + DownLeft(c) <= 37)
    && (c.phase.TryUp? ==> c.stablePoint <= c.strength && c.windowIndex + UpLeft(c) <= 38)
    && (c.phase.PreStill? ==> c.windowIndex <= 39)
  }

  /** The judge looks at the strength but moves only its run lengths. */
  lemma JudgeKeeps(c: Control, r: Round)
    ensures var j := Judge(c, r).1;
      j == c.(negContZero := j.negContZero, contObscure := j.contObscure)
  {
  }

  lemma StepSizes()
    ensures Pow2(0) == 1 && Pow2(1) == 2 && Pow2(2) == 4 && Pow2(3) == 8 && Pow2(4) == 16 && Pow2(5) == 32
  {
  }

  /** A round that stays in its phase moves the strength strictly, and uses up one
      of the rounds that are left. */
  lemma DownLowers(c: Control)
    requires 1 < c.strength && c.delta <= DELTA_MAX
    ensures 1 <= Down(c).strength < c.strength && DownLeft(Down(c)) < DownLeft(c)
    ensures c.delta < Down(c).delta || Down(c).delta == DELTA_MAX
  {
    StepSizes();
  }

  lemma UpRaises(c: Control)
    requires c.strength < STRENGTH_MAX && c.delta <= DELTA_MAX
    ensures c.strength < Up(c).strength <= STRENGTH_MAX && UpLeft(Up(c)) < UpLeft(c)
  {
    StepSizes();
  }

  lemma StillSafe(c: Control, r: Round)
    requires Safe(c) && c.phase.Still?
    ensures var d := Adjust(c, r);
      && Safe(d) && (d.phase.Still? || d.phase.TryDown?)
      && (d.phase.TryDown? ==> Judge(c, r).0 == Obscure && d.windowIndex == 0)
  {
    hide Judge;
    JudgeKeeps(c, r);
    StepSizes();
  }

  lemma TryDownSafe(c: Control, r: Round)
    requires Safe(c) && c.phase.TryDown?
    ensures var d := Adjust(c, r);
      && Safe(d) && Sweeping(d)
      && (d.phase.TryDown? ==> d.strength < c.strength && DownLeft(d) < DownLeft(c))
  {
    hide Judge, Up, Down;
    var n := NoteDown(NextWindow(c), CurrentBenefit(r.benefit));
    JudgeKeeps(n, r);
    StepSizes();
    if n.belowCount < 3 && Judge(n, r).0 != GoUp && n.strength != 1 {
      DownLowers(Judge(n, r).1);
      DownKeepsRest(Judge(n, r).1);
    }
  }

  lemma TryUpSafe(c: Control, r: Round)
    requires Safe(c) && c.phase.TryUp?
    ensures var d := Adjust(c, r);
      && Safe(d) && (d.phase.TryUp? || d.phase.PreStill?)
      && (d.phase.TryUp? ==> c.strength < d.strength && UpLeft(d) < UpLeft(c))
  {
    hide Judge, Up, Down;
    var n := NoteUp(NextWindow(c), CurrentBenefit(r.benefit));
    JudgeKeeps(n, r);
    if n.belowCount < 3 && Judge(n, r).0 != GoDown && n.strength != STRENGTH_MAX {
      UpRaises(Judge(n, r).1);
      DownKeepsRest(Judge(n, r).1);
    }
  }

  lemma DownKeepsRest(c: Control)
    ensures Down(c) == c.(strength := Down(c).strength, delta := Down(c).delta)
    ensures Up(c) == c.(strength := Up(c).strength, delta := Up(c).delta)
    ensures Down(c).delta <= DELTA_MAX && Up(c).delta <= DELTA_MAX
  {
  }

  /** Every step keeps the strength, the step and the turning points in range, and
      the window and the count below their eight bits. */
  lemma AdjustSafe(c: Control, r: Round)
    requires Safe(c)
    ensures Safe(Adjust(c, r))
  {
    match c.phase {
      case Still => StillSafe(c, r);
      case TryDown => TryDownSafe(c, r);
      case TryUp => TryUpSafe(c, r);
      case New =>
      case PreStill =>
    }
  }

  lemma {:induction false} ReachableSafe(c: Control, rs: seq<Round>)
    requires Safe(c)
    ensures Safe(Adjusts(c, rs))
    decreases |rs|
  {
    hide Safe, Adjust;
    if rs != [] {
      AdjustSafe(c, rs[0]);
      ReachableSafe(Adjust(c, rs[0]), rs[1..]);
    }
  }

  // ---------------------------------------------------------------------------
  // Every sweep ends
  // ---------------------------------------------------------------------------

  /** Rounds a sweep has left at most; 77 when it starts. */
  function Rank(c: Control): int {
    if c.phase.TryDown? then DownLeft(c) + 40 else if c.phase.TryUp? then UpLeft(c) + 1 else 0
  }

  lemma RankBounds(c: Control)
    requires Safe(c)
    ensures Sweeping(c) ==> 1 <= Rank(c) <= 77
  {
  }

  lemma RankFalls(c: Control, r: Round)
    requires Safe(c) && Sweeping(c)
    ensures Rank(Adjust(c, r)) < Rank(c)
    ensures Sweeping(Adjust(c, r)) || Adjust(c, r).phase.PreStill?
  {
    if c.phase.TryDown? {
      TryDownSafe(c, r);
    } else {
      TryUpSafe(c, r);
    }
  }

  /** The states after each round are sweeping until the last, which is about to be still. */
  predicate Completes(c: Control, rs: seq<Round>)
    decreases |rs|
  {
    if rs == [] then c.phase.PreStill?
    else Sweeping(c) && Completes(Adjust(c, rs[0]), rs[1..])
  }

  /** Whatever the rounds show, a sweep is over within 77 of them. */
  lemma {:induction false} SweepEnds(c: Control, rs: seq<Round>) returns (k: nat)
    requires Safe(c) && Sweeping(c) && |rs| >= Rank(c)
    ensures k <= Rank(c) <= 77 && Completes(c, rs[..k])
    decreases |rs|
  {
    hide Safe, Adjust, Rank;
    RankBounds(c);
    RankFalls(c, rs[0]);
    AdjustSafe(c, rs[0]);
    var d := Adjust(c, rs[0]);
    if Sweeping(d) {
      var i := SweepEnds(d, rs[1..]);
      k := i + 1;
      assert rs[..k][1..] == rs[1..][..i];
    } else {
      k := 1;
      assert rs[..1][1..] == [];
    }
  }

  // ---------------------------------------------------------------------------
  // What a sweep settles on
  // ---------------------------------------------------------------------------

  /** A strength tried in a sweep, what it earned, and whether the sweep weighs it:
      on the way down a benefit below the stable one is only counted as bad. */
  datatype Probe = Probe(strength: nat, benefit: u64, weighed: bool)

  function ProbeOf(c: Control, r: Round): Probe {
    var now := CurrentBenefit(r.benefit);
    Probe(c.strength, now, !c.phase.TryDown? || now >= c.stableBenefit)
  }

  function Probes(c: Control, rs: seq<Round>): seq<Probe>
    decreases |rs|
  {
    if rs == [] then [] else [ProbeOf(c, rs[0])] + Probes(Adjust(c, rs[0]), rs[1..])
  }

  /** The benefit recorded for the point a sweep settles on. */
  function Recorded(c: Control): u64 {
    if c.turnBenefitUp > c.turnBenefitDown then c.turnBenefitUp else c.turnBenefitDown
  }

  /** The strength of the first weighed probe that earned as much, if none before it did. */
  predicate FirstWith(ps: seq<Probe>, strength: nat, benefit: u64) {
    exists i :: 0 <= i < |ps| && ps[i].strength == strength && ps[i].benefit == benefit && ps[i].weighed
             && forall j :: 0 <= j < i && ps[j].weighed ==> ps[j].benefit < benefit
  }

  predicate BestWeighed(ps: seq<Probe>, best: u64) {
    forall i :: 0 <= i < |ps| && ps[i].weighed ==> ps[i].benefit <= best
  }

  predicate BestOfAll(ps: seq<Probe>, best: u64) {
    forall i :: 0 <= i < |ps| ==> ps[i].benefit <= best
  }

  /** Where a sweep would settle now. */
  function SettlingPoint(c: Control): nat {
    if c.turnBenefitUp > c.turnBenefitDown then c.turnPointUp else c.turnPointDown
  }

  predicate TurningPointsBest(c: Control, ps: seq<Probe>) {
    && FirstWith(ps, SettlingPoint(c), Recorded(c))
    && BestWeighed(ps, Recorded(c))
    && (c.phase.TryDown? ==> c.turnBenefitUp <= c.turnBenefitDown)
  }

  /** The strength was tried, earned what is recorded for it, no weighed probe earned
      more, and none before it as much. */
  predicate SettledOnBest(c: Control, ps: seq<Probe>) {
    FirstWith(ps, c.strength, Recorded(c)) && BestWeighed(ps, Recorded(c))
  }

  lemma FirstLonger(ps: seq<Probe>, p: Probe, strength: nat, benefit: u64)
    ensures FirstWith(ps, strength, benefit) ==> FirstWith(ps + [p], strength, benefit)
    ensures p.weighed && (forall j :: 0 <= j < |ps| && ps[j].weighed ==> ps[j].benefit < p.benefit) ==>
      FirstWith(ps + [p], p.strength, p.benefit)
  {
    if FirstWith(ps, strength, benefit) {
      var i :| 0 <= i < |ps| && ps[i].strength == strength && ps[i].benefit == benefit && ps[i].weighed
               && forall j :: 0 <= j < i && ps[j].weighed ==> ps[j].benefit < benefit;
      assert (ps + [p])[i] == ps[i];
    }
    assert (ps + [p])[|ps|] == p;
  }

  lemma NoteBest(c: Control, r: Round, ps: seq<Probe>)
    requires Sweeping(c) && TurningPointsBest(c, ps)
    ensures var now := CurrentBenefit(r.benefit);
      var n := if c.phase.TryDown? then NoteDown(NextWindow(c), now) else NoteUp(NextWindow(c), now);
      TurningPointsBest(n, ps + [ProbeOf(c, r)]) && n.strength == c.strength
  {
    var p := ProbeOf(c, r);
    FirstLonger(ps, p, SettlingPoint(c), Recorded(c));
    hide FirstWith;
    assert (ps + [p])[|ps|] == p;
  }

  lemma SweepStepBest(c: Control, r: Round, ps: seq<Probe>)
    requires Sweeping(c) && TurningPointsBest(c, ps)
    ensures var d, qs := Adjust(c, r), ps + [ProbeOf(c, r)];
      && (Sweeping(d) ==> TurningPointsBest(d, qs))
      && (d.phase.PreStill? ==> SettledOnBest(d, qs))
  {
    hide Judge, Up, Down, FirstWith, BestWeighed, NoteDown, NoteUp;
    NoteBest(c, r, ps);
    var now := CurrentBenefit(r.benefit);
    var n := if c.phase.TryDown? then NoteDown(NextWindow(c), now) else NoteUp(NextWindow(c), now);
    NoteKeepsPhase(c, now);
    JudgeKeeps(n, r);
    DownKeepsRest(Judge(n, r).1);
  }

  lemma NoteKeepsPhase(c: Control, now: u64)
    ensures NoteDown(NextWindow(c), now).phase == NoteUp(NextWindow(c), now).phase == c.phase
  {
  }

  lemma {:induction false} SweepBest(c: Control, rs: seq<Round>, ps: seq<Probe>)
    requires Completes(c, rs) && rs != [] && TurningPointsBest(c, ps)
    ensures SettledOnBest(Adjusts(c, rs), ps + Probes(c, rs))
    decreases |rs|
  {
    hide TurningPointsBest, SettledOnBest, Adjust;
    var d, qs := Adjust(c, rs[0]), ps + [ProbeOf(c, rs[0])];
    SweepStepBest(c, rs[0], ps);
    assert ps + Probes(c, rs) == qs + Probes(d, rs[1..]);
    if rs[1..] == [] {
      assert qs + Probes(d, rs[1..]) == qs;
    } else {
      SweepBest(d, rs[1..], qs);
    }
  }

  /** A round that starts a sweep. */
  predicate StartsSweep(c: Control, r: Round) { c.phase.Still? && Judge(c, r).0 == Obscure }

  function SweepProbes(c: Control, r: Round, rs: seq<Round>): seq<Probe> {
    [ProbeOf(c, r)] + Probes(Adjust(c, r), rs)
  }

  lemma SweepStarts(c: Control, r: Round)
    requires StartsSweep(c, r)
    ensures var d := Adjust(c, r);
      && d.phase.TryDown? && TurningPointsBest(d, [ProbeOf(c, r)])
      && d.stableBenefit == c.stableBenefit
      && d.turnBenefitDown == d.turnBenefitUp == CurrentBenefit(r.benefit)
  {
    hide Judge;
    JudgeKeeps(c, r);
    DownKeepsRest(Judge(c, r).1);
    FirstLonger([], ProbeOf(c, r), 0, 0);
    assert [] + [ProbeOf(c, r)] == [ProbeOf(c, r)];
  }

  /** A completed sweep settles on a strength it tried, with a benefit at least that
      of the round that started it, of every probe on the way up, and of every probe
      on the way down that reached the stable benefit. */
  lemma SweepSettlesOnBest(c: Control, r: Round, rs: seq<Round>)
    requires StartsSweep(c, r) && Completes(Adjust(c, r), rs)
    ensures SettledOnBest(Adjusts(Adjust(c, r), rs), SweepProbes(c, r, rs))
  {
    SweepStarts(c, r);
    SweepBest(Adjust(c, r), rs, [ProbeOf(c, r)]);
  }

  lemma {:induction false} UnweighedBelowStable(c: Control, rs: seq<Round>, i: nat)
    requires Completes(c, rs) && i < |Probes(c, rs)|
    ensures !Probes(c, rs)[i].weighed ==> Probes(c, rs)[i].benefit < c.stableBenefit
    decreases |rs|
  {
    if i > 0 {
      SweepKeepsStable(c, rs[0]);
      UnweighedBelowStable(Adjust(c, rs[0]), rs[1..], i - 1);
    }
  }

  lemma SweepKeepsStable(c: Control, r: Round)
    requires Sweeping(c)
    ensures Adjust(c, r).stableBenefit == c.stableBenefit
  {
    hide Judge;
    var now := CurrentBenefit(r.benefit);
    JudgeKeeps(NoteDown(NextWindow(c), now), r);
    JudgeKeeps(NoteUp(NextWindow(c), now), r);
  }

  /** Rounds that carry the numbers from `at` on. */
  predicate Numbered(rs: seq<Round>, at: nat, number: nat -> u64) {
    forall i :: 0 <= i < |rs| ==> rs[i].number == number(at + i)
  }

  lemma NumberedOn(r: Round, rest: seq<Round>, at: nat, number: nat -> u64)
    requires r.number == number(at) && Numbered(rest, at + 1, number)
    ensures Numbered([r] + rest, at, number)
  {
    forall i | 0 <= i < |[r] + rest| ensures ([r] + rest)[i].number == number(at + i) {
      if i > 0 {
        assert at + 1 + (i - 1) == at + i;
      }
    }
  }

  /** A sweep can overlook its best probe: this continuation, however its rounds are
      numbered, earns `b`, between what the first round earned and the stable benefit,
      all the way down and nothing on the way up. */
  lemma {:induction false} Overlooked(c: Control, b: u64, at: nat, number: nat -> u64) returns (rs: seq<Round>)
    requires Safe(c) && Sweeping(c) && b > 0
    requires c.turnBenefitDown == c.turnBenefitUp == b - 1
    requires c.phase.TryDown? ==> b < c.stableBenefit
    ensures Completes(c, rs) && rs != [] && Recorded(Adjusts(c, rs)) == b - 1
    ensures c.phase.TryDown? ==> CurrentBenefit(rs[0].benefit) == b
    ensures Numbered(rs, at, number)
    decreases Rank(c)
  {
    var r := if c.phase.TryDown? then Round(Scaled(b, 0, 1, 0), number(at)) else Round(Scaled(0, 0, 1, 0), number(at));
    assert CurrentBenefit(r.benefit) == if c.phase.TryDown? then b else 0;
    var d := Adjust(c, r);
    SweepKeepsStable(c, r);
    LowRoundRecordsNothing(c, r);
    RankBounds(c);
    RankFalls(c, r);
    AdjustSafe(c, r);
    hide Safe, Adjust, Rank;
    if Sweeping(d) {
      var rest := Overlooked(d, b, at + 1, number);
      rs := [r] + rest;
      NumberedOn(r, rest, at, number);
    } else {
      rs := [r];
    }
    assert rs[1..] == if Sweeping(d) then rs[1..] else [];
  }

  lemma LowRoundRecordsNothing(c: Control, r: Round)
    requires Sweeping(c)
    requires c.phase.TryDown? ==> CurrentBenefit(r.benefit) < c.stableBenefit
    requires c.phase.TryUp? ==> CurrentBenefit(r.benefit) == 0
    ensures var d := Adjust(c, r);
      d.turnBenefitDown == c.turnBenefitDown && d.turnBenefitUp == c.turnBenefitUp
  {
    hide Judge;
    var now := CurrentBenefit(r.benefit);
    JudgeKeeps(NoteDown(NextWindow(c), now), r);
    JudgeKeeps(NoteUp(NextWindow(c), now), r);
  }

  /** Every continuation settles on the best of all its probes exactly when the first
      round earned no less than the stable benefit, give or take one. */
  lemma SweepOptimalIff(c: Control, r: Round)
    requires Safe(c) && StartsSweep(c, r)
    ensures (forall rs :: Completes(Adjust(c, r), rs) ==>
               BestOfAll(SweepProbes(c, r, rs), Recorded(Adjusts(Adjust(c, r), rs))))
       <==> c.stableBenefit <= CurrentBenefit(r.benefit) + 1
  {
    var d, first: int := Adjust(c, r), CurrentBenefit(r.benefit);
    SweepStarts(c, r);
    if c.stableBenefit <= first + 1 {
      forall rs | Completes(d, rs) ensures BestOfAll(SweepProbes(c, r, rs), Recorded(Adjusts(d, rs))) {
        AllProbesSeen(c, r, rs);
      }
    } else {
      AdjustSafe(c, r);
      var rs := Overlooked(d, first + 1, 0, _ => r.number);
      assert SweepProbes(c, r, rs)[1].benefit == first + 1;
      assert !BestOfAll(SweepProbes(c, r, rs), Recorded(Adjusts(d, rs)));
    }
  }

  lemma AllProbesSeen(c: Control, r: Round, rs: seq<Round>)
    requires StartsSweep(c, r) && Completes(Adjust(c, r), rs)
    requires c.stableBenefit <= CurrentBenefit(r.benefit) + 1
    ensures BestOfAll(SweepProbes(c, r, rs), Recorded(Adjusts(Adjust(c, r), rs)))
  {
    SweepStarts(c, r);
    SweepSettlesOnBest(c, r, rs);
    var ps := SweepProbes(c, r, rs);
    var best := Recorded(Adjusts(Adjust(c, r), rs));
    assert ps[0].weighed && ps[0].benefit == CurrentBenefit(r.benefit);
    forall i | 0 <= i < |ps| ensures ps[i].benefit <= best {
      if !ps[i].weighed {
        UnweighedBelowStable(Adjust(c, r), rs, i - 1);
      }
    }
  }

  /** The rounds are counted from one. */
  function RoundNumber(i: nat): u64 { if i < U64_MAX then i + 1 else U64_MAX }

  lemma SmallNumber(n: u64)
    requires n < 0x100
    ensures And(n, 0xFF) == n
  {
    assert Pow2(8) == 0x100 by { WordSizes(); }
    AndMask(n, 8);
    DivModUnique(n, 0x100, 0, n);
  }

  /** From startup: three rounds far below a good first one start a sweep, with a stable
      benefit it then overlooks its best probe for. */
  lemma StartupOverlooks() returns (before: seq<Round>, r: Round, rs: seq<Round>)
    ensures Numbered(before + [r] + rs, 0, RoundNumber)
    ensures var c := Adjusts(STARTUP_CONTROL, before);
      && StartsSweep(c, r) && Completes(Adjust(c, r), rs)
      && !BestOfAll(SweepProbes(c, r, rs), Recorded(Adjusts(Adjust(c, r), rs)))
  {
    before, r := PoorRounds(), Round(Scaled(20, 10, 1, 0), 4);
    var c := Adjusts(STARTUP_CONTROL, before);
    PoorRoundsStartSweep();
    SweepStarts(c, r);
    StartupReachesSafe(before);
    AdjustSafe(c, r);
    hide Adjust, Adjusts, Safe;
    rs := Overlooked(Adjust(c, r), 11, 4, RoundNumber);
    assert SweepProbes(c, r, rs)[1].benefit == 11;
    NumberedOn(r, rs, 3, RoundNumber);
    forall i | 0 <= i < |before + [r] + rs| ensures (before + [r] + rs)[i].number == RoundNumber(0 + i) {
      if i >= 3 {
        assert (before + [r] + rs)[i] == ([r] + rs)[i - 3];
        assert 3 + (i - 3) == i;
      }
    }
  }

  lemma StartupReachesSafe(rs: seq<Round>)
    ensures Safe(Adjusts(STARTUP_CONTROL, rs))
  {
    StartupSafe();
    hide Safe, Adjusts;
    ReachableSafe(STARTUP_CONTROL, rs);
  }

  lemma StartupSafe()
    ensures Safe(STARTUP_CONTROL)
  {
  }

  /** A good round and two poor ones. */
  function PoorRounds(): seq<Round> {
    [Round(Scaled(100, 0, 1, 0), 1), Round(Scaled(20, 10, 1, 0), 2), Round(Scaled(20, 10, 1, 0), 3)]
  }

  lemma PoorRoundsStartSweep()
    ensures var c, r := Adjusts(STARTUP_CONTROL, PoorRounds()), Round(Scaled(20, 10, 1, 0), 4);
      StartsSweep(c, r) && c.stableBenefit == 100 && CurrentBenefit(r.benefit) == 10
  {
    var c0 := STARTUP_CONTROL.(stableBenefit := 100, phase := Still);
    assert Adjust(STARTUP_CONTROL, PoorRounds()[0]) == c0;
    PoorRound(c0, 2);
    PoorRound(c0.(contObscure := 1), 3);
    PoorRound(c0.(contObscure := 2), 4);
    var rs := PoorRounds();
    assert rs[1..][0] == rs[1] && rs[1..][1..][0] == rs[2] && rs[1..][1..][1..] == [];
  }

  lemma PoorRound(c: Control, number: u64)
    requires c.phase.Still? && c.stableBenefit == 100 && c.negContZero == 0 && c.contObscure <= 2
    requires 2 <= number <= 4
    ensures var r := Round(Scaled(20, 10, 1, 0), number);
      if c.contObscure == 2 then Judge(c, r).0 == Obscure else Adjust(c, r) == c.(contObscure := c.contObscure + 1)
  {
    SmallNumber(number);
    var r := Round(Scaled(20, 10, 1, 0), number);
    assert CurrentNegRatio(r.benefit) == 50 && CurrentBenefit(r.benefit) == 10;
    assert GapPercent(10, 100) == 90;
  }

  // ---------------------------------------------------------------------------
  // The maximum strength
  // ---------------------------------------------------------------------------

  /** A round that earned nothing and cost something. */
  function Loss(number: u64): Round { Round(Scaled(0, 1, 1, 0), number) }

  /** Rounds of losses never settle below the maximum: a sweep that earned nothing so
      far climbs on. */
  predicate Climbing(c: Control) {
    Safe(c) && (c.phase.Still? || (Sweeping(c) && c.turnBenefitDown == c.turnBenefitUp == 0))
  }

  function ClimbRank(c: Control): int {
    if c.phase.Still? then STRENGTH_MAX - c.strength else Rank(c)
  }

  lemma LossClimbs(c: Control, number: u64)
    requires Climbing(c) && c.strength != STRENGTH_MAX
    ensures var d := Adjust(c, Loss(number));
      && Climbing(d)
      && if c.phase.Still? && d.phase.Still? then ClimbRank(d) < ClimbRank(c)
         else d.phase != Still && (!c.phase.Still? ==> Rank(d) < Rank(c))
  {
    var r := Loss(number);
    assert CurrentBenefit(r.benefit) == 0 && CurrentNegRatio(r.benefit) == 100;
    AdjustSafe(c, r);
    if c.phase.Still? {
      LossJudged(c, number);
      UpRaises(if c.preDirect == GoDown then c.(delta := 0) else c);
    } else {
      RankFalls(c, r);
      LossJudged(NoteDown(NextWindow(c), 0), number);
      LossJudged(NoteUp(NextWindow(c), 0), number);
    }
  }

  lemma LossJudged(c: Control, number: u64)
    ensures var j := Judge(c, Loss(number));
      && (j.0 == GoUp || j.0 == Obscure)
      && j.1 == c.(negContZero := j.1.negContZero, contObscure := j.1.contObscure)
  {
  }

  /** From any still state the controller can be driven to the maximum strength,
      however the rounds are numbered. */
  lemma {:induction false} MaximumReachable(c: Control, at: nat, number: nat -> u64) returns (rs: seq<Round>)
    requires Climbing(c)
    ensures Adjusts(c, rs).strength == STRENGTH_MAX && Numbered(rs, at, number)
    decreases if c.phase.Still? then 1 else 0, if c.phase.Still? then STRENGTH_MAX - c.strength else Rank(c)
  {
    if c.strength == STRENGTH_MAX {
      rs := [];
    } else {
      var r := Loss(number(at));
      LossClimbs(c, number(at));
      ClimbRanks(c);
      var rest := MaximumReachable(Adjust(c, r), at + 1, number);
      rs := [r] + rest;
      NumberedOn(r, rest, at, number);
      assert rs[1..] == rest;
    }
  }

  lemma ClimbRanks(c: Control)
    requires Climbing(c)
    ensures c.strength <= STRENGTH_MAX && (Sweeping(c) ==> 1 <= Rank(c))
  {
  }

  // ---------------------------------------------------------------------------
  // Benefits under the charging discipline
  // ---------------------------------------------------------------------------

  /** With at most `k` units charged a page, the benefit of a period of `n` encodes
      stays within k * (n + 1), rounding included. */
  lemma BenefitBounded(b: Scaled, l: Ledger, k: nat)
    requires Tracks(b, l) && l.n > 0 && l.pos <= k * (l.scanned + 1)
    ensures b.scanned > 0 && CurrentBenefit(b) <= k * (l.n + 1)
  {
    ScaledBound(b.pos, b.scanned, l.pos, l.scanned, l.n, Pow2(b.base), k);
    if b.neg <= b.pos {
      QuotientAtMost(b.pos - b.neg, b.scanned, k * (l.n + 1));
    }
  }

  /** So with small charges the product in the judge's percentage does not wrap. */
  lemma JudgeProductFits(b: Scaled, l: Ledger, k: nat, stable: u64)
    requires Tracks(b, l) && l.n > 0 && l.pos <= k * (l.scanned + 1)
    requires 0 < stable <= k * (l.n + 1) && 100 * (k * (l.n + 1)) <= U64_MAX
    ensures var now := CurrentBenefit(b);
      GapPercent(now, stable) == 100 * (if now > stable then now - stable else stable - now) / stable
  {
    hide Tracks, CurrentBenefit, GapPercent;
    BenefitBounded(b, l, k);
    GapProductFits(CurrentBenefit(b), stable, k * (l.n + 1));
  }

  lemma GapProductFits(now: u64, stable: u64, most: nat)
    requires now <= most && 0 < stable <= most && 100 * most <= U64_MAX
    ensures GapPercent(now, stable) == 100 * (if now > stable then now - stable else stable - now) / stable
  {
    var gap: nat := if now > stable then now - stable else stable - now;
    assert 100 * gap <= U64_MAX;
    DivModUnique(100 * gap, U64_SIZE, 0, 100 * gap);
  }

  lemma ScaledBound(pos: nat, scanned: nat, exactPos: nat, exactScanned: nat, n: nat, unit: nat, k: nat)
    requires unit >= 1 && scanned >= 1
    requires pos * unit <= exactPos <= k * (exactScanned + 1) && exactScanned < (scanned + n) * unit
    ensures pos <= k * (n + 1) * scanned
  {
    ScaleMonotone(exactScanned + 1, (scanned + n) * unit, k);
    Regroup(k, scanned + n, unit);
    Cancel(pos, k * (scanned + n), unit);
    SumBelowProduct(scanned, n);
    ScaleMonotone(scanned + n, (n + 1) * scanned, k);
    Regroup(k, n + 1, scanned);
  }

  lemma Regroup(k: nat, x: nat, unit: nat)
    ensures x * unit * k == k * x * unit
  {
    assert x * unit * k == k * (x * unit);
  }

  lemma SumBelowProduct(x: nat, n: nat)
    requires x >= 1
    ensures x + n <= (n + 1) * x
  {
    ScaleMonotone(1, x, n);
    Distribute(n, 1, x);
  }

  lemma Cancel(x: nat, y: nat, unit: nat)
    requires unit >= 1 && x * unit <= y * unit
    ensures x <= y
  {
    if x > y {
      ScaleMonotone(y + 1, x, unit);
      Distribute(y, 1, unit);
    }
  }

  // ---------------------------------------------------------------------------
  // The controller in place
  // ---------------------------------------------------------------------------

  class HashController {
    var hashStrength: nat
    var hashStrengthDelta: nat
    var rshashNegContZero: u64
    var rshashContObscure: u64
    var state: Phase
    var preDirect: Direction
    var belowCount: u8
    var lookupWindowIndex: u8
    var stableBenefit: u64
    var turnPointDown: nat
    var turnBenefitDown: u64
    var turnPointUp: nat
    var turnBenefitUp: u64
    var stablePoint: nat

    function View(): Control
      reads this
    {
      Control(hashStrength, hashStrengthDelta, rshashNegContZero, rshashContObscure, state, preDirect,
              belowCount, lookupWindowIndex, stableBenefit, turnPointDown, turnBenefitDown,
              turnPointUp, turnBenefitUp, stablePoint)
    }

    constructor ()
      ensures View() == STARTUP_CONTROL
    {
      hashStrength, hashStrengthDelta := STRENGTH_FULL / 16, 0;
      rshashNegContZero, rshashContObscure := 0, 0;
      state, preDirect, belowCount, lookupWindowIndex := New, GoUp, 0, 0;
      stableBenefit, turnPointDown, turnBenefitDown := 0, 0, 0;
      turnPointUp, turnBenefitUp, stablePoint := 0, 0, 0;
    }

    /** `inc_hash_strength(hash_strength_delta); inc_hash_strength_delta()` */
    method IncHashStrength()
      modifies this`hashStrength, this`hashStrengthDelta
      ensures View() == Up(old(View()))
    {
      hashStrength := hashStrength + Pow2(hashStrengthDelta);
      if hashStrength > STRENGTH_MAX {
        hashStrength := STRENGTH_MAX;
      }
      IncHashStrengthDelta();
    }

    /** `dec_hash_strength(hash_strength_delta); inc_hash_strength_delta()` */
    method DecHashStrength()
      modifies this`hashStrength, this`hashStrengthDelta
      ensures View() == Down(old(View()))
    {
      var change := Pow2(hashStrengthDelta);
      if hashStrength <= change + 1 {
        hashStrength := 1;
      } else {
        hashStrength := hashStrength - change;
      }
      IncHashStrengthDelta();
    }

    method IncHashStrengthDelta()
      modifies this`hashStrengthDelta
      ensures hashStrengthDelta == NextDelta(old(hashStrengthDelta))
    {
      hashStrengthDelta := hashStrengthDelta + 1;
      if hashStrengthDelta > DELTA_MAX {
        hashStrengthDelta := DELTA_MAX;
      }
    }

    method BenefitGap(currentBenefit: u64) returns (percent: int)
      requires stableBenefit > 0
      ensures percent == GapPercent(currentBenefit, stableBenefit)
    {
      var delta: u64 := 0;
      if currentBenefit > stableBenefit {
        delta := currentBenefit - stableBenefit;
      } else if currentBenefit < stableBenefit {
        delta := stableBenefit - currentBenefit;
      }
      percent := 100 * delta % U64_SIZE / stableBenefit;
    }

    method JudgeRshashDirection(r: Round) returns (ret: Direction)
      modifies this`rshashNegContZero, this`rshashContObscure
      ensures (ret, View()) == Judge(old(View()), r)
    {
      hide CurrentNegRatio, CurrentBenefit, And, GapPercent;
      if And(r.number, 0xFF) == 10 {
        rshashContObscure := 0;
        return Obscure;
      }
      var currentNegRatio := CurrentNegRatio(r.benefit);
      if currentNegRatio == 0 {
        rshashNegContZero := (rshashNegContZero + 1) % U64_SIZE;
        if rshashNegContZero > 2 {
          return GoDown;
        } else {
          return Stay;
        }
      }
      rshashNegContZero := 0;
      if currentNegRatio > 90 {
        rshashContObscure := 0;
        return GoUp;
      }
      var currentBenefit := CurrentBenefit(r.benefit);
      if stableBenefit == 0 {
        rshashContObscure := 0;
        return Obscure;
      }
      var delta := BenefitGap(currentBenefit);
      if delta > 50 {
        rshashContObscure := (rshashContObscure + 1) % U64_SIZE;
        if rshashContObscure > 2 {
          return Obscure;
        } else {
          return Stay;
        }
      }
      rshashContObscure := 0;
      return Stay;
    }

    method BeginTryDown(now: u64)
      modifies this
      ensures View() == StartDown(old(View()), now)
    {
      hide Lowered, NextDelta;
      stablePoint, turnPointDown, turnPointUp := hashStrength, hashStrength, hashStrength;
      turnBenefitDown := now;
      turnBenefitUp := now;
      lookupWindowIndex := 0;
      state := TryDown;
      DecHashStrength();
    }

    method AdjustStillState(r: Round)
      requires state.Still?
      modifies this
      ensures View() == AdjustStill(old(View()), r)
    {
      hide Judge, Raised, Lowered, NextDelta;
      JudgeKeeps(View(), r);
      var direction := JudgeRshashDirection(r);
      match direction {
        case GoUp =>
          if preDirect == GoDown {
            hashStrengthDelta := 0;
          }
          IncHashStrength();
          stableBenefit := CurrentBenefit(r.benefit);
          preDirect := GoUp;
        case GoDown =>
          if preDirect == GoUp {
            hashStrengthDelta := 0;
          }
          DecHashStrength();
          stableBenefit := CurrentBenefit(r.benefit);
          preDirect := GoDown;
        case Obscure =>
          BeginTryDown(CurrentBenefit(r.benefit));
        case Stay =>
      }
    }

    /** Both probing states begin by moving the window. */
    method MoveWindow()
      modifies this`lookupWindowIndex, this`belowCount
      ensures View() == NextWindow(old(View()))
    {
      var index := lookupWindowIndex;
      lookupWindowIndex := (lookupWindowIndex + 1) % 0x100;
      if index % 5 == 0 {
        belowCount := 0;
      }
    }

    method NoteDownRound(now: u64)
      modifies this`belowCount, this`turnPointDown, this`turnBenefitDown
      ensures View() == NoteDown(old(View()), now)
    {
      if now < stableBenefit {
        belowCount := (belowCount + 1) % 0x100;
      } else if now > turnBenefitDown {
        turnPointDown := hashStrength;
        turnBenefitDown := now;
      }
    }

    method NoteUpRound(now: u64)
      modifies this`belowCount, this`turnPointUp, this`turnBenefitUp
      ensures View() == NoteUp(old(View()), now)
    {
      if now < turnBenefitDown {
        belowCount := (belowCount + 1) % 0x100;
      } else if now > turnBenefitUp {
        turnPointUp := hashStrength;
        turnBenefitUp := now;
      }
    }

    method BeginTryUp()
      modifies this`hashStrength, this`hashStrengthDelta, this`lookupWindowIndex, this`state
      ensures View() == StartUp(old(View()))
    {
      hashStrength := stablePoint;
      hashStrengthDelta := 0;
      IncHashStrength();
      lookupWindowIndex := 0;
      state := TryUp;
      hashStrengthDelta := 0;
    }

    method AdjustTryDownState(r: Round)
      requires state.TryDown?
      modifies this
      ensures View() == AdjustTryDown(old(View()), r)
    {
      hide Judge, Down, NextWindow, NoteDown, StartUp;
      MoveWindow();
      NoteDownRound(CurrentBenefit(r.benefit));
      var leave := belowCount >= 3;
      if !leave {
        var direction := JudgeRshashDirection(r);
        leave := direction == GoUp || hashStrength == 1;
      }
      if leave {
        BeginTryUp();
      } else {
        DecHashStrength();
      }
    }

    method AdjustTryUpState(r: Round)
      requires state.TryUp?
      modifies this
      ensures View() == AdjustTryUp(old(View()), r)
    {
      hide Judge, Up, NextWindow, NoteUp;
      MoveWindow();
      NoteUpRound(CurrentBenefit(r.benefit));
      var leave := belowCount >= 3;
      if !leave {
        var direction := JudgeRshashDirection(r);
        leave := direction == GoDown || hashStrength == STRENGTH_MAX;
      }
      if leave {
        hashStrength := if turnBenefitUp > turnBenefitDown then turnPointUp else turnPointDown;
        state := PreStill;
      } else {
        IncHashStrength();
      }
    }

    /** The switch of `rshash_adjust`. */
    method AdjustState(r: Round)
      modifies this
      ensures View() == Adjust(old(View()), r)
    {
      match state {
        case Still => AdjustStillState(r);
        case TryDown => AdjustTryDownState(r);
        case TryUp => AdjustTryUpState(r);
        case New =>
          stableBenefit := CurrentBenefit(r.benefit);
          state := Still;
          hashStrengthDelta := 0;
        case PreStill =>
          stableBenefit := CurrentBenefit(r.benefit);
          state := Still;
          hashStrengthDelta := 0;
      }
    }
  }
}
