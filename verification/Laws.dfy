/** The laws the controller obeys over runs of rounds, stated on the counters the
    rounds bring and on the history so far: what every round is taken for, when each
    phase is left, and how far each move goes. */
module Laws {
  import opened Words
  import opened Benefit
  import opened Controller

  // ---------------------------------------------------------------------------
  // What the counters say
  // ---------------------------------------------------------------------------

  /** The net benefit is the quotient rounded down, and nothing once it is negative. */
  lemma NetBenefitIs(b: Scaled, x: nat)
    requires b.scanned > 0
    ensures CurrentBenefit(b) == x
       <==> if b.neg > b.pos then x == 0 else x * b.scanned <= b.pos - b.neg < (x + 1) * b.scanned
  {
    if b.neg <= b.pos {
      var d: nat := b.pos - b.neg;
      QuotientBounds(d, b.scanned);
      if x * b.scanned <= d < (x + 1) * b.scanned {
        QuotientAtLeast(d, b.scanned, x);
        QuotientBelow(d, b.scanned, x + 1);
      }
    }
  }

  /** Less than one per cent was wasted. */
  predicate Wasteless(b: Scaled) { b.neg == 0 || 100 * b.neg < b.pos }

  /** More than ninety per cent was; on large counters the percentage is taken of the
      hundredth part. */
  predicate Wasteful(b: Scaled) {
    && b.neg > 0
    && (b.neg > b.pos
        || (if b.neg > 184467440737095516 then b.neg >= 91 * (b.pos / 100) else 100 * b.neg >= 91 * b.pos))
  }

  lemma RatioAboveNinety(b: Scaled)
    ensures CurrentNegRatio(b) > 90 <==> Wasteful(b)
    ensures b.neg > b.pos ==> CurrentNegRatio(b) == 100
  {
    if 0 < b.neg <= b.pos {
      if b.neg > 184467440737095516 {
        QuotientAt(b.neg, b.pos / 100, 91);
      } else {
        QuotientAt(b.neg * 100, b.pos, 91);
      }
    }
  }

  lemma QuotientAt(x: nat, y: nat, k: nat)
    requires y > 0
    ensures x / y >= k <==> k * y <= x
  {
    if k * y <= x {
      QuotientAtLeast(x, y, k);
    } else {
      QuotientBelow(x, y, k);
    }
  }

  /** What a round is taken for, from its number, its counters and the stable benefit. */
  datatype Kind = Probing | Idle | Wasting | Blank | Odd | Calm

  function KindOf(r: Round, stable: u64): Kind {
    if r.number % 256 == 10 then Probing
    else if Wasteless(r.benefit) then Idle
    else if Wasteful(r.benefit) then Wasting
    else if stable == 0 then Blank
    else
      var now := CurrentBenefit(r.benefit);
      if 100 * (if now > stable then now - stable else stable - now) % 0x1_0000_0000_0000_0000 >= 51 * stable
      then Odd
      else Calm
  }

  /** Idle rounds in a row; probing ones do not interrupt them. */
  function IdleRun(ks: seq<Kind>): nat {
    if ks == [] then 0
    else
      match ks[|ks| - 1]
      case Idle => IdleRun(ks[..|ks| - 1]) + 1
      case Probing => IdleRun(ks[..|ks| - 1])
      case _ => 0
  }

  /** Odd rounds in a row; idle ones do not interrupt them. */
  function OddRun(ks: seq<Kind>): nat {
    if ks == [] then 0
    else
      match ks[|ks| - 1]
      case Odd => OddRun(ks[..|ks| - 1]) + 1
      case Idle => OddRun(ks[..|ks| - 1])
      case _ => 0
  }

  /** The run lengths the controller keeps are those of the rounds it judged, in 64 bits. */
  predicate Remembers(c: Control, ks: seq<Kind>) {
    c.negContZero == IdleRun(ks) % U64_SIZE && c.contObscure == OddRun(ks) % U64_SIZE
  }

  lemma KindDecides(c: Control, r: Round)
    ensures var k := KindOf(r, c.stableBenefit);
      && (k.Probing? <==> And(r.number, 0xFF) == 10)
      && (!k.Probing? ==>
            && (k.Idle? <==> CurrentNegRatio(r.benefit) == 0)
            && (k.Wasting? <==> CurrentNegRatio(r.benefit) > 90))
      && (k.Blank? ==> c.stableBenefit == 0)
      && (k.Odd? || k.Calm? ==>
            c.stableBenefit > 0 && (k.Odd? <==> GapPercent(CurrentBenefit(r.benefit), c.stableBenefit) > 50))
  {
    ByteMask(r.number);
    RatioAboveNinety(r.benefit);
    NegRatioZeroIff(r.benefit);
    if c.stableBenefit > 0 {
      GapAboveHalf(CurrentBenefit(r.benefit), c.stableBenefit);
    }
    hide And, CurrentNegRatio, CurrentBenefit, GapPercent, Wasteful;
  }

  lemma ByteMask(n: u64)
    ensures And(n, 0xFF) == n % 256
  {
    WordSizes();
    AndMask(n, 8);
  }

  lemma GapAboveHalf(now: u64, stable: u64)
    requires stable > 0
    ensures GapPercent(now, stable) > 50
       <==> 100 * (if now > stable then now - stable else stable - now) % 0x1_0000_0000_0000_0000 >= 51 * stable
  {
    var gap: nat := if now > stable then now - stable else stable - now;
    QuotientAt(100 * gap % U64_SIZE, stable, 51);
  }

  lemma RunsGrow(ks: seq<Kind>, k: Kind)
    ensures IdleRun(ks + [k]) == (if k.Idle? then IdleRun(ks) + 1 else if k.Probing? then IdleRun(ks) else 0)
    ensures OddRun(ks + [k]) == (if k.Odd? then OddRun(ks) + 1 else if k.Idle? then OddRun(ks) else 0)
  {
    assert (ks + [k])[..|ks + [k]| - 1] == ks;
  }

  lemma OneMore(x: nat)
    ensures (x % U64_SIZE + 1) % U64_SIZE == (x + 1) % U64_SIZE
  {
  }

  /** The verdict on a round, from its kind and the kinds judged before it. */
  lemma Verdicts(c: Control, r: Round, ks: seq<Kind>)
    requires Remembers(c, ks)
    ensures var k, (dir, j) := KindOf(r, c.stableBenefit), Judge(c, r);
      && Remembers(j, ks + [k])
      && (dir == GoDown <==> k.Idle? && (IdleRun(ks) + 1) % U64_SIZE > 2)
      && (dir == GoUp <==> k.Wasting?)
      && (dir == Obscure <==> k.Probing? || k.Blank? || (k.Odd? && (OddRun(ks) + 1) % U64_SIZE > 2))
  {
    KindDecides(c, r);
    RunsGrow(ks, KindOf(r, c.stableBenefit));
    OneMore(IdleRun(ks));
    OneMore(OddRun(ks));
    hide And, CurrentNegRatio, CurrentBenefit, GapPercent, KindOf, IdleRun, OddRun;
  }

  // ---------------------------------------------------------------------------
  // How far the moves go
  // ---------------------------------------------------------------------------

  /** So many moves in a row from a step of 2^delta words: the step doubles to 32. */
  function Stride(delta: nat, moves: nat): int {
    if delta + moves <= 5 then Pow2(delta + moves) - Pow2(delta)
    else 32 - Pow2(delta) + 32 * (delta + moves - 5)
  }

  function AtMost(x: int, y: int): int { if x < y then x else y }

  function AtLeast(x: int, y: int): int { if x > y then x else y }

  lemma Powers()
    ensures Pow2(0) == 1 && Pow2(1) == 2 && Pow2(2) == 4 && Pow2(3) == 8 && Pow2(4) == 16 && Pow2(5) == 32
  {
  }

  /** From the smallest step: 1, 3, 7, 15, 31 words, then 32 more a move. */
  lemma StrideFromOne(moves: nat)
    ensures Stride(0, moves) == if moves <= 5 then Pow2(moves) - 1 else 31 + 32 * (moves - 5)
  {
    Powers();
  }

  lemma StrideNext(delta: nat, moves: nat)
    requires delta <= 5
    ensures Stride(delta, moves + 1) == Stride(delta, moves) + Pow2(AtMost(5, delta + moves))
    ensures Stride(delta, 0) == 0 && Stride(delta, moves) >= 0
    ensures AtMost(5, delta + moves) >= 0 && Pow2(AtMost(5, delta + moves)) >= 1
  {
    Powers();
    Pow2Monotone(delta, if delta + moves <= 5 then delta + moves else 5);
  }

  /** A move shifts the strength by its step, clamped, and doubles the step. */
  lemma MovesBy(c: Control)
    requires c.delta <= 5
    ensures Up(c).strength == AtMost(1034, c.strength + Pow2(c.delta))
    ensures Down(c).strength == AtLeast(1, c.strength - Pow2(c.delta))
    ensures Up(c).delta == Down(c).delta == AtMost(5, c.delta + 1)
  {
  }

  /** Where a run of moves starts: turning round begins with the smallest step again. */
  function FirstStep(c: Control, against: Direction): nat {
    if c.preDirect == against then 0 else c.delta
  }

  predicate AllOf(rs: seq<Round>, wanted: Round -> bool) { forall i :: 0 <= i < |rs| ==> wanted(rs[i]) }

  /** A round that drives the strength up, whatever came before. */
  predicate DrivesUp(r: Round) { r.number % 256 != 10 && Wasteful(r.benefit) }

  /** One that drives it down after two like it. */
  predicate DrivesDown(r: Round) { r.number % 256 != 10 && Wasteless(r.benefit) }

  lemma DrivesUpKind(r: Round, stable: u64)
    ensures DrivesUp(r) ==> KindOf(r, stable) == Wasting
    ensures DrivesDown(r) ==> KindOf(r, stable) == Idle
  {
  }

  lemma UpJudged(c: Control, r: Round)
    requires DrivesUp(r)
    ensures Judge(c, r) == (GoUp, c.(negContZero := 0, contObscure := 0))
  {
    DrivesUpKind(r, c.stableBenefit);
    KindDecides(c, r);
    hide And, CurrentNegRatio, CurrentBenefit, GapPercent, KindOf;
  }

  lemma DownJudged(c: Control, r: Round)
    requires DrivesDown(r) && 2 <= c.negContZero < U64_MAX
    ensures Judge(c, r) == (GoDown, c.(negContZero := c.negContZero + 1))
  {
    DrivesUpKind(r, c.stableBenefit);
    KindDecides(c, r);
    hide And, CurrentNegRatio, CurrentBenefit, GapPercent, KindOf;
  }

  /** One round up from a still state. */
  lemma OneUp(c: Control, r: Round)
    requires c.phase.Still? && c.delta <= 5 && DrivesUp(r)
    ensures var d := Adjust(c, r);
      && d.phase.Still? && d.preDirect == GoUp && d.stableBenefit == CurrentBenefit(r.benefit)
      && d.strength == AtMost(1034, c.strength + Pow2(FirstStep(c, GoDown)))
      && d.delta == AtMost(5, FirstStep(c, GoDown) + 1)
  {
    UpJudged(c, r);
    MovesBy(Judge(c, r).1);
    MovesBy(Judge(c, r).1.(delta := 0));
    hide Judge, Up;
  }

  lemma OneDown(c: Control, r: Round)
    requires c.phase.Still? && c.delta <= 5 && DrivesDown(r) && 2 <= c.negContZero < U64_MAX
    ensures var d := Adjust(c, r);
      && d.phase.Still? && d.preDirect == GoDown && d.stableBenefit == CurrentBenefit(r.benefit)
      && d.strength == AtLeast(1, c.strength - Pow2(FirstStep(c, GoUp)))
      && d.delta == AtMost(5, FirstStep(c, GoUp) + 1) && d.negContZero == c.negContZero + 1
  {
    DownJudged(c, r);
    MovesBy(Judge(c, r).1);
    MovesBy(Judge(c, r).1.(delta := 0));
    hide Judge, Down;
  }

  /** Wasteful rounds in a row from a still state. */
  lemma {:induction false} UpsReach(c: Control, rs: seq<Round>)
    requires c.phase.Still? && c.delta <= 5 && c.strength <= 1034 && AllOf(rs, DrivesUp)
    ensures var d, step := Adjusts(c, rs), FirstStep(c, GoDown);
      && d.phase.Still? && d.strength == AtMost(1034, c.strength + Stride(step, |rs|))
      && (rs != [] ==>
            && d.delta == AtMost(5, step + |rs|) && d.preDirect == GoUp
            && d.stableBenefit == CurrentBenefit(rs[|rs| - 1].benefit))
    decreases |rs|
  {
    hide Adjust, CurrentBenefit;
    var step := FirstStep(c, GoDown);
    StrideNext(step, 0);
    if rs != [] {
      var last, init := rs[|rs| - 1], rs[..|rs| - 1];
      LastRound(c, rs);
      UpsReach(c, init);
      var d := Adjusts(c, init);
      assert DrivesUp(last);
      OneUp(d, last);
      StrideNext(step, |init|);
      hide Stride, AllOf, DrivesUp;
    }
  }

  lemma {:induction false} LastRound(c: Control, rs: seq<Round>)
    requires rs != []
    ensures Adjusts(c, rs) == Adjust(Adjusts(c, rs[..|rs| - 1]), rs[|rs| - 1])
    decreases |rs|
  {
    hide Adjust;
    var n := |rs| - 1;
    if n > 0 {
      assert rs[1..][..n - 1] == rs[..n][1..];
      LastRound(Adjust(c, rs[0]), rs[1..]);
    } else {
      assert rs[..0] == [] && rs[1..] == [];
    }
  }

  /** Wasteless rounds in a row, two of them behind. */
  lemma {:induction false} DownsReach(c: Control, rs: seq<Round>)
    requires c.phase.Still? && c.delta <= 5 && c.strength >= 1 && AllOf(rs, DrivesDown)
    requires c.negContZero >= 2 && c.negContZero + |rs| < U64_SIZE
    ensures var d, step := Adjusts(c, rs), FirstStep(c, GoUp);
      && d.phase.Still? && d.strength == AtLeast(1, c.strength - Stride(step, |rs|))
      && d.negContZero == c.negContZero + |rs|
      && (rs != [] ==>
            && d.delta == AtMost(5, step + |rs|) && d.preDirect == GoDown
            && d.stableBenefit == CurrentBenefit(rs[|rs| - 1].benefit))
    decreases |rs|
  {
    hide Adjust, CurrentBenefit;
    var step := FirstStep(c, GoUp);
    StrideNext(step, 0);
    if rs != [] {
      var last, init := rs[|rs| - 1], rs[..|rs| - 1];
      LastRound(c, rs);
      DownsReach(c, init);
      var d := Adjusts(c, init);
      assert DrivesDown(last);
      OneDown(d, last);
      StrideNext(step, |init|);
      hide Stride, AllOf, DrivesDown;
    }
  }

  /** Other rounds leave a still state as it is, but for the run lengths, unless they
      start a sweep. */
  lemma StillStays(c: Control, r: Round, ks: seq<Kind>)
    requires c.phase.Still? && Remembers(c, ks)
    ensures var k, d := KindOf(r, c.stableBenefit), Adjust(c, r);
      && (d.phase.TryDown? <==> k.Probing? || k.Blank? || (k.Odd? && (OddRun(ks) + 1) % U64_SIZE > 2))
      && (k.Calm? || (k.Odd? && (OddRun(ks) + 1) % U64_SIZE <= 2) || (k.Idle? && (IdleRun(ks) + 1) % U64_SIZE <= 2) ==>
            d == c.(negContZero := d.negContZero, contObscure := d.contObscure))
      && Remembers(d, ks + [k])
  {
    Verdicts(c, r, ks);
    JudgeKeeps(c, r);
    DownKeepsRest(Judge(c, r).1);
    DownKeepsRest(Judge(c, r).1.(delta := 0));
    hide Judge, Up, Down, KindOf, IdleRun, OddRun, CurrentBenefit;
  }

  /** The rounds after startup and after a sweep only take the benefit for stable. */
  lemma CalmRound(c: Control, r: Round)
    requires c.phase.New? || c.phase.PreStill?
    ensures var d := Adjust(c, r);
      && d.phase.Still? && d.stableBenefit == CurrentBenefit(r.benefit) && d.delta == 0
      && d.strength == c.strength && d.preDirect == c.preDirect
      && d.negContZero == c.negContZero && d.contObscure == c.contObscure
  {
  }

  // ---------------------------------------------------------------------------
  // The way down
  // ---------------------------------------------------------------------------

  /** The rounds that earned less than the bar. */
  function Poor(rs: seq<Round>, bar: u64): nat {
    if rs == [] then 0
    else Poor(rs[..|rs| - 1], bar) + if CurrentBenefit(rs[|rs| - 1].benefit) < bar then 1 else 0
  }

  /** The rounds of a phase since the last one whose place is divisible by five. */
  function LastWindow(rs: seq<Round>): seq<Round> {
    if rs == [] then [] else rs[(|rs| - 1) / 5 * 5..]
  }

  lemma PoorGrows(rs: seq<Round>, r: Round, bar: u64)
    ensures Poor(LastWindow(rs + [r]), bar) ==
      (if |rs| % 5 == 0 then 0 else Poor(LastWindow(rs), bar)) + if CurrentBenefit(r.benefit) < bar then 1 else 0
  {
    var all := rs + [r];
    var w := LastWindow(all);
    var at := |rs| / 5 * 5;
    assert w == all[at..];
    assert w[..|w| - 1] == rs[at..];
    if |rs| % 5 == 0 {
      assert rs[at..] == [];
    } else {
      assert (|rs| - 1) / 5 == |rs| / 5;
    }
  }

  /** The state stays in the phase at every round. */
  predicate Stays(c: Control, phase: Phase, rs: seq<Round>) {
    c.phase == phase && (rs != [] ==> Stays(c, phase, rs[..|rs| - 1]) && Adjusts(c, rs).phase == phase)
  }

  /** The kinds of the rounds of a phase. */
  function Kinds(rs: seq<Round>, stable: u64): seq<Kind> {
    if rs == [] then [] else Kinds(rs[..|rs| - 1], stable) + [KindOf(rs[|rs| - 1], stable)]
  }

  /** What is known on the way down after some rounds of it: `c` began the sweep with
      the round `r`, and `ks` was judged by then. */
  predicate OnTheWayDown(c: Control, e: Control, rs: seq<Round>, ks: seq<Kind>) {
    && e.phase.TryDown? && Safe(e)
    && e.strength == AtLeast(1, c.strength - Stride(c.delta, |rs| + 1))
    && e.delta == AtMost(5, c.delta + |rs| + 1)
    && e.stablePoint == c.strength && e.stableBenefit == c.stableBenefit && e.preDirect == c.preDirect
    && e.windowIndex == |rs|
    && (rs != [] ==> e.belowCount == Poor(LastWindow(rs), c.stableBenefit))
    && Remembers(e, ks + Kinds(rs, c.stableBenefit))
  }

  lemma WayDownBegins(c: Control, r: Round, ks: seq<Kind>)
    requires Safe(c) && c.phase.Still? && Adjust(c, r).phase.TryDown? && Remembers(c, ks)
    ensures OnTheWayDown(c, Adjust(c, r), [], ks + [KindOf(r, c.stableBenefit)])
  {
    AdjustSafe(c, r);
    Verdicts(c, r, ks);
    JudgeKeeps(c, r);
    MovesBy(Judge(c, r).1);
    DownKeepsRest(Judge(c, r).1);
    StrideNext(c.delta, 0);
    var ks' := ks + [KindOf(r, c.stableBenefit)];
    assert ks' + [] == ks';
    hide Judge, Up, Down, KindOf, IdleRun, OddRun, CurrentBenefit, Safe, Stride;
  }

  /** A round on the way down: it goes on up exactly if three rounds of the window were
      poor, or the round is wasteful, or the strength is down to one. */
  lemma WayDownStep(c: Control, e: Control, rs: seq<Round>, ks: seq<Kind>, r: Round)
    requires c.delta <= 5 && c.strength >= 1 && OnTheWayDown(c, e, rs, ks)
    ensures var f := Adjust(e, r);
      && (f.phase.TryUp? <==>
            || Poor(LastWindow(rs + [r]), c.stableBenefit) >= 3
            || (r.number % 256 != 10 && Wasteful(r.benefit))
            || e.strength == 1)
      && (f.phase.TryUp? ==>
            && f.strength == AtMost(1034, c.strength + 1) && f.delta == 0 && f.windowIndex == 0
            && f.stableBenefit == c.stableBenefit && f.preDirect == c.preDirect)
      && (!f.phase.TryUp? ==> OnTheWayDown(c, f, rs + [r], ks))
  {
    hide Judge, Up, Down, KindOf, IdleRun, OddRun, CurrentBenefit, Stride, NextWindow, NoteDown, LastWindow, Poor, Kinds;
    var now := CurrentBenefit(r.benefit);
    var n := NoteDown(NextWindow(e), now);
    AdjustSafe(e, r);
    DownWindow(c, e, rs, ks, r);
    Verdicts(n, r, ks + Kinds(rs, c.stableBenefit));
    WastingKind(r, c.stableBenefit);
    JudgeKeeps(n, r);
    MovesBy(Judge(n, r).1);
    DownKeepsRest(Judge(n, r).1);
    StrideNext(c.delta, |rs| + 1);
    KindsGrow(rs, r, c.stableBenefit, ks);
    Powers();
  }

  lemma WastingKind(r: Round, stable: u64)
    ensures KindOf(r, stable).Wasting? <==> r.number % 256 != 10 && Wasteful(r.benefit)
  {
    RatioAboveNinety(r.benefit);
    NegRatioZeroIff(r.benefit);
    hide CurrentNegRatio;
  }

  lemma KindsGrow(rs: seq<Round>, r: Round, stable: u64, ks: seq<Kind>)
    ensures ks + Kinds(rs + [r], stable) == ks + Kinds(rs, stable) + [KindOf(r, stable)]
  {
    assert (rs + [r])[..|rs + [r]| - 1] == rs;
    hide KindOf;
  }

  /** The count after a round is that of its window. */
  lemma DownWindow(c: Control, e: Control, rs: seq<Round>, ks: seq<Kind>, r: Round)
    requires OnTheWayDown(c, e, rs, ks)
    ensures var n := NoteDown(NextWindow(e), CurrentBenefit(r.benefit));
      && n.belowCount == Poor(LastWindow(rs + [r]), c.stableBenefit) && n.windowIndex == |rs| + 1
      && n.strength == e.strength && n.delta == e.delta && n.stablePoint == e.stablePoint
      && n.stableBenefit == e.stableBenefit && n.preDirect == e.preDirect && n.phase == e.phase
      && n.negContZero == e.negContZero && n.contObscure == e.contObscure
  {
    PoorGrows(rs, r, c.stableBenefit);
    hide CurrentBenefit, Poor, LastWindow, Kinds, Stride, Remembers;
  }

  /** From the round that begins a sweep, as long as it goes down: where it stands, and
      when it turns. */
  lemma {:induction false} DownPhase(c: Control, r: Round, rs: seq<Round>, ks: seq<Kind>)
    requires Safe(c) && c.phase.Still? && Remembers(c, ks)
    requires Stays(Adjust(c, r), TryDown, rs)
    ensures OnTheWayDown(c, Adjusts(Adjust(c, r), rs), rs, ks + [KindOf(r, c.stableBenefit)])
    decreases |rs|
  {
    hide Safe, Remembers, OnTheWayDown, Adjust, KindOf;
    if rs == [] {
      WayDownBegins(c, r, ks);
    } else {
      var init, last := rs[..|rs| - 1], rs[|rs| - 1];
      DownPhase(c, r, init, ks);
      LastRound(Adjust(c, r), rs);
      SafeBounds(c);
      WayDownStep(c, Adjusts(Adjust(c, r), init), init, ks + [KindOf(r, c.stableBenefit)], last);
      assert init + [last] == rs;
    }
  }

  lemma SafeBounds(c: Control)
    requires Safe(c)
    ensures 1 <= c.strength <= 1034 && c.delta <= 5
  {
  }

  /** A sweep turns round with its `r'` exactly if three of the rounds since the last
      place divisible by five earned less than the stable benefit, or the round is
      wasteful, or the strength is one. It then stands one above where it began. */
  lemma DownTurnsIff(c: Control, r: Round, rs: seq<Round>, r': Round, ks: seq<Kind>)
    requires Safe(c) && c.phase.Still? && Remembers(c, ks) && Stays(Adjust(c, r), TryDown, rs)
    ensures var e := Adjusts(Adjust(c, r), rs); var f := Adjust(e, r');
      && e.strength == AtLeast(1, c.strength - Stride(c.delta, |rs| + 1))
      && (f.phase.TryUp? <==>
            || Poor(LastWindow(rs + [r']), c.stableBenefit) >= 3
            || (r'.number % 256 != 10 && Wasteful(r'.benefit))
            || e.strength == 1)
      && f.preDirect == c.preDirect
      && (f.phase.TryUp? ==> f.strength == AtMost(1034, c.strength + 1) && f.delta == 0 && f.windowIndex == 0)
      && (!f.phase.TryUp? ==>
            f.phase.TryDown? && f.strength == AtLeast(1, c.strength - Stride(c.delta, |rs| + 2)))
  {
    DownPhase(c, r, rs, ks);
    SafeBounds(c);
    WayDownStep(c, Adjusts(Adjust(c, r), rs), rs, ks + [KindOf(r, c.stableBenefit)], r');
    hide Safe, Adjust, KindOf, Stride, LastWindow, Poor, Wasteful, Stays, Remembers;
  }

  // ---------------------------------------------------------------------------
  // The way up
  // ---------------------------------------------------------------------------

  /** What is known on the way up after some rounds of it, from its first state `d`. */
  predicate OnTheWayUp(d: Control, e: Control, rs: seq<Round>, ks: seq<Kind>) {
    && e.phase.TryUp? && Safe(e)
    && e.strength == AtMost(1034, d.strength + Stride(0, |rs|))
    && e.delta == AtMost(5, |rs|)
    && e.stableBenefit == d.stableBenefit && e.preDirect == d.preDirect
    && e.turnBenefitDown == d.turnBenefitDown && e.turnPointDown == d.turnPointDown
    && e.windowIndex == |rs|
    && (rs != [] ==> e.belowCount == Poor(LastWindow(rs), d.turnBenefitDown))
    && Remembers(e, ks + Kinds(rs, d.stableBenefit))
  }

  lemma UpWindow(d: Control, e: Control, rs: seq<Round>, ks: seq<Kind>, r: Round)
    requires OnTheWayUp(d, e, rs, ks)
    ensures var n := NoteUp(NextWindow(e), CurrentBenefit(r.benefit));
      && n.belowCount == Poor(LastWindow(rs + [r]), d.turnBenefitDown) && n.windowIndex == |rs| + 1
      && n.strength == e.strength && n.delta == e.delta
      && n.turnBenefitDown == e.turnBenefitDown && n.turnPointDown == e.turnPointDown
      && n.stableBenefit == e.stableBenefit && n.preDirect == e.preDirect && n.phase == e.phase
      && n.negContZero == e.negContZero && n.contObscure == e.contObscure
  {
    PoorGrows(rs, r, d.turnBenefitDown);
    hide CurrentBenefit, Poor, LastWindow, Kinds, Stride, Remembers;
  }

  /** A round on the way up: the sweep settles exactly if three rounds of the window
      earned less than the best on the way down, or the round is the third wasteless
      one in a row, or the strength is at its maximum. */
  lemma WayUpStep(d: Control, e: Control, rs: seq<Round>, ks: seq<Kind>, r: Round)
    requires d.strength <= 1034 && OnTheWayUp(d, e, rs, ks)
    ensures var f := Adjust(e, r);
      && (f.phase.PreStill? <==>
            || Poor(LastWindow(rs + [r]), d.turnBenefitDown) >= 3
            || (r.number % 256 != 10 && Wasteless(r.benefit)
                && (IdleRun(ks + Kinds(rs, d.stableBenefit)) + 1) % U64_SIZE > 2)
            || e.strength == 1034)
      && (f.phase.PreStill? ==> f.preDirect == d.preDirect && f.stableBenefit == d.stableBenefit)
      && (!f.phase.PreStill? ==> OnTheWayUp(d, f, rs + [r], ks))
  {
    hide Judge, Up, Down, KindOf, IdleRun, OddRun, CurrentBenefit, Stride, NextWindow, NoteUp, LastWindow, Poor, Kinds;
    var now := CurrentBenefit(r.benefit);
    var n := NoteUp(NextWindow(e), now);
    AdjustSafe(e, r);
    UpWindow(d, e, rs, ks, r);
    Verdicts(n, r, ks + Kinds(rs, d.stableBenefit));
    IdleKind(r, d.stableBenefit);
    JudgeKeeps(n, r);
    MovesBy(Judge(n, r).1);
    DownKeepsRest(Judge(n, r).1);
    StrideNext(0, |rs|);
    KindsGrow(rs, r, d.stableBenefit, ks);
  }

  lemma IdleKind(r: Round, stable: u64)
    ensures KindOf(r, stable).Idle? <==> r.number % 256 != 10 && Wasteless(r.benefit)
  {
  }

  lemma {:induction false} UpPhase(d: Control, rs: seq<Round>, ks: seq<Kind>)
    requires Safe(d) && d.windowIndex == 0 && d.delta == 0 && Remembers(d, ks) && Stays(d, TryUp, rs)
    ensures OnTheWayUp(d, Adjusts(d, rs), rs, ks)
    decreases |rs|
  {
    SafeBounds(d);
    if rs == [] {
      StrideNext(0, 0);
      assert ks + [] == ks;
    } else {
      hide Safe, Remembers, OnTheWayUp, Adjust, KindOf;
      var init, last := rs[..|rs| - 1], rs[|rs| - 1];
      UpPhase(d, init, ks);
      LastRound(d, rs);
      WayUpStep(d, Adjusts(d, init), init, ks, last);
      assert init + [last] == rs;
    }
  }

  /** A sweep settles with its `r` exactly if three of the rounds since the last place
      divisible by five earned less than the best of the way down, or the round is the
      third wasteless one in a row, or the strength is at its maximum. */
  lemma UpSettlesIff(d: Control, rs: seq<Round>, r: Round, ks: seq<Kind>)
    requires Safe(d) && d.windowIndex == 0 && d.delta == 0 && Remembers(d, ks) && Stays(d, TryUp, rs)
    ensures var e := Adjusts(d, rs); var f := Adjust(e, r);
      && e.strength == AtMost(1034, d.strength + Stride(0, |rs|))
      && (f.phase.PreStill? <==>
            || Poor(LastWindow(rs + [r]), d.turnBenefitDown) >= 3
            || (r.number % 256 != 10 && Wasteless(r.benefit)
                && (IdleRun(ks + Kinds(rs, d.stableBenefit)) + 1) % U64_SIZE > 2)
            || e.strength == 1034)
      && f.preDirect == d.preDirect
      && (!f.phase.PreStill? ==>
            f.phase.TryUp? && f.strength == AtMost(1034, d.strength + Stride(0, |rs| + 1)))
  {
    UpPhase(d, rs, ks);
    SafeBounds(d);
    WayUpStep(d, Adjusts(d, rs), rs, ks, r);
    hide Safe, Adjust, KindOf, Stride, LastWindow, Poor, Wasteless, Stays, Remembers;
  }

  // ---------------------------------------------------------------------------
  // The history of a whole run
  // ---------------------------------------------------------------------------

  /** A round is judged in a still state, and in a sweep unless it is the third poor
      one of its window. */
  predicate IsJudged(c: Control, r: Round) {
    match c.phase
    case Still => true
    case TryDown => (if c.windowIndex % 5 == 0 then 0 else c.belowCount)
                    + (if CurrentBenefit(r.benefit) < c.stableBenefit then 1 else 0) < 3
    case TryUp => (if c.windowIndex % 5 == 0 then 0 else c.belowCount)
                  + (if CurrentBenefit(r.benefit) < c.turnBenefitDown then 1 else 0) < 3
    case _ => false
  }

  function Judged(c: Control, rs: seq<Round>): seq<Kind>
    decreases |rs|
  {
    if rs == [] then []
    else (if IsJudged(c, rs[0]) then [KindOf(rs[0], c.stableBenefit)] else []) + Judged(Adjust(c, rs[0]), rs[1..])
  }

  lemma RoundRemembered(c: Control, r: Round, ks: seq<Kind>)
    requires Safe(c) && Remembers(c, ks)
    ensures Remembers(Adjust(c, r), ks + if IsJudged(c, r) then [KindOf(r, c.stableBenefit)] else [])
  {
    assert ks + [] == ks;
    match c.phase {
      case Still => StillStays(c, r, ks);
      case TryDown => DownRemembered(c, r, ks);
      case TryUp => UpRemembered(c, r, ks);
      case New =>
      case PreStill =>
    }
    hide KindOf, IdleRun, OddRun, CurrentBenefit, AdjustTryDown, AdjustTryUp, AdjustStill;
  }

  lemma DownRemembered(c: Control, r: Round, ks: seq<Kind>)
    requires Safe(c) && Remembers(c, ks) && c.phase.TryDown?
    ensures Remembers(AdjustTryDown(c, r), if IsJudged(c, r) then ks + [KindOf(r, c.stableBenefit)] else ks)
  {
    hide KindOf, IdleRun, OddRun, CurrentBenefit, Judge, Down;
    var n := NoteDown(NextWindow(c), CurrentBenefit(r.benefit));
    Verdicts(n, r, ks);
    JudgeKeeps(n, r);
    DownKeepsRest(Judge(n, r).1);
  }

  lemma UpRemembered(c: Control, r: Round, ks: seq<Kind>)
    requires Safe(c) && Remembers(c, ks) && c.phase.TryUp?
    ensures Remembers(AdjustTryUp(c, r), if IsJudged(c, r) then ks + [KindOf(r, c.stableBenefit)] else ks)
  {
    hide KindOf, IdleRun, OddRun, CurrentBenefit, Judge, Up;
    var n := NoteUp(NextWindow(c), CurrentBenefit(r.benefit));
    Verdicts(n, r, ks);
    JudgeKeeps(n, r);
    DownKeepsRest(Judge(n, r).1);
  }

  /** Over every run the run lengths are those of its judged rounds; from startup, of
      those alone. */
  lemma {:induction false} RunRemembered(c: Control, rs: seq<Round>, ks: seq<Kind>)
    requires Safe(c) && Remembers(c, ks)
    ensures Remembers(Adjusts(c, rs), ks + Judged(c, rs))
    decreases |rs|
  {
    hide Safe, Remembers, Adjust, KindOf, IsJudged;
    if rs == [] {
      assert ks + [] == ks;
    } else {
      var now := if IsJudged(c, rs[0]) then [KindOf(rs[0], c.stableBenefit)] else [];
      RoundRemembered(c, rs[0], ks);
      AdjustSafe(c, rs[0]);
      RunRemembered(Adjust(c, rs[0]), rs[1..], ks + now);
      assert ks + now + Judged(Adjust(c, rs[0]), rs[1..]) == ks + Judged(c, rs);
    }
  }

  /** The first round of all leaves the controller still, at a sixteenth of a page, with
      the smallest step, nothing judged yet and no move against which to turn. */
  lemma FirstRound(r: Round)
    ensures var d := Adjust(STARTUP_CONTROL, r);
      && d.phase.Still? && d.strength == 64 && d.delta == 0 && d.preDirect == GoUp
      && d.stableBenefit == CurrentBenefit(r.benefit) && Remembers(d, []) && Safe(d)
  {
  }

  lemma StartupRemembers()
    ensures Remembers(STARTUP_CONTROL, [])
  {
  }
}
