/** Anomaly rules over a bounded, time-trimmed activity buffer per credit line, compared with
    the same rules over the full history the buffer forgets. */
module AnomalyDetection {
  import opened Wrappers

  datatype Kind = Draw | Repay

  /** An activity event; an amount that does not parse to a finite number is absent. */
  datatype Event = Event(kind: Kind, amount: Option<real>, at: int)

  datatype Config = Config(
    enabled: bool,
    rapidMinCount: int, rapidWindowSeconds: int,
    burstMinCount: int, burstWindowSeconds: int,
    minCycles: int, pairWindowSeconds: int, patternWindowSeconds: int, amountToleranceRatio: real,
    signalCooldownSeconds: int, maxEvents: nat)

  datatype RuleId = RapidSuccessiveDraws | DrawBurst | UnusualRepayPattern

  datatype Cycle = Cycle(draw: Event, repay: Event)

  /** A rule that fired, with its evidence. */
  datatype FiredRule = FiredRule(id: RuleId, draws: seq<Event>, cycles: seq<Cycle>)

  // ---------------------------------------------------------------------------------------
  // Filters and the buffer
  // ---------------------------------------------------------------------------------------

  function Since(events: seq<Event>, start: int): seq<Event> {
    if events == [] then []
    else
      var e := events[|events| - 1];
      Since(events[..|events| - 1], start) + (if e.at >= start then [e] else [])
  }

  function DrawsIn(events: seq<Event>): seq<Event> {
    if events == [] then []
    else
      var e := events[|events| - 1];
      DrawsIn(events[..|events| - 1]) + (if e.kind == Draw then [e] else [])
  }

  function Newest(events: seq<Event>, max: nat): seq<Event> {
    if |events| > max then events[|events| - max..] else events
  }

  function Max3(a: int, b: int, c: int): int {
    var m := if a < b then b else a;
    if m < c then c else m
  }

  function WidestMs(cfg: Config): int {
    Max3(cfg.rapidWindowSeconds, cfg.burstWindowSeconds, cfg.patternWindowSeconds) * 1000
  }

  function Push(list: seq<Event>, e: Event, cfg: Config): seq<Event> {
    Newest(Since(list + [e], e.at - WidestMs(cfg) * 2), cfg.maxEvents)
  }

  /** What the buffer of a line holds after a history of its events. */
  function BufferOf(history: seq<Event>, cfg: Config): seq<Event> {
    if history == [] then []
    else Push(BufferOf(history[..|history| - 1], cfg), history[|history| - 1], cfg)
  }

  // ---------------------------------------------------------------------------------------
  // Rules
  // ---------------------------------------------------------------------------------------

  function Abs(x: real): real { if x < 0.0 then -x else x }

  predicate WithinTolerance(draw: Option<real>, repay: Option<real>, ratio: real) {
    draw.Some? && repay.Some? && draw.value != 0.0 && Abs(draw.value - repay.value) / Abs(draw.value) <= ratio
  }

  predicate Pairs(draw: Event, repay: Event, cfg: Config) {
    && 0 <= repay.at - draw.at <= cfg.pairWindowSeconds * 1000
    && WithinTolerance(draw.amount, repay.amount, cfg.amountToleranceRatio)
  }

  /** The most recent unpaired draw that a repay matches, or -1. */
  function LastMatch(unpaired: seq<Event>, repay: Event, cfg: Config): (i: int)
    ensures -1 <= i < |unpaired|
    ensures i >= 0 ==> Pairs(unpaired[i], repay, cfg)
    ensures forall k :: i < k < |unpaired| ==> !Pairs(unpaired[k], repay, cfg)
  {
    if unpaired == [] then -1
    else if Pairs(unpaired[|unpaired| - 1], repay, cfg) then |unpaired| - 1
    else LastMatch(unpaired[..|unpaired| - 1], repay, cfg)
  }

  datatype Pairing = Pairing(unpaired: seq<Event>, cycles: seq<Cycle>)

  function Without(events: seq<Event>, i: nat): seq<Event>
    requires i < |events|
  {
    events[..i] + events[i + 1..]
  }

  function PairStep(p: Pairing, e: Event, cfg: Config): Pairing {
    if e.kind == Draw then p.(unpaired := p.unpaired + [e])
    else
      var i := LastMatch(p.unpaired, e, cfg);
      if i < 0 then p
      else Pairing(Without(p.unpaired, i), p.cycles + [Cycle(p.unpaired[i], e)])
  }

  function PairAll(events: seq<Event>, cfg: Config): Pairing {
    if events == [] then Pairing([], [])
    else PairStep(PairAll(events[..|events| - 1], cfg), events[|events| - 1], cfg)
  }

  function DrawRule(id: RuleId, minCount: int, windowSeconds: int, events: seq<Event>): Option<FiredRule> {
    if events == [] || events[|events| - 1].kind != Draw then None
    else
      var draws := DrawsIn(Since(events, events[|events| - 1].at - windowSeconds * 1000));
      if |draws| < minCount then None else Some(FiredRule(id, draws, []))
  }

  function RepayRule(cfg: Config, events: seq<Event>): Option<FiredRule> {
    if events == [] || events[|events| - 1].kind != Repay then None
    else
      var recent := Since(events, events[|events| - 1].at - cfg.patternWindowSeconds * 1000);
      var cycles := PairAll(recent, cfg).cycles;
      if |cycles| < cfg.minCycles then None else Some(FiredRule(UnusualRepayPattern, [], cycles))
  }

  function Rule(id: RuleId, cfg: Config, events: seq<Event>): Option<FiredRule> {
    match id
    case RapidSuccessiveDraws => DrawRule(id, cfg.rapidMinCount, cfg.rapidWindowSeconds, events)
    case DrawBurst => DrawRule(id, cfg.burstMinCount, cfg.burstWindowSeconds, events)
    case UnusualRepayPattern => RepayRule(cfg, events)
  }

  function WindowMs(id: RuleId, cfg: Config): int {
    match id
    case RapidSuccessiveDraws => cfg.rapidWindowSeconds * 1000
    case DrawBurst => cfg.burstWindowSeconds * 1000
    case UnusualRepayPattern => cfg.patternWindowSeconds * 1000
  }

  function Opt(r: Option<FiredRule>): seq<FiredRule> { if r.Some? then [r.value] else [] }

  function EvaluateRules(cfg: Config, events: seq<Event>): seq<FiredRule> {
    Opt(Rule(RapidSuccessiveDraws, cfg, events)) + Opt(Rule(DrawBurst, cfg, events))
    + Opt(Rule(UnusualRepayPattern, cfg, events))
  }

  // ---------------------------------------------------------------------------------------
  // What the rules count
  // ---------------------------------------------------------------------------------------

  /** The positions of the draws no older than `start`. */
  ghost function DrawPositions(events: seq<Event>, start: int): set<int> {
    set k | 0 <= k < |events| && events[k].kind == Draw && events[k].at >= start
  }

  lemma {:induction false} DrawsAreCounted(events: seq<Event>, start: int)
    ensures |DrawsIn(Since(events, start))| == |DrawPositions(events, start)|
  {
    if events != [] {
      var n := |events| - 1;
      var front, e := events[..n], events[n];
      DrawsAreCounted(front, start);
      var kept := Since(front, start);
      assert (kept + [e])[..|kept|] == kept && kept + [] == kept;
      assert DrawPositions(events, start)
             == DrawPositions(front, start) + if e.kind == Draw && e.at >= start then {n} else {};
    }
  }

  /** A draw rule fires exactly when the latest event is a draw and enough draws, itself
      included, lie within the window before it. */
  lemma DrawRuleIff(id: RuleId, minCount: int, windowSeconds: int, events: seq<Event>)
    ensures DrawRule(id, minCount, windowSeconds, events).Some?
            <==> && events != []
                 && events[|events| - 1].kind == Draw
                 && |DrawPositions(events, events[|events| - 1].at - windowSeconds * 1000)| >= minCount
  {
    hide Since, DrawsIn, DrawPositions;
    if events != [] {
      DrawsAreCounted(events, events[|events| - 1].at - windowSeconds * 1000);
    }
  }

  /** How often an event occurs in a list. */
  ghost function Count(x: Event, events: seq<Event>): nat {
    if events == [] then 0
    else Count(x, events[..|events| - 1]) + if events[|events| - 1] == x then 1 else 0
  }

  /** How often an event is the draw, or the repay, of a cycle. */
  ghost function DrawUses(x: Event, cycles: seq<Cycle>): nat {
    if cycles == [] then 0
    else DrawUses(x, cycles[..|cycles| - 1]) + if cycles[|cycles| - 1].draw == x then 1 else 0
  }

  ghost function RepayUses(x: Event, cycles: seq<Cycle>): nat {
    if cycles == [] then 0
    else RepayUses(x, cycles[..|cycles| - 1]) + if cycles[|cycles| - 1].repay == x then 1 else 0
  }

  lemma CountSnoc(x: Event, events: seq<Event>, e: Event)
    ensures Count(x, events + [e]) == Count(x, events) + if e == x then 1 else 0
  {
    assert (events + [e])[..|events|] == events;
  }

  lemma UsesSnoc(x: Event, cycles: seq<Cycle>, c: Cycle)
    ensures DrawUses(x, cycles + [c]) == DrawUses(x, cycles) + if c.draw == x then 1 else 0
    ensures RepayUses(x, cycles + [c]) == RepayUses(x, cycles) + if c.repay == x then 1 else 0
  {
    assert (cycles + [c])[..|cycles|] == cycles;
  }

  lemma {:induction false} WithoutRemovesOne(x: Event, events: seq<Event>, i: nat)
    requires i < |events|
    ensures Count(x, Without(events, i)) + (if events[i] == x then 1 else 0) == Count(x, events)
  {
    var n := |events| - 1;
    var front := events[..n];
    if i == n {
      assert Without(events, i) == front;
    } else {
      WithoutRemovesOne(x, front, i);
      assert Without(events, i) == Without(front, i) + [events[n]];
      CountSnoc(x, Without(front, i), events[n]);
    }
  }

  lemma PairStepCounts(x: Event, p: Pairing, e: Event, cfg: Config)
    ensures var p' := PairStep(p, e, cfg);
            && Count(x, p'.unpaired) + DrawUses(x, p'.cycles)
               == Count(x, p.unpaired) + DrawUses(x, p.cycles) + (if e == x && e.kind == Draw then 1 else 0)
            && RepayUses(x, p'.cycles) <= RepayUses(x, p.cycles) + (if e == x && e.kind == Repay then 1 else 0)
  {
    hide LastMatch, Without, Count, DrawUses, RepayUses;
    if e.kind == Draw {
      CountSnoc(x, p.unpaired, e);
    } else {
      var i := LastMatch(p.unpaired, e, cfg);
      if i >= 0 {
        WithoutRemovesOne(x, p.unpaired, i);
        UsesSnoc(x, p.cycles, Cycle(p.unpaired[i], e));
      }
    }
  }

  /** Pairing uses every draw once: it is left unpaired or is in exactly one cycle. No repay is
      used more often than it occurs. */
  lemma {:induction false} PairingConserves(x: Event, events: seq<Event>, cfg: Config)
    ensures var p := PairAll(events, cfg);
            && Count(x, p.unpaired) + DrawUses(x, p.cycles) == (if x.kind == Draw then Count(x, events) else 0)
            && RepayUses(x, p.cycles) <= (if x.kind == Repay then Count(x, events) else 0)
  {
    hide PairStep;
    if events != [] {
      PairingConserves(x, events[..|events| - 1], cfg);
      PairStepCounts(x, PairAll(events[..|events| - 1], cfg), events[|events| - 1], cfg);
    }
  }

  ghost predicate SoundPairing(p: Pairing, cfg: Config) {
    && (forall k :: 0 <= k < |p.unpaired| ==> p.unpaired[k].kind == Draw)
    && (forall k :: 0 <= k < |p.cycles| ==>
          && p.cycles[k].draw.kind == Draw && p.cycles[k].repay.kind == Repay
          && Pairs(p.cycles[k].draw, p.cycles[k].repay, cfg))
  }

  lemma PairStepIsSound(p: Pairing, e: Event, cfg: Config)
    requires SoundPairing(p, cfg)
    ensures SoundPairing(PairStep(p, e, cfg), cfg)
  {
    hide Pairs, LastMatch, Without;
    if e.kind == Repay {
      var i := LastMatch(p.unpaired, e, cfg);
      if i >= 0 {
        assert Pairs(p.unpaired[i], e, cfg);
        OthersRemain(p.unpaired, i);
      }
    }
  }

  lemma OthersRemain(events: seq<Event>, i: nat)
    requires i < |events| && forall k :: 0 <= k < |events| ==> events[k].kind == Draw
    ensures forall k :: 0 <= k < |Without(events, i)| ==> Without(events, i)[k].kind == Draw
  {
  }

  /** Every cycle is a draw and a later repay within the pair window and the tolerance. */
  lemma {:induction false} CyclesArePairs(events: seq<Event>, cfg: Config)
    ensures SoundPairing(PairAll(events, cfg), cfg)
  {
    if events != [] {
      CyclesArePairs(events[..|events| - 1], cfg);
      PairStepIsSound(PairAll(events[..|events| - 1], cfg), events[|events| - 1], cfg);
    }
  }

  // ---------------------------------------------------------------------------------------
  // Which repays are matched
  // ---------------------------------------------------------------------------------------

  lemma RatioBound(x: real, y: real, ratio: real)
    requires y > 0.0
    ensures x / y <= ratio <==> x <= ratio * y
  {
    var q := x / y;
    assert q * y == x;
    if q <= ratio { assert (ratio - q) * y >= 0.0; } else { assert (q - ratio) * y > 0.0; }
  }

  /** A draw and a repay match when the repay comes no earlier and at most the pair window later,
      and the amounts differ by at most the tolerated fraction of a non-zero draw. */
  lemma PairsMeans(draw: Event, repay: Event, cfg: Config)
    ensures Pairs(draw, repay, cfg)
            <==> && draw.at <= repay.at <= draw.at + cfg.pairWindowSeconds * 1000
                 && draw.amount.Some? && repay.amount.Some? && draw.amount.value != 0.0
                 && var d, r := draw.amount.value, repay.amount.value;
                    var tolerated := cfg.amountToleranceRatio * (if d < 0.0 then -d else d);
                    -tolerated <= d - r <= tolerated
  {
    if draw.amount.Some? && repay.amount.Some? && draw.amount.value != 0.0 {
      var d, r := draw.amount.value, repay.amount.value;
      RatioBound(Abs(d - r), Abs(d), cfg.amountToleranceRatio);
    }
  }

  /** Some draw that the events before position n leave unpaired matches the repay there. */
  ghost predicate MatchedAt(events: seq<Event>, n: nat, cfg: Config) {
    && n < |events| && events[n].kind == Repay
    && exists k :: 0 <= k < |PairAll(events[..n], cfg).unpaired|
                   && Pairs(PairAll(events[..n], cfg).unpaired[k], events[n], cfg)
  }

  /** A repay adds a cycle exactly when a draw left unpaired matches it: with the newest such
      draw, which is then no longer unpaired. */
  lemma RepayPairsIff(events: seq<Event>, n: nat, cfg: Config) returns (k: int)
    requires n < |events| && events[n].kind == Repay
    ensures var before, after := PairAll(events[..n], cfg), PairAll(events[..n + 1], cfg);
            if MatchedAt(events, n, cfg) then
              && 0 <= k < |before.unpaired| && Pairs(before.unpaired[k], events[n], cfg)
              && (forall m :: k < m < |before.unpaired| ==> !Pairs(before.unpaired[m], events[n], cfg))
              && after.cycles == before.cycles + [Cycle(before.unpaired[k], events[n])]
              && after.unpaired == before.unpaired[..k] + before.unpaired[k + 1..]
            else
              after == before
  {
    hide Pairs, PairAll, LastMatch;
    PairAllSnoc(events, n, cfg);
    k := LastMatch(PairAll(events[..n], cfg).unpaired, events[n], cfg);
  }

  /** A draw is put on top of those left unpaired. */
  lemma DrawIsLeftUnpaired(events: seq<Event>, n: nat, cfg: Config)
    requires n < |events| && events[n].kind == Draw
    ensures var before := PairAll(events[..n], cfg);
            PairAll(events[..n + 1], cfg) == Pairing(before.unpaired + [events[n]], before.cycles)
  {
    hide Pairs, PairAll, LastMatch;
    PairAllSnoc(events, n, cfg);
  }

  /** Where the unpaired draws stand: at increasing positions, so a later one is a newer draw. */
  ghost predicate StandAt(unpaired: seq<Event>, events: seq<Event>, positions: seq<nat>) {
    && |positions| == |unpaired|
    && (forall i :: 0 <= i < |positions| ==>
          positions[i] < |events| && events[positions[i]] == unpaired[i] && unpaired[i].kind == Draw)
    && (forall i, j :: 0 <= i < j < |positions| ==> positions[i] < positions[j])
  }

  lemma StandOn(unpaired: seq<Event>, events: seq<Event>, e: Event, positions: seq<nat>)
    requires StandAt(unpaired, events, positions)
    ensures StandAt(unpaired, events + [e], positions)
    ensures e.kind == Draw ==> StandAt(unpaired + [e], events + [e], positions + [|events|])
  {
  }

  lemma StandWithout(unpaired: seq<Event>, events: seq<Event>, positions: seq<nat>, k: nat)
    requires StandAt(unpaired, events, positions) && k < |unpaired|
    ensures StandAt(unpaired[..k] + unpaired[k + 1..], events, positions[..k] + positions[k + 1..])
  {
  }

  lemma {:induction false} UnpairedInOrder(events: seq<Event>, n: nat, cfg: Config) returns (positions: seq<nat>)
    requires n <= |events|
    ensures StandAt(PairAll(events[..n], cfg).unpaired, events[..n], positions)
  {
    hide Pairs, PairAll, StandAt, MatchedAt;
    if n == 0 {
      NothingUnpaired(cfg);
      positions := [];
      assert events[..0] == [] && StandAt([], [], []) by { NothingStands(); }
    } else {
      var front, e := events[..n - 1], events[n - 1];
      assert events[..n] == front + [e];
      positions := UnpairedInOrder(events, n - 1, cfg);
      StandOn(PairAll(front, cfg).unpaired, front, e, positions);
      if e.kind == Draw {
        DrawIsLeftUnpaired(events, n - 1, cfg);
        positions := positions + [|front|];
      } else {
        var k := RepayPairsIff(events, n - 1, cfg);
        if MatchedAt(events, n - 1, cfg) {
          StandWithout(PairAll(front, cfg).unpaired, front + [e], positions, k);
          positions := positions[..k] + positions[k + 1..];
        }
      }
    }
  }

  lemma NothingStands()
    ensures StandAt([], [], [])
  {
  }

  lemma NothingUnpaired(cfg: Config)
    ensures PairAll([], cfg) == Pairing([], [])
  {
  }

  ghost function MatchedPositions(events: seq<Event>, cfg: Config): set<nat> {
    set n: nat | n < |events| && MatchedAt(events, n, cfg)
  }

  lemma {:induction false} CyclesAreCounted(events: seq<Event>, cfg: Config)
    ensures |PairAll(events, cfg).cycles| == |MatchedPositions(events, cfg)|
  {
    hide Pairs, PairAll, MatchedAt;
    if events == [] {
      NothingUnpaired(cfg);
    } else {
      var n := |events| - 1;
      var front := events[..n];
      CyclesAreCounted(front, cfg);
      assert events[..n + 1] == events;
      forall m: nat | m < n ensures MatchedAt(front, m, cfg) <==> MatchedAt(events, m, cfg) {
        MatchedBefore(events, n, m, cfg);
      }
      if events[n].kind == Draw {
        DrawIsLeftUnpaired(events, n, cfg);
        DrawsAreNotMatched(events, n, cfg);
      } else {
        var k := RepayPairsIff(events, n, cfg);
      }
      assert MatchedPositions(events, cfg)
             == MatchedPositions(front, cfg) + if MatchedAt(events, n, cfg) then {n} else {};
    }
  }

  lemma MatchedBefore(events: seq<Event>, n: nat, m: nat, cfg: Config)
    requires m < n <= |events|
    ensures MatchedAt(events[..n], m, cfg) <==> MatchedAt(events, m, cfg)
  {
    assert events[..n][..m] == events[..m];
  }

  lemma DrawsAreNotMatched(events: seq<Event>, n: nat, cfg: Config)
    requires n < |events| && events[n].kind == Draw
    ensures !MatchedAt(events, n, cfg)
  {
  }

  /** When each rule fires, in terms of its own settings: a draw rule when the latest event is a
      draw and its window holds at least its number of draws; the repay rule when the latest event
      is a repay and at least its number of repays in its window are matched. */
  lemma RuleFiresIff(id: RuleId, cfg: Config, events: seq<Event>)
    ensures Rule(id, cfg, events).Some?
            <==> && events != []
                 && var last := events[|events| - 1];
                    match id
                    case RapidSuccessiveDraws =>
                      && last.kind == Draw
                      && |DrawPositions(events, last.at - cfg.rapidWindowSeconds * 1000)| >= cfg.rapidMinCount
                    case DrawBurst =>
                      && last.kind == Draw
                      && |DrawPositions(events, last.at - cfg.burstWindowSeconds * 1000)| >= cfg.burstMinCount
                    case UnusualRepayPattern =>
                      && last.kind == Repay
                      && |MatchedPositions(Since(events, last.at - cfg.patternWindowSeconds * 1000), cfg)|
                         >= cfg.minCycles
    ensures Rule(id, cfg, events).Some? ==> Rule(id, cfg, events).value.id == id
  {
    hide Since, DrawsIn, DrawPositions, MatchedPositions, PairAll;
    if events != [] {
      var last := events[|events| - 1];
      match id
      case RapidSuccessiveDraws => DrawsAreCounted(events, last.at - cfg.rapidWindowSeconds * 1000);
      case DrawBurst => DrawsAreCounted(events, last.at - cfg.burstWindowSeconds * 1000);
      case UnusualRepayPattern =>
        CyclesAreCounted(Since(events, last.at - cfg.patternWindowSeconds * 1000), cfg);
    }
  }

  /** The draws selected from a window stand, in their order, at exactly the positions of the draws
      no older than its start. */
  ghost predicate Selects(positions: seq<nat>, events: seq<Event>, start: int) {
    && StandAt(DrawsIn(Since(events, start)), events, positions)
    && (forall k: nat :: k in positions <==> k in DrawPositions(events, start))
  }

  lemma SelectsNext(positions: seq<nat>, events: seq<Event>, e: Event, start: int)
    requires Selects(positions, events, start)
    ensures Selects(positions + (if e.at >= start && e.kind == Draw then [|events|] else []), events + [e], start)
  {
    hide StandAt, DrawsIn, Since;
    SinceSnoc(events, e, start);
    StandOn(DrawsIn(Since(events, start)), events, e, positions);
    assert (events + [e])[..|events|] == events;
    OneMorePosition(events + [e], start);
    if e.at >= start {
      if e.kind == Draw {
        DrawsSnoc(Since(events, start), e);
      } else {
        RepaysAreSkipped(Since(events, start), e);
        assert positions + [] == positions;
      }
    } else {
      assert Since(events, start) + [] == Since(events, start) && positions + [] == positions;
    }
  }

  lemma {:induction false} EvidenceOfDraws(events: seq<Event>, start: int) returns (positions: seq<nat>)
    ensures Selects(positions, events, start)
  {
    hide Selects;
    if events == [] {
      positions := [];
      SelectsNothing(start);
    } else {
      var front, e := events[..|events| - 1], events[|events| - 1];
      assert events == front + [e];
      var before := EvidenceOfDraws(front, start);
      SelectsNext(before, front, e, start);
      positions := before + if e.at >= start && e.kind == Draw then [|front|] else [];
    }
  }

  lemma SelectsNothing(start: int)
    ensures Selects([], [], start)
  {
  }

  lemma RepaysAreSkipped(events: seq<Event>, e: Event)
    requires e.kind == Repay
    ensures DrawsIn(events + [e]) == DrawsIn(events)
  {
    assert (events + [e])[..|events|] == events;
  }

  lemma OneMorePosition(events: seq<Event>, start: int)
    requires events != []
    ensures var n := |events| - 1;
            forall k: nat :: k in DrawPositions(events, start)
              <==> k in DrawPositions(events[..n], start) || (k == n && events[n].kind == Draw && events[n].at >= start)
  {
  }

  /** What a fired rule shows: a draw rule exactly the draws of its own window, in their order, and
      no cycles; the repay rule no draws, and as many cycles as repays of its window are matched. */
  lemma RuleShows(id: RuleId, cfg: Config, events: seq<Event>) returns (positions: seq<nat>)
    requires Rule(id, cfg, events).Some?
    ensures var rule, last := Rule(id, cfg, events).value, events[|events| - 1];
            match id
            case UnusualRepayPattern =>
              rule.draws == []
              && |rule.cycles| == |MatchedPositions(Since(events, last.at - cfg.patternWindowSeconds * 1000), cfg)|
            case _ =>
              var seconds := if id == DrawBurst then cfg.burstWindowSeconds else cfg.rapidWindowSeconds;
              && rule.cycles == [] && StandAt(rule.draws, events, positions)
              && forall k: nat :: k in positions <==> k in DrawPositions(events, last.at - seconds * 1000)
  {
    hide DrawsIn, Since, PairAll, StandAt, DrawPositions, MatchedPositions;
    var last := events[|events| - 1];
    if id == UnusualRepayPattern {
      positions := [];
      CyclesAreCounted(Since(events, last.at - cfg.patternWindowSeconds * 1000), cfg);
    } else {
      var seconds := if id == DrawBurst then cfg.burstWindowSeconds else cfg.rapidWindowSeconds;
      positions := EvidenceOfDraws(events, last.at - seconds * 1000);
    }
  }

  /** The rules evaluated are exactly those that fire, each once. */
  lemma EvaluatedAreThoseThatFire(cfg: Config, events: seq<Event>, rule: FiredRule)
    ensures rule in EvaluateRules(cfg, events) <==> Rule(rule.id, cfg, events) == Some(rule)
    ensures forall i, j :: 0 <= i < j < |EvaluateRules(cfg, events)| ==>
              EvaluateRules(cfg, events)[i].id != EvaluateRules(cfg, events)[j].id
  {
    hide DrawRule, RepayRule;
    forall id: RuleId ensures Rule(id, cfg, events).Some? ==> Rule(id, cfg, events).value.id == id {
      RuleFiresIff(id, cfg, events);
    }
  }

  // ---------------------------------------------------------------------------------------
  // The buffer is the newest part of the time-trimmed history
  // ---------------------------------------------------------------------------------------

  ghost predicate InTimeOrder(events: seq<Event>) {
    forall i, j :: 0 <= i <= j < |events| ==> events[i].at <= events[j].at
  }

  ghost predicate SaneWindows(cfg: Config) {
    cfg.rapidWindowSeconds >= 0 && cfg.burstWindowSeconds >= 0 && cfg.patternWindowSeconds >= 0
  }

  lemma SinceSnoc(events: seq<Event>, e: Event, start: int)
    ensures Since(events + [e], start) == Since(events, start) + (if e.at >= start then [e] else [])
  {
    assert (events + [e])[..|events|] == events;
  }

  ghost predicate CutAt(events: seq<Event>, start: int, cut: nat) {
    cut <= |events| && forall k :: 0 <= k < |events| ==> (k >= cut <==> events[k].at >= start)
  }

  lemma {:induction false} SinceIsSuffix(events: seq<Event>, start: int, cut: nat)
    requires CutAt(events, start, cut)
    ensures Since(events, start) == events[cut..]
  {
    if events != [] {
      var front, e := events[..|events| - 1], events[|events| - 1];
      if e.at >= start {
        SinceIsSuffix(front, start, cut);
        assert events[cut..] == front[cut..] + [e];
      } else {
        SinceIsSuffix(front, start, |front|);
      }
    }
  }

  /** In time order, filtering by age cuts off a prefix. */
  lemma {:induction false} FindCut(events: seq<Event>, start: int) returns (cut: nat)
    requires InTimeOrder(events)
    ensures CutAt(events, start, cut) && Since(events, start) == events[cut..]
  {
    cut := 0;
    while cut < |events| && events[cut].at < start
      invariant cut <= |events|
      invariant forall k :: 0 <= k < cut ==> events[k].at < start
    {
      cut := cut + 1;
    }
    SinceIsSuffix(events, start, cut);
  }

  /** Capping a time-ordered list and then trimming it by age equals trimming and then capping. */
  lemma TrimCommutesWithCap(events: seq<Event>, start: int, max: nat)
    requires InTimeOrder(events)
    ensures Since(Newest(events, max), start) == Newest(Since(events, start), max)
  {
    hide Since;
    var cut := FindCut(events, start);
    var capped := Newest(events, max);
    var dropped := |events| - |capped|;
    assert forall k :: 0 <= k < |capped| ==> capped[k] == events[dropped + k];
    var cut' := if cut >= dropped then cut - dropped else 0;
    SinceIsSuffix(capped, start, cut');
    assert capped[cut'..] == Newest(events[cut..], max);
  }

  lemma {:induction false} SinceTwice(events: seq<Event>, a: int, b: int)
    requires a <= b
    ensures Since(Since(events, a), b) == Since(events, b)
  {
    if events != [] {
      var front, e := events[..|events| - 1], events[|events| - 1];
      SinceTwice(front, a, b);
      if e.at >= a {
        SinceSnoc(Since(front, a), e, b);
      } else {
        assert Since(events, a) == Since(front, a);
      }
    }
  }

  lemma CapTwice(events: seq<Event>, e: Event, max: nat)
    ensures Newest(Newest(events, max) + [e], max) == Newest(events + [e], max)
  {
  }

  lemma {:induction false} SinceKeepsOrder(events: seq<Event>, start: int)
    requires InTimeOrder(events)
    ensures InTimeOrder(Since(events, start))
  {
    var cut := FindCut(events, start);
  }

  lemma PrefixInTimeOrder(events: seq<Event>)
    requires InTimeOrder(events) && |events| > 1
    ensures InTimeOrder(events[..|events| - 1])
    ensures events[|events| - 2].at <= events[|events| - 1].at
  {
  }

  lemma FirstPush(e: Event, cfg: Config)
    ensures BufferOf([e], cfg) == Newest(Since([e], e.at - WidestMs(cfg) * 2), cfg.maxEvents)
  {
    hide Since, Newest, WidestMs;
    assert [e][..0] == [] && [] + [e] == [e];
  }

  /** If the buffer was the newest part of the trimmed history, pushing one event keeps it so. */
  lemma NextPush(front: seq<Event>, e: Event, cfg: Config, before: int)
    requires InTimeOrder(front) && before <= e.at - WidestMs(cfg) * 2
    requires BufferOf(front, cfg) == Newest(Since(front, before), cfg.maxEvents)
    ensures Push(BufferOf(front, cfg), e, cfg)
            == Newest(Since(front + [e], e.at - WidestMs(cfg) * 2), cfg.maxEvents)
  {
    hide Since, InTimeOrder, Newest, WidestMs, BufferOf;
    var cutoff, max := e.at - WidestMs(cfg) * 2, cfg.maxEvents;
    SinceSnoc(front, e, cutoff);
    SinceSnoc(BufferOf(front, cfg), e, cutoff);
    SinceKeepsOrder(front, before);
    TrimCommutesWithCap(Since(front, before), cutoff, max);
    SinceTwice(front, before, cutoff);
    CapAfterTrim(Since(front, cutoff), e, cutoff, max);
  }

  /** The buffer is the newest `maxEvents` of the events no older than twice the widest window. */
  lemma {:induction false} BufferIsNewest(history: seq<Event>, cfg: Config)
    requires InTimeOrder(history) && history != []
    ensures BufferOf(history, cfg)
            == Newest(Since(history, history[|history| - 1].at - WidestMs(cfg) * 2), cfg.maxEvents)
  {
    hide Since, InTimeOrder, Newest, WidestMs, Push;
    var front, e := history[..|history| - 1], history[|history| - 1];
    assert history == front + [e];
    if |history| == 1 {
      FirstPush(e, cfg);
      assert history == [e];
    } else {
      PrefixInTimeOrder(history);
      BufferIsNewest(front, cfg);
      NextPush(front, e, cfg, front[|front| - 1].at - WidestMs(cfg) * 2);
    }
  }

  lemma CapAfterTrim(trimmed: seq<Event>, e: Event, cutoff: int, max: nat)
    ensures Newest(Newest(trimmed, max) + (if e.at >= cutoff then [e] else []), max)
            == Newest(trimmed + (if e.at >= cutoff then [e] else []), max)
  {
    if e.at >= cutoff {
      CapTwice(trimmed, e, max);
    } else {
      assert trimmed + [] == trimmed;
      assert Newest(trimmed, max) + [] == Newest(trimmed, max);
    }
  }

  /** What the buffer holds, position by position: an event is kept exactly if it is no older than
      twice the widest of the three windows before the latest and among the newest `maxEvents`. */
  lemma BufferHoldsIff(history: seq<Event>, cfg: Config) returns (first: nat)
    requires InTimeOrder(history) && history != []
    ensures first <= |history| && BufferOf(history, cfg) == history[first..]
    ensures forall i :: 0 <= i < |history| ==>
              (i >= first
               <==> && |history| - i <= cfg.maxEvents
                    && (|| history[|history| - 1].at - history[i].at <= 2000 * cfg.rapidWindowSeconds
                        || history[|history| - 1].at - history[i].at <= 2000 * cfg.burstWindowSeconds
                        || history[|history| - 1].at - history[i].at <= 2000 * cfg.patternWindowSeconds))
  {
    hide Since;
    BufferIsNewest(history, cfg);
    var cut := FindCut(history, history[|history| - 1].at - WidestMs(cfg) * 2);
    first := if |history| - cut > cfg.maxEvents then |history| - cfg.maxEvents else cut;
    assert Newest(history[cut..], cfg.maxEvents) == history[first..];
  }

  /** Inside any rule's window, the buffer shows the newest `maxEvents` events of the history. */
  lemma WindowSeesNewest(history: seq<Event>, cfg: Config, windowMs: int)
    requires InTimeOrder(history) && history != [] && windowMs <= WidestMs(cfg) * 2
    ensures var start := history[|history| - 1].at - windowMs;
            Since(BufferOf(history, cfg), start) == Newest(Since(history, start), cfg.maxEvents)
  {
    hide WidestMs, Newest, Since, BufferOf, InTimeOrder;
    var latest := history[|history| - 1].at;
    var cutoff, start := latest - WidestMs(cfg) * 2, latest - windowMs;
    BufferIsNewest(history, cfg);
    SinceKeepsOrder(history, cutoff);
    TrimCommutesWithCap(Since(history, cutoff), start, cfg.maxEvents);
    SinceTwice(history, cutoff, start);
  }

  lemma NewestEndsAlike(events: seq<Event>, max: nat)
    requires events != [] && max > 0
    ensures var n := Newest(events, max); n != [] && n[|n| - 1] == events[|events| - 1]
  {
  }

  lemma BufferEndsAlike(history: seq<Event>, cfg: Config)
    requires InTimeOrder(history) && history != [] && SaneWindows(cfg) && cfg.maxEvents > 0
    ensures var b := BufferOf(history, cfg); b != [] && b[|b| - 1] == history[|history| - 1]
  {
    hide Newest, Since;
    var before, e := BufferOf(history[..|history| - 1], cfg), history[|history| - 1];
    var cutoff := e.at - WidestMs(cfg) * 2;
    SinceSnoc(before, e, cutoff);
    assert e.at >= cutoff;
    NewestEndsAlike(Since(before, cutoff) + [e], cfg.maxEvents);
  }

  // ---------------------------------------------------------------------------------------
  // Forgetting a prefix never creates a verdict
  // ---------------------------------------------------------------------------------------

  lemma {:induction false} DrawsOfConcat(a: seq<Event>, b: seq<Event>)
    ensures DrawsIn(a + b) == DrawsIn(a) + DrawsIn(b)
  {
    if b == [] {
      assert a + b == a;
    } else {
      var front, e := b[..|b| - 1], b[|b| - 1];
      DrawsOfConcat(a, front);
      assert (a + b)[..|a + b| - 1] == a + front;
    }
  }

  lemma {:induction false} LastMatchOfConcat(a: seq<Event>, b: seq<Event>, repay: Event, cfg: Config)
    ensures LastMatch(a + b, repay, cfg)
            == if LastMatch(b, repay, cfg) >= 0 then |a| + LastMatch(b, repay, cfg) else LastMatch(a, repay, cfg)
  {
    hide Pairs;
    if b == [] {
      assert a + b == a;
    } else {
      var front, last := b[..|b| - 1], b[|b| - 1];
      LastMatchOfConcat(a, front, repay, cfg);
      assert (a + b)[..|a + b| - 1] == a + front;
    }
  }

  lemma RemoveFromTop(deep: seq<Event>, top: seq<Event>, i: nat)
    requires i < |top|
    ensures Without(deep + top, |deep| + i) == deep + Without(top, i)
    ensures (deep + top)[|deep| + i] == top[i]
  {
  }

  lemma RemoveFromDeep(deep: seq<Event>, top: seq<Event>, k: nat)
    requires k < |deep|
    ensures Without(deep + top, k) == Without(deep, k) + top
  {
  }

  /** One event on two stacks of which one is the top of the other: the same draw is taken from
      the shared part, or else the longer stack may take an older one. */
  lemma PairStepOnTop(deep: seq<Event>, top: seq<Event>, cs: seq<Cycle>, ct: seq<Cycle>, e: Event, cfg: Config)
    returns (deep': seq<Event>)
    ensures var whole := PairStep(Pairing(deep + top, cs), e, cfg);
            var suffix := PairStep(Pairing(top, ct), e, cfg);
            && whole.unpaired == deep' + suffix.unpaired
            && |suffix.cycles| - |ct| <= |whole.cycles| - |cs|
  {
    hide Pairs, LastMatch, Without;
    deep' := deep;
    if e.kind == Draw {
      assert (deep + top) + [e] == deep + (top + [e]);
    } else {
      LastMatchOfConcat(deep, top, e, cfg);
      var i, k := LastMatch(top, e, cfg), LastMatch(deep, e, cfg);
      if i >= 0 {
        RemoveFromTop(deep, top, i);
      } else if k >= 0 {
        deep' := Without(deep, k);
        RemoveFromDeep(deep, top, k);
      }
    }
  }

  /** Greedy most-recent-first pairing on a suffix leaves unpaired exactly the newest part of
      what it leaves on the whole, and finds no more cycles. */
  lemma {:induction false} SuffixPairsNoMore(prefix: seq<Event>, suffix: seq<Event>, cfg: Config)
    returns (deep: seq<Event>)
    ensures PairAll(prefix + suffix, cfg).unpaired == deep + PairAll(suffix, cfg).unpaired
    ensures |PairAll(suffix, cfg).cycles| <= |PairAll(prefix + suffix, cfg).cycles|
    decreases |suffix|
  {
    if suffix == [] {
      deep := PairAll(prefix, cfg).unpaired;
      assert prefix + suffix == prefix;
    } else {
      var front, e := suffix[..|suffix| - 1], suffix[|suffix| - 1];
      var before := SuffixPairsNoMore(prefix, front, cfg);
      assert (prefix + suffix)[..|prefix + suffix| - 1] == prefix + front;
      var w, s := PairAll(prefix + front, cfg), PairAll(front, cfg);
      deep := PairStepOnTop(before, s.unpaired, w.cycles, s.cycles, e, cfg);
    }
  }

  lemma NewestIsSuffix(events: seq<Event>, max: nat) returns (prefix: seq<Event>)
    ensures events == prefix + Newest(events, max)
    ensures |events| <= max ==> Newest(events, max) == events
  {
    prefix := events[..|events| - |Newest(events, max)|];
  }

  lemma WindowsAreCovered(id: RuleId, cfg: Config)
    requires SaneWindows(cfg)
    ensures WindowMs(id, cfg) <= WidestMs(cfg) * 2
  {
  }

  /** While the window holds no more events than the cap, a rule gives the same verdict, with
      the same evidence, on the buffer as on the full history. */
  lemma VerdictIsExactBelowCap(id: RuleId, history: seq<Event>, cfg: Config)
    requires InTimeOrder(history) && history != [] && SaneWindows(cfg) && cfg.maxEvents > 0
    requires |Since(history, history[|history| - 1].at - WindowMs(id, cfg))| <= cfg.maxEvents
    ensures Rule(id, cfg, BufferOf(history, cfg)) == Rule(id, cfg, history)
  {
    hide BufferOf, Since, WidestMs;
    WindowsAreCovered(id, cfg);
    WindowSeesNewest(history, cfg, WindowMs(id, cfg));
    BufferEndsAlike(history, cfg);
  }

  /** Whatever the cap has dropped, a rule fires on the buffer only if it fires on the full
      history. */
  lemma VerdictIsSound(id: RuleId, history: seq<Event>, cfg: Config)
    requires InTimeOrder(history) && SaneWindows(cfg)
    requires Rule(id, cfg, BufferOf(history, cfg)).Some?
    ensures Rule(id, cfg, history).Some?
  {
    hide Since, WidestMs, Newest, BufferOf, PairAll, DrawsIn;
    if cfg.maxEvents == 0 || history == [] {
      EmptyBuffer(history, cfg);
    } else {
      WindowsAreCovered(id, cfg);
      WindowSeesNewest(history, cfg, WindowMs(id, cfg));
      BufferEndsAlike(history, cfg);
      var recent := Since(history, history[|history| - 1].at - WindowMs(id, cfg));
      NewestShowsNoMore(recent, cfg);
    }
  }

  /** The newest part of a list has no more draws and no more cycles than the list. */
  lemma NewestShowsNoMore(recent: seq<Event>, cfg: Config)
    ensures |DrawsIn(Newest(recent, cfg.maxEvents))| <= |DrawsIn(recent)|
    ensures |PairAll(Newest(recent, cfg.maxEvents), cfg).cycles| <= |PairAll(recent, cfg).cycles|
  {
    hide DrawsIn, PairAll, Newest;
    var prefix := NewestIsSuffix(recent, cfg.maxEvents);
    DrawsOfConcat(prefix, Newest(recent, cfg.maxEvents));
    var deep := SuffixPairsNoMore(prefix, Newest(recent, cfg.maxEvents), cfg);
  }

  lemma EmptyBuffer(history: seq<Event>, cfg: Config)
    requires cfg.maxEvents == 0 || history == []
    ensures BufferOf(history, cfg) == []
  {
  }

  // ---------------------------------------------------------------------------------------
  // The service: `create` is awaited, so observations overlap
  // ---------------------------------------------------------------------------------------

  datatype Outcome = InFlight | Saved | Lost

  /** One call of the repository's `create`, made for rule `index` of observation `owner`. A
      saved one is a signal on file. The two sets are history: the earlier calls for the same
      rule and line that the cooldown check before this call could not see, because they were
      still in flight or because the stamp in force was older than theirs. */
  datatype Creation = Creation(
    owner: nat, index: nat, line: string, rule: FiredRule, at: int, outcome: Outcome,
    concurrent: set<nat>, overwritten: set<nat>)

  datatype Progress = Awaiting(creation: nat) | Finished | Broken

  /** One call of `observe`: the rules that fired, and how many of them are dealt with. */
  datatype Observation = Observation(
    line: string, at: int, fired: seq<FiredRule>, next: nat, progress: Progress)

  /** The object's two maps, and every call of `create` and of `observe` so far. */
  datatype Service = Service(
    activity: map<string, seq<Event>>, lastFired: map<(string, RuleId), int>,
    creations: seq<Creation>, observations: seq<Observation>)

  const NEW_SERVICE := Service(map[], map[], [], [])

  function CooldownMs(cfg: Config): int { cfg.signalCooldownSeconds * 1000 }

  predicate CoolingDown(s: Service, line: string, id: RuleId, now: int, cfg: Config) {
    (line, id) in s.lastFired && now - s.lastFired[(line, id)] < CooldownMs(cfg)
  }

  predicate IsFor(c: Creation, line: string, id: RuleId) { c.line == line && c.rule.id == id }

  function StillInFlight(s: Service, line: string, id: RuleId): set<nat> {
    set i: nat | i < |s.creations| && IsFor(s.creations[i], line, id) && s.creations[i].outcome == InFlight
  }

  function NewerThanStamp(s: Service, line: string, id: RuleId): set<nat> {
    set i: nat | i < |s.creations| && IsFor(s.creations[i], line, id) && s.creations[i].outcome == Saved
                 && (line, id) in s.lastFired && s.creations[i].at > s.lastFired[(line, id)]
  }

  function NewCreation(s: Service, j: nat, o: Observation): Creation
    requires o.next < |o.fired|
  {
    var rule := o.fired[o.next];
    Creation(j, o.next, o.line, rule, o.at, InFlight,
             StillInFlight(s, o.line, rule.id), NewerThanStamp(s, o.line, rule.id))
  }

  /** The first rule from n on that is not cooling down. */
  function FirstDue(s: Service, o: Observation, n: nat, cfg: Config): (m: nat)
    requires n <= |o.fired|
    ensures n <= m <= |o.fired|
    ensures forall k :: n <= k < m ==> CoolingDown(s, o.line, o.fired[k].id, o.at, cfg)
    ensures m < |o.fired| ==> !CoolingDown(s, o.line, o.fired[m].id, o.at, cfg)
    decreases |o.fired| - n
  {
    if n < |o.fired| && CoolingDown(s, o.line, o.fired[n].id, o.at, cfg) then FirstDue(s, o, n + 1, cfg) else n
  }

  /** The loop of `observe`, from a rule to the next awaited `create` or to the end. */
  function Proceed(s: Service, j: nat, o: Observation, cfg: Config): Service
    requires j < |s.observations| && o.next <= |o.fired|
  {
    var m := FirstDue(s, o, o.next, cfg);
    if m == |o.fired| then
      s.(observations := s.observations[j := o.(next := m, progress := Finished)])
    else
      s.(creations := s.creations + [NewCreation(s, j, o.(next := m))],
         observations := s.observations[j := o.(next := m, progress := Awaiting(|s.creations|))])
  }

  /** What the event loop may do next: call `observe`, or settle a `create` it awaits. */
  datatype Happening =
    | Observed(line: string, event: Event)
    | Resolved(observation: nat)
    | Rejected(observation: nat)

  predicate Enabled(s: Service, h: Happening) {
    h.Observed?
    || (&& h.observation < |s.observations|
        && var o := s.observations[h.observation];
           o.progress.Awaiting? && o.progress.creation < |s.creations| && o.next < |o.fired|)
  }

  function Pushed(s: Service, line: string, e: Event, cfg: Config): seq<Event> {
    Push(if line in s.activity then s.activity[line] else [], e, cfg)
  }

  function Observe(s: Service, line: string, e: Event, cfg: Config): Service {
    if !cfg.enabled then s
    else
      var buffer := Pushed(s, line, e, cfg);
      var o := Observation(line, e.at, EvaluateRules(cfg, buffer), 0, Finished);
      Proceed(s.(activity := s.activity[line := buffer], observations := s.observations + [o]),
              |s.observations|, o, cfg)
  }

  /** The signal is on file; the rule is stamped with the time of the observed event. */
  function Stamp(s: Service, j: nat): Service
    requires Enabled(s, Resolved(j))
  {
    var o := s.observations[j];
    var c := o.progress.creation;
    s.(creations := s.creations[c := s.creations[c].(outcome := Saved)],
       lastFired := s.lastFired[(o.line, o.fired[o.next].id) := o.at])
  }

  function Step(s: Service, h: Happening, cfg: Config): Service
    requires Enabled(s, h)
  {
    match h
    case Observed(line, e) => Observe(s, line, e, cfg)
    case Resolved(j) =>
      var o := s.observations[j];
      Proceed(Stamp(s, j), j, o.(next := o.next + 1), cfg)
    case Rejected(j) =>
      var o := s.observations[j];
      var c := o.progress.creation;
      s.(creations := s.creations[c := s.creations[c].(outcome := Lost)],
         observations := s.observations[j := o.(progress := Broken)])
  }

  class AnomalyDetectionService {
    const cfg: Config
    var activity: map<string, seq<Event>>
    var lastFired: map<(string, RuleId), int>
    var creations: seq<Creation>
    var observations: seq<Observation>

    function State(): Service
      reads this
    {
      Service(activity, lastFired, creations, observations)
    }

    constructor (cfg: Config)
      ensures this.cfg == cfg && State() == NEW_SERVICE
    {
      this.cfg := cfg;
      activity, lastFired, creations, observations := map[], map[], [], [];
    }

    method PushActivity(line: string, e: Event)
      modifies this`activity
      ensures activity == old(activity)[line := Pushed(old(State()), line, e, cfg)]
    {
      var list := if line in activity then activity[line] else [];
      list := list + [e];
      var cutoff := e.at - WidestMs(cfg) * 2;
      var trimmed := Since(list, cutoff);
      if |trimmed| > cfg.maxEvents {
        trimmed := trimmed[|trimmed| - cfg.maxEvents..];
      }
      activity := activity[line := trimmed];
    }

    /** The loop over the fired rules, until a `create` is awaited or no rule is left. */
    method Resume(j: nat, o: Observation)
      requires j < |observations| && o.next <= |o.fired|
      modifies this
      ensures State() == Proceed(old(State()), j, o, cfg)
    {
      var n := o.next;
      while n < |o.fired| && CoolingDown(State(), o.line, o.fired[n].id, o.at, cfg)
        invariant o.next <= n <= |o.fired|
        invariant FirstDue(State(), o, o.next, cfg) == FirstDue(State(), o, n, cfg)
        invariant State() == old(State())
      {
        n := n + 1;
      }
      if n == |o.fired| {
        observations := observations[j := o.(next := n, progress := Finished)];
      } else {
        var input := NewCreation(State(), j, o.(next := n));
        observations := observations[j := o.(next := n, progress := Awaiting(|creations|))];
        creations := creations + [input];
      }
    }

    /** `observe` up to its first `await`. */
    method ObserveEvent(line: string, e: Event)
      modifies this
      ensures State() == Step(old(State()), Observed(line, e), cfg)
    {
      if !cfg.enabled { return; }
      PushActivity(line, e);
      var o := Observation(line, e.at, EvaluateRules(cfg, activity[line]), 0, Finished);
      observations := observations + [o];
      Resume(|observations| - 1, o);
    }

    /** `observe` after the `create` it awaits resolved: stamp, then go on with the next rule. */
    method CreateResolved(j: nat)
      requires Enabled(State(), Resolved(j))
      modifies this
      ensures State() == Step(old(State()), Resolved(j), cfg)
    {
      var o := observations[j];
      var c := o.progress.creation;
      creations := creations[c := creations[c].(outcome := Saved)];
      lastFired := lastFired[(o.line, o.fired[o.next].id) := o.at];
      Resume(j, o.(next := o.next + 1));
    }

    /** `observe` after the `create` it awaits rejected: it throws. */
    method CreateRejected(j: nat)
      requires Enabled(State(), Rejected(j))
      modifies this
      ensures State() == Step(old(State()), Rejected(j), cfg)
    {
      var o := observations[j];
      var c := o.progress.creation;
      creations := creations[c := creations[c].(outcome := Lost)];
      observations := observations[j := o.(progress := Broken)];
    }
  }

  /** The inner scan of the repay rule, from the newest unpaired draw down. */
  method ScanBack(unpaired: seq<Event>, e: Event, cfg: Config) returns (i: int)
    ensures i == LastMatch(unpaired, e, cfg)
  {
    i := |unpaired| - 1;
    while i >= 0 && !Pairs(unpaired[i], e, cfg)
      invariant -1 <= i < |unpaired|
      invariant forall k :: i < k < |unpaired| ==> !Pairs(unpaired[k], e, cfg)
    {
      i := i - 1;
    }
  }

  lemma PairAllSnoc(events: seq<Event>, n: nat, cfg: Config)
    requires n < |events|
    ensures PairAll(events[..n + 1], cfg) == PairStep(PairAll(events[..n], cfg), events[n], cfg)
  {
    hide PairStep;
    assert events[..n + 1][..n] == events[..n];
  }

  /** The pairing loop of the repay rule: a stack of unpaired draws, scanned from the top. */
  method FindCycles(recent: seq<Event>, cfg: Config) returns (cycles: seq<Cycle>)
    ensures cycles == PairAll(recent, cfg).cycles
  {
    cycles := [];
    var unpaired: seq<Event> := [];
    var n := 0;
    assert Pairing(unpaired, cycles) == PairAll(recent[..n], cfg);
    hide Pairs, LastMatch, PairAll;
    while n < |recent|
      invariant 0 <= n <= |recent|
      invariant Pairing(unpaired, cycles) == PairAll(recent[..n], cfg)
    {
      var e := recent[n];
      PairAllSnoc(recent, n, cfg);
      if e.kind == Draw {
        unpaired := unpaired + [e];
      } else {
        var i := ScanBack(unpaired, e, cfg);
        if i >= 0 {
          cycles := cycles + [Cycle(unpaired[i], e)];
          unpaired := unpaired[..i] + unpaired[i + 1..];
        }
      }
      n := n + 1;
    }
    assert recent[..n] == recent;
  }
  // ---------------------------------------------------------------------------------------
  // Whole runs of the service
  // ---------------------------------------------------------------------------------------

  ghost predicate Possible(hs: seq<Happening>, cfg: Config)
    decreases |hs|, 0
  {
    hs != [] ==>
      var front := hs[..|hs| - 1];
      Possible(front, cfg) && Enabled(After(front, cfg), hs[|hs| - 1])
  }

  /** The service after a possible interleaving of observations and settled creates. */
  ghost function After(hs: seq<Happening>, cfg: Config): Service
    requires Possible(hs, cfg)
    decreases |hs|, 1
  {
    if hs == [] then NEW_SERVICE else Step(After(hs[..|hs| - 1], cfg), hs[|hs| - 1], cfg)
  }

  /** The full history of one line. */
  function HistoryOf(hs: seq<Happening>, line: string): seq<Event> {
    if hs == [] then []
    else
      var h := hs[|hs| - 1];
      HistoryOf(hs[..|hs| - 1], line) + (if h.Observed? && h.line == line then [h.event] else [])
  }

  lemma BufferSnoc(h: seq<Event>, e: Event, cfg: Config)
    ensures BufferOf(h + [e], cfg) == Push(BufferOf(h, cfg), e, cfg)
  {
    hide Push;
    assert (h + [e])[..|h|] == h;
  }

  /** Each line's buffer depends on that line's own events only, whatever overlaps. */
  lemma {:induction false} ActivityIsBuffer(hs: seq<Happening>, line: string, cfg: Config)
    requires cfg.enabled && Possible(hs, cfg)
    ensures var s, h := After(hs, cfg), HistoryOf(hs, line);
            && (line in s.activity <==> h != [])
            && (h != [] ==> s.activity[line] == BufferOf(h, cfg))
  {
    hide Push, BufferOf, EvaluateRules, FirstDue;
    if hs != [] {
      var front, last := hs[..|hs| - 1], hs[|hs| - 1];
      ActivityIsBuffer(front, line, cfg);
      var h := HistoryOf(front, line);
      if last.Observed? && last.line == line {
        BufferSnoc(h, last.event, cfg);
        if h == [] { EmptyBuffer(h, cfg); }
      } else {
        assert h + [] == h;
      }
    }
  }

  // ---------------------------------------------------------------------------------------
  // Invariant
  // ---------------------------------------------------------------------------------------

  ghost predicate ObservationOk(s: Service, j: nat)
    requires j < |s.observations|
  {
    var o := s.observations[j];
    && o.next <= |o.fired|
    && match o.progress
       case Awaiting(c) =>
         && c < |s.creations| && o.next < |o.fired|
         && s.creations[c].owner == j && s.creations[c].index == o.next && s.creations[c].outcome == InFlight
       case Finished => o.next == |o.fired|
       case Broken => o.next < |o.fired| && exists c :: 0 <= c < |s.creations| && LostBy(s.creations[c], j)
  }

  ghost predicate LostBy(c: Creation, j: nat) { c.outcome == Lost && c.owner == j }

  ghost predicate CreationOk(s: Service, c: nat)
    requires c < |s.creations|
  {
    var x := s.creations[c];
    && x.owner < |s.observations|
    && var o := s.observations[x.owner];
    && x.index < |o.fired| && x.line == o.line && x.at == o.at && x.rule == o.fired[x.index]
    && match x.outcome
       case InFlight => o.progress == Awaiting(c)
       case Saved => x.index < o.next
       case Lost => o.progress == Broken && x.index == o.next
  }

  /** Observations and creates fit each other. */
  ghost predicate Linked(s: Service) {
    && (forall j :: 0 <= j < |s.observations| ==> ObservationOk(s, j))
    && (forall c :: 0 <= c < |s.creations| ==> CreationOk(s, c))
  }

  ghost predicate HasSignal(s: Service, line: string, id: RuleId, at: int) {
    exists c :: 0 <= c < |s.creations| && IsFor(s.creations[c], line, id)
                && s.creations[c].outcome == Saved && s.creations[c].at == at
  }

  /** Each stamp is the time of a signal on file, and each rule signalled is stamped. */
  ghost predicate Backed(s: Service) {
    && (forall key :: key in s.lastFired ==> HasSignal(s, key.0, key.1, s.lastFired[key]))
    && (forall c :: 0 <= c < |s.creations| && s.creations[c].outcome == Saved ==>
          (s.creations[c].line, s.creations[c].rule.id) in s.lastFired)
  }

  ghost predicate SameRule(a: Creation, b: Creation) { IsFor(a, b.line, b.rule.id) }

  /** Of two creates for one rule and line, neither rejected, the later-checked was unaware of
      the earlier or keeps the cooldown from it. */
  ghost predicate PairOk(s: Service, i: nat, k: nat, cfg: Config)
    requires i < k < |s.creations|
  {
    var a, b := s.creations[i], s.creations[k];
    SameRule(a, b) ==>
      && (a.outcome == InFlight ==> i in b.concurrent)
      && (a.outcome == Lost || i in b.concurrent || i in b.overwritten || a.at + CooldownMs(cfg) <= b.at)
  }

  ghost predicate PairsOk(s: Service, cfg: Config) {
    forall i, k :: 0 <= i < k < |s.creations| ==> PairOk(s, i, k, cfg)
  }

  /** Linked, but for observation j, which is in the middle of its loop. */
  ghost predicate LinkedBut(s: Service, j: nat, o: Observation) {
    && j < |s.observations| && o.next <= |o.fired|
    && (s.observations[j].line, s.observations[j].at, s.observations[j].fired) == (o.line, o.at, o.fired)
    && (forall i :: 0 <= i < |s.observations| && i != j ==> ObservationOk(s, i))
    && (forall c :: 0 <= c < |s.creations| && s.creations[c].owner != j ==> CreationOk(s, c))
    && (forall c :: 0 <= c < |s.creations| && s.creations[c].owner == j ==>
          var x := s.creations[c];
          && x.outcome == Saved && x.index < o.next
          && x.line == o.line && x.at == o.at && x.rule == o.fired[x.index])
  }

  /** An observation depends on its own creates only. */
  lemma OtherObservationStays(s: Service, s': Service, i: nat)
    requires i < |s.observations| && i < |s'.observations| && s'.observations[i] == s.observations[i]
    requires ObservationOk(s, i) && |s.creations| <= |s'.creations|
    requires forall k :: 0 <= k < |s.creations| && s.creations[k].owner == i ==> s'.creations[k] == s.creations[k]
    ensures ObservationOk(s', i)
  {
    if s.observations[i].progress.Broken? {
      var k :| 0 <= k < |s.creations| && LostBy(s.creations[k], i);
      assert LostBy(s'.creations[k], i);
    }
  }

  lemma ProceedLinked(s: Service, j: nat, o: Observation, cfg: Config)
    requires LinkedBut(s, j, o)
    ensures Linked(Proceed(s, j, o, cfg))
  {
    hide CoolingDown, StillInFlight, NewerThanStamp;
    var s' := Proceed(s, j, o, cfg);
    forall i | 0 <= i < |s'.observations| ensures ObservationOk(s', i) {
      if i != j { OtherObservationStays(s, s', i); }
    }
    forall c | 0 <= c < |s'.creations| ensures CreationOk(s', c) {
      if c < |s.creations| && s.creations[c].owner != j { assert CreationOk(s, c); }
    }
  }

  lemma StepLinked(s: Service, h: Happening, cfg: Config)
    requires Linked(s) && Enabled(s, h)
    ensures Linked(Step(s, h, cfg))
  {
    hide EvaluateRules, Push, FirstDue, NewCreation, Proceed;
    match h
    case Observed(line, e) =>
      if cfg.enabled {
        var buffer := Pushed(s, line, e, cfg);
        var o := Observation(line, e.at, EvaluateRules(cfg, buffer), 0, Finished);
        var s1 := s.(activity := s.activity[line := buffer], observations := s.observations + [o]);
        forall i | 0 <= i < |s.observations| ensures ObservationOk(s1, i) { assert ObservationOk(s, i); }
        forall c | 0 <= c < |s.creations| ensures CreationOk(s1, c) && s.creations[c].owner != |s.observations| {
          assert CreationOk(s, c);
        }
        ProceedLinked(s1, |s.observations|, o, cfg);
      }
    case Resolved(j) =>
      StampLinked(s, j);
      var o := s.observations[j];
      ProceedLinked(Stamp(s, j), j, o.(next := o.next + 1), cfg);
    case Rejected(j) => RejectLinked(s, j, cfg);
  }

  lemma StampLinked(s: Service, j: nat)
    requires Linked(s) && Enabled(s, Resolved(j))
    ensures var o := s.observations[j]; LinkedBut(Stamp(s, j), j, o.(next := o.next + 1))
  {
    var s1 := Stamp(s, j);
    assert ObservationOk(s, j);
    forall i | 0 <= i < |s1.observations| && i != j ensures ObservationOk(s1, i) {
      OtherObservationStays(s, s1, i);
    }
    forall c | 0 <= c < |s1.creations|
      ensures s1.creations[c].owner != j ==> CreationOk(s1, c)
      ensures var x, o := s1.creations[c], s.observations[j];
              x.owner == j ==> && x.outcome == Saved && x.index < o.next + 1
                               && x.line == o.line && x.at == o.at && x.rule == o.fired[x.index]
    {
      assert CreationOk(s, c);
    }
  }

  lemma RejectLinked(s: Service, j: nat, cfg: Config)
    requires Linked(s) && Enabled(s, Rejected(j))
    ensures Linked(Step(s, Rejected(j), cfg))
  {
    var s' := Step(s, Rejected(j), cfg);
    var c := s.observations[j].progress.creation;
    assert ObservationOk(s, j);
    assert LostBy(s'.creations[c], j);
    forall i | 0 <= i < |s'.observations| ensures ObservationOk(s', i) {
      if i != j { OtherObservationStays(s, s', i); }
    }
    forall k | 0 <= k < |s'.creations| ensures CreationOk(s', k) {
      assert CreationOk(s, k);
    }
  }

  // ---------------------------------------------------------------------------------------
  // Stamps, and what a check can miss
  // ---------------------------------------------------------------------------------------

  lemma SignalsStay(s: Service, s': Service, line: string, id: RuleId, at: int)
    requires HasSignal(s, line, id, at) && |s.creations| <= |s'.creations|
    requires forall c :: 0 <= c < |s.creations| && s.creations[c].outcome == Saved ==>
               s'.creations[c] == s.creations[c]
    ensures HasSignal(s', line, id, at)
  {
    var c :| 0 <= c < |s.creations| && IsFor(s.creations[c], line, id)
             && s.creations[c].outcome == Saved && s.creations[c].at == at;
    assert s'.creations[c] == s.creations[c];
  }

  lemma NewSignal(s: Service, c: nat)
    requires c < |s.creations| && s.creations[c].outcome == Saved
    ensures HasSignal(s, s.creations[c].line, s.creations[c].rule.id, s.creations[c].at)
  {
  }

  /** The stamp of a rule is unchanged, or is that of a create that has just been saved. */
  lemma BackedStays(s: Service, s': Service)
    requires Backed(s) && |s.creations| <= |s'.creations|
    requires forall c :: 0 <= c < |s.creations| && s.creations[c].outcome == Saved ==>
               s'.creations[c] == s.creations[c]
    requires forall c :: 0 <= c < |s'.creations| && s'.creations[c].outcome == Saved ==>
               (s'.creations[c].line, s'.creations[c].rule.id) in s'.lastFired
    requires forall key :: key in s'.lastFired ==>
               (key in s.lastFired && s'.lastFired[key] == s.lastFired[key])
               || HasSignal(s', key.0, key.1, s'.lastFired[key])
    ensures Backed(s')
  {
    hide HasSignal;
    forall key | key in s'.lastFired ensures HasSignal(s', key.0, key.1, s'.lastFired[key]) {
      if key in s.lastFired && s'.lastFired[key] == s.lastFired[key] {
        SignalsStay(s, s', key.0, key.1, s.lastFired[key]);
      }
    }
  }

  lemma StampBacked(s: Service, j: nat)
    requires Linked(s) && Backed(s) && Enabled(s, Resolved(j))
    ensures Backed(Stamp(s, j))
  {
    hide HasSignal;
    assert ObservationOk(s, j);
    var c := s.observations[j].progress.creation;
    assert CreationOk(s, c);
    NewSignal(Stamp(s, j), c);
    BackedStays(s, Stamp(s, j));
  }

  lemma StepBacked(s: Service, h: Happening, cfg: Config)
    requires Linked(s) && Backed(s) && Enabled(s, h)
    ensures Backed(Step(s, h, cfg))
  {
    hide EvaluateRules, Push, FirstDue, HasSignal, Linked;
    if h.Resolved? {
      StampBacked(s, h.observation);
      BackedStays(Stamp(s, h.observation), Step(s, h, cfg));
    } else {
      if h.Rejected? { AwaitedIsInFlight(s, h.observation); }
      BackedStays(s, Step(s, h, cfg));
    }
  }

  lemma AwaitedIsInFlight(s: Service, j: nat)
    requires Linked(s) && Enabled(s, Resolved(j))
    ensures var o := s.observations[j];
            var x := s.creations[o.progress.creation];
            x.outcome == InFlight && IsFor(x, o.line, o.fired[o.next].id) && x.at == o.at
  {
    assert ObservationOk(s, j);
    assert CreationOk(s, s.observations[j].progress.creation);
  }

  /** A check that passes keeps the cooldown from every signal it can see. */
  lemma ProceedPairs(s: Service, j: nat, o: Observation, cfg: Config)
    requires Backed(s) && PairsOk(s, cfg) && j < |s.observations| && o.next <= |o.fired|
    ensures PairsOk(Proceed(s, j, o, cfg), cfg)
  {
    hide HasSignal;
    var s' := Proceed(s, j, o, cfg);
    forall i, k | 0 <= i < k < |s'.creations| ensures PairOk(s', i, k, cfg) {
      if k < |s.creations| { assert PairOk(s, i, k, cfg); }
    }
  }

  lemma StepPairs(s: Service, h: Happening, cfg: Config)
    requires Linked(s) && Backed(s) && PairsOk(s, cfg) && Enabled(s, h)
    ensures PairsOk(Step(s, h, cfg), cfg)
  {
    hide EvaluateRules, Push, Linked, Backed, PairOk, Proceed;
    match h
    case Observed(line, e) =>
      if cfg.enabled {
        var buffer := Pushed(s, line, e, cfg);
        var o := Observation(line, e.at, EvaluateRules(cfg, buffer), 0, Finished);
        var s1 := s.(activity := s.activity[line := buffer], observations := s.observations + [o]);
        SamePairs(s, s1, cfg);
        SameBacking(s, s1);
        ProceedPairs(s1, |s.observations|, o, cfg);
      }
    case Resolved(j) =>
      StampBacked(s, j);
      AwaitedIsInFlight(s, j);
      SamePairs(s, Stamp(s, j), cfg);
      var o := s.observations[j];
      ProceedPairs(Stamp(s, j), j, o.(next := o.next + 1), cfg);
    case Rejected(j) =>
      AwaitedIsInFlight(s, j);
      SamePairs(s, Step(s, h, cfg), cfg);
  }

  lemma SameBacking(s: Service, s': Service)
    requires Backed(s) && s'.creations == s.creations && s'.lastFired == s.lastFired
    ensures Backed(s')
  {
    BackedStays(s, s') by { hide HasSignal; }
  }

  /** Settling a create keeps what is known of the pairs. */
  lemma SamePairs(s: Service, s': Service, cfg: Config)
    requires PairsOk(s, cfg) && |s'.creations| == |s.creations|
    requires forall c :: 0 <= c < |s.creations| ==>
               || s'.creations[c] == s.creations[c]
               || (s.creations[c].outcome == InFlight && s'.creations[c].outcome != InFlight
                   && s'.creations[c] == s.creations[c].(outcome := s'.creations[c].outcome))
    ensures PairsOk(s', cfg)
  {
    forall i, k | 0 <= i < k < |s'.creations| ensures PairOk(s', i, k, cfg) {
      assert PairOk(s, i, k, cfg);
    }
  }

  ghost predicate Inv(s: Service, cfg: Config) { Linked(s) && Backed(s) && PairsOk(s, cfg) }

  lemma {:induction false} RunKeeps(hs: seq<Happening>, cfg: Config)
    requires Possible(hs, cfg)
    ensures Inv(After(hs, cfg), cfg)
  {
    hide Linked, Backed, PairsOk, Step, Enabled;
    if hs == [] {
      NothingYet(cfg);
    } else {
      RunKeeps(hs[..|hs| - 1], cfg);
      var s, h := After(hs[..|hs| - 1], cfg), hs[|hs| - 1];
      StepLinked(s, h, cfg);
      StepBacked(s, h, cfg);
      StepPairs(s, h, cfg);
    }
  }

  lemma NothingYet(cfg: Config)
    ensures Inv(NEW_SERVICE, cfg)
  {
  }

  /** The time is closer to that of the create than the cooldown. */
  ghost predicate TooClose(c: Creation, at: int, cfg: Config) {
    -1000 * cfg.signalCooldownSeconds < at - c.at < 1000 * cfg.signalCooldownSeconds
  }

  /** What the check before create k could not see of create i. */
  ghost predicate Missed(s: Service, i: nat, k: nat)
    requires k < |s.creations|
  {
    i in s.creations[k].concurrent || i in s.creations[k].overwritten
  }

  ghost predicate BothOnFile(s: Service, i: nat, k: nat) {
    && i < k < |s.creations| && SameRule(s.creations[i], s.creations[k])
    && s.creations[i].outcome == Saved == s.creations[k].outcome
  }

  /** In any interleaving, a check that could see an earlier signal of its rule and line keeps
      the whole cooldown from it. So two signals closer than that mean that the later check missed
      the earlier one: its `create` was in flight, or its stamp was overwritten by an older one. */
  lemma TooCloseOnlyIfMissed(hs: seq<Happening>, cfg: Config, i: nat, k: nat)
    requires Possible(hs, cfg) && BothOnFile(After(hs, cfg), i, k)
    ensures var s := After(hs, cfg);
            var a, b := s.creations[i], s.creations[k];
            && (!Missed(s, i, k) ==> a.at + CooldownMs(cfg) <= b.at)
            && (TooClose(a, b.at, cfg) ==> Missed(s, i, k))
  {
    RunKeeps(hs, cfg);
    assert PairOk(After(hs, cfg), i, k, cfg);
  }

  /** The cooldown holds of a whole run exactly when it holds of the pairs a check missed. */
  lemma CooldownHoldsIff(hs: seq<Happening>, cfg: Config)
    requires Possible(hs, cfg)
    ensures var s := After(hs, cfg);
            (forall i: nat, k: nat :: BothOnFile(s, i, k) ==> !TooClose(s.creations[i], s.creations[k].at, cfg))
            <==> (forall i: nat, k: nat :: BothOnFile(s, i, k) && Missed(s, i, k) ==>
                    !TooClose(s.creations[i], s.creations[k].at, cfg))
  {
    var s := After(hs, cfg);
    forall i: nat, k: nat | BothOnFile(s, i, k) && !Missed(s, i, k)
      ensures !TooClose(s.creations[i], s.creations[k].at, cfg)
    {
      TooCloseOnlyIfMissed(hs, cfg, i, k);
    }
  }

  /** A create for the rule and line that is in flight or saved. */
  ghost predicate Standing(s: Service, c: nat, line: string, id: RuleId) {
    c < |s.creations| && IsFor(s.creations[c], line, id) && s.creations[c].outcome != Lost
  }

  ghost predicate NewerThanAnyStamp(s: Service, c: nat, line: string, id: RuleId)
    requires c < |s.creations|
  {
    (line, id) in s.lastFired ==> s.lastFired[(line, id)] < s.creations[c].at
  }

  /** Whatever the time of the next event, a check that passes keeps the cooldown from every
      signal on file and every create in flight. */
  ghost predicate NextCheckIsSafe(s: Service, line: string, id: RuleId, cfg: Config) {
    forall at: int, c: nat :: !CoolingDown(s, line, id, at, cfg) && Standing(s, c, line, id) ==>
      !TooClose(s.creations[c], at, cfg)
  }

  /** The next check of a rule on a line is sure to keep the cooldown exactly when no signal on
      file and no create in flight is newer than the stamp in force. */
  lemma NextCheckIsSafeIff(s: Service, line: string, id: RuleId, cfg: Config)
    requires cfg.signalCooldownSeconds > 0
    ensures NextCheckIsSafe(s, line, id, cfg)
            <==> forall c: nat :: Standing(s, c, line, id) ==> !NewerThanAnyStamp(s, c, line, id)
  {
    if c: nat :| Standing(s, c, line, id) && NewerThanAnyStamp(s, c, line, id) {
      var x := s.creations[c];
      var at := if (line, id) in s.lastFired && x.at < s.lastFired[(line, id)] + CooldownMs(cfg)
                then s.lastFired[(line, id)] + CooldownMs(cfg) else x.at;
      assert TooClose(x, at, cfg);
      assert !CoolingDown(s, line, id, at, cfg);
    } else {
      forall at: int, c: nat | !CoolingDown(s, line, id, at, cfg) && Standing(s, c, line, id)
        ensures !TooClose(s.creations[c], at, cfg)
      {
        assert !NewerThanAnyStamp(s, c, line, id);
      }
    }
  }

  // ---------------------------------------------------------------------------------------
  // Without overlap the cooldown holds
  // ---------------------------------------------------------------------------------------

  /** No check ran while a `create` for its rule and line was in flight. */
  ghost predicate NoOverlap(s: Service) {
    forall k :: 0 <= k < |s.creations| ==> s.creations[k].concurrent == {}
  }

  ghost predicate StampOf(s: Service, c: Creation, least: int) {
    (c.line, c.rule.id) in s.lastFired && s.lastFired[(c.line, c.rule.id)] >= least
  }

  /** Stamps only ever go forward: none is older than a signal on file, and a create in flight
      will move its stamp forward by the cooldown. */
  ghost predicate StampsAdvance(s: Service, cfg: Config) {
    && (forall k :: 0 <= k < |s.creations| ==> s.creations[k].overwritten == {})
    && (forall c :: 0 <= c < |s.creations| && s.creations[c].outcome == Saved ==>
          StampOf(s, s.creations[c], s.creations[c].at))
    && (forall c :: 0 <= c < |s.creations| && s.creations[c].outcome == InFlight ==>
          !StampOf(s, s.creations[c], s.creations[c].at - CooldownMs(cfg) + 1))
  }

  lemma ProceedAdvances(s: Service, j: nat, o: Observation, cfg: Config)
    requires StampsAdvance(s, cfg) && j < |s.observations| && o.next <= |o.fired|
    ensures StampsAdvance(Proceed(s, j, o, cfg), cfg)
  {
    var s' := Proceed(s, j, o, cfg);
    forall c | 0 <= c < |s'.creations| ensures s'.creations[c].overwritten == {} {
      if c == |s.creations| {
        var x := s'.creations[c];
        forall i: nat | i < |s.creations| && IsFor(s.creations[i], x.line, x.rule.id) && s.creations[i].outcome == Saved
          ensures i !in x.overwritten
        {
          assert StampOf(s, s.creations[i], s.creations[i].at);
        }
      }
    }
  }

  /** The create that resolves was the only one in flight for its rule and line. */
  lemma StampAdvances(s: Service, j: nat, cfg: Config)
    requires Inv(s, cfg) && StampsAdvance(s, cfg) && NoOverlap(s) && Enabled(s, Resolved(j))
    requires cfg.signalCooldownSeconds >= 0
    ensures StampsAdvance(Stamp(s, j), cfg)
  {
    hide Linked, Backed, PairsOk, PairOk;
    AwaitedIsInFlight(s, j);
    var c := s.observations[j].progress.creation;
    var s' := Stamp(s, j);
    forall i | 0 <= i < |s.creations| && i != c && s.creations[i].outcome == InFlight
      ensures !SameRule(s.creations[i], s.creations[c])
    {
      OneInFlight(s, i, c, cfg);
    }
    forall i | 0 <= i < |s'.creations| && s'.creations[i].outcome == Saved
      ensures StampOf(s', s'.creations[i], s'.creations[i].at)
    {
      if i != c { assert StampOf(s, s.creations[i], s.creations[i].at); }
    }
  }

  lemma OneInFlight(s: Service, i: nat, c: nat, cfg: Config)
    requires PairsOk(s, cfg) && NoOverlap(s) && i < |s.creations| && c < |s.creations| && i != c
    requires s.creations[i].outcome == InFlight == s.creations[c].outcome
    ensures !SameRule(s.creations[i], s.creations[c])
  {
    if i < c { assert PairOk(s, i, c, cfg); } else { assert PairOk(s, c, i, cfg); }
  }

  lemma StepAdvances(s: Service, h: Happening, cfg: Config)
    requires Inv(s, cfg) && StampsAdvance(s, cfg) && NoOverlap(s) && Enabled(s, h)
    requires cfg.signalCooldownSeconds >= 0
    ensures StampsAdvance(Step(s, h, cfg), cfg)
  {
    hide EvaluateRules, Push, Inv, Proceed;
    match h
    case Observed(line, e) =>
      if cfg.enabled {
        var buffer := Pushed(s, line, e, cfg);
        var o := Observation(line, e.at, EvaluateRules(cfg, buffer), 0, Finished);
        ProceedAdvances(s.(activity := s.activity[line := buffer], observations := s.observations + [o]),
                        |s.observations|, o, cfg);
      }
    case Resolved(j) =>
      StampAdvances(s, j, cfg);
      var o := s.observations[j];
      ProceedAdvances(Stamp(s, j), j, o.(next := o.next + 1), cfg);
    case Rejected(j) =>
  }

  lemma NoOverlapBefore(s: Service, h: Happening, cfg: Config)
    requires Enabled(s, h) && NoOverlap(Step(s, h, cfg))
    ensures NoOverlap(s)
  {
    hide EvaluateRules, Push, FirstDue;
    var s' := Step(s, h, cfg);
    forall k | 0 <= k < |s.creations| ensures s.creations[k].concurrent == {} {
      assert s'.creations[k].concurrent == s.creations[k].concurrent;
    }
  }

  lemma {:induction false} RunAdvances(hs: seq<Happening>, cfg: Config)
    requires Possible(hs, cfg) && cfg.signalCooldownSeconds >= 0 && NoOverlap(After(hs, cfg))
    ensures StampsAdvance(After(hs, cfg), cfg)
  {
    hide Inv, StampsAdvance, NoOverlap, Step, Enabled;
    if hs == [] {
      NothingStamped(cfg);
    } else {
      var front := hs[..|hs| - 1];
      NoOverlapBefore(After(front, cfg), hs[|hs| - 1], cfg);
      RunAdvances(front, cfg);
      RunKeeps(front, cfg);
      StepAdvances(After(front, cfg), hs[|hs| - 1], cfg);
    }
  }

  lemma NothingStamped(cfg: Config)
    ensures StampsAdvance(NEW_SERVICE, cfg)
  {
  }

  /** In a run in which no check overlaps a `create` for its rule and line, no stamp is ever
      overwritten by an older one, and signals of one rule on one line are at least the cooldown
      apart, in the order of their checks. */
  lemma CooldownHolds(hs: seq<Happening>, cfg: Config, i: nat, k: nat)
    requires Possible(hs, cfg) && cfg.signalCooldownSeconds >= 0 && NoOverlap(After(hs, cfg))
    requires BothOnFile(After(hs, cfg), i, k)
    ensures !Missed(After(hs, cfg), i, k)
    ensures After(hs, cfg).creations[i].at + 1000 * cfg.signalCooldownSeconds <= After(hs, cfg).creations[k].at
  {
    hide Inv;
    RunAdvances(hs, cfg);
    TooCloseOnlyIfMissed(hs, cfg, i, k);
  }

  // ---------------------------------------------------------------------------------------
  // No alarm is lost but by a rejected create
  // ---------------------------------------------------------------------------------------

  /** A signal of the rule is on file from less than the cooldown before `at`. */
  ghost predicate Signalled(s: Service, line: string, id: RuleId, at: int, cfg: Config) {
    exists c :: 0 <= c < |s.creations| && IsFor(s.creations[c], line, id)
                && s.creations[c].outcome == Saved && at - s.creations[c].at < 1000 * cfg.signalCooldownSeconds
  }

  ghost predicate RulesSignalled(s: Service, o: Observation, cfg: Config) {
    forall n :: 0 <= n < o.next && n < |o.fired| ==> Signalled(s, o.line, o.fired[n].id, o.at, cfg)
  }

  ghost predicate AllSignalled(s: Service, cfg: Config) {
    forall j :: 0 <= j < |s.observations| ==> RulesSignalled(s, s.observations[j], cfg)
  }

  lemma SignalledStays(s: Service, s': Service, o: Observation, cfg: Config)
    requires RulesSignalled(s, o, cfg) && |s.creations| <= |s'.creations|
    requires forall c :: 0 <= c < |s.creations| && s.creations[c].outcome == Saved ==>
               s'.creations[c] == s.creations[c]
    ensures RulesSignalled(s', o, cfg)
  {
    forall n | 0 <= n < o.next && n < |o.fired| ensures Signalled(s', o.line, o.fired[n].id, o.at, cfg) {
      var c :| 0 <= c < |s.creations| && IsFor(s.creations[c], o.line, o.fired[n].id)
               && s.creations[c].outcome == Saved && o.at - s.creations[c].at < 1000 * cfg.signalCooldownSeconds;
      assert s'.creations[c] == s.creations[c];
    }
  }

  /** A rule skipped because it is cooling down has a signal on file. */
  lemma CoolingIsSignalled(s: Service, line: string, id: RuleId, at: int, cfg: Config)
    requires Backed(s) && CoolingDown(s, line, id, at, cfg)
    ensures Signalled(s, line, id, at, cfg)
  {
    assert HasSignal(s, line, id, s.lastFired[(line, id)]) by {
      var key := (line, id);
      assert key in s.lastFired;
      assert HasSignal(s, key.0, key.1, s.lastFired[key]);
    }
  }

  lemma ProceedSignals(s: Service, j: nat, o: Observation, cfg: Config)
    requires Backed(s) && j < |s.observations| && o.next <= |o.fired| && RulesSignalled(s, o, cfg)
    requires forall i :: 0 <= i < |s.observations| && i != j ==> RulesSignalled(s, s.observations[i], cfg)
    ensures AllSignalled(Proceed(s, j, o, cfg), cfg)
  {
    hide Backed, RulesSignalled;
    var s' := Proceed(s, j, o, cfg);
    var o' := s'.observations[j];
    forall i | 0 <= i < |s'.observations| && i != j ensures RulesSignalled(s', s'.observations[i], cfg) {
      SignalledStays(s, s', s.observations[i], cfg);
    }
    assert RulesSignalled(s, o', cfg) by { SkippedAreSignalled(s, o, o', cfg); }
    SignalledStays(s, s', o', cfg);
  }

  lemma SkippedAreSignalled(s: Service, o: Observation, o': Observation, cfg: Config)
    requires Backed(s) && RulesSignalled(s, o, cfg) && o.next <= o'.next <= |o.fired|
    requires (o'.line, o'.at, o'.fired) == (o.line, o.at, o.fired)
    requires forall k :: o.next <= k < o'.next ==> CoolingDown(s, o.line, o.fired[k].id, o.at, cfg)
    ensures RulesSignalled(s, o', cfg)
  {
    hide Backed, CoolingDown, Signalled;
    forall n | o.next <= n < o'.next ensures Signalled(s, o.line, o.fired[n].id, o.at, cfg) {
      CoolingIsSignalled(s, o.line, o.fired[n].id, o.at, cfg);
    }
  }

  lemma StampSignals(s: Service, j: nat, cfg: Config)
    requires Linked(s) && AllSignalled(s, cfg) && Enabled(s, Resolved(j)) && cfg.signalCooldownSeconds > 0
    ensures var s', o := Stamp(s, j), s.observations[j];
            && RulesSignalled(s', o.(next := o.next + 1), cfg)
            && forall i :: 0 <= i < |s'.observations| && i != j ==> RulesSignalled(s', s'.observations[i], cfg)
  {
    hide Linked;
    AwaitedIsInFlight(s, j);
    var s', o := Stamp(s, j), s.observations[j];
    forall i | 0 <= i < |s'.observations| ensures RulesSignalled(s', s'.observations[i], cfg) {
      SignalledStays(s, s', s.observations[i], cfg);
    }
    var c := o.progress.creation;
    assert IsFor(s'.creations[c], o.line, o.fired[o.next].id);
    assert Signalled(s', o.line, o.fired[o.next].id, o.at, cfg);
  }

  lemma StepSignals(s: Service, h: Happening, cfg: Config)
    requires Linked(s) && Backed(s) && AllSignalled(s, cfg) && Enabled(s, h) && cfg.signalCooldownSeconds > 0
    ensures AllSignalled(Step(s, h, cfg), cfg)
  {
    hide EvaluateRules, Push, Proceed, Linked, Backed, Signalled;
    match h
    case Observed(line, e) =>
      if cfg.enabled {
        var buffer := Pushed(s, line, e, cfg);
        var o := Observation(line, e.at, EvaluateRules(cfg, buffer), 0, Finished);
        var s1 := s.(activity := s.activity[line := buffer], observations := s.observations + [o]);
        forall i | 0 <= i < |s.observations| ensures RulesSignalled(s1, s.observations[i], cfg) {
          SignalledStays(s, s1, s.observations[i], cfg);
        }
        SameBacking(s, s1);
        ProceedSignals(s1, |s.observations|, o, cfg);
      }
    case Resolved(j) =>
      StampSignals(s, j, cfg);
      StampBacked(s, j);
      var o := s.observations[j];
      ProceedSignals(Stamp(s, j), j, o.(next := o.next + 1), cfg);
    case Rejected(j) =>
      AwaitedIsInFlight(s, j);
      var s' := Step(s, h, cfg);
      forall i | 0 <= i < |s.observations| ensures RulesSignalled(s', s.observations[i], cfg) {
        SignalledStays(s, s', s.observations[i], cfg);
      }
  }

  lemma {:induction false} RunSignals(hs: seq<Happening>, cfg: Config)
    requires Possible(hs, cfg) && cfg.signalCooldownSeconds > 0
    ensures AllSignalled(After(hs, cfg), cfg)
  {
    hide Linked, Backed, PairsOk, RulesSignalled, Step, Enabled;
    if hs != [] {
      RunSignals(hs[..|hs| - 1], cfg);
      RunKeeps(hs[..|hs| - 1], cfg);
      StepSignals(After(hs[..|hs| - 1], cfg), hs[|hs| - 1], cfg);
    }
  }

  /** Once an observation no longer awaits a `create`, it has dealt with every rule that fired
      on it exactly if none of its creates was rejected. Every rule it dealt with has a signal
      on file from less than the cooldown ago; of the others it has saved none. */
  lemma FiredRulesAreSignalled(hs: seq<Happening>, cfg: Config, j: nat)
    requires Possible(hs, cfg) && cfg.signalCooldownSeconds > 0
    requires j < |After(hs, cfg).observations| && !After(hs, cfg).observations[j].progress.Awaiting?
    ensures var s := After(hs, cfg);
            var o := s.observations[j];
            && (o.next == |o.fired| <==> forall c :: 0 <= c < |s.creations| ==> !LostBy(s.creations[c], j))
            && (forall n :: 0 <= n < o.next ==> n < |o.fired| && Signalled(s, o.line, o.fired[n].id, o.at, cfg))
            && (forall c :: 0 <= c < |s.creations| && s.creations[c].owner == j && s.creations[c].outcome == Saved ==>
                  s.creations[c].index < o.next)
  {
    hide Signalled, Step, Enabled, PairsOk, Backed;
    RunKeeps(hs, cfg);
    RunSignals(hs, cfg);
    var s := After(hs, cfg);
    assert ObservationOk(s, j);
    assert RulesSignalled(s, s.observations[j], cfg);
    forall c | 0 <= c < |s.creations| && s.creations[c].owner == j
      ensures s.creations[c].outcome == Lost ==> s.observations[j].progress == Broken
      ensures s.creations[c].outcome == Saved ==> s.creations[c].index < s.observations[j].next
    {
      assert CreationOk(s, c);
    }
  }

  // ---------------------------------------------------------------------------------------
  // Every signal is justified by the full history
  // ---------------------------------------------------------------------------------------

  ghost predicate TimesInOrder(hs: seq<Happening>) {
    forall n, line :: 0 <= n <= |hs| ==> InTimeOrder(HistoryOf(hs[..n], line))
  }

  /** The rule fires on the full history its line had at some observation at that time. */
  ghost predicate Justified(line: string, id: RuleId, at: int, hs: seq<Happening>, cfg: Config) {
    exists n :: 0 < n <= |hs| && hs[n - 1].Observed? && hs[n - 1].line == line && hs[n - 1].event.at == at
                && Rule(id, cfg, HistoryOf(hs[..n], line)).Some?
  }

  ghost predicate RulesJustified(o: Observation, hs: seq<Happening>, cfg: Config) {
    forall k :: 0 <= k < |o.fired| ==> Justified(o.line, o.fired[k].id, o.at, hs, cfg)
  }

  lemma JustifiedStays(o: Observation, front: seq<Happening>, hs: seq<Happening>, cfg: Config)
    requires front <= hs && RulesJustified(o, front, cfg)
    ensures RulesJustified(o, hs, cfg)
  {
    hide Rule, HistoryOf;
    forall k | 0 <= k < |o.fired| ensures Justified(o.line, o.fired[k].id, o.at, hs, cfg) {
      assert Justified(o.line, o.fired[k].id, o.at, front, cfg);
      var n :| 0 < n <= |front| && front[n - 1].Observed? && front[n - 1].line == o.line
               && front[n - 1].event.at == o.at
               && Rule(o.fired[k].id, cfg, HistoryOf(front[..n], o.line)).Some?;
      assert front[..n] == hs[..n];
    }
  }

  lemma NewlyJustified(hs: seq<Happening>, cfg: Config, o: Observation)
    requires cfg.enabled && SaneWindows(cfg) && TimesInOrder(hs) && Possible(hs, cfg) && hs != []
    requires var h := hs[|hs| - 1]; h.Observed? && h.line == o.line && h.event.at == o.at
    requires o.line in After(hs, cfg).activity && o.fired == EvaluateRules(cfg, After(hs, cfg).activity[o.line])
    ensures RulesJustified(o, hs, cfg)
  {
    hide SaneWindows, Rule, EvaluateRules, Step, BufferOf, Enabled;
    ActivityIsBuffer(hs, o.line, cfg);
    var history := HistoryOf(hs, o.line);
    assert hs[..|hs|] == hs;
    forall k | 0 <= k < |o.fired| ensures Justified(o.line, o.fired[k].id, o.at, hs, cfg) {
      EvaluatedAreThoseThatFire(cfg, BufferOf(history, cfg), o.fired[k]);
      VerdictIsSound(o.fired[k].id, history, cfg);
    }
  }

  /** What a step does to the observations: nothing to the rules they carry, and one more
      observation, of the buffer it has just extended, if `observe` was called. */
  lemma StepObservations(s: Service, h: Happening, cfg: Config)
    requires Enabled(s, h) && cfg.enabled
    ensures var s' := Step(s, h, cfg);
            && |s'.observations| == |s.observations| + (if h.Observed? then 1 else 0)
            && (forall j :: 0 <= j < |s.observations| ==>
                  var o, o' := s.observations[j], s'.observations[j];
                  (o'.line, o'.at, o'.fired) == (o.line, o.at, o.fired))
            && (h.Observed? ==>
                  var o := s'.observations[|s.observations|];
                  && o.line == h.line && o.at == h.event.at
                  && h.line in s'.activity && o.fired == EvaluateRules(cfg, s'.activity[h.line]))
  {
    hide EvaluateRules, Push, FirstDue;
  }

  /** In every interleaving, a call of `observe` takes note of exactly the rules that fire on the
      newest part of its line's own history; a disabled service takes note of nothing. */
  lemma ObservedRulesAreThoseThatFire(hs: seq<Happening>, cfg: Config, line: string, e: Event, rule: FiredRule)
    requires Possible(hs, cfg)
    ensures var s, s' := After(hs, cfg), Step(After(hs, cfg), Observed(line, e), cfg);
            if cfg.enabled then
              && |s'.observations| == |s.observations| + 1
              && (rule in s'.observations[|s.observations|].fired
                  <==> Rule(rule.id, cfg, BufferOf(HistoryOf(hs, line) + [e], cfg)) == Some(rule))
            else
              s' == s
  {
    hide Step, BufferOf, EvaluateRules, Rule;
    var s, h := After(hs, cfg), Observed(line, e);
    if cfg.enabled {
      StepObservations(s, h, cfg);
      OneMoreStep(hs, h, cfg);
      ActivityIsBuffer(hs + [h], line, cfg);
      assert (hs + [h])[..|hs|] == hs;
      EvaluatedAreThoseThatFire(cfg, BufferOf(HistoryOf(hs, line) + [e], cfg), rule);
    } else {
      DisabledDoesNothing(s, line, e, cfg);
    }
  }

  lemma DisabledDoesNothing(s: Service, line: string, e: Event, cfg: Config)
    requires !cfg.enabled
    ensures Step(s, Observed(line, e), cfg) == s
  {
  }

  lemma {:induction false} ObservationsAreJustified(hs: seq<Happening>, cfg: Config, j: nat)
    requires cfg.enabled && SaneWindows(cfg) && TimesInOrder(hs) && Possible(hs, cfg)
    requires j < |After(hs, cfg).observations|
    ensures RulesJustified(After(hs, cfg).observations[j], hs, cfg)
  {
    hide SaneWindows, EvaluateRules, Step, Justified, Enabled;
    if hs != [] {
      var front := hs[..|hs| - 1];
      assert forall n :: 0 <= n <= |front| ==> front[..n] == hs[..n];
      var s := After(front, cfg);
      StepObservations(s, hs[|hs| - 1], cfg);
      if j < |s.observations| {
        ObservationsAreJustified(front, cfg, j);
        JustifiedStays(s.observations[j], front, hs, cfg);
      } else {
        NewlyJustified(hs, cfg, After(hs, cfg).observations[j]);
      }
    }
  }

  /** Every signal, indeed every `create` ever called, is justified by the line's full history
      at the observation that made it, although the service only ever saw its bounded buffer. */
  lemma SignalsAreJustified(hs: seq<Happening>, cfg: Config, c: nat)
    requires cfg.enabled && SaneWindows(cfg) && TimesInOrder(hs) && Possible(hs, cfg)
    requires c < |After(hs, cfg).creations|
    ensures var x := After(hs, cfg).creations[c]; Justified(x.line, x.rule.id, x.at, hs, cfg)
  {
    hide SaneWindows, TimesInOrder, Step, Justified, Enabled, Backed, PairsOk;
    RunKeeps(hs, cfg);
    assert CreationOk(After(hs, cfg), c);
    ObservationsAreJustified(hs, cfg, After(hs, cfg).creations[c].owner);
  }

  // ---------------------------------------------------------------------------------------
  // Overlapping observations break the cooldown
  // ---------------------------------------------------------------------------------------

  /** Any draw is a rapid one; the cooldown is five minutes. */
  const EAGER := Config(true, 1, 300, 10, 60, 2, 120, 600, 0.1, 300, 50)

  lemma {:induction false} FiltersShorten(events: seq<Event>, start: int)
    ensures |Since(events, start)| <= |events| && |DrawsIn(events)| <= |events|
  {
    if events != [] { FiltersShorten(events[..|events| - 1], start); }
  }

  lemma PushEnds(list: seq<Event>, e: Event, cfg: Config)
    requires SaneWindows(cfg) && cfg.maxEvents > 0
    ensures var b := Push(list, e, cfg); b != [] && b[|b| - 1] == e && |b| <= |list| + 1
  {
    hide Since;
    var cutoff := e.at - WidestMs(cfg) * 2;
    SinceSnoc(list, e, cutoff);
    FiltersShorten(list, cutoff);
  }

  lemma DrawsSnoc(events: seq<Event>, e: Event)
    requires e.kind == Draw
    ensures DrawsIn(events + [e]) == DrawsIn(events) + [e]
  {
    assert (events + [e])[..|events|] == events;
  }

  /** On a short buffer that ends in a draw exactly the rapid rule fires. */
  lemma EagerFires(events: seq<Event>) returns (rule: FiredRule)
    requires 0 < |events| < 10 && events[|events| - 1].kind == Draw
    ensures EvaluateRules(EAGER, events) == [rule] && rule.id == RapidSuccessiveDraws
  {
    hide Since, DrawsIn;
    var front, last := events[..|events| - 1], events[|events| - 1];
    assert events == front + [last];
    SinceSnoc(front, last, last.at - 300000);
    DrawsSnoc(Since(front, last.at - 300000), last);
    FiltersShorten(events, last.at - 60000);
    FiltersShorten(Since(events, last.at - 60000), 0);
    rule := FiredRule(RapidSuccessiveDraws, DrawsIn(Since(events, last.at - 300000)), []);
  }

  /** A draw on a line that is not cooling down calls `create` and waits for it. */
  lemma EagerObserves(s: Service, line: string, e: Event) returns (rule: FiredRule)
    requires e.kind == Draw && (line in s.activity ==> |s.activity[line]| < 9)
    requires !CoolingDown(s, line, RapidSuccessiveDraws, e.at, EAGER)
    ensures rule.id == RapidSuccessiveDraws
    ensures var s' := Step(s, Observed(line, e), EAGER);
            var o := Observation(line, e.at, [rule], 0, Awaiting(|s.creations|));
            && s'.creations == s.creations + [NewCreation(s, |s.observations|, o)]
            && s'.observations == s.observations + [o]
            && s'.lastFired == s.lastFired
            && line in s'.activity
            && |s'.activity[line]| <= if line in s.activity then |s.activity[line]| + 1 else 1
  {
    hide Push, EvaluateRules;
    PushEnds(if line in s.activity then s.activity[line] else [], e, EAGER);
    rule := EagerFires(Pushed(s, line, e, EAGER));
  }

  /** When that `create` resolves the rule is stamped and the observation is over. */
  lemma EagerResolves(s: Service, j: nat, cfg: Config)
    requires Enabled(s, Resolved(j)) && s.observations[j].next + 1 == |s.observations[j].fired|
    ensures var o := s.observations[j];
            var c := o.progress.creation;
            && Step(s, Resolved(j), cfg) == Service(
                 s.activity, s.lastFired[(o.line, o.fired[o.next].id) := o.at],
                 s.creations[c := s.creations[c].(outcome := Saved)],
                 s.observations[j := o.(next := o.next + 1, progress := Finished)])
  {
  }

  /** Two draws at any times, both observed before a `create` resolves, leave two signals,
      however close they are; if the creates resolve out of order, the stamp that stays is that
      of the first. */
  lemma OverlappingDrawsSignalTwice(line: string, a: Event, b: Event) returns (hs: seq<Happening>)
    requires a.kind == Draw == b.kind
    ensures hs == [Observed(line, a), Observed(line, b), Resolved(1), Resolved(0)] && Possible(hs, EAGER)
    ensures var s := After(hs, EAGER);
            && |s.creations| == 2 == |s.observations| && BothOnFile(s, 0, 1) && 0 in s.creations[1].concurrent
            && s.creations[0].at == a.at && s.creations[1].at == b.at
            && IsFor(s.creations[1], line, RapidSuccessiveDraws)
            && s.lastFired == map[(line, RapidSuccessiveDraws) := a.at]
            && (line in s.activity ==> |s.activity[line]| <= 2)
  {
    hide EvaluateRules, Push, Step, Possible, After;
    var h1, h2 := Observed(line, a), Observed(line, b);
    FirstStep(h1, EAGER);
    var r1 := EagerObserves(NEW_SERVICE, line, a);
    var s1 := After([h1], EAGER);
    OneMoreStep([h1], h2, EAGER);
    var r2 := EagerObserves(s1, line, b);
    var s2 := Step(s1, h2, EAGER);
    OneMoreStep([h1] + [h2], Resolved(1), EAGER);
    EagerResolves(s2, 1, EAGER);
    var s3 := Step(s2, Resolved(1), EAGER);
    OneMoreStep([h1] + [h2] + [Resolved(1)], Resolved(0), EAGER);
    EagerResolves(s3, 0, EAGER);
    hs := [h1, h2, Resolved(1), Resolved(0)];
    assert [h1] + [h2] + [Resolved(1)] + [Resolved(0)] == hs;
  }

  lemma FirstStep(h: Happening, cfg: Config)
    requires Enabled(NEW_SERVICE, h)
    ensures Possible([h], cfg) && After([h], cfg) == Step(NEW_SERVICE, h, cfg)
  {
    assert [h][..0] == [];
  }

  lemma OneMoreStep(hs: seq<Happening>, h: Happening, cfg: Config)
    requires Possible(hs, cfg) && Enabled(After(hs, cfg), h)
    ensures Possible(hs + [h], cfg) && After(hs + [h], cfg) == Step(After(hs, cfg), h, cfg)
  {
    assert (hs + [h])[..|hs|] == hs;
  }

  /** Even a check that overlaps nothing can then pass too early: a draw at 0 whose `create` is
      slow, a draw at 400 s saved meanwhile, the stamp going back to 0, and a draw at 450 s. */
  lemma OverwrittenStampSignalsEarly(line: string, a: Event, b: Event, c: Event) returns (hs: seq<Happening>)
    requires a.kind == Draw == b.kind && c.kind == Draw && a.at == 0 && b.at == 400000 && c.at == 450000
    ensures hs == [Observed(line, a), Observed(line, b), Resolved(1), Resolved(0)] + [Observed(line, c)] + [Resolved(2)]
    ensures Possible(hs, EAGER)
    ensures var s := After(hs, EAGER);
            && BothOnFile(s, 1, 2) && TooClose(s.creations[1], s.creations[2].at, EAGER)
            && s.creations[2].concurrent == {} && 1 in s.creations[2].overwritten
  {
    hide EvaluateRules, Push, Observe, Possible, After;
    var front := OverlappingDrawsSignalTwice(line, a, b);
    var s := After(front, EAGER);
    var rule := EagerObserves(s, line, c);
    OneMoreStep(front, Observed(line, c), EAGER);
    OneMoreStep(front + [Observed(line, c)], Resolved(2), EAGER);
    hs := front + [Observed(line, c)] + [Resolved(2)];
  }
}
