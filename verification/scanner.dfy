/**
 * One scan: the newest pairs are taken in turn; a pair with an address and
 * enough candle history gets a table, the table is enriched with the pair's
 * snapshot and admitted or rejected, and an admitted table is put to the
 * five rules in a fixed order. Two or more passing rules make an alert.
 *
 * The candle download and the Bollinger verdict are parameters: `candlesOf`
 * maps a pair address to its candles (an answer with a status other than
 * 200, or with no candles, is the empty list) and `boll` says whether the
 * squeeze-breakout rule passes on a close column.
 */
module Scanner {
  import opened Wrappers
  import opened Market
  import opened Frames
  import opened Rules
  import opened Admission
  import opened Config

  datatype RuleName = EmaCross | BollBreakout | RsiReclaim | ObvLeads | McapRoc

  /** The order in which the rules are consulted, which is also the order of the hits. */
  const RuleOrder: seq<RuleName> := [EmaCross, BollBreakout, RsiReclaim, ObvLeads, McapRoc]

  /** A rule's position in `RuleOrder`. */
  function Rank(r: RuleName): (k: nat)
    ensures k < |RuleOrder| && RuleOrder[k] == r
  {
    match r
    case EmaCross => 0
    case BollBreakout => 1
    case RsiReclaim => 2
    case ObvLeads => 3
    case McapRoc => 4
  }

  /** The rule at position j of `RuleOrder` has rank j: the order names each rule once. */
  lemma RankOfPosition(j: nat)
    requires j < |RuleOrder|
    ensures Rank(RuleOrder[j]) == j
  {
    if j == 0 {
    } else if j == 1 {
    } else if j == 2 {
    } else if j == 3 {
    }
  }

  /** One rule applied to the table. */
  function RunRule(r: RuleName, f: Frame, boll: seq<real> -> bool): Verdict
    requires f.WellFormed()
  {
    match r
    case EmaCross => RuleEmaCross(f)
    case BollBreakout => if boll(f.close) then Fires else Silent
    case RsiReclaim => RuleRsiReclaim(f)
    case ObvLeads => RuleObvLeads(f)
    case McapRoc => RuleMcapRoc(f)
  }

  /** A rule passes only when it returns true; a rule that raises counts as not passing. */
  predicate Passes(r: RuleName, f: Frame, boll: seq<real> -> bool)
    requires f.WellFormed()
  {
    RunRule(r, f, boll) == Fires
  }

  /** The rules that pass on a table. */
  function Passing(f: Frame, boll: seq<real> -> bool): (s: set<RuleName>)
    requires f.WellFormed()
    ensures forall r :: r in s <==> Passes(r, f, boll)
  {
    assert forall r :: r in RuleOrder by {
      forall r ensures r in RuleOrder {
        assert RuleOrder[Rank(r)] == r;
      }
    }
    set r | r in RuleOrder && Passes(r, f, boll)
  }

  /** The rules of `rules` that are in `passing`, in the order given. */
  function Hits(rules: seq<RuleName>, passing: set<RuleName>): (hits: seq<RuleName>)
    ensures |hits| <= |rules|
  {
    if rules == [] then []
    else
      var init := Hits(rules[..|rules| - 1], passing);
      var r := rules[|rules| - 1];
      if r in passing then init + [r] else init
  }

  /** A rule is a hit exactly when it is among the rules consulted and it passes. */
  lemma {:induction false} HitsMembership(rules: seq<RuleName>, passing: set<RuleName>, r: RuleName)
    ensures r in Hits(rules, passing) <==> r in rules && r in passing
  {
    if rules != [] {
      var init := rules[..|rules| - 1];
      HitsMembership(init, passing, r);
      assert rules == init + [rules[|rules| - 1]];
    }
  }

  /** Strictly increasing rank: no rule twice and the consultation order kept. */
  predicate Ascending(hits: seq<RuleName>)
  {
    forall i, j :: 0 <= i < j < |hits| ==> Rank(hits[i]) < Rank(hits[j])
  }

  /** Filtering an ascending list of rules leaves an ascending list. */
  lemma {:induction false} HitsAscending(rules: seq<RuleName>, passing: set<RuleName>)
    requires Ascending(rules)
    ensures Ascending(Hits(rules, passing))
  {
    if rules != [] {
      var last := |rules| - 1;
      var init := rules[..last];
      assert Ascending(init) by {
        forall i, j | 0 <= i < j < |init| ensures Rank(init[i]) < Rank(init[j]) {
          assert init[i] == rules[i] && init[j] == rules[j];
        }
      }
      HitsAscending(init, passing);
      var earlier := Hits(init, passing);
      if rules[last] in passing {
        var hits := earlier + [rules[last]];
        forall i, j | 0 <= i < j < |hits| ensures Rank(hits[i]) < Rank(hits[j]) {
          if j == |hits| - 1 {
            HitsMembership(init, passing, hits[i]);
            var k :| 0 <= k < |init| && init[k] == hits[i];
            assert rules[k] == hits[i];
          } else {
            assert hits[i] == earlier[i] && hits[j] == earlier[j];
          }
        }
      }
    }
  }

  /** The hits of a full vote are ascending in the consultation order. */
  lemma HitsOrdered(passing: set<RuleName>)
    ensures Ascending(Hits(RuleOrder, passing))
  {
    forall i, j | 0 <= i < j < |RuleOrder| ensures Rank(RuleOrder[i]) < Rank(RuleOrder[j]) {
      RankOfPosition(i);
      RankOfPosition(j);
    }
    HitsAscending(RuleOrder, passing);
  }

  /** Consulting one more rule appends it to the hits when it passes. */
  lemma HitsAppend(rules: seq<RuleName>, r: RuleName, passing: set<RuleName>)
    ensures Hits(rules + [r], passing) == Hits(rules, passing) + if r in passing then [r] else []
  {
    assert (rules + [r])[..|rules|] == rules;
  }

  /** The vote loop: each rule in turn, a passing one appended to the hits. */
  method Vote(f: Frame, boll: seq<real> -> bool) returns (hits: seq<RuleName>)
    requires f.WellFormed()
    ensures hits == Hits(RuleOrder, Passing(f, boll))
    ensures forall r :: r in hits <==> Passes(r, f, boll)
    ensures Ascending(hits)
  {
    ghost var passing := Passing(f, boll);
    hits := [];
    var i := 0;
    while i < |RuleOrder|
      invariant 0 <= i <= |RuleOrder|
      invariant hits == Hits(RuleOrder[..i], passing)
    {
      var rule := RuleOrder[i];
      var verdict := RunRule(rule, f, boll);
      assert verdict == Fires <==> rule in passing;
      HitsAppend(RuleOrder[..i], rule, passing);
      assert RuleOrder[..i + 1] == RuleOrder[..i] + [rule];
      if verdict == Fires {
        hits := hits + [rule];
      }
      i := i + 1;
    }
    assert RuleOrder[..i] == RuleOrder;
    forall r ensures r in hits <==> Passes(r, f, boll) {
      HitsMembership(RuleOrder, passing, r);
    }
    HitsOrdered(passing);
  }

  // ---------------------------------------------------------------- one pair

  /** `pairAddress or address`: the first non-empty one, if any. */
  function Address(p: Pair): (a: Option<string>)
    ensures a.Some? <==> TruthyText(p.pairAddress) || TruthyText(p.address)
    ensures a.Some? ==> a.value != ""
    ensures TruthyText(p.pairAddress) ==> a == p.pairAddress
    ensures !TruthyText(p.pairAddress) && TruthyText(p.address) ==> a == p.address
  {
    if TruthyText(p.pairAddress) then p.pairAddress
    else if TruthyText(p.address) then p.address
    else None
  }

  /** `symbol or name or "?"`: the label an alert carries, never empty. */
  function Symbol(p: Pair): (s: string)
    ensures s != ""
    ensures TruthyText(p.symbol) ==> s == p.symbol.value
    ensures !TruthyText(p.symbol) && TruthyText(p.name) ==> s == p.name.value
    ensures !TruthyText(p.symbol) && !TruthyText(p.name) ==> s == "?"
  {
    if TruthyText(p.symbol) then p.symbol.value
    else if TruthyText(p.name) then p.name.value
    else "?"
  }

  /** How a pair leaves the scan. */
  datatype Outcome = NoAddress | TooShort | Rejected | Voted(hits: seq<RuleName>)

  /** The outcome for one pair: address, history length, admission, then the vote. */
  function Evaluation(p: Pair, candlesOf: string -> seq<Candle>, boll: seq<real> -> bool): (o: Outcome)
    ensures o == NoAddress <==> Address(p).None?
    ensures o == TooShort <==> Address(p).Some? && |candlesOf(Address(p).value)| < MinCandles
    ensures o == Rejected <==>
      (Address(p).Some? && |candlesOf(Address(p).value)| >= MinCandles &&
       !Guards(Enriched(FromCandles(candlesOf(Address(p).value)), p)))
    ensures o.Voted? ==>
      (o.hits == Hits(RuleOrder, Passing(Enriched(FromCandles(candlesOf(Address(p).value)), p), boll)))
    ensures o.Voted? ==> |o.hits| <= |RuleOrder|
  {
    var addr := Address(p);
    if addr.None? then NoAddress
    else
      var candles := candlesOf(addr.value);
      if |candles| < MinCandles then TooShort
      else
        var f := Enriched(FromCandles(candles), p);
        if !Guards(f) then Rejected else Voted(Hits(RuleOrder, Passing(f, boll)))
  }

  /**
   * A table admitted after enrichment belongs to a pair with a price and
   * enough snapshot liquidity; none of the four modelled rules raises on it,
   * and the market-cap rule is never among its hits.
   */
  lemma AdmittedTable(f: Frame, p: Pair, boll: seq<real> -> bool)
    requires f.WellFormed() && |f.close| >= MinCandles
    requires Guards(Enriched(f, p))
    ensures p.priceUsd.Some? && LiquidityUsd(p.liquidity) >= MinLiqUsd
    ensures McapRoc !in Hits(RuleOrder, Passing(Enriched(f, p), boll))
    ensures forall r :: RunRule(r, Enriched(f, p), boll) != Raises
  {
    AdmittedPair(f, p);
    McapRocNeverHit(f, p, boll);
  }

  /** The market-cap rule is never a hit on an enriched table. */
  lemma McapRocNeverHit(f: Frame, p: Pair, boll: seq<real> -> bool)
    requires f.WellFormed()
    ensures McapRoc !in Hits(RuleOrder, Passing(Enriched(f, p), boll))
  {
    McapRocInertAfterEnrichment(f, p);
    HitsMembership(RuleOrder, Passing(Enriched(f, p), boll), McapRoc);
  }

  /**
   * A pair reaches the vote only with an address, 60 candles, a price and
   * enough snapshot liquidity, and the market-cap rule is never among its hits.
   */
  lemma VotedPair(p: Pair, candlesOf: string -> seq<Candle>, boll: seq<real> -> bool)
    requires Evaluation(p, candlesOf, boll).Voted?
    ensures Address(p).Some? && |candlesOf(Address(p).value)| >= MinCandles
    ensures p.priceUsd.Some? && LiquidityUsd(p.liquidity) >= MinLiqUsd
    ensures McapRoc !in Evaluation(p, candlesOf, boll).hits
  {
    AdmittedTable(FromCandles(candlesOf(Address(p).value)), p, boll);
  }

  /** The scan loop's body for one pair: the same steps on a mutable table. */
  method EvaluatePair(p: Pair, candlesOf: string -> seq<Candle>, boll: seq<real> -> bool) returns (outcome: Outcome)
    ensures outcome == Evaluation(p, candlesOf, boll)
  {
    var addr := Address(p);
    if addr.None? {
      return NoAddress;
    }
    var candles := candlesOf(addr.value);
    if |candles| < MinCandles {
      return TooShort;
    }
    var df := new DataFrame(candles);
    df.EnrichWithSnapshot(p);
    var f := df.View();
    if !Guards(f) {
      return Rejected;
    }
    var hits := Vote(f, boll);
    outcome := Voted(hits);
  }

  // ---------------------------------------------------------------- alerts

  /** An alert: the pair's label and the rules that passed. */
  datatype Alert = Alert(symbol: string, signals: seq<RuleName>)

  /** A pair raises an alert exactly when it reached the vote with at least two hits. */
  function AlertFor(p: Pair, o: Outcome): (a: Option<Alert>)
    ensures a.Some? <==> o.Voted? && |o.hits| >= MinSignalsRequired
    ensures a.Some? ==> a.value == Alert(Symbol(p), o.hits)
  {
    if o.Voted? && |o.hits| >= MinSignalsRequired then Some(Alert(Symbol(p), o.hits)) else None
  }

  /** The alerts of the pairs examined, in list order, given each pair's outcome. */
  function Alerts(pairs: seq<Pair>, outcomes: seq<Outcome>): (alerts: seq<Alert>)
    requires |outcomes| == |pairs|
    ensures |alerts| <= |pairs|
    ensures forall a :: a in alerts ==> |a.signals| >= MinSignalsRequired && a.symbol != ""
  {
    if pairs == [] then []
    else
      var last := |pairs| - 1;
      var init := Alerts(pairs[..last], outcomes[..last]);
      match AlertFor(pairs[last], outcomes[last])
      case Some(a) => init + [a]
      case None => init
  }

  /** Examining one more pair appends its alert, if it has one. */
  lemma AlertsAppend(pairs: seq<Pair>, outcomes: seq<Outcome>, p: Pair, o: Outcome)
    requires |outcomes| == |pairs|
    ensures Alerts(pairs + [p], outcomes + [o]) ==
      Alerts(pairs, outcomes) + (if AlertFor(p, o).Some? then [AlertFor(p, o).value] else [])
  {
    assert (pairs + [p])[..|pairs|] == pairs;
    assert (outcomes + [o])[..|outcomes|] == outcomes;
  }

  /** An alert of the scan is exactly the alert of one of its pairs. */
  lemma {:induction false} AlertsMembership(pairs: seq<Pair>, outcomes: seq<Outcome>, a: Alert)
    requires |outcomes| == |pairs|
    ensures a in Alerts(pairs, outcomes) <==>
      exists i :: 0 <= i < |pairs| && AlertFor(pairs[i], outcomes[i]) == Some(a)
  {
    if pairs != [] {
      var last := |pairs| - 1;
      var ps, os := pairs[..last], outcomes[..last];
      AlertsMembership(ps, os, a);
      AlertsAppend(ps, os, pairs[last], outcomes[last]);
      assert pairs == ps + [pairs[last]];
      assert outcomes == os + [outcomes[last]];
      if exists i :: 0 <= i < |pairs| && AlertFor(pairs[i], outcomes[i]) == Some(a) {
        var i :| 0 <= i < |pairs| && AlertFor(pairs[i], outcomes[i]) == Some(a);
        if i < last {
          assert ps[i] == pairs[i] && os[i] == outcomes[i];
        }
      }
    }
  }

  /**
   * Every alert of a scan names at least two rules, in consultation order,
   * and never the market-cap rule: an alert needs two of the crossover,
   * Bollinger, RSI and OBV rules.
   */
  lemma AlertSignals(pairs: seq<Pair>, outcomes: seq<Outcome>, candlesOf: string -> seq<Candle>, boll: seq<real> -> bool, a: Alert)
    requires |outcomes| == |pairs|
    requires forall i :: 0 <= i < |pairs| ==> outcomes[i] == Evaluation(pairs[i], candlesOf, boll)
    requires a in Alerts(pairs, outcomes)
    ensures |a.signals| >= MinSignalsRequired && Ascending(a.signals) && McapRoc !in a.signals
  {
    AlertsMembership(pairs, outcomes, a);
    var i :| 0 <= i < |pairs| && AlertFor(pairs[i], outcomes[i]) == Some(a);
    var p := pairs[i];
    VotedPair(p, candlesOf, boll);
    HitsOrdered(Passing(Enriched(FromCandles(candlesOf(Address(p).value)), p), boll));
  }

  /** Each pair's outcome, in list order. */
  function Outcomes(pairs: seq<Pair>, candlesOf: string -> seq<Candle>, boll: seq<real> -> bool): (os: seq<Outcome>)
    ensures |os| == |pairs|
  {
    seq(|pairs|, i requires 0 <= i < |pairs| => Evaluation(pairs[i], candlesOf, boll))
  }

  /** The outcomes of one more pair extend the outcomes by that pair's own. */
  lemma OutcomesAppend(pairs: seq<Pair>, i: nat, candlesOf: string -> seq<Candle>, boll: seq<real> -> bool)
    requires i < |pairs|
    ensures Outcomes(pairs[..i + 1], candlesOf, boll) == Outcomes(pairs[..i], candlesOf, boll) + [Evaluation(pairs[i], candlesOf, boll)]
  {
  }

  /** One more pair examined: its outcome and its alert, if any, are appended. */
  lemma ScanStep(pairs: seq<Pair>, i: nat, outcomes: seq<Outcome>, alerts: seq<Alert>, o: Outcome,
                 candlesOf: string -> seq<Candle>, boll: seq<real> -> bool)
    requires i < |pairs| && outcomes == Outcomes(pairs[..i], candlesOf, boll)
    requires alerts == Alerts(pairs[..i], outcomes) && o == Evaluation(pairs[i], candlesOf, boll)
    ensures outcomes + [o] == Outcomes(pairs[..i + 1], candlesOf, boll)
    ensures Alerts(pairs[..i + 1], outcomes + [o]) ==
      alerts + (if AlertFor(pairs[i], o).Some? then [AlertFor(pairs[i], o).value] else [])
  {
    AlertsAppend(pairs[..i], outcomes, pairs[i], o);
    assert pairs[..i + 1] == pairs[..i] + [pairs[i]];
    OutcomesAppend(pairs, i, candlesOf, boll);
  }

  /**
   * `scan_once`: at most 20 pairs from the front of the list, each evaluated
   * in turn; the alerts are those of the pairs examined, each with at least
   * two signals.
   */
  method ScanOnce(pairs: seq<Pair>, candlesOf: string -> seq<Candle>, boll: seq<real> -> bool)
    returns (outcomes: seq<Outcome>, alerts: seq<Alert>)
    ensures |outcomes| == if |pairs| < PairsPerScan then |pairs| else PairsPerScan
    ensures forall i :: 0 <= i < |outcomes| ==> outcomes[i] == Evaluation(pairs[i], candlesOf, boll)
    ensures alerts == Alerts(pairs[..|outcomes|], outcomes)
    ensures |alerts| <= PairsPerScan
    ensures forall a :: a in alerts ==> |a.signals| >= MinSignalsRequired
  {
    var count := if |pairs| < PairsPerScan then |pairs| else PairsPerScan;
    outcomes, alerts := [], [];
    var i := 0;
    while i < count
      invariant 0 <= i <= count
      invariant |outcomes| == i
      invariant outcomes == Outcomes(pairs[..i], candlesOf, boll)
      invariant alerts == Alerts(pairs[..i], outcomes)
    {
      var outcome := EvaluatePair(pairs[i], candlesOf, boll);
      var alert := AlertFor(pairs[i], outcome);
      ScanStep(pairs, i, outcomes, alerts, outcome, candlesOf, boll);
      if alert.Some? {
        alerts := alerts + [alert.value];
      }
      outcomes := outcomes + [outcome];
      i := i + 1;
    }
    forall j | 0 <= j < i ensures outcomes[j] == Evaluation(pairs[j], candlesOf, boll) {
      assert pairs[..i][j] == pairs[j];
    }
  }
}
