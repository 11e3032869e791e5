/** What more weaknesses, saturated counts and ceilings do to the score, for any table of penalties. */
module ScoreProofs {
  import opened Evidence
  import opened ReadinessScore
  import opened SeverityBands
  import opened Wrappers

  // ---------------------------------------------------------------- curve and rounding

  lemma ProductPositive(x: real, y: real)
    requires x > 0.0 && y > 0.0
    ensures x * y > 0.0
  {
  }

  lemma SquaresStrict(x: real, y: real)
    requires x > y >= 0.0
    ensures x * x > y * y
  {
    ProductPositive(x - y, x + y);
    assert (x - y) * (x + y) == x * x - y * y;
  }

  lemma SquaresOrder(x: real, y: real)
    requires x >= 0.0 && y >= 0.0 && x * x <= y * y
    ensures x <= y
  {
    if x > y {
      SquaresStrict(x, y);
    }
  }

  /** The curve rises from 0, stays within 1 and is flat from the anchor on. */
  lemma CurveShape(c: nat -> real, a: nat, b: nat)
    requires IsCurve(c) && a <= b
    ensures 0.0 <= c(a) <= c(b) <= 1.0
    ensures c(0) == 0.0
    ensures a >= N_REF ==> c(a) == c(b)
  {
    assert c(a) * c(a) * 40.0 <= c(b) * c(b) * 40.0;
    SquaresOrder(c(a), c(b));
    assert c(b) * c(b) <= 1.0;
    SquaresOrder(c(b), 1.0);
    assert c(0) * c(0) * 40.0 == 0.0;
    SquaresOrder(c(0), 0.0);
    if a >= N_REF {
      assert c(a) * c(a) == c(b) * c(b);
      SquaresOrder(c(b), c(a));
    }
  }

  /** The defining equation leaves no choice of curve. */
  lemma CurveUnique(c: nat -> real, c': nat -> real, n: nat)
    requires IsCurve(c) && IsCurve(c')
    ensures c(n) == c'(n)
  {
    assert c(n) * c(n) * 40.0 == c'(n) * c'(n) * 40.0;
    SquaresOrder(c(n), c'(n));
    SquaresOrder(c'(n), c(n));
  }

  /** Round half to even: the result is a nearest integer, the even one on a tie, and no
      other integer is. */
  lemma RoundNearest(x: real, k: int)
    ensures k == RoundHalfEven(x) <==>
              && -0.5 <= k as real - x <= 0.5
              && (k as real - x == 0.5 || k as real - x == -0.5 ==> k % 2 == 0)
  {
    var low := x.Floor;
    assert low as real <= x < low as real + 1.0;
    if -0.5 <= k as real - x <= 0.5 {
      assert k == low || k == low + 1 || (k == low - 1 && false) by {
        assert k as real < low as real + 2.0 && k as real > low as real - 1.0;
      }
    }
  }

  lemma RoundMonotone(x: real, y: real)
    requires x <= y
    ensures RoundHalfEven(x) <= RoundHalfEven(y)
  {
    assert x.Floor <= y.Floor;
  }

  lemma RoundWhole(k: int)
    ensures RoundHalfEven(k as real) == k
  {
  }

  lemma SubscoreMonotone(a: real, b: real)
    requires a <= b
    ensures 0 <= Subscore(a) <= Subscore(b) <= 25
  {
    var clamp := (x: real) => if x < 0.0 then 0.0 else if x > DOMAIN_CAP then DOMAIN_CAP else x;
    RoundMonotone(0.0, clamp(a));
    RoundMonotone(clamp(a), clamp(b));
    RoundMonotone(clamp(b), 25.0);
    RoundWhole(0);
    RoundWhole(25);
  }

  lemma QuotientMonotone(a: real, b: real, k: real)
    requires a <= b && k > 0.0
    ensures a / k <= b / k
  {
    assert (b - a) / k >= 0.0;
    assert b / k == a / k + (b - a) / k;
  }

  lemma AverageMonotone(a: int, b: int, n: nat)
    requires n > 0 && 0 <= a <= b <= 25 * n
    ensures 0 <= Average(a, n) <= Average(b, n) <= 100
  {
    var k := n as real * DOMAIN_CAP;
    QuotientMonotone(0.0, a as real, k);
    QuotientMonotone(a as real, b as real, k);
    QuotientMonotone(b as real, k, k);
    assert k / k == 1.0;
    RoundMonotone(0.0, a as real / k * 100.0);
    RoundMonotone(a as real / k * 100.0, b as real / k * 100.0);
    RoundMonotone(b as real / k * 100.0, 100.0);
    RoundWhole(0);
    RoundWhole(100);
  }

  lemma ProductMonotone(u: nat, v: nat, a: nat, b: nat)
    requires u <= v && a <= b
    ensures u * a <= v * b
  {
    assert (v - u) * a >= 0 && v * (b - a) >= 0;
    assert v * b == u * a + (v - u) * a + v * (b - a);
  }

  lemma SqueezeMonotone(u: nat, v: nat, a: nat, b: nat)
    requires u <= v && a <= b
    ensures 0 <= Squeeze(u, a) <= Squeeze(v, b)
  {
    ProductMonotone(u, v, a, b);
    RoundMonotone(0.0, (u * a) as real / 100.0);
    RoundMonotone((u * a) as real / 100.0, (v * b) as real / 100.0);
    RoundWhole(0);
  }

  lemma SqueezeWhole(a: nat)
    ensures Squeeze(100, a) == a && Squeeze(a, 100) == a
  {
    assert (100 * a) as real / 100.0 == a as real;
    assert 100 * a == a * 100;
    RoundWhole(a);
  }

  lemma SqueezeBelow(v: nat, b: nat)
    requires v <= 100 && b <= 100
    ensures 0 <= Squeeze(v, b) <= v && Squeeze(v, b) <= b
  {
    SqueezeMonotone(v, 100, b, b);
    SqueezeWhole(b);
    SqueezeMonotone(v, v, b, 100);
    SqueezeWhole(v);
  }

  // ---------------------------------------------------------------- ceilings

  ghost predicate Ordered(cs: seq<Ceiling>) {
    forall i, j :: 0 <= i < j < |cs| ==> Before(cs[i], cs[j])
  }

  lemma {:induction false} InsertKeeps(x: Ceiling, cs: seq<Ceiling>)
    ensures multiset(Insert(x, cs)) == multiset(cs) + multiset{x}
    decreases |cs|
  {
    if |cs| > 0 {
      assert cs == [cs[0]] + cs[1..];
      if Before(cs[0], x) {
        InsertKeeps(x, cs[1..]);
      }
    }
  }

  lemma {:induction false} InsertOrdered(x: Ceiling, cs: seq<Ceiling>)
    requires Ordered(cs)
    ensures Ordered(Insert(x, cs))
    decreases |cs|
  {
    if |cs| > 0 && Before(cs[0], x) {
      InsertOrdered(x, cs[1..]);
      InsertKeeps(x, cs[1..]);
      var rest := Insert(x, cs[1..]);
      forall j | 0 <= j < |rest| ensures Before(cs[0], rest[j]) {
        assert rest[j] in multiset(rest);
        assert rest[j] in cs[1..] || rest[j] == x;
      }
    }
  }

  /** Sorting reports every applicable ceiling once, the winner first. */
  lemma {:induction false} SortedCeilings(cs: seq<Ceiling>)
    ensures Ordered(Sorted(cs)) && multiset(Sorted(cs)) == multiset(cs)
    decreases |cs|
  {
    if |cs| > 0 {
      SortedCeilings(cs[..|cs| - 1]);
      InsertOrdered(cs[|cs| - 1], Sorted(cs[..|cs| - 1]));
      InsertKeeps(cs[|cs| - 1], Sorted(cs[..|cs| - 1]));
      assert cs == cs[..|cs| - 1] + [cs[|cs| - 1]];
    }
  }

  function ConsequenceValue(critical: nat, high: nat): nat {
    if critical >= 5 then 25 else if critical >= 1 then 34 else if high >= 3 then 54 else if high >= 1 then 69 else 100
  }

  lemma HeadIsLowest(cs: seq<Ceiling>)
    ensures |Sorted(cs)| == |cs|
    ensures |cs| > 0 ==> Sorted(cs)[0] in cs && forall x :: x in cs ==> Sorted(cs)[0].value <= x.value
  {
    SortedCeilings(cs);
    var sorted := Sorted(cs);
    assert |multiset(sorted)| == |multiset(cs)|;
    if |cs| > 0 {
      assert sorted[0] in multiset(sorted);
      forall x | x in cs ensures sorted[0].value <= x.value {
        assert x in multiset(sorted);
        var j :| 0 <= j < |sorted| && sorted[j] == x;
      }
    }
  }

  lemma LowestOfTwo(xs: seq<Ceiling>, ys: seq<Ceiling>)
    requires |xs| <= 1 && |ys| <= 1
    requires forall x :: x in xs + ys ==> x.value < 100
    ensures var cs := Sorted(xs + ys);
            var a, b := if |xs| == 0 then 100 else xs[0].value, if |ys| == 0 then 100 else ys[0].value;
            (if |cs| == 0 then 100 else cs[0].value) == if a <= b then a else b
  {
    HeadIsLowest(xs + ys);
    if |xs| == 1 {
      assert xs == [xs[0]];
    }
    if |ys| == 1 {
      assert ys == [ys[0]];
    }
  }

  /** The ceiling that binds, 100 when none applies. */
  function Binding(found: seq<Ceiling>): nat {
    if |Sorted(found)| == 0 then 100 else Sorted(found)[0].value
  }

  lemma BindingIsLowest(r: Path -> nat, critical: nat, high: nat)
    ensures var found := Ceilings(r, critical, high);
            var consequence, readiness := ConsequenceValue(critical, high), if r(PQC_KEX_PATH) == 0 then 84 else 100;
            && Binding(found) == (if consequence <= readiness then consequence else readiness)
            && forall x :: x in found ==> Binding(found) <= x.value
  {
    var xs := ConsequenceCeiling(critical, high);
    var ys := if r(PQC_KEX_PATH) == 0 then [Ceiling(TOP_GOOD, PqcReadiness, Pqc)] else [];
    assert Ceilings(r, critical, high) == xs + ys;
    HeadIsLowest(xs + ys);
    LowestOfTwo(xs, ys);
  }

  // ---------------------------------------------------------------- the composition

  lemma {:induction false} TotalBounds(raw: Domain -> real, assessed: Domain -> bool, ds: seq<Domain>)
    ensures 0 <= AssessedTotal(assessed, raw, ds) <= 25 * AssessedCount(assessed, ds)
    decreases |ds|
  {
    if |ds| > 0 {
      TotalBounds(raw, assessed, ds[..|ds| - 1]);
      SubscoreMonotone(raw(ds[|ds| - 1]), raw(ds[|ds| - 1]));
    }
  }

  lemma {:induction false} TotalFalls(high: Domain -> real, low: Domain -> real, assessed: Domain -> bool, ds: seq<Domain>)
    requires forall d :: low(d) <= high(d)
    ensures AssessedTotal(assessed, low, ds) <= AssessedTotal(assessed, high, ds)
    decreases |ds|
  {
    if |ds| > 0 {
      TotalFalls(high, low, assessed, ds[..|ds| - 1]);
      SubscoreMonotone(low(ds[|ds| - 1]), high(ds[|ds| - 1]));
    }
  }

  lemma ComposeIsSqueeze(raw: Domain -> real, assessed: Domain -> bool, found: seq<Ceiling>)
    requires Compose(raw, assessed, found).Success?
    ensures var r := Compose(raw, assessed, found).value;
            0 <= r.computed <= 100 && r.emitted == Squeeze(Binding(found), r.computed)
  {
    var total := AssessedTotal(assessed, raw, DOMAINS);
    TotalBounds(raw, assessed, DOMAINS);
    AverageMonotone(total, total, AssessedCount(assessed, DOMAINS));
    SqueezeWhole(Compose(raw, assessed, found).value.computed);
  }

  lemma {:induction false} TotalFlat(raw: Domain -> real, raw': Domain -> real,
                                     assessed: Domain -> bool, assessed': Domain -> bool, ds: seq<Domain>)
    requires forall d :: raw(d) == raw'(d) && assessed(d) == assessed'(d)
    ensures AssessedCount(assessed, ds) == AssessedCount(assessed', ds)
    ensures AssessedTotal(assessed, raw, ds) == AssessedTotal(assessed', raw', ds)
    decreases |ds|
  {
    if |ds| > 0 {
      TotalFlat(raw, raw', assessed, assessed', ds[..|ds| - 1]);
    }
  }

  lemma ComposeSame(raw: Domain -> real, raw': Domain -> real,
                    assessed: Domain -> bool, assessed': Domain -> bool, found: seq<Ceiling>)
    requires forall d :: raw(d) == raw'(d) && assessed(d) == assessed'(d)
    ensures Compose(raw, assessed, found) == Compose(raw', assessed', found)
  {
    TotalFlat(raw, raw', assessed, assessed', DOMAINS);
    var m, m' := AssessedSubscores(raw, assessed), AssessedSubscores(raw', assessed');
    assert m.Keys == m'.Keys;
    assert m == m';
  }

  lemma TotalsFall(high: Domain -> real, low: Domain -> real, assessed: Domain -> bool, n: nat)
    requires forall d :: low(d) <= high(d)
    requires n == AssessedCount(assessed, DOMAINS) && n > 0
    ensures 0 <= Average(AssessedTotal(assessed, low, DOMAINS), n) <= Average(AssessedTotal(assessed, high, DOMAINS), n) <= 100
  {
    TotalBounds(low, assessed, DOMAINS);
    TotalBounds(high, assessed, DOMAINS);
    TotalFalls(high, low, assessed, DOMAINS);
    AverageMonotone(AssessedTotal(assessed, low, DOMAINS), AssessedTotal(assessed, high, DOMAINS), n);
  }

  /** Lower domain values and a lower binding ceiling never compose to a higher score. */
  lemma ComposeFalls(high: Domain -> real, low: Domain -> real, assessed: Domain -> bool, assessed': Domain -> bool,
                     before: seq<Ceiling>, after: seq<Ceiling>)
    requires forall d :: low(d) <= high(d)
    requires forall d :: assessed(d) == assessed'(d)
    requires Binding(after) <= Binding(before)
    ensures Compose(low, assessed', after).Success? == Compose(high, assessed, before).Success?
    ensures Compose(high, assessed, before).Success? ==>
              var r, r' := Compose(high, assessed, before).value, Compose(low, assessed', after).value;
              r'.emitted <= r.emitted && r'.computed <= r.computed
  {
    ComposeSame(low, low, assessed, assessed', after);
    var n := AssessedCount(assessed, DOMAINS);
    if n > 0 {
      TotalsFall(high, low, assessed, n);
      ComposeIsSqueeze(low, assessed, after);
      ComposeIsSqueeze(high, assessed, before);
      SqueezeMonotone(Binding(after), Binding(before), Compose(low, assessed, after).value.computed,
                      Compose(high, assessed, before).value.computed);
    }
  }

  // ---------------------------------------------------------------- the score as a whole

  ghost predicate Scored(c: nat -> real, ts: seq<Term>, e: Evidence) {
    IsCurve(c) && ScoreWith(c, ts, e).Success?
  }

  function Score(c: nat -> real, ts: seq<Term>, e: Evidence): int
    requires ScoreWith(c, ts, e).Success?
  {
    ScoreWith(c, ts, e).value.emitted
  }

  lemma ScoreSqueezed(c: nat -> real, ts: seq<Term>, e: Evidence)
    requires Scored(c, ts, e)
    ensures var r := ScoreWith(c, ts, e).value;
            0 <= r.computed <= 100 && r.emitted == Squeeze(Binding(FoundCeilings(e)), r.computed)
  {
    ComposeIsSqueeze(Raws(c, ts, View(e)), Assessment(View(e)), FoundCeilings(e));
  }

  /** 0 <= emitted <= computed <= 100, and emitted is below every ceiling that applies. */
  lemma ScoreBounds(c: nat -> real, ts: seq<Term>, e: Evidence)
    requires Scored(c, ts, e)
    ensures var r := ScoreWith(c, ts, e).value;
            && 0 <= r.emitted <= r.computed <= 100
            && forall x :: x in FoundCeilings(e) ==> r.emitted <= x.value
  {
    ScoreSqueezed(c, ts, e);
    BindingIsLowest(View(e), SeverityCount(e, SevCritical), SeverityCount(e, SevHigh));
    SqueezeBelow(Binding(FoundCeilings(e)), ScoreWith(c, ts, e).value.computed);
  }

  lemma BandBelow(score: int)
    ensures score <= TOP_POOR ==> BandForScore(score) == POOR
    ensures score <= TOP_FAIR ==> Rank(BandForScore(score)) >= Rank(FAIR)
    ensures score <= TOP_MODERATE ==> Rank(BandForScore(score)) >= Rank(MODERATE)
    ensures score <= TOP_GOOD ==> BandForScore(score) != EXCELLENT
  {
  }

  lemma ScoreBelowFormula(c: nat -> real, ts: seq<Term>, e: Evidence)
    requires Scored(c, ts, e)
    ensures Score(c, ts, e) <= ConsequenceValue(SeverityCount(e, SevCritical), SeverityCount(e, SevHigh))
    ensures Read(e, PQC_KEX_PATH) == 0 ==> Score(c, ts, e) <= TOP_GOOD
  {
    ScoreSqueezed(c, ts, e);
    BindingIsLowest(View(e), SeverityCount(e, SevCritical), SeverityCount(e, SevHigh));
    SqueezeBelow(Binding(FoundCeilings(e)), ScoreWith(c, ts, e).value.computed);
  }

  /** Bands follow the ceilings: a CRITICAL means POOR, which the severity cap then leaves
      alone; three HIGH rule out MODERATE; one HIGH rules out GOOD; no PQC key exchange
      rules out EXCELLENT. */
  lemma CeilingsForceBands(c: nat -> real, ts: seq<Term>, e: Evidence)
    requires Scored(c, ts, e)
    ensures var band := BandForScore(Score(c, ts, e));
            && (SeverityCount(e, SevCritical) >= 1 ==>
                  band == POOR && CapBandForSeverity(Known(band), SeverityCount(e, SevCritical)) == Success(band))
            && (SeverityCount(e, SevHigh) >= 3 ==> Rank(band) >= Rank(FAIR))
            && (SeverityCount(e, SevHigh) >= 1 ==> Rank(band) >= Rank(MODERATE))
            && (Read(e, PQC_KEX_PATH) == 0 ==> band != EXCELLENT)
  {
    ScoreBelowFormula(c, ts, e);
    BandBelow(Score(c, ts, e));
    CapIsLeastDestructive(Known(POOR), SeverityCount(e, SevCritical));
  }

  // ---------------------------------------------------------------- comparing two evidences

  /** Everything but the weakness counts and severities reads the same. */
  ghost predicate SameGates(r: Path -> nat, s: Path -> nat) {
    && (forall d :: Assessed(r, d) == Assessed(s, d))
    && KeyTypeTerm(r) == KeyTypeTerm(s)
    && PqcCredit(r) == PqcCredit(s)
    && (r(MTLS_PATH) > 0 <==> s(MTLS_PATH) > 0)
    && (r(PQC_KEX_PATH) == 0 <==> s(PQC_KEX_PATH) == 0)
  }

  ghost predicate AtMost(a: Path -> nat, b: Path -> nat, terms: seq<Term>) {
    forall i :: 0 <= i < |terms| ==> a(terms[i].path) <= b(terms[i].path)
  }

  ghost predicate MoreWeaknesses(ts: seq<Term>, r: Path -> nat, s: Path -> nat) {
    SameGates(r, s) && AtMost(Numerators(r), Numerators(s), ts) && r(SCAN_ERROR_PATH) <= s(SCAN_ERROR_PATH)
  }

  /** `f` has at least the weaknesses and findings of `e`, and differs in nothing else. */
  ghost predicate Worse(ts: seq<Term>, e: Evidence, f: Evidence) {
    && (AssessableEndpointCount in e <==> AssessableEndpointCount in f)
    && MoreWeaknesses(ts, View(e), View(f))
    && SeverityCount(e, SevCritical) <= SeverityCount(f, SevCritical)
    && SeverityCount(e, SevHigh) <= SeverityCount(f, SevHigh)
  }

  ghost predicate Penalties(terms: seq<Term>) {
    forall i :: 0 <= i < |terms| ==> terms[i].sign == -1 && terms[i].weight >= 0.0
  }

  lemma ScaleFalls(x: real, y: real, w: real)
    requires x <= y && w >= 0.0
    ensures -1.0 * y * w <= -1.0 * x * w
    ensures x * w <= y * w
  {
    assert (y - x) * w >= 0.0;
  }

  lemma ContributionFalls(c: nat -> real, t: Term, a: nat, b: nat)
    requires IsCurve(c) && t.sign == -1 && t.weight >= 0.0 && a <= b
    ensures Contribution(c, t, b) <= Contribution(c, t, a)
  {
    CurveShape(c, a, b);
    ScaleFalls(c(a), c(b), t.weight);
  }

  lemma {:induction false} TermSumFalls(c: nat -> real, a: Path -> nat, b: Path -> nat, terms: seq<Term>, d: Domain)
    requires IsCurve(c) && Penalties(terms) && AtMost(a, b, terms)
    ensures TermSum(c, b, terms, d) <= TermSum(c, a, terms, d)
    decreases |terms|
  {
    if |terms| > 0 {
      var t := terms[|terms| - 1];
      TermSumFalls(c, a, b, terms[..|terms| - 1], d);
      ContributionFalls(c, t, a(t.path), b(t.path));
    }
  }

  lemma PresenceSame(r: Path -> nat, s: Path -> nat, d: Domain)
    requires r(MTLS_PATH) > 0 <==> s(MTLS_PATH) > 0
    ensures PresenceSum(r, PRESENCE_TERMS, d) == PresenceSum(s, PRESENCE_TERMS, d)
  {
    assert PRESENCE_TERMS[0].path == MTLS_PATH;
    assert PRESENCE_TERMS[..0] == [];
  }

  lemma ScanErrorRises(c: nat -> real, a: nat, b: nat, d: Domain)
    requires IsCurve(c) && a <= b
    ensures ScanErrorPenalty(c, a, d) <= ScanErrorPenalty(c, b, d)
  {
    CurveShape(c, a, b);
    if d in SCAN_ERROR_WEIGHTS {
      ScaleFalls(c(a), c(b), SCAN_ERROR_WEIGHTS[d]);
    }
  }

  lemma RawFalls(c: nat -> real, ts: seq<Term>, r: Path -> nat, s: Path -> nat, d: Domain)
    requires IsCurve(c) && Penalties(ts) && MoreWeaknesses(ts, r, s)
    ensures Raw(c, ts, s, d) <= Raw(c, ts, r, d)
  {
    TermSumFalls(c, Numerators(r), Numerators(s), ts, d);
    PresenceSame(r, s, d);
    ScanErrorRises(c, r(SCAN_ERROR_PATH), s(SCAN_ERROR_PATH), d);
  }

  lemma ConsequenceFalls(a: nat, b: nat, x: nat, y: nat)
    requires a <= x && b <= y
    ensures ConsequenceValue(x, y) <= ConsequenceValue(a, b)
  {
  }

  lemma SqueezedLower(c: nat -> real, ts: seq<Term>, e: Evidence, f: Evidence)
    requires Scored(c, ts, e)
    requires AssessableEndpointCount in f
    requires forall d :: Assessment(View(e))(d) == Assessment(View(f))(d)
    requires forall d :: Raws(c, ts, View(f))(d) <= Raws(c, ts, View(e))(d)
    requires Binding(FoundCeilings(f)) <= Binding(FoundCeilings(e))
    ensures Scored(c, ts, f) && Score(c, ts, f) <= Score(c, ts, e)
    ensures ScoreWith(c, ts, f).value.computed <= ScoreWith(c, ts, e).value.computed
  {
    var r, s := View(e), View(f);
    ComposeFalls(Raws(c, ts, r), Raws(c, ts, s), Assessment(r), Assessment(s), FoundCeilings(e), FoundCeilings(f));
  }

  lemma BindingFalls(r: Path -> nat, s: Path -> nat, a: nat, b: nat, x: nat, y: nat)
    requires r(PQC_KEX_PATH) == 0 <==> s(PQC_KEX_PATH) == 0
    requires a <= x && b <= y
    ensures Binding(Ceilings(s, x, y)) <= Binding(Ceilings(r, a, b))
  {
    BindingIsLowest(r, a, b);
    BindingIsLowest(s, x, y);
    ConsequenceFalls(a, b, x, y);
  }

  /** More weaknesses, scan errors, CRITICAL or HIGH findings, any number of them at once,
      never raise the emitted score: through the curve, the clamps, both roundings, the
      average over assessed domains and the squeeze. */
  lemma WorseNeverScoresHigher(c: nat -> real, ts: seq<Term>, e: Evidence, f: Evidence)
    requires Scored(c, ts, e) && Penalties(ts) && Worse(ts, e, f)
    ensures Scored(c, ts, f) && Score(c, ts, f) <= Score(c, ts, e)
    ensures ScoreWith(c, ts, f).value.computed <= ScoreWith(c, ts, e).value.computed
  {
    forall d ensures Raws(c, ts, View(f))(d) <= Raws(c, ts, View(e))(d) {
      RawFalls(c, ts, View(e), View(f), d);
    }
    BindingFalls(View(e), View(f), SeverityCount(e, SevCritical), SeverityCount(e, SevHigh),
                 SeverityCount(f, SevCritical), SeverityCount(f, SevHigh));
    SqueezedLower(c, ts, e, f);
  }

  ghost predicate SameToAnchor(a: nat, b: nat) {
    a == b || (a >= N_REF && b >= N_REF)
  }

  ghost predicate AllToAnchor(a: Path -> nat, b: Path -> nat, terms: seq<Term>) {
    forall i :: 0 <= i < |terms| ==> SameToAnchor(a(terms[i].path), b(terms[i].path))
  }

  /** The two views agree on everything but counts that are past the anchor in both. */
  ghost predicate Saturated(ts: seq<Term>, r: Path -> nat, s: Path -> nat) {
    && SameGates(r, s)
    && AllToAnchor(Numerators(r), Numerators(s), ts)
    && SameToAnchor(r(SCAN_ERROR_PATH), s(SCAN_ERROR_PATH))
  }

  lemma CurveFlat(c: nat -> real, a: nat, b: nat)
    requires IsCurve(c) && SameToAnchor(a, b)
    ensures c(a) == c(b)
  {
    if a <= b {
      CurveShape(c, a, b);
    } else {
      CurveShape(c, b, a);
    }
  }

  lemma {:induction false} TermSumFlat(c: nat -> real, a: Path -> nat, b: Path -> nat, terms: seq<Term>, d: Domain)
    requires IsCurve(c) && AllToAnchor(a, b, terms)
    ensures TermSum(c, a, terms, d) == TermSum(c, b, terms, d)
    decreases |terms|
  {
    if |terms| > 0 {
      var t := terms[|terms| - 1];
      TermSumFlat(c, a, b, terms[..|terms| - 1], d);
      CurveFlat(c, a(t.path), b(t.path));
    }
  }

  lemma RawFlat(c: nat -> real, ts: seq<Term>, r: Path -> nat, s: Path -> nat, d: Domain)
    requires IsCurve(c) && Saturated(ts, r, s)
    ensures Raw(c, ts, r, d) == Raw(c, ts, s, d)
  {
    TermSumFlat(c, Numerators(r), Numerators(s), ts, d);
    PresenceSame(r, s, d);
    CurveFlat(c, r(SCAN_ERROR_PATH), s(SCAN_ERROR_PATH));
  }

  /** Past 40 a weakness or scan-error count has no further effect: the whole report is equal. */
  lemma PastTheAnchorNothingChanges(c: nat -> real, ts: seq<Term>, e: Evidence, f: Evidence)
    requires IsCurve(c) && Saturated(ts, View(e), View(f))
    requires AssessableEndpointCount in e <==> AssessableEndpointCount in f
    requires SeverityCount(e, SevCritical) == SeverityCount(f, SevCritical)
    requires SeverityCount(e, SevHigh) == SeverityCount(f, SevHigh)
    ensures ScoreWith(c, ts, e) == ScoreWith(c, ts, f)
  {
    var r, s := View(e), View(f);
    forall d ensures Raws(c, ts, r)(d) == Raws(c, ts, s)(d) {
      RawFlat(c, ts, r, s, d);
    }
    ComposeSame(Raws(c, ts, r), Raws(c, ts, s), Assessment(r), Assessment(s), FoundCeilings(e));
  }
}
