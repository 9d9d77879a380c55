/** The search for a timer's prescaler and period, in 32-bit arithmetic. */
module TimerSearch {
  import opened Common

  const PRESCALERS: seq<nat> := [1, 2, 4, 8, 16, 64, 256, 1024]

  datatype Setting = Setting(prescaler: nat, period: nat)

  /** A prescaler the hardware has, and a period that fits its register. */
  ghost predicate Possible(s: Setting) {
    s.prescaler in PRESCALERS && s.period <= 0xff
  }

  /** The frequency a setting gives. */
  function Output(inFreq: uint32, s: Setting): nat
    requires s.prescaler > 0
  {
    inFreq / (s.prescaler * (s.period + 1))
  }

  // ---------- the search ----------

  /** No product of the frequency and a prescaler wraps round to zero, by which the search could not divide. */
  predicate Divisible(freq: uint32) {
    forall i :: 0 <= i < 8 ==> Product(freq, PRESCALERS[i]) != 0
  }

  /** That is so exactly for requests that are no multiple of 4 MiHz. */
  lemma DivisibleExactly(freq: uint32)
    ensures Divisible(freq) <==> freq % 0x40_0000 != 0
  {
    assert PRESCALERS[7] == 1024;
  }

  function Product(freq: uint32, p: nat): uint32 {
    freq * p % 0x1_0000_0000
  }

  /** The period for a prescaler, one too large when it comes out as zero minus one. */
  function RequiredPeriod(inFreq: uint32, freq: uint32, p: nat): uint32
    requires Product(freq, p) != 0
  {
    var q := inFreq / Product(freq, p);
    if q == 0 then 0xffff_ffff else q - 1
  }

  /** The difference of two words, taken for a signed word and made positive. */
  function Difference(a: uint32, b: uint32): uint32 {
    var d := if a >= b then a - b else a - b + 0x1_0000_0000;
    if d < 0x8000_0000 then d else 0x1_0000_0000 - d
  }

  function Deviation(inFreq: uint32, freq: uint32, s: Setting): uint32
    requires s.prescaler > 0
  {
    Smaller(inFreq, s.prescaler * (s.period + 1));
    Difference(Output(inFreq, s), freq)
  }

  lemma Smaller(v: nat, d: nat)
    requires d > 0
    ensures v / d <= v
  {
    if v / d > v {
      Multiple(v, d, v / d);
      AtLeastOnce(d, v / d);
    }
  }

  lemma Multiple(v: nat, d: nat, q: nat)
    requires d > 0
    ensures v / d >= q <==> v >= d * q
  {
    var (k, r) := (v / d, v % d);
    assert v == d * k + r;
    if k >= q { Scales(d, q, k); } else { Scales(d, k + 1, q); }
  }

  /** The better of the best setting so far and the one with prescaler `p`. */
  function Better(inFreq: uint32, freq: uint32, best: Option<Setting>, p: nat): Option<Setting>
    requires p > 0 && Product(freq, p) != 0
    requires best.Some? ==> best.value.prescaler > 0
  {
    var period := RequiredPeriod(inFreq, freq, p);
    if period > 0xff then best
    else
      var s := Setting(p, period);
      if best.None? || Deviation(inFreq, freq, s) < Deviation(inFreq, freq, best.value) then Some(s) else best
  }

  /** The best setting with one of the first `n` prescalers. */
  function Search(inFreq: uint32, freq: uint32, n: nat): (r: Option<Setting>)
    requires n <= 8 && Divisible(freq)
    ensures r.Some? ==> Possible(r.value)
  {
    if n == 0 then None
    else
      assert PRESCALERS[n - 1] > 0;
      Better(inFreq, freq, Search(inFreq, freq, n - 1), PRESCALERS[n - 1])
  }

  method CalculateFrequency(inFreq: uint32, freq: uint32, prescaler: nat, period: nat)
    returns (found: bool, prescaler': nat, period': nat)
    requires inFreq > 0 && freq > 0 && Divisible(freq)
    ensures match Search(inFreq, freq, 8)
            case None => !found && prescaler' == prescaler && period' == period
            case Some(s) => found && prescaler' == s.prescaler && period' == s.period
  {
    found, prescaler', period' := false, prescaler, period;
    var error: nat := 0;
    for i := 0 to 8
      invariant var best := Search(inFreq, freq, i);
        && found == best.Some?
        && if found then
             && best == Some(Setting(prescaler', period')) && prescaler' > 0
             && error == Deviation(inFreq, freq, best.value)
           else prescaler' == prescaler && period' == period
    {
      var p := PRESCALERS[i];
      var requiredPer := RequiredPeriod(inFreq, freq, p);
      if requiredPer > 0xff {
        continue;
      }
      var diff := Deviation(inFreq, freq, Setting(p, requiredPer));
      if !found || diff < error {
        error, period', prescaler', found := diff, requiredPer, p, true;
      }
    }
  }

  // ---------- what it finds ----------

  /** No product wraps. */
  ghost predicate InRange(inFreq: uint32, freq: uint32) {
    inFreq > 0 && freq > 0 && freq * 1024 < 0x1_0000_0000
  }

  lemma InRangeDivides(inFreq: uint32, freq: uint32)
    requires InRange(inFreq, freq)
    ensures Divisible(freq)
    ensures forall p :: p in PRESCALERS ==> p > 0 && Product(freq, p) == freq * p
  {
  }

  /** How often the divided request fits the input clock. */
  ghost function Quotient(inFreq: uint32, freq: uint32, p: nat): nat
    requires freq > 0 && p > 0
  {
    inFreq / (freq * p)
  }

  /** The setting for a prescaler whose period fits. */
  ghost predicate Candidate(inFreq: uint32, freq: uint32, p: nat)
    requires freq > 0
  {
    p in PRESCALERS && 1 <= Quotient(inFreq, freq, p) <= 256
  }

  ghost function With(inFreq: uint32, freq: uint32, p: nat): Setting
    requires freq > 0 && Candidate(inFreq, freq, p)
  {
    Setting(p, Quotient(inFreq, freq, p) - 1)
  }

  /** Halving or quartering the input clock divides the quotient, give or take a remainder. */
  lemma QuotientOf(inFreq: uint32, freq: uint32, p: nat, q: nat)
    requires freq > 0 && p > 0
    ensures Quotient(inFreq, freq, p) >= q <==> inFreq >= freq * p * q
  {
    Multiple(inFreq, freq * p, q);
  }

  /** A setting gives at least the request exactly when its divisor is small enough. */
  lemma OutputOf(inFreq: uint32, freq: uint32, s: Setting)
    requires freq > 0 && s.prescaler > 0
    ensures Output(inFreq, s) >= freq <==> s.period + 1 <= Quotient(inFreq, freq, s.prescaler)
  {
    var d := s.prescaler * (s.period + 1);
    Multiple(inFreq, d, freq);
    QuotientOf(inFreq, freq, s.prescaler, s.period + 1);
    assert d * freq == freq * s.prescaler * (s.period + 1);
  }

  /** A larger divisor gives no larger frequency. */
  lemma Slower(inFreq: uint32, s: Setting, t: Setting)
    requires s.prescaler > 0 && t.prescaler > 0
    requires s.prescaler * (s.period + 1) <= t.prescaler * (t.period + 1)
    ensures Output(inFreq, s) >= Output(inFreq, t)
  {
    var (d, e, q) := (s.prescaler * (s.period + 1), t.prescaler * (t.period + 1), Output(inFreq, t));
    Multiple(inFreq, e, q);
    Multiple(inFreq, d, q);
    assert (e - d) * q >= 0;
  }

  /** The wrapped product with a prescaler gives a period that fits. */
  predicate Fitting(inFreq: uint32, freq: uint32, p: nat)
    requires Product(freq, p) != 0
  {
    1 <= inFreq / Product(freq, p) <= 256
  }

  /** The setting the search tries for a prescaler. */
  function Tried(inFreq: uint32, freq: uint32, p: nat): Setting
    requires Product(freq, p) != 0
  {
    Setting(p, RequiredPeriod(inFreq, freq, p))
  }

  predicate Wraps(freq: uint32, p: nat) {
    freq * p >= 0x1_0000_0000
  }

  /** The first of the settings that deviate least, by the search's own measure. */
  ghost predicate FirstBest(inFreq: uint32, freq: uint32, n: nat, j: nat)
    requires j < n <= 8 && Divisible(freq)
  {
    && Fitting(inFreq, freq, PRESCALERS[j])
    && (forall i :: 0 <= i < n && Fitting(inFreq, freq, PRESCALERS[i]) ==>
          var (dev, other) := (Deviation(inFreq, freq, Tried(inFreq, freq, PRESCALERS[j])),
                               Deviation(inFreq, freq, Tried(inFreq, freq, PRESCALERS[i])));
          dev <= other && (i < j ==> dev < other))
  }

  /** The search keeps the first best of the settings it tries. */
  lemma {:induction false} SearchKeepsFirstBest(inFreq: uint32, freq: uint32, n: nat) returns (j: nat)
    requires Divisible(freq) && n <= 8
    ensures Search(inFreq, freq, n).None? <==> forall i :: 0 <= i < n ==> !Fitting(inFreq, freq, PRESCALERS[i])
    ensures Search(inFreq, freq, n).Some? ==>
      j < n && FirstBest(inFreq, freq, n, j) && Search(inFreq, freq, n) == Some(Tried(inFreq, freq, PRESCALERS[j]))
  {
    j := 0;
    if n > 0 {
      j := SearchKeepsFirstBest(inFreq, freq, n - 1);
      j := OneMoreTried(inFreq, freq, n - 1, j);
    }
  }

  /**
   * For each power of two up to 1024, a request that needs just that division, with the longest period, gets the
   * prescaler that divides so, or the next one with half the period if the hardware has none.
   */
  lemma EachPrescalerIsNeeded(freq: uint32, d: nat)
    requires d in {1, 2, 4, 8, 16, 32, 64, 128, 256, 512, 1024}
    requires freq > 0 && 1024 * freq < 0x1_0000_0000 && 256 * d * freq < 0x1_0000_0000
    ensures Divisible(freq)
    ensures Search(256 * d * freq, freq, 8) ==
            Some(if d in {32, 128, 512} then Setting(2 * d, 127) else Setting(d, 255))
  {
    var k := if d == 1 then 0 else if d == 2 then 1 else if d == 4 then 2 else if d == 8 then 3 else if d == 16 then 4
             else if d <= 64 then 5 else if d <= 256 then 6 else 7;
    FindsPrescaler(256 * d * freq, freq, d, k, if d in {32, 128, 512} then 128 else 256);
  }

  lemma FindsPrescaler(inFreq: uint32, freq: uint32, d: nat, k: nat, q: nat)
    requires InRange(inFreq, freq) && inFreq == 256 * d * freq
    requires k < 8 && 1 <= q <= 256 && PRESCALERS[k] * q == 256 * d
    requires forall i :: 0 <= i < k ==> PRESCALERS[i] * 257 <= 256 * d
    ensures Divisible(freq) && Search(inFreq, freq, 8) == Some(Setting(PRESCALERS[k], q - 1))
  {
    InRangeDivides(inFreq, freq);
    DividesAs(inFreq, freq, PRESCALERS[k], q);
    forall i | 0 <= i < k ensures !Fitting(inFreq, freq, PRESCALERS[i]) {
      DividesTooFar(inFreq, freq, d, PRESCALERS[i]);
    }
    var j := SearchKeepsFirstBest(inFreq, freq, 8);
    assert Fitting(inFreq, freq, PRESCALERS[k]);
    assert FirstBest(inFreq, freq, 8, j);
  }

  lemma DividesAs(inFreq: uint32, freq: uint32, p: nat, q: nat)
    requires freq > 0 && 1 <= q <= 256 && p > 0 && Product(freq, p) == freq * p && inFreq == p * q * freq
    ensures Fitting(inFreq, freq, p) && Tried(inFreq, freq, p) == Setting(p, q - 1)
    ensures Deviation(inFreq, freq, Setting(p, q - 1)) == 0
  {
    Exactly(inFreq, freq * p, q);
    AtLeastOnce(p, q);
    Exactly(inFreq, p * q, freq);
  }

  lemma Exactly(v: nat, d: nat, q: nat)
    requires d > 0 && v == d * q
    ensures v / d == q
  {
    Multiple(v, d, q);
    Multiple(v, d, q + 1);
  }

  lemma DividesTooFar(inFreq: uint32, freq: uint32, d: nat, p: nat)
    requires freq > 0 && p > 0 && Product(freq, p) == freq * p && inFreq == 256 * d * freq && p * 257 <= 256 * d
    ensures !Fitting(inFreq, freq, p)
  {
    Scales(freq, p * 257, 256 * d);
    Multiple(inFreq, freq * p, 257);
  }

  lemma OneMoreTried(inFreq: uint32, freq: uint32, n: nat, j: nat) returns (j': nat)
    requires Divisible(freq) && n < 8
    requires Search(inFreq, freq, n).None? <==> forall i :: 0 <= i < n ==> !Fitting(inFreq, freq, PRESCALERS[i])
    requires Search(inFreq, freq, n).Some? ==>
      j < n && FirstBest(inFreq, freq, n, j) && Search(inFreq, freq, n) == Some(Tried(inFreq, freq, PRESCALERS[j]))
    ensures Search(inFreq, freq, n + 1).None? <==>
      forall i :: 0 <= i < n + 1 ==> !Fitting(inFreq, freq, PRESCALERS[i])
    ensures Search(inFreq, freq, n + 1).Some? ==>
      && j' < n + 1 && FirstBest(inFreq, freq, n + 1, j')
      && Search(inFreq, freq, n + 1) == Some(Tried(inFreq, freq, PRESCALERS[j']))
  {
    var (r, p) := (Search(inFreq, freq, n), PRESCALERS[n]);
    BetterIs(inFreq, freq, r, p);
    j' := j;
    if Fitting(inFreq, freq, p) &&
       (r.None? || Deviation(inFreq, freq, Tried(inFreq, freq, p)) < Deviation(inFreq, freq, r.value))
    {
      j' := n;
    }
  }

  lemma BetterIs(inFreq: uint32, freq: uint32, best: Option<Setting>, p: nat)
    requires p > 0 && Product(freq, p) != 0 && (best.Some? ==> best.value.prescaler > 0)
    ensures var s := Tried(inFreq, freq, p);
      Better(inFreq, freq, best, p) ==
      if Fitting(inFreq, freq, p) && (best.None? || Deviation(inFreq, freq, s) < Deviation(inFreq, freq, best.value))
      then Some(s) else best
  {
  }

  /** A candidate is a prescaler that fits and whose product does not wrap. */
  lemma CandidateFits(inFreq: uint32, freq: uint32, p: nat)
    requires freq > 0 && p in PRESCALERS && Product(freq, p) != 0
    ensures Candidate(inFreq, freq, p) <==> Fitting(inFreq, freq, p) && !Wraps(freq, p)
    ensures Candidate(inFreq, freq, p) ==> Tried(inFreq, freq, p) == With(inFreq, freq, p)
  {
    QuotientOf(inFreq, freq, p, 1);
  }

  /** Less than twice the request, so that the signed difference does not overflow. */
  lemma DeviationIs(inFreq: uint32, freq: uint32, p: nat)
    requires freq > 0 && Candidate(inFreq, freq, p)
    ensures var s := With(inFreq, freq, p);
      freq <= Output(inFreq, s) < 2 * freq && Deviation(inFreq, freq, s) == Output(inFreq, s) - freq
  {
    var s := With(inFreq, freq, p);
    OutputOf(inFreq, freq, s);
    BelowTwice(inFreq, freq, p, Quotient(inFreq, freq, p));
    AtLeastOnce(p, s.period + 1);
    Smaller(inFreq, p * (s.period + 1));
  }

  /** With a wrapped product the output is below the request. */
  lemma WrappedIsBelow(inFreq: uint32, freq: uint32, s: Setting)
    requires freq > 0 && s.prescaler > 0 && Wraps(freq, s.prescaler)
    ensures Output(inFreq, s) < freq
  {
    OutputOf(inFreq, freq, s);
    QuotientOf(inFreq, freq, s.prescaler, 1);
  }

  lemma BelowTwice(inFreq: uint32, freq: uint32, p: nat, q: nat)
    requires freq > 0 && p > 0 && q == Quotient(inFreq, freq, p) && q > 0
    ensures p * q > 0 && inFreq / (p * q) < 2 * freq
  {
    QuotientOf(inFreq, freq, p, q + 1);
    AtLeastOnce(p, q);
    Multiple(inFreq, p * q, 2 * freq);
    var a := freq * p;
    assert p * q * (2 * freq) == a * (2 * q) by { Regroup(p, q, freq); }
    Scales(a, q + 1, 2 * q);
  }

  lemma Regroup(p: nat, q: nat, freq: nat)
    ensures p * q * (2 * freq) == freq * p * (2 * q)
  {
  }

  /** When a period does not fit, the next prescaler, two or four times as large, still divides at least as far. */
  lemma NextDividesFurther(inFreq: uint32, freq: uint32, p: nat, r: nat)
    requires freq > 0 && p > 0 && r in {2, 4} && Quotient(inFreq, freq, p) > 256
    ensures Quotient(inFreq, freq, p * r) * r >= 256
  {
    QuotientOf(inFreq, freq, p, 256);
    QuotientOf(inFreq, freq, p * r, 256 / r);
    assert freq * (p * r) * (256 / r) == freq * p * (r * (256 / r)) == freq * p * 256;
  }

  lemma Ratio(i: nat)
    requires i < 7
    ensures exists r :: r in {2, 4} && PRESCALERS[i + 1] == PRESCALERS[i] * r
  {
    var r := if i < 4 then 2 else 4;
    assert PRESCALERS[i + 1] == PRESCALERS[i] * r;
  }

  /** From a prescaler whose period does not fit there is one further on that does, and divides at least as far. */
  lemma {:induction false} FitsLater(inFreq: uint32, freq: uint32, i: nat) returns (j: nat)
    requires freq > 0 && i < 8
    requires Quotient(inFreq, freq, PRESCALERS[i]) > 256 && Quotient(inFreq, freq, 1024) <= 256
    ensures i < j < 8 && Candidate(inFreq, freq, PRESCALERS[j])
    ensures PRESCALERS[j] * Quotient(inFreq, freq, PRESCALERS[j]) >= PRESCALERS[i] * 256
    decreases 8 - i
  {
    assert i < 7;
    Ratio(i);
    var p := PRESCALERS[i];
    var r :| r in {2, 4} && PRESCALERS[i + 1] == p * r;
    NextDividesFurther(inFreq, freq, p, r);
    var q := Quotient(inFreq, freq, p * r);
    if q <= 256 {
      j := i + 1;
      Scales(p, 256, q * r);
      assert p * r * q == p * (q * r);
    } else {
      j := FitsLater(inFreq, freq, i + 1);
    }
  }

  // ---------- success ----------

  /** Neither above the input clock nor too far below it. */
  predicate Attainable(inFreq: uint32, freq: uint32)
    requires freq > 0
  {
    freq <= inFreq && inFreq / (1024 * freq) <= 256
  }

  lemma CandidateNeeds(inFreq: uint32, freq: uint32, p: nat)
    requires freq > 0 && Candidate(inFreq, freq, p)
    ensures Attainable(inFreq, freq) && Quotient(inFreq, freq, 1024) <= 256
  {
    QuotientOf(inFreq, freq, p, 1);
    QuotientOf(inFreq, freq, p, 257);
    QuotientOf(inFreq, freq, 1024, 257);
    assert freq * 1024 == 1024 * freq;
    assert 1 <= p <= 1024;
    assert freq * (p - 1) >= 0 && freq * (1024 - p) >= 0;
  }

  /** What is attainable has a candidate. */
  lemma AttainableHasCandidate(inFreq: uint32, freq: uint32) returns (j: nat)
    requires freq > 0 && Attainable(inFreq, freq)
    ensures j < 8 && Candidate(inFreq, freq, PRESCALERS[j])
  {
    assert freq * 1024 == 1024 * freq;
    QuotientOf(inFreq, freq, 1, 1);
    j := 0;
    if Quotient(inFreq, freq, 1) > 256 { j := FitsLater(inFreq, freq, 0); }
  }

  /** Success, exactly when the request is attainable. */
  lemma FoundExactly(inFreq: uint32, freq: uint32)
    requires InRange(inFreq, freq) && Divisible(freq)
    ensures Search(inFreq, freq, 8).Some? <==> freq <= inFreq && inFreq / (1024 * freq) <= 256
  {
    FoundRightly(inFreq, freq);
    InRangeDivides(inFreq, freq);
    forall i | 0 <= i < 8 && Fitting(inFreq, freq, PRESCALERS[i]) ensures freq <= inFreq {
      CandidateFits(inFreq, freq, PRESCALERS[i]);
      CandidateNeeds(inFreq, freq, PRESCALERS[i]);
    }
  }

  /** A request above the input clock, some wrapped product of which the input clock contains up to 256 times. */
  ghost predicate Deceives(inFreq: uint32, freq: uint32)
    requires Divisible(freq)
  {
    freq > inFreq && exists i :: 0 <= i < 8 && Fitting(inFreq, freq, PRESCALERS[i])
  }

  /** Success is reported exactly when the request is attainable, if and only if it does not deceive. */
  lemma FoundRightly(inFreq: uint32, freq: uint32)
    requires freq > 0 && Divisible(freq)
    ensures (Search(inFreq, freq, 8).Some? <==> Attainable(inFreq, freq)) <==> !Deceives(inFreq, freq)
  {
    var k := SearchKeepsFirstBest(inFreq, freq, 8);
    if Attainable(inFreq, freq) {
      var j := AttainableHasCandidate(inFreq, freq);
      CandidateFits(inFreq, freq, PRESCALERS[j]);
    } else if freq <= inFreq {
      NothingWraps(inFreq, freq);
      forall i | 0 <= i < 8 ensures !Fitting(inFreq, freq, PRESCALERS[i]) {
        CandidateFits(inFreq, freq, PRESCALERS[i]);
        if Candidate(inFreq, freq, PRESCALERS[i]) { CandidateNeeds(inFreq, freq, PRESCALERS[i]); }
      }
    }
  }

  /** A request too far below the input clock has no products that wrap. */
  lemma NothingWraps(inFreq: uint32, freq: uint32)
    requires freq > 0 && inFreq / (1024 * freq) > 256
    ensures forall i :: 0 <= i < 8 ==> !Wraps(freq, PRESCALERS[i])
  {
    Multiple(inFreq, 1024 * freq, 257);
  }

  // ---------- optimality ----------

  /** Not below the request, and of all possible settings that are not, none gives less. */
  ghost predicate Optimal(inFreq: uint32, freq: uint32, s: Setting) {
    && Possible(s) && s.prescaler > 0 && Output(inFreq, s) >= freq
    && forall other :: Possible(other) && other.prescaler > 0 && Output(inFreq, other) >= freq ==>
         Output(inFreq, s) <= Output(inFreq, other)
  }

  /** Some prescaler whose product does not wrap deviates no more than any whose product does. */
  ghost predicate Unmisled(inFreq: uint32, freq: uint32)
    requires freq > 0 && Divisible(freq)
  {
    exists j :: 0 <= j < 8 && Candidate(inFreq, freq, PRESCALERS[j]) && Outdoes(inFreq, freq, PRESCALERS[j])
  }

  ghost predicate Outdoes(inFreq: uint32, freq: uint32, p: nat)
    requires freq > 0 && Divisible(freq) && Product(freq, p) != 0 && p > 0
  {
    forall i :: 0 <= i < 8 && Wraps(freq, PRESCALERS[i]) && Fitting(inFreq, freq, PRESCALERS[i]) ==>
      Deviation(inFreq, freq, Tried(inFreq, freq, p)) <= Deviation(inFreq, freq, Tried(inFreq, freq, PRESCALERS[i]))
  }

  /** A setting that gives at least the request gives at least what some candidate gives. */
  lemma CandidateBelow(inFreq: uint32, freq: uint32, other: Setting, i: nat) returns (j: nat)
    requires freq > 0 && Quotient(inFreq, freq, 1024) <= 256
    requires i < 8 && PRESCALERS[i] == other.prescaler && other.period <= 0xff
    requires Output(inFreq, other) >= freq
    ensures j < 8 && Candidate(inFreq, freq, PRESCALERS[j])
    ensures Output(inFreq, With(inFreq, freq, PRESCALERS[j])) <= Output(inFreq, other)
  {
    OutputOf(inFreq, freq, other);
    var (p, q) := (other.prescaler, Quotient(inFreq, freq, other.prescaler));
    j := i;
    if q > 256 {
      j := FitsLater(inFreq, freq, i);
      Scales(p, other.period + 1, 256);
    } else {
      Scales(p, other.period + 1, q);
    }
    Slower(inFreq, other, With(inFreq, freq, PRESCALERS[j]));
  }

  /** A first best whose product does not wrap is optimal. */
  lemma CandidateIsOptimal(inFreq: uint32, freq: uint32, j: nat)
    requires freq > 0 && Divisible(freq) && j < 8 && FirstBest(inFreq, freq, 8, j) && !Wraps(freq, PRESCALERS[j])
    ensures Candidate(inFreq, freq, PRESCALERS[j]) && Optimal(inFreq, freq, Tried(inFreq, freq, PRESCALERS[j]))
  {
    var p := PRESCALERS[j];
    CandidateFits(inFreq, freq, p);
    DeviationIs(inFreq, freq, p);
    CandidateNeeds(inFreq, freq, p);
    forall other | Possible(other) && other.prescaler > 0 && Output(inFreq, other) >= freq
      ensures Output(inFreq, With(inFreq, freq, p)) <= Output(inFreq, other)
    {
      var i: nat :| i < 8 && PRESCALERS[i] == other.prescaler;
      var k := CandidateBelow(inFreq, freq, other, i);
      CandidateFits(inFreq, freq, PRESCALERS[k]);
      DeviationIs(inFreq, freq, PRESCALERS[k]);
    }
  }

  /** For every request with success: the setting found is optimal, if and only if the search is not misled. */
  lemma FoundOptimally(inFreq: uint32, freq: uint32)
    requires freq > 0 && Divisible(freq) && Search(inFreq, freq, 8).Some?
    ensures Optimal(inFreq, freq, Search(inFreq, freq, 8).value) <==> Unmisled(inFreq, freq)
  {
    var j := SearchKeepsFirstBest(inFreq, freq, 8);
    var s := Search(inFreq, freq, 8).value;
    CandidateFits(inFreq, freq, PRESCALERS[j]);
    if Wraps(freq, PRESCALERS[j]) {
      WrappedIsBelow(inFreq, freq, s);
      WrappedIsMisled(inFreq, freq, j);
    } else {
      CandidateIsOptimal(inFreq, freq, j);
      assert Outdoes(inFreq, freq, PRESCALERS[j]);
    }
  }

  lemma WrappedIsMisled(inFreq: uint32, freq: uint32, j: nat)
    requires freq > 0 && Divisible(freq) && j < 8 && FirstBest(inFreq, freq, 8, j) && Wraps(freq, PRESCALERS[j])
    ensures !Unmisled(inFreq, freq)
  {
    forall k | 0 <= k < 8 && Candidate(inFreq, freq, PRESCALERS[k]) ensures !Outdoes(inFreq, freq, PRESCALERS[k]) {
      CandidateFits(inFreq, freq, PRESCALERS[k]);
      assert k < j by { if k >= j { Scales(freq, PRESCALERS[j], PRESCALERS[k]); } }
    }
  }

  lemma InRangeUnmisled(inFreq: uint32, freq: uint32)
    requires InRange(inFreq, freq) && Divisible(freq) && Search(inFreq, freq, 8).Some?
    ensures Unmisled(inFreq, freq)
  {
    var j := SearchKeepsFirstBest(inFreq, freq, 8);
    forall i | 0 <= i < 8 ensures !Wraps(freq, PRESCALERS[i]) {
      Scales(freq, PRESCALERS[i], 1024);
    }
    CandidateFits(inFreq, freq, PRESCALERS[j]);
    assert Outdoes(inFreq, freq, PRESCALERS[j]);
  }

  /** Below 4 MiHz: of all settings that give at least the request, none gives a lower frequency than the one found. */
  lemma FoundIsOptimal(inFreq: uint32, freq: uint32, other: Setting)
    requires InRange(inFreq, freq) && Divisible(freq) && Search(inFreq, freq, 8).Some?
    requires Possible(other)
    ensures var s := Search(inFreq, freq, 8).value;
      && Possible(s) && Output(inFreq, s) >= freq
      && (Output(inFreq, other) >= freq ==> Output(inFreq, s) <= Output(inFreq, other))
  {
    InRangeUnmisled(inFreq, freq);
    FoundOptimally(inFreq, freq);
  }

  // ---------- the least error ----------

  ghost function Gap(inFreq: uint32, freq: uint32, s: Setting): nat
    requires s.prescaler > 0
  {
    if Output(inFreq, s) >= freq then Output(inFreq, s) - freq else freq - Output(inFreq, s)
  }

  ghost predicate Nearest(inFreq: uint32, freq: uint32, s: Setting)
    requires s.prescaler > 0
  {
    forall other :: Possible(other) && other.prescaler > 0 ==> Gap(inFreq, freq, s) <= Gap(inFreq, freq, other)
  }

  /** The setting that comes next below the request, for a prescaler. */
  function Below(inFreq: uint32, freq: uint32, p: nat): Setting
    requires freq > 0 && p > 0
  {
    Setting(p, inFreq / (freq * p))
  }

  /** For every prescaler, what comes next below the request is no closer than some candidate is above it. */
  ghost predicate NothingCloserBelow(inFreq: uint32, freq: uint32)
    requires freq > 0
  {
    forall i :: 0 <= i < 8 && Below(inFreq, freq, PRESCALERS[i]).period <= 0xff ==>
      AboveIsCloser(inFreq, freq, freq - Output(inFreq, Below(inFreq, freq, PRESCALERS[i])))
  }

  ghost predicate AboveIsCloser(inFreq: uint32, freq: uint32, gap: int)
    requires freq > 0
  {
    exists j :: 0 <= j < 8 && Candidate(inFreq, freq, PRESCALERS[j]) &&
      Output(inFreq, With(inFreq, freq, PRESCALERS[j])) - freq <= gap
  }

  /** Of the settings below the request with one prescaler, this is the closest. */
  lemma BelowIsClosest(inFreq: uint32, freq: uint32, s: Setting)
    requires freq > 0 && Possible(s) && s.prescaler > 0 && Output(inFreq, s) < freq
    ensures var b := Below(inFreq, freq, s.prescaler);
      b.period <= s.period && Output(inFreq, s) <= Output(inFreq, b) < freq
  {
    var b := Below(inFreq, freq, s.prescaler);
    OutputOf(inFreq, freq, s);
    OutputOf(inFreq, freq, b);
    Scales(s.prescaler, b.period + 1, s.period + 1);
    Slower(inFreq, b, s);
  }

  /** An optimal setting is nearest, if and only if nothing below the request is closer than the candidates above. */
  lemma OptimalIsNearest(inFreq: uint32, freq: uint32, p: nat)
    requires freq > 0 && Candidate(inFreq, freq, p) && Optimal(inFreq, freq, With(inFreq, freq, p))
    ensures Nearest(inFreq, freq, With(inFreq, freq, p)) <==> NothingCloserBelow(inFreq, freq)
  {
    var s := With(inFreq, freq, p);
    if NothingCloserBelow(inFreq, freq) {
      forall other | Possible(other) && other.prescaler > 0 ensures Gap(inFreq, freq, s) <= Gap(inFreq, freq, other) {
        if Output(inFreq, other) < freq { NotCloser(inFreq, freq, s, other); }
      }
    }
    if Nearest(inFreq, freq, s) {
      var k: nat :| k < 8 && PRESCALERS[k] == p;
      forall i | 0 <= i < 8 && Below(inFreq, freq, PRESCALERS[i]).period <= 0xff
        ensures AboveIsCloser(inFreq, freq, freq - Output(inFreq, Below(inFreq, freq, PRESCALERS[i])))
      {
        var b := Below(inFreq, freq, PRESCALERS[i]);
        OutputOf(inFreq, freq, b);
        assert Possible(b) && Candidate(inFreq, freq, PRESCALERS[k]);
      }
    }
  }

  lemma NotCloser(inFreq: uint32, freq: uint32, s: Setting, other: Setting)
    requires freq > 0 && Optimal(inFreq, freq, s) && NothingCloserBelow(inFreq, freq)
    requires Possible(other) && other.prescaler > 0 && Output(inFreq, other) < freq
    ensures Gap(inFreq, freq, s) <= Gap(inFreq, freq, other)
  {
    BelowIsClosest(inFreq, freq, other);
    var i: nat :| i < 8 && PRESCALERS[i] == other.prescaler;
    var b := Below(inFreq, freq, PRESCALERS[i]);
    assert AboveIsCloser(inFreq, freq, freq - Output(inFreq, b));
    var j: nat :| j < 8 && Candidate(inFreq, freq, PRESCALERS[j]) &&
      Output(inFreq, With(inFreq, freq, PRESCALERS[j])) - freq <= freq - Output(inFreq, b);
    OptimalGap(inFreq, freq, s, PRESCALERS[j]);
  }

  lemma OptimalGap(inFreq: uint32, freq: uint32, s: Setting, p: nat)
    requires freq > 0 && Optimal(inFreq, freq, s) && Candidate(inFreq, freq, p)
    ensures Gap(inFreq, freq, s) <= Output(inFreq, With(inFreq, freq, p)) - freq
  {
    DeviationIs(inFreq, freq, p);
    assert Possible(With(inFreq, freq, p));
  }

  /** Small divisors of a large number give different results. */
  lemma StrictlyLess(v: nat, e: nat, d: nat)
    requires 0 < e < d && v >= (e + 1) * e
    ensures v / d < v / e
  {
    OneMore(v, e);
    NoMore(v, e + 1, d);
  }

  lemma OneMore(v: nat, e: nat)
    requires 0 < e && v >= (e + 1) * e
    ensures v / (e + 1) + 1 <= v / e
  {
    var x := v / (e + 1);
    Multiple(v, e + 1, e);
    Multiple(v, e + 1, x);
    assert e * (x + 1) == e * x + e && (e + 1) * x == e * x + x;
    Multiple(v, e, x + 1);
  }

  lemma NoMore(v: nat, e: nat, d: nat)
    requires 0 < e <= d
    ensures v / d <= v / e
  {
    Multiple(v, d, v / d);
    Scales(v / d, e, d);
    Multiple(v, e, v / d);
  }

  /** The last prescaler whose product with the request the input clock contains. */
  lemma LastContained(inFreq: uint32, freq: uint32, k: nat) returns (j: nat, r: nat)
    requires 0 < freq <= inFreq && k < 8 && Quotient(inFreq, freq, PRESCALERS[k]) == 0
    ensures j < k && r in {2, 4} && PRESCALERS[j + 1] == PRESCALERS[j] * r <= PRESCALERS[k]
    ensures 1 <= Quotient(inFreq, freq, PRESCALERS[j]) < r
    decreases k
  {
    QuotientOf(inFreq, freq, 1, 1);
    assert k > 0;
    Ratio(k - 1);
    var p := PRESCALERS[k - 1];
    r :| r in {2, 4} && PRESCALERS[k] == p * r;
    if Quotient(inFreq, freq, p) == 0 {
      j, r := LastContained(inFreq, freq, k - 1);
    } else {
      j := k - 1;
      QuotientOf(inFreq, freq, p, r);
      QuotientOf(inFreq, freq, p * r, 1);
      assert freq * p * r == freq * (p * r) * 1;
    }
  }

  /** With a wrapped product that the input clock contains once, the next setting above the request is closer. */
  lemma AboveCloser(inFreq: uint32, freq: uint32, d: nat, p: nat, product: nat)
    requires 0 < d < p <= 2 * d && product == freq * p >= 0x1_0000_0000
    requires 2 * (product - 0x1_0000_0000) > inFreq
    ensures inFreq / d + inFreq / p < 2 * freq
  {
    var x := Share(inFreq, d);
    var y := Share(inFreq, p);
    assert 3 * inFreq < 2 * product;
    SumBelow(d, p, x, y, inFreq, freq, product);
  }

  lemma Share(v: nat, d: nat) returns (x: nat)
    requires d > 0
    ensures x == v / d && d * x <= v
  {
    x := v / d;
    Multiple(v, d, x);
  }

  lemma SumBelow(d: nat, p: nat, x: nat, y: nat, v: nat, freq: nat, product: nat)
    requires 0 < d && p <= 2 * d && d * x <= v && p * y <= v
    requires product == freq * p && 3 * v < 2 * product
    ensures x + y < 2 * freq
  {
    SumOfProducts(d, p, x, y, v);
    Upper(d, p, v, 2 * product);
    Ordered(d * p * (x + y), v * (p + d), 2 * product * d);
    if x + y >= 2 * freq { Lower(d, p, freq, x + y, product); }
  }

  lemma Ordered(a: int, b: int, c: int)
    requires a <= b < c
    ensures a < c
  {
  }

  lemma Upper(d: nat, p: nat, v: nat, big: nat)
    requires 0 < d && p <= 2 * d && 3 * v < big
    ensures v * (p + d) < big * d
  {
    Scales(v, p + d, 3 * d);
    Scales(d, 3 * v + 1, big);
    assert v * (3 * d) == d * (3 * v) && d * (3 * v + 1) == d * (3 * v) + d;
  }

  lemma Lower(d: nat, p: nat, freq: nat, sum: nat, product: nat)
    requires product == freq * p && sum >= 2 * freq
    ensures d * p * sum >= 2 * product * d
  {
    Scales(d * p, 2 * freq, sum);
    calc {
      d * p * (2 * freq);
      2 * (freq * p) * d;
      2 * product * d;
    }
  }

  lemma SumOfProducts(d: nat, p: nat, x: nat, y: nat, v: nat)
    requires d * x <= v && p * y <= v
    ensures d * p * (x + y) <= v * (p + d)
  {
    Scales(p, d * x, v);
    Scales(d, p * y, v);
    assert d * p * (x + y) == p * (d * x) + d * (p * y);
    assert v * (p + d) == p * v + d * v;
  }

  lemma AtFullSpeed(inFreq: uint32, freq: uint32, s: Setting) returns (closer: Setting)
    requires 0 < inFreq < freq && s.prescaler >= 2
    ensures Possible(closer) && closer.prescaler > 0 && Gap(inFreq, freq, closer) < Gap(inFreq, freq, s)
  {
    closer := Setting(1, 0);
    assert PRESCALERS[0] == 1;
    var d := s.prescaler * (s.period + 1);
    Scales(s.prescaler, 1, s.period + 1);
    Multiple(inFreq, d, inFreq);
    Scales(inFreq, 2, d);
  }

  /** The wrapped product the input clock contains once. */
  lemma WrapsOnce(inFreq: uint32, freq: uint32, d: nat, c: nat, p: nat)
    requires freq > 0 && p == d + c && freq * d <= inFreq && freq * c <= inFreq && Wraps(freq, p)
    requires Product(freq, p) != 0 && inFreq / Product(freq, p) == 1
    ensures freq * p >= 0x1_0000_0000 && 2 * (freq * p - 0x1_0000_0000) > inFreq
  {
    assert freq * p == freq * d + freq * c;
    Multiple(inFreq, Product(freq, p), 2);
  }

  lemma OneOfTwo(inFreq: uint32, freq: uint32, k: nat) returns (closer: Setting)
    requires 0 < freq <= inFreq && k < 8 && Product(freq, PRESCALERS[k]) != 0
    requires Wraps(freq, PRESCALERS[k]) && Fitting(inFreq, freq, PRESCALERS[k])
    ensures Possible(closer) && closer.prescaler > 0
    ensures Gap(inFreq, freq, closer) < Gap(inFreq, freq, Tried(inFreq, freq, PRESCALERS[k]))
  {
    var (p, s) := (PRESCALERS[k], Tried(inFreq, freq, PRESCALERS[k]));
    WrappedIsBelow(inFreq, freq, s);
    QuotientOf(inFreq, freq, p, 1);
    var j, r := LastContained(inFreq, freq, k);
    var (c, q) := (PRESCALERS[j], Quotient(inFreq, freq, PRESCALERS[j]));
    Scales(c, q + 1, r);
    Scales(p, 1, s.period + 1);
    var (e, d) := (c * (q + 1), p * (s.period + 1));
    if d > e {
      closer := Below(inFreq, freq, c);
      BelowCloser(inFreq, freq, closer, s);
    } else {
      closer := With(inFreq, freq, c);
      assert s.period == 0 by { if s.period > 0 { Scales(p, 2, s.period + 1); } }
      CandidateCloser(inFreq, freq, c, q, p);
    }
  }

  lemma BelowCloser(inFreq: uint32, freq: uint32, b: Setting, s: Setting)
    requires 0 < freq <= inFreq && 0 < b.prescaler <= 1024 && b == Below(inFreq, freq, b.prescaler)
    requires 0 < s.prescaler <= 1024 && Wraps(freq, s.prescaler) && Output(inFreq, s) < freq
    requires b.prescaler * (b.period + 1) <= 1024 && b.prescaler * (b.period + 1) < s.prescaler * (s.period + 1)
    ensures Gap(inFreq, freq, b) < Gap(inFreq, freq, s)
  {
    var e := b.prescaler * (b.period + 1);
    OutputOf(inFreq, freq, b);
    AtLeastOnce(b.prescaler, b.period + 1);
    Scales(freq, s.prescaler, 1024);
    Scales(e, e + 1, 1025);
    StrictlyLess(inFreq, e, s.prescaler * (s.period + 1));
  }

  lemma CandidateCloser(inFreq: uint32, freq: uint32, c: nat, q: nat, p: nat)
    requires freq > 0 && c > 0 && c in PRESCALERS && q == Quotient(inFreq, freq, c) && 1 <= q <= 3 && p == c * (q + 1)
    requires Wraps(freq, p) && Product(freq, p) != 0 && inFreq / Product(freq, p) == 1
    requires Output(inFreq, Setting(p, 0)) < freq
    ensures Candidate(inFreq, freq, c)
    ensures Gap(inFreq, freq, With(inFreq, freq, c)) < Gap(inFreq, freq, Setting(p, 0))
  {
    QuotientOf(inFreq, freq, c, 1);
    OutputOf(inFreq, freq, With(inFreq, freq, c));
    SumOfOutputs(inFreq, freq, c, q, p);
  }

  lemma SumOfOutputs(inFreq: uint32, freq: uint32, c: nat, q: nat, p: nat)
    requires freq > 0 && c > 0 && q == Quotient(inFreq, freq, c) && 1 <= q <= 3 && p == c * (q + 1)
    requires Wraps(freq, p) && Product(freq, p) != 0 && inFreq / Product(freq, p) == 1
    ensures p > 0 && Output(inFreq, Setting(c, q - 1)) + Output(inFreq, Setting(p, 0)) < 2 * freq
  {
    QuotientOf(inFreq, freq, c, q);
    QuotientOf(inFreq, freq, c, 1);
    var d := c * q;
    Scales(c, 1, q);
    assert freq * d == freq * c * q && p == d + c;
    WrapsOnce(inFreq, freq, d, c, p);
    AboveCloser(inFreq, freq, d, p, freq * p);
  }

  /** A setting chosen for its wrapped product is never nearest. */
  lemma WrappedIsNotNearest(inFreq: uint32, freq: uint32, k: nat)
    requires freq > 0 && k < 8 && Product(freq, PRESCALERS[k]) != 0
    requires Wraps(freq, PRESCALERS[k]) && Fitting(inFreq, freq, PRESCALERS[k])
    ensures !Nearest(inFreq, freq, Tried(inFreq, freq, PRESCALERS[k]))
  {
    var closer;
    if freq > inFreq {
      closer := AtFullSpeed(inFreq, freq, Tried(inFreq, freq, PRESCALERS[k]));
    } else {
      closer := OneOfTwo(inFreq, freq, k);
    }
  }

  /**
   * For every request for which there is success: the setting found has the least error of all possible settings, if
   * and only if the search is not misled, and for no prescaler what comes next below the request is closer than every
   * candidate above it.
   */
  lemma FoundHasLeastError(inFreq: uint32, freq: uint32)
    requires freq > 0 && Divisible(freq) && Search(inFreq, freq, 8).Some?
    ensures Nearest(inFreq, freq, Search(inFreq, freq, 8).value) <==>
            Unmisled(inFreq, freq) && NothingCloserBelow(inFreq, freq)
  {
    var j := SearchKeepsFirstBest(inFreq, freq, 8);
    if Wraps(freq, PRESCALERS[j]) {
      WrappedIsMisled(inFreq, freq, j);
      WrappedIsNotNearest(inFreq, freq, j);
    } else {
      CandidateIsOptimal(inFreq, freq, j);
      CandidateFits(inFreq, freq, PRESCALERS[j]);
      OptimalIsNearest(inFreq, freq, PRESCALERS[j]);
      assert Outdoes(inFreq, freq, PRESCALERS[j]);
    }
  }

  // ---------- inputs ----------

  lemma Near(inFreq: uint32)
    requires inFreq == 120_000_000
    ensures Possible(Setting(1, 28)) && Output(inFreq, Setting(1, 28)) == 4_137_931
  {
    assert PRESCALERS[0] == 1;
  }

  /** The divisor found does not reach below the request, however close the next one is. */
  lemma FoundStaysAbove(inFreq: uint32, freq: uint32, d: nat)
    requires InRange(inFreq, freq) && Divisible(freq) && Search(inFreq, freq, 8).Some?
    requires d > 0 && (d + 1) * freq > inFreq
    ensures Output(inFreq, Search(inFreq, freq, 8).value) >= inFreq / d
  {
    var s := Search(inFreq, freq, 8).value;
    FoundIsOptimal(inFreq, freq, s);
    AtLeastOnce(s.prescaler, s.period + 1);
    StaysAbove(inFreq, s.prescaler * (s.period + 1), d, freq);
  }

  lemma StaysAbove(v: nat, e: nat, d: nat, freq: nat)
    requires e > 0 && d > 0 && v / e >= freq && (d + 1) * freq > v
    ensures v / e >= v / d
  {
    DivisorBelow(v, e, d, freq);
    Multiple(v, d, v / d);
    Scales(v / d, e, d);
    Multiple(v, e, v / d);
  }

  lemma DivisorBelow(v: nat, e: nat, d: nat, freq: nat)
    requires e > 0 && v / e >= freq && (d + 1) * freq > v
    ensures e <= d
  {
    Multiple(v, e, freq);
    if e >= d + 1 { Scales(freq, d + 1, e); }
  }

  /** A setting just below the request that is seventy times closer than the one found. */
  lemma NotTheNearest(inFreq: uint32, freq: uint32)
    requires inFreq == 120_000_000 && freq == 4_140_000
    ensures InRange(inFreq, freq) && Divisible(freq) && Search(inFreq, freq, 8).Some?
    ensures Output(inFreq, Search(inFreq, freq, 8).value) - freq >= 145_714
    ensures Possible(Setting(1, 28)) && freq - Output(inFreq, Setting(1, 28)) == 2_069
  {
    InRangeDivides(inFreq, freq);
    FoundExactly(inFreq, freq);
    FoundStaysAbove(inFreq, freq, 28);
    Near(inFreq);
  }

  lemma MisleadingProducts(freq: uint32)
    requires freq == 1_717_986_918
    ensures Divisible(freq) && Product(freq, 1) == freq && Product(freq, 4) == 2_576_980_376 && Wraps(freq, 4)
  {
  }

  lemma MisleadingDeviations(inFreq: uint32, freq: uint32)
    requires inFreq == 0xc000_0000 && freq == 1_717_986_918
    requires Product(freq, 1) == freq && Product(freq, 4) == 2_576_980_376
    ensures Fitting(inFreq, freq, 4)
    ensures Deviation(inFreq, freq, Tried(inFreq, freq, 4)) < Deviation(inFreq, freq, Tried(inFreq, freq, 1))
  {
    assert RequiredPeriod(inFreq, freq, 4) == 0 && RequiredPeriod(inFreq, freq, 1) == 0;
  }

  lemma OnlyTheFirst(inFreq: uint32, freq: uint32, k: nat)
    requires freq > 0 && 2 * freq > inFreq && k < 8 && Candidate(inFreq, freq, PRESCALERS[k])
    ensures PRESCALERS[k] == 1
  {
    QuotientOf(inFreq, freq, PRESCALERS[k], 1);
    if PRESCALERS[k] >= 2 { Scales(freq, 2, PRESCALERS[k]); }
  }

  /** A request that misleads the search: the wrapped product with the prescaler four looks better than the truth. */
  lemma Misleads(inFreq: uint32, freq: uint32)
    requires inFreq == 0xc000_0000 && freq == 1_717_986_918
    ensures freq <= inFreq && Divisible(freq) && Search(inFreq, freq, 8).Some? && !Unmisled(inFreq, freq)
  {
    MisleadingProducts(freq);
    MisleadingDeviations(inFreq, freq);
    MisledByFour(inFreq, freq);
  }

  lemma MisledByFour(inFreq: uint32, freq: uint32)
    requires freq > 0 && 2 * freq > inFreq && Divisible(freq)
    requires Product(freq, 1) != 0 && Product(freq, 4) != 0 && Wraps(freq, 4) && Fitting(inFreq, freq, 4)
    requires Deviation(inFreq, freq, Tried(inFreq, freq, 4)) < Deviation(inFreq, freq, Tried(inFreq, freq, 1))
    ensures Search(inFreq, freq, 8).Some? && !Unmisled(inFreq, freq)
  {
    assert PRESCALERS[2] == 4;
    var j := SearchKeepsFirstBest(inFreq, freq, 8);
    forall k | 0 <= k < 8 && Candidate(inFreq, freq, PRESCALERS[k]) ensures !Outdoes(inFreq, freq, PRESCALERS[k]) {
      OnlyTheFirst(inFreq, freq, k);
      assert Wraps(freq, PRESCALERS[2]) && Fitting(inFreq, freq, PRESCALERS[2]);
    }
  }

  lemma WrappedProducts(freq: uint32)
    requires freq == 0x8000_03e8
    ensures Divisible(freq) && PRESCALERS[7] == 1024 && Product(freq, 1024) == 1_024_000
  {
  }

  lemma NoFaster(inFreq: uint32, s: Setting)
    requires Possible(s)
    ensures s.prescaler > 0 && Output(inFreq, s) <= inFreq
  {
    AtLeastOnce(s.prescaler, s.period + 1);
    Smaller(inFreq, s.prescaler * (s.period + 1));
  }

  /** A request above the input clock that deceives: success is reported, and no setting attains it. */
  lemma AttainsTheImpossible(inFreq: uint32, freq: uint32, s: Setting)
    requires inFreq == 120_000_000 && freq == 0x8000_03e8 && Possible(s)
    ensures Divisible(freq) && Deceives(inFreq, freq) && Search(inFreq, freq, 8).Some?
    ensures s.prescaler > 0 && Output(inFreq, s) < freq
  {
    WrappedProducts(freq);
    assert Fitting(inFreq, freq, PRESCALERS[7]);
    FoundRightly(inFreq, freq);
    NoFaster(inFreq, s);
  }
}
