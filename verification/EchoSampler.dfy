/** The identity echo: which calls to an orchestration must come back naming the user
    they ran as. Writes are always checked; reads may be sampled, one in `rate` per
    orchestration, by a counter rather than at random. */
module EchoSampler {

  const DEFAULT_READ_SAMPLE_RATE := 20.0

  datatype EchoOn = Never | Write | Sampled | Always

  datatype Call = Call(ref: string, write: bool, echoOn: EchoOn)

  datatype Decision = Decision(required: bool, sampled: bool)

  datatype Creation = Created(sampler: DeterministicSampler) | RateNotAPositiveInteger

  type Counts = map<string, nat>

  function CountOf(counts: Counts, key: string): nat {
    if key in counts then counts[key] else 0
  }

  function Sample(counts: Counts, rate: nat, key: string): (Counts, bool)
    requires rate >= 1
  {
    var n := CountOf(counts, key) + 1;
    (counts[key := n], n % rate == 1 % rate)
  }

  class DeterministicSampler {
    const rate: nat
    var counts: Counts

    constructor (rate: nat)
      ensures this.rate == rate && counts == map[]
    {
      this.rate := rate;
      counts := map[];
    }

    method ShouldSample(key: string) returns (checked: bool)
      requires rate >= 1
      modifies this
      ensures (counts, checked) == Sample(old(counts), rate, key)
    {
      var n := (if key in counts then counts[key] else 0) + 1;
      counts := counts[key := n];
      return n % rate == 1 % rate;
    }

    /** Whether this call must carry the check. Only a sampled read asks the counter. */
    method DecideEchoCheck(call: Call) returns (d: Decision)
      requires rate >= 1
      modifies this
      ensures (counts, d) == Decide(old(counts), rate, call)
    {
      if call.echoOn == Never {
        return Decision(false, false);
      }
      if call.echoOn == Always {
        return Decision(true, false);
      }
      if call.write {
        return Decision(true, false);
      }
      if call.echoOn == Write {
        return Decision(false, false);
      }
      var required := ShouldSample(call.ref);
      return Decision(required, true);
    }
  }

  method CreateDeterministicSampler(rate: real := DEFAULT_READ_SAMPLE_RATE) returns (r: Creation)
    ensures r.Created? <==> rate.Floor as real == rate && rate >= 1.0
    ensures r.Created? ==> fresh(r.sampler) && r.sampler.rate as real == rate && r.sampler.counts == map[]
  {
    if rate.Floor as real != rate || rate < 1.0 {
      return RateNotAPositiveInteger;
    }
    var sampler := new DeterministicSampler(rate.Floor);
    return Created(sampler);
  }

  predicate IsSampledRead(call: Call) {
    call.echoOn == Sampled && !call.write
  }

  function Decide(counts: Counts, rate: nat, call: Call): (Counts, Decision)
    requires rate >= 1
  {
    if IsSampledRead(call) then
      var (next, required) := Sample(counts, rate, call.ref);
      (next, Decision(required, true))
    else
      (counts, Decision(call.echoOn == Always || (call.echoOn != Never && call.write), false))
  }

  // ---- a whole history of calls, on any number of orchestrations ----

  function CountsAfter(calls: seq<Call>, rate: nat): Counts
    requires rate >= 1
  {
    if calls == [] then map[]
    else Decide(CountsAfter(calls[..|calls| - 1], rate), rate, calls[|calls| - 1]).0
  }

  function DecisionAt(calls: seq<Call>, rate: nat, i: nat): Decision
    requires rate >= 1 && i < |calls|
  {
    Decide(CountsAfter(calls[..i], rate), rate, calls[i]).1
  }

  /** The positions of the sampled reads on one orchestration, in the order they came. */
  function SampledReads(calls: seq<Call>, ref: string): (idx: seq<nat>)
    ensures forall j :: 0 <= j < |idx| ==> idx[j] < |calls| && IsSampledRead(calls[idx[j]]) && calls[idx[j]].ref == ref
  {
    if calls == [] then []
    else
      var n := |calls| - 1;
      var before := SampledReads(calls[..n], ref);
      if IsSampledRead(calls[n]) && calls[n].ref == ref then before + [n] else before
  }

  lemma {:induction false} SampledReadsInOrder(calls: seq<Call>, ref: string, j: nat, k: nat)
    requires j < k < |SampledReads(calls, ref)|
    ensures SampledReads(calls, ref)[j] < SampledReads(calls, ref)[k]
  {
    var before := SampledReads(calls[..|calls| - 1], ref);
    if k < |before| {
      SampledReadsInOrder(calls[..|calls| - 1], ref, j, k);
    }
  }

  /** The list really is all of them, each once. */
  lemma {:induction false} SampledReadsAreAll(calls: seq<Call>, ref: string, i: nat)
    requires i < |calls|
    ensures i in SampledReads(calls, ref) <==> IsSampledRead(calls[i]) && calls[i].ref == ref
    ensures forall j, k :: 0 <= j < k < |SampledReads(calls, ref)| ==>
      SampledReads(calls, ref)[j] < SampledReads(calls, ref)[k]
  {
    if i < |calls| - 1 {
      SampledReadsAreAll(calls[..|calls| - 1], ref, i);
    }
    forall j, k | 0 <= j < k < |SampledReads(calls, ref)|
      ensures SampledReads(calls, ref)[j] < SampledReads(calls, ref)[k]
    {
      SampledReadsInOrder(calls, ref, j, k);
    }
  }

  /** Writes, unsampled reads and the other orchestrations never move a counter. */
  lemma {:induction false} CounterCountsSampledReads(calls: seq<Call>, rate: nat, ref: string)
    requires rate >= 1
    ensures CountOf(CountsAfter(calls, rate), ref) == |SampledReads(calls, ref)|
  {
    if calls != [] {
      CounterCountsSampledReads(calls[..|calls| - 1], rate, ref);
    }
  }

  /** The j-th sampled read of an orchestration (from 0) is checked exactly when `rate`
      divides j, whatever came in between. */
  lemma {:induction false} EveryRateth(calls: seq<Call>, rate: nat, ref: string, j: nat)
    requires rate >= 1
    requires j < |SampledReads(calls, ref)|
    ensures DecisionAt(calls, rate, SampledReads(calls, ref)[j]).required <==> j % rate == 0
  {
    var n := |calls| - 1;
    var before := SampledReads(calls[..n], ref);
    if j < |before| {
      EveryRateth(calls[..n], rate, ref, j);
      assert calls[..n][..before[j]] == calls[..before[j]];
    } else {
      CounterCountsSampledReads(calls[..n], rate, ref);
      SuccessorModulo(j, rate);
    }
  }

  lemma SuccessorModulo(j: nat, rate: nat)
    requires rate >= 1
    ensures (j + 1) % rate == 1 % rate <==> j % rate == 0
  {
    var q, r := j / rate, j % rate;
    assert j + 1 == q * rate + (r + 1);
    if r + 1 < rate {
      QuotientUnique(j + 1, rate, q, r + 1);
    } else {
      assert (q + 1) * rate == q * rate + rate;
      QuotientUnique(j + 1, rate, q + 1, 0);
    }
  }

  lemma QuotientUnique(n: nat, d: nat, q: nat, r: nat)
    requires d >= 1 && r < d && n == q * d + r
    ensures n / d == q && n % d == r
  {
    var delta := n / d - q;
    assert delta * d == r - n % d by {
      assert n == (n / d) * d + n % d;
      assert delta * d == (n / d) * d - q * d;
    }
    assert delta >= 1 ==> delta * d >= d;
    assert delta <= -1 ==> delta * d + d <= 0;
  }

  /** How many of the sampled reads numbered lo, lo + 1, .. hi - 1 were checked. */
  function Checked(calls: seq<Call>, rate: nat, ref: string, lo: nat, hi: nat): nat
    requires rate >= 1
    requires lo <= hi <= |SampledReads(calls, ref)|
  {
    if lo == hi then 0
    else Checked(calls, rate, ref, lo, hi - 1)
         + if DecisionAt(calls, rate, SampledReads(calls, ref)[hi - 1]).required then 1 else 0
  }

  /** How many times d must be counted out to cover n. */
  function CeilDiv(n: nat, d: nat): nat
    requires d >= 1
  {
    if n == 0 then 0 else if n <= d then 1 else 1 + CeilDiv(n - d, d)
  }

  /** Which is n / d, rounded up. */
  lemma {:induction false} CeilDivRoundsUp(n: nat, d: nat)
    requires d >= 1
    ensures CeilDiv(n, d) == (n + d - 1) / d
  {
    if n == 0 {
      QuotientUnique(d - 1, d, 0, d - 1);
    } else if n <= d {
      QuotientUnique(n + d - 1, d, 1, n - 1);
    } else {
      CeilDivRoundsUp(n - d, d);
      OneMoreWhole(n - 1, d);
    }
  }

  lemma OneMoreWhole(n: nat, d: nat)
    requires d >= 1
    ensures (n + d) / d == n / d + 1 && (n + d) % d == n % d
  {
    var q, r := n / d, n % d;
    assert n == q * d + r;
    assert (q + 1) * d == q * d + d;
    QuotientUnique(n + d, d, q + 1, r);
  }

  lemma {:induction false} CeilDivStep(n: nat, d: nat)
    requires d >= 1
    ensures CeilDiv(n + 1, d) == CeilDiv(n, d) + if n % d == 0 then 1 else 0
  {
    if n < d {
      QuotientUnique(n, d, 0, n);
    } else if n == d {
      QuotientUnique(n, d, 1, 0);
    } else {
      CeilDivStep(n - d, d);
      var q, r := (n - d) / d, (n - d) % d;
      assert n - d == q * d + r;
      assert (q + 1) * d == q * d + d;
      QuotientUnique(n, d, q + 1, r);
    }
  }

  lemma {:induction false} CheckedBetween(calls: seq<Call>, rate: nat, ref: string, lo: nat, hi: nat)
    requires rate >= 1
    requires lo <= hi <= |SampledReads(calls, ref)|
    ensures Checked(calls, rate, ref, lo, hi) == CeilDiv(hi, rate) - CeilDiv(lo, rate)
  {
    if lo < hi {
      CheckedBetween(calls, rate, ref, lo, hi - 1);
      EveryRateth(calls, rate, ref, hi - 1);
      CeilDivStep(hi - 1, rate);
    }
  }

  /** Of the first n sampled reads on an orchestration exactly n / rate, rounded up, are
      checked; and of any `rate` consecutive ones exactly one is. */
  lemma {:induction false} ExactlyOneInRate(calls: seq<Call>, rate: nat, ref: string, n: nat)
    requires rate >= 1
    requires n <= |SampledReads(calls, ref)|
    ensures Checked(calls, rate, ref, 0, n) == CeilDiv(n, rate)
    ensures n + rate <= |SampledReads(calls, ref)| ==> Checked(calls, rate, ref, n, n + rate) == 1
  {
    CheckedBetween(calls, rate, ref, 0, n);
    if n + rate <= |SampledReads(calls, ref)| {
      CheckedBetween(calls, rate, ref, n, n + rate);
    }
  }

  // ---- a sampler built anew for every catalogue generation ----

  function Reads(generations: seq<seq<Call>>, ref: string): nat {
    if generations == [] then 0
    else Reads(generations[..|generations| - 1], ref) + |SampledReads(generations[|generations| - 1], ref)|
  }

  /** Each generation counts from nothing. */
  function Checks(generations: seq<seq<Call>>, rate: nat, ref: string): nat
    requires rate >= 1
  {
    if generations == [] then 0
    else
      var last := generations[|generations| - 1];
      Checks(generations[..|generations| - 1], rate, ref) + Checked(last, rate, ref, 0, |SampledReads(last, ref)|)
  }

  lemma {:induction false} CeilDivGrows(n: nat, more: nat, d: nat)
    requires d >= 1
    ensures CeilDiv(n, d) <= CeilDiv(n + more, d)
  {
    if more > 0 {
      CeilDivGrows(n, more - 1, d);
      CeilDivStep(n + more - 1, d);
    }
  }

  lemma {:induction false} CeilDivOfASum(m: nat, n: nat, d: nat)
    requires d >= 1
    ensures CeilDiv(m + n, d) <= CeilDiv(m, d) + CeilDiv(n, d) <= CeilDiv(m + n, d) + 1
  {
    if m > d {
      CeilDivOfASum(m - d, n, d);
    } else if m > 0 {
      CeilDivGrows(n, m, d);
      CeilDivGrows(m + n, d - m, d);
      assert CeilDiv(d + n, d) == 1 + CeilDiv(n, d);
    }
  }

  /** Over any number of generations the reads of an orchestration are never checked less
      often than one sampler for the whole process would, and at most once more for each
      further generation. */
  lemma {:induction false} RebuildingChecksNoLess(generations: seq<seq<Call>>, rate: nat, ref: string)
    requires rate >= 1
    ensures CeilDiv(Reads(generations, ref), rate) <= Checks(generations, rate, ref)
    ensures generations != [] ==>
      Checks(generations, rate, ref) <= CeilDiv(Reads(generations, ref), rate) + |generations| - 1
  {
    if generations != [] {
      var front, last := generations[..|generations| - 1], generations[|generations| - 1];
      RebuildingChecksNoLess(front, rate, ref);
      ExactlyOneInRate(last, rate, ref, |SampledReads(last, ref)|);
      CeilDivOfASum(Reads(front, ref), |SampledReads(last, ref)|, rate);
    }
  }

  /** A quiet orchestration's checks do not depend on how chatty the others are: dropping
      every other call from the history changes no decision about it. */
  lemma {:induction false} OthersDoNotInterfere(calls: seq<Call>, others: seq<Call>, rate: nat, ref: string, j: nat)
    requires rate >= 1
    requires j < |SampledReads(calls, ref)| && j < |SampledReads(others, ref)|
    ensures DecisionAt(calls, rate, SampledReads(calls, ref)[j])
         == DecisionAt(others, rate, SampledReads(others, ref)[j])
  {
    EveryRateth(calls, rate, ref, j);
    EveryRateth(others, rate, ref, j);
  }

  /** In any history a write is checked unless its policy is `never`, and is never itself
      sampled; a read under `write` or `never` is not checked; `always` checks it. */
  lemma WritesAreNeverSampledOut(calls: seq<Call>, rate: nat, i: nat)
    requires rate >= 1 && i < |calls|
    ensures calls[i].write ==>
      DecisionAt(calls, rate, i) == Decision(calls[i].echoOn != Never, false)
      && CountsAfter(calls[..i + 1], rate) == CountsAfter(calls[..i], rate)
    ensures !calls[i].write && calls[i].echoOn != Sampled ==>
      DecisionAt(calls, rate, i) == Decision(calls[i].echoOn == Always, false)
      && CountsAfter(calls[..i + 1], rate) == CountsAfter(calls[..i], rate)
  {
    assert calls[..i + 1][..i] == calls[..i];
  }
}
