/** Stage 6c's runtime: the rate windows and two counting limiters, taken together and
    given back by the surface when the call has been answered. */
module Caps {
  import opened RateLimiter

  const GLOBAL_CONCURRENCY_KEY := "__global__"

  datatype CapValues = CapValues(rate: RateCaps, perBindingConcurrency: nat, globalConcurrency: nat)

  // ---- one counting limiter ----

  function InFlight(counts: map<string, nat>, key: string): nat {
    if key in counts then counts[key] else 0
  }

  function Acquire(counts: map<string, nat>, limit: nat, key: string): (map<string, nat>, bool) {
    if InFlight(counts, key) >= limit then (counts, false)
    else (counts[key := InFlight(counts, key) + 1], true)
  }

  /** Floored at zero: the last slot, or one never taken, removes the key. */
  function GiveBack(counts: map<string, nat>, key: string): map<string, nat> {
    if InFlight(counts, key) <= 1 then counts - {key} else counts[key := InFlight(counts, key) - 1]
  }

  /** No key is stored with a zero, and none is over the limit. */
  ghost predicate CountsOk(counts: map<string, nat>, limit: nat) {
    forall k :: k in counts ==> 1 <= counts[k] <= limit
  }

  /** Giving back what was just taken leaves the table exactly as it was. */
  lemma AcquireThenGiveBack(counts: map<string, nat>, limit: nat, key: string)
    requires CountsOk(counts, limit) && Acquire(counts, limit, key).1
    ensures GiveBack(Acquire(counts, limit, key).0, key) == counts
    ensures CountsOk(Acquire(counts, limit, key).0, limit)
  {
  }

  class ConcurrencyLimiter {
    const limit: nat
    var inFlight: map<string, nat>

    constructor (limit: nat)
      ensures this.limit == limit && inFlight == map[]
    {
      this.limit := limit;
      inFlight := map[];
    }

    method TryAcquire(key: string) returns (allowed: bool)
      modifies this
      ensures (inFlight, allowed) == Acquire(old(inFlight), limit, key)
    {
      var current := if key in inFlight then inFlight[key] else 0;
      if current >= limit {
        return false;
      }
      inFlight := inFlight[key := current + 1];
      return true;
    }

    method Release(key: string)
      modifies this
      ensures inFlight == GiveBack(old(inFlight), key)
    {
      var current := if key in inFlight then inFlight[key] else 0;
      if current <= 1 {
        inFlight := inFlight - {key};
        return;
      }
      inFlight := inFlight[key := current - 1];
    }
  }

  datatype SlotOp = Take(key: string) | Give(key: string)

  function AfterOps(ops: seq<SlotOp>, limit: nat): map<string, nat> {
    if ops == [] then map[]
    else
      var counts := AfterOps(ops[..|ops| - 1], limit);
      match ops[|ops| - 1]
      case Take(key) => Acquire(counts, limit, key).0
      case Give(key) => GiveBack(counts, key)
  }

  /** One counter on its own: up to the limit and no further, down to zero and no further. */
  function Counter(ops: seq<SlotOp>, limit: nat, key: string): nat {
    if ops == [] then 0
    else
      var n := Counter(ops[..|ops| - 1], limit, key);
      var op := ops[|ops| - 1];
      if op.key != key then n
      else if op.Take? then (if n < limit then n + 1 else n)
      else if n > 0 then n - 1 else 0
  }

  /** However takes and gives of many keys interleave, each key is counted as if alone: what
      is read for it depends on its own operations and never leaves 0 to the limit. */
  lemma {:induction false} KeysAreIndependent(ops: seq<SlotOp>, limit: nat, key: string)
    ensures InFlight(AfterOps(ops, limit), key) == Counter(ops, limit, key) <= limit
    ensures CountsOk(AfterOps(ops, limit), limit)
  {
    if ops != [] {
      KeysAreIndependent(ops[..|ops| - 1], limit, key);
    }
  }

  // ---- the composed runtime ----

  datatype CapsState = CapsState(rate: RateState, perBinding: map<string, nat>, global: map<string, nat>)

  datatype CapsVerdict = Admitted | RateRefused | GlobalFull | BindingFull

  const NO_CAPS := CapsState(RateState(map[], map[]), map[], map[])

  /** The gateway's slot, then the binding's, undoing the gateway's when the binding is full. */
  function TakeBoth(perBinding: map<string, nat>, global: map<string, nat>, caps: CapValues, bindingKey: string)
    : (map<string, nat>, map<string, nat>, CapsVerdict)
  {
    var (g, gotGlobal) := Acquire(global, caps.globalConcurrency, GLOBAL_CONCURRENCY_KEY);
    if !gotGlobal then (perBinding, g, GlobalFull)
    else
      var (b, gotBinding) := Acquire(perBinding, caps.perBindingConcurrency, bindingKey);
      if !gotBinding then (b, GiveBack(g, GLOBAL_CONCURRENCY_KEY), BindingFull)
      else (b, g, Admitted)
  }

  function CapsCheck(s: CapsState, caps: CapValues, toolId: string, bindingKey: string, caller: string, now: int)
    : (CapsState, CapsVerdict)
  {
    var (rate, verdict) := RateCheck(s.rate, caps.rate, toolId, caller, now);
    if !verdict.Allowed? then (s.(rate := rate), RateRefused)
    else
      var (perBinding, global, v) := TakeBoth(s.perBinding, s.global, caps, bindingKey);
      (CapsState(rate, perBinding, global), v)
  }

  function CapsRelease(s: CapsState, bindingKey: string): CapsState {
    s.(perBinding := GiveBack(s.perBinding, bindingKey), global := GiveBack(s.global, GLOBAL_CONCURRENCY_KEY))
  }

  ghost predicate CapsOk(s: CapsState, caps: CapValues) {
    CountsOk(s.perBinding, caps.perBindingConcurrency) && CountsOk(s.global, caps.globalConcurrency)
  }

  /** A refusal, at whichever of the four checks, leaves no slot taken. */
  lemma RefusalTakesNoSlot(
    s: CapsState, caps: CapValues, toolId: string, bindingKey: string, caller: string, now: int)
    requires CapsOk(s, caps)
    ensures var (r, verdict) := CapsCheck(s, caps, toolId, bindingKey, caller, now);
            && CapsOk(r, caps)
            && (!verdict.Admitted? ==> r.perBinding == s.perBinding && r.global == s.global)
            && (verdict.Admitted? ==>
                  && r.perBinding == s.perBinding[bindingKey := InFlight(s.perBinding, bindingKey) + 1]
                  && r.global == s.global[GLOBAL_CONCURRENCY_KEY := InFlight(s.global, GLOBAL_CONCURRENCY_KEY) + 1])
  {
    if Acquire(s.global, caps.globalConcurrency, GLOBAL_CONCURRENCY_KEY).1 {
      AcquireThenGiveBack(s.global, caps.globalConcurrency, GLOBAL_CONCURRENCY_KEY);
    }
  }

  /** Which check answers: the rate limits first, then the gateway's slots, then the binding's.
      A call is admitted exactly when all of them have room for it. */
  lemma VerdictExactlyWhen(
    s: CapsState, caps: CapValues, toolId: string, bindingKey: string, caller: string, now: int)
    requires CapsOk(s, caps)
    ensures var v := CapsCheck(s, caps, toolId, bindingKey, caller, now).1;
            var rate := |Evict(WindowOf(s.rate.perTool, toolId), now)| < caps.rate.perTool
                        && |Evict(WindowOf(s.rate.perCaller, caller), now)| < caps.rate.perCaller;
            var gateway := GLOBAL_CONCURRENCY_KEY !in s.global
                           || s.global[GLOBAL_CONCURRENCY_KEY] < caps.globalConcurrency;
            var binding := bindingKey !in s.perBinding || s.perBinding[bindingKey] < caps.perBindingConcurrency;
      && (v == RateRefused <==> !rate)
      && (v == GlobalFull <==> rate && (!gateway || caps.globalConcurrency == 0))
      && (v == BindingFull <==>
            rate && gateway && caps.globalConcurrency > 0 && (!binding || caps.perBindingConcurrency == 0))
      && (v == Admitted <==>
            rate && gateway && caps.globalConcurrency > 0 && binding && caps.perBindingConcurrency > 0)
  {
  }

  /** The window of a key has this call's time added, besides what the clock evicts. */
  ghost predicate Charged(before: seq<int>, after: seq<int>, now: int) {
    after == Evict(before, now) + [now]
  }

  lemma {:induction false} ShiftedIsConstant(ts: seq<int>, v: int)
    requires ts != [] && ts == ts[1..] + [v]
    ensures ts[0] == v
  {
    if |ts| > 1 {
      assert forall i :: 0 <= i < |ts| - 1 ==> ts[i] == ts[i + 1];
      assert ts[1..] == ts[1..][1..] + [v];
      ShiftedIsConstant(ts[1..], v);
    }
  }

  lemma LeftAloneIsNotCharged(before: seq<int>, now: int)
    ensures !Charged(before, before, now) && !Charged(before, Evict(before, now), now)
  {
    var e := EvictDropsPrefix(before, now);
    if Charged(before, before, now) {
      assert e == 1;
      ShiftedIsConstant(before, now);
    }
  }

  /** Which refusals use up the minute's budget of the tool and of the caller: exactly those
      for want of a concurrency slot. Refused by a rate limit, a call charges neither. */
  lemma ChargedExactlyWhen(
    s: CapsState, caps: CapValues, toolId: string, bindingKey: string, caller: string, now: int)
    ensures var (r, verdict) := CapsCheck(s, caps, toolId, bindingKey, caller, now);
            && (Charged(WindowOf(s.rate.perTool, toolId), WindowOf(r.rate.perTool, toolId), now)
                <==> verdict.Admitted? || verdict.GlobalFull? || verdict.BindingFull?)
            && (Charged(WindowOf(s.rate.perCaller, caller), WindowOf(r.rate.perCaller, caller), now)
                <==> verdict.Admitted? || verdict.GlobalFull? || verdict.BindingFull?)
  {
    LeftAloneIsNotCharged(WindowOf(s.rate.perTool, toolId), now);
    LeftAloneIsNotCharged(WindowOf(s.rate.perCaller, caller), now);
  }

  /** Both kinds do happen. While the first call holds the only slot, a second one, for another
      tool and another caller, is refused; when the slot has come back, a third call to that
      tool is over its rate limit, although no call to it was ever let through. */
  lemma RefusedAndChargedAllTheSame(global: nat, first: int, second: int, third: int)
    requires 1 <= global && third - WINDOW_MS < second
    ensures var caps := CapValues(RateCaps(1, 1), 1, global);
            var (s1, v1) := CapsCheck(NO_CAPS, caps, "t", "k", "a", first);
            var (s2, v2) := CapsCheck(s1, caps, "u", "k", "b", second);
            var (s3, v3) := CapsCheck(CapsRelease(s2, "k"), caps, "u", "k", "c", third);
            && v1 == Admitted && v2 == (if global == 1 then GlobalFull else BindingFull) && v3 == RateRefused
  {
    var caps := CapValues(RateCaps(1, 1), 1, global);
    var s1 := CapsCheck(NO_CAPS, caps, "t", "k", "a", first).0;
    assert "t"[0] != "u"[0] && "a"[0] != "b"[0];
    assert WindowOf(s1.rate.perTool, "u") == [] && WindowOf(s1.rate.perCaller, "b") == [];
    var s2 := CapsCheck(s1, caps, "u", "k", "b", second).0;
    assert WindowOf(s2.rate.perTool, "u") == [second];
    assert Evict([second], third) == [second];
  }

  /** Admission and release cancel out: the two tables are what they were before. */
  lemma AdmitThenRelease(s: CapsState, caps: CapValues, toolId: string, bindingKey: string, caller: string, now: int)
    requires CapsOk(s, caps) && CapsCheck(s, caps, toolId, bindingKey, caller, now).1.Admitted?
    ensures var r := CapsRelease(CapsCheck(s, caps, toolId, bindingKey, caller, now).0, bindingKey);
            r.perBinding == s.perBinding && r.global == s.global
  {
    AcquireThenGiveBack(s.global, caps.globalConcurrency, GLOBAL_CONCURRENCY_KEY);
    AcquireThenGiveBack(s.perBinding, caps.perBindingConcurrency, bindingKey);
  }

  class CapsRuntime {
    const caps: CapValues
    const rate: CapsRateLimiter
    const perBinding: ConcurrencyLimiter
    const global: ConcurrencyLimiter

    ghost predicate Valid()
      reads rate
    {
      && rate.Valid() && rate.caps == caps.rate && perBinding != global
      && perBinding.limit == caps.perBindingConcurrency && global.limit == caps.globalConcurrency
    }

    ghost function State(): CapsState
      reads rate, rate.Windows(), perBinding, global
    {
      CapsState(rate.State(), perBinding.inFlight, global.inFlight)
    }

    constructor (caps: CapValues)
      ensures Valid() && this.caps == caps && State() == NO_CAPS
      ensures fresh(rate) && fresh(perBinding) && fresh(global) && rate.Windows() == {}
    {
      this.caps := caps;
      rate := new CapsRateLimiter(caps.rate);
      perBinding := new ConcurrencyLimiter(caps.perBindingConcurrency);
      global := new ConcurrencyLimiter(caps.globalConcurrency);
    }

    /** The two limiters, with the undo. */
    method TakeSlots(bindingKey: string) returns (v: CapsVerdict)
      requires Valid()
      modifies perBinding, global
      ensures (perBinding.inFlight, global.inFlight, v)
              == TakeBoth(old(perBinding.inFlight), old(global.inFlight), caps, bindingKey)
    {
      var gotGlobal := global.TryAcquire(GLOBAL_CONCURRENCY_KEY);
      if !gotGlobal {
        return GlobalFull;
      }
      var gotBinding := perBinding.TryAcquire(bindingKey);
      if !gotBinding {
        global.Release(GLOBAL_CONCURRENCY_KEY);
        return BindingFull;
      }
      return Admitted;
    }

    /** `bindingKey` is the snapshot catalogue's binding ref of the tool, or its id. */
    method Check(toolId: string, bindingKey: string, caller: string, now: int) returns (v: CapsVerdict)
      requires Valid()
      modifies rate, rate.Windows(), perBinding, global
      ensures Valid() && fresh(rate.Windows() - old(rate.Windows()))
      ensures (State(), v) == CapsCheck(old(State()), caps, toolId, bindingKey, caller, now)
    {
      var rateVerdict := rate.Check(toolId, caller, now);
      if !rateVerdict.Allowed? {
        return RateRefused;
      }
      v := TakeSlots(bindingKey);
    }

    method Release(bindingKey: string)
      requires Valid()
      modifies perBinding, global
      ensures Valid() && State() == CapsRelease(old(State()), bindingKey)
    {
      perBinding.Release(bindingKey);
      global.Release(GLOBAL_CONCURRENCY_KEY);
    }
  }
}
