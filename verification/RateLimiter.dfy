/** The sliding-window rate limiter: one window of admitted call times per tool and one
    per caller. Clock readings are integers of milliseconds. */
module RateLimiter {

  const WINDOW_MS: int := 60_000

  // ---- one window ----

  /** Drop expired readings from the front, and stop at the first that is not expired. */
  function Evict(ts: seq<int>, now: int): seq<int> {
    if ts != [] && ts[0] <= now - WINDOW_MS then Evict(ts[1..], now) else ts
  }

  /** The readings of a whole history that fall in the minute ending at `now`. */
  function Recent(history: seq<int>, now: int): seq<int> {
    if history == [] then []
    else if history[0] > now - WINDOW_MS then [history[0]] + Recent(history[1..], now)
    else Recent(history[1..], now)
  }

  ghost predicate Ordered(ts: seq<int>) {
    forall i, j :: 0 <= i < j < |ts| ==> ts[i] <= ts[j]
  }

  ghost predicate AllAtMost(ts: seq<int>, now: int) {
    forall i :: 0 <= i < |ts| ==> ts[i] <= now
  }

  lemma {:induction false} RecentAll(ts: seq<int>, now: int)
    requires forall i :: 0 <= i < |ts| ==> ts[i] > now - WINDOW_MS
    ensures Recent(ts, now) == ts
  {
    if ts != [] {
      RecentAll(ts[1..], now);
      assert ts == [ts[0]] + ts[1..];
    }
  }

  /** Prefix eviction is filtering, because the readings are in order. */
  lemma {:induction false} EvictIsFilter(ts: seq<int>, now: int)
    requires Ordered(ts)
    ensures Evict(ts, now) == Recent(ts, now)
  {
    if ts != [] {
      if ts[0] <= now - WINDOW_MS {
        EvictIsFilter(ts[1..], now);
      } else {
        RecentAll(ts, now);
      }
    }
  }

  lemma {:induction false} RecentConcat(a: seq<int>, b: seq<int>, now: int)
    ensures Recent(a + b, now) == Recent(a, now) + Recent(b, now)
  {
    if a == [] {
      assert a + b == b;
      assert [] + Recent(b, now) == Recent(b, now);
    } else {
      RecentConcat(a[1..], b, now);
      assert (a + b)[0] == a[0] && (a + b)[1..] == a[1..] + b;
      assert Recent(a + b, now)
          == (if a[0] > now - WINDOW_MS then [a[0]] else []) + (Recent(a[1..], now) + Recent(b, now));
    }
  }

  lemma {:induction false} RecentLater(ts: seq<int>, now: int, later: int)
    requires now <= later
    ensures Recent(Recent(ts, now), later) == Recent(ts, later)
  {
    if ts != [] {
      RecentLater(ts[1..], now, later);
    }
  }

  lemma {:induction false} RecentOrdered(ts: seq<int>, now: int)
    requires Ordered(ts)
    ensures Ordered(Recent(ts, now))
    ensures forall x :: x in Recent(ts, now) ==> x in ts
  {
    if ts != [] {
      var rest := Recent(ts[1..], now);
      RecentOrdered(ts[1..], now);
      forall x | x in rest ensures ts[0] <= x && x in ts {
        var i :| 0 <= i < |ts[1..]| && ts[1..][i] == x;
        assert ts[i + 1] == x;
      }
      assert Recent(ts, now) == rest || Recent(ts, now) == [ts[0]] + rest;
    }
  }

  class SlidingWindow {
    var timestamps: seq<int>

    constructor ()
      ensures timestamps == []
    {
      timestamps := [];
    }

    method Count(now: int) returns (n: nat)
      modifies this
      ensures timestamps == Evict(old(timestamps), now)
      ensures n == |timestamps|
    {
      while timestamps != [] && timestamps[0] <= now - WINDOW_MS
        invariant Evict(timestamps, now) == Evict(old(timestamps), now)
        decreases |timestamps|
      {
        timestamps := timestamps[1..];
      }
      n := |timestamps|;
    }

    method Record(now: int)
      modifies this
      ensures timestamps == old(timestamps) + [now]
    {
      timestamps := timestamps + [now];
    }
  }

  // ---- both windows ----

  datatype RateCaps = RateCaps(perTool: nat, perCaller: nat)

  datatype RateState = RateState(perTool: map<string, seq<int>>, perCaller: map<string, seq<int>>)

  datatype RateVerdict = Allowed | ToolLimit | CallerLimit

  function WindowOf(m: map<string, seq<int>>, key: string): seq<int> {
    if key in m then m[key] else []
  }

  /** Both windows are created on first use; the caller's is evicted only when the tool's
      has room; both are written only when both have room. */
  function RateCheck(s: RateState, caps: RateCaps, toolId: string, caller: string, now: int)
    : (RateState, RateVerdict)
  {
    var t, c := WindowOf(s.perTool, toolId), WindowOf(s.perCaller, caller);
    var created := RateState(s.perTool[toolId := t], s.perCaller[caller := c]);
    var peeked := created.(perTool := created.perTool[toolId := Evict(t, now)]);
    if |Evict(t, now)| >= caps.perTool then (peeked, ToolLimit)
    else
      var both := peeked.(perCaller := peeked.perCaller[caller := Evict(c, now)]);
      if |Evict(c, now)| >= caps.perCaller then (both, CallerLimit)
      else
        (RateState(both.perTool[toolId := Evict(t, now) + [now]],
                   both.perCaller[caller := Evict(c, now) + [now]]), Allowed)
  }

  class CapsRateLimiter {
    const caps: RateCaps
    var perTool: map<string, SlidingWindow>
    var perCaller: map<string, SlidingWindow>

    ghost function Windows(): set<SlidingWindow>
      reads this
    {
      (set k | k in perTool :: perTool[k]) + (set k | k in perCaller :: perCaller[k])
    }

    /** No window serves two keys, and none serves both a tool and a caller. */
    ghost predicate Valid()
      reads this
    {
      && (forall k, l :: k in perTool && l in perTool && perTool[k] == perTool[l] ==> k == l)
      && (forall k, l :: k in perCaller && l in perCaller && perCaller[k] == perCaller[l] ==> k == l)
      && (forall k, l :: k in perTool && l in perCaller ==> perTool[k] != perCaller[l])
    }

    ghost function State(): RateState
      reads this, Windows()
    {
      RateState(map k | k in perTool :: perTool[k].timestamps,
                map k | k in perCaller :: perCaller[k].timestamps)
    }

    constructor (caps: RateCaps)
      ensures Valid() && this.caps == caps && Windows() == {}
      ensures State() == RateState(map[], map[])
    {
      this.caps := caps;
      perTool, perCaller := map[], map[];
    }

    method ToolWindow(toolId: string) returns (w: SlidingWindow)
      requires Valid()
      modifies this
      ensures Valid() && toolId in perTool && perTool[toolId] == w && perCaller == old(perCaller)
      ensures State()
          == old(State()).(perTool := old(State()).perTool[toolId := WindowOf(old(State()).perTool, toolId)])
      ensures fresh(Windows() - old(Windows()))
    {
      if toolId in perTool {
        w := perTool[toolId];
      } else {
        ghost var before := State();
        w := new SlidingWindow();
        perTool := perTool[toolId := w];
        assert forall x :: x in Windows() ==> x == w || x in old(Windows());
        assert State().perCaller == before.perCaller;
        assert State().perTool == before.perTool[toolId := []];
      }
    }

    method CallerWindow(caller: string) returns (w: SlidingWindow)
      requires Valid()
      modifies this
      ensures Valid() && caller in perCaller && perCaller[caller] == w && perTool == old(perTool)
      ensures State()
          == old(State()).(perCaller := old(State()).perCaller[caller := WindowOf(old(State()).perCaller, caller)])
      ensures fresh(Windows() - old(Windows()))
    {
      if caller in perCaller {
        w := perCaller[caller];
      } else {
        ghost var before := State();
        w := new SlidingWindow();
        perCaller := perCaller[caller := w];
        assert forall x :: x in Windows() ==> x == w || x in old(Windows());
        assert State().perTool == before.perTool;
        assert State().perCaller == before.perCaller[caller := []];
      }
    }

    method CountTool(toolId: string, now: int) returns (n: nat)
      requires Valid() && toolId in perTool
      modifies perTool[toolId]
      ensures State()
          == old(State()).(perTool :=
               old(State()).perTool[toolId := Evict(old(perTool[toolId].timestamps), now)])
      ensures n == |Evict(old(perTool[toolId].timestamps), now)|
    {
      n := perTool[toolId].Count(now);
    }

    method CountCaller(caller: string, now: int) returns (n: nat)
      requires Valid() && caller in perCaller
      modifies perCaller[caller]
      ensures State()
          == old(State()).(perCaller :=
               old(State()).perCaller[caller := Evict(old(perCaller[caller].timestamps), now)])
      ensures n == |Evict(old(perCaller[caller].timestamps), now)|
    {
      n := perCaller[caller].Count(now);
    }

    method RecordBoth(toolId: string, caller: string, now: int)
      requires Valid() && toolId in perTool && caller in perCaller
      modifies perTool[toolId], perCaller[caller]
      ensures State() == RateState(
                old(State()).perTool[toolId := old(perTool[toolId].timestamps) + [now]],
                old(State()).perCaller[caller := old(perCaller[caller].timestamps) + [now]])
    {
      perTool[toolId].Record(now);
      perCaller[caller].Record(now);
    }

    method Check(toolId: string, caller: string, now: int) returns (v: RateVerdict)
      requires Valid()
      modifies this, Windows()
      ensures Valid() && fresh(Windows() - old(Windows()))
      ensures (State(), v) == RateCheck(old(State()), caps, toolId, caller, now)
    {
      var toolWindow := ToolWindow(toolId);
      var callerWindow := CallerWindow(caller);
      assert toolWindow.timestamps == State().perTool[toolId];
      assert callerWindow.timestamps == State().perCaller[caller];
      var n := CountTool(toolId, now);
      if n >= caps.perTool {
        return ToolLimit;
      }
      assert callerWindow.timestamps == State().perCaller[caller];
      n := CountCaller(caller, now);
      if n >= caps.perCaller {
        return CallerLimit;
      }
      assert toolWindow.timestamps == State().perTool[toolId];
      assert callerWindow.timestamps == State().perCaller[caller];
      RecordBoth(toolId, caller, now);
      return Allowed;
    }
  }

  // ---- every history ----

  datatype Call = Call(toolId: string, caller: string, now: int)

  datatype Side = ByTool | ByCaller

  function KeyOf(c: Call, side: Side): string {
    if side.ByTool? then c.toolId else c.caller
  }

  function LimitOf(caps: RateCaps, side: Side): nat {
    if side.ByTool? then caps.perTool else caps.perCaller
  }

  function WindowIn(s: RateState, side: Side, key: string): seq<int> {
    WindowOf(if side.ByTool? then s.perTool else s.perCaller, key)
  }

  function Run(caps: RateCaps, calls: seq<Call>): RateState {
    if calls == [] then RateState(map[], map[])
    else
      var last := calls[|calls| - 1];
      RateCheck(Run(caps, calls[..|calls| - 1]), caps, last.toolId, last.caller, last.now).0
  }

  /** The verdict on the last call of a history. */
  function LastVerdict(caps: RateCaps, calls: seq<Call>): RateVerdict
    requires calls != []
  {
    var last := calls[|calls| - 1];
    RateCheck(Run(caps, calls[..|calls| - 1]), caps, last.toolId, last.caller, last.now).1
  }

  /** The times of the admitted calls of one tool or of one caller, over the whole history. */
  function Admitted(caps: RateCaps, calls: seq<Call>, side: Side, key: string): seq<int> {
    if calls == [] then []
    else
      var last := calls[|calls| - 1];
      Admitted(caps, calls[..|calls| - 1], side, key)
      + if KeyOf(last, side) == key && LastVerdict(caps, calls).Allowed? then [last.now] else []
  }

  /** The clock never runs backwards. */
  ghost predicate ClockMonotone(calls: seq<Call>) {
    forall i, j :: 0 <= i < j < |calls| ==> calls[i].now <= calls[j].now
  }

  /** The stored window stands for the whole history: evicted at any later reading, it is
      the admitted history filtered to that minute. */
  ghost predicate Represents(window: seq<int>, times: seq<int>, now: int) {
    && Ordered(window) && AllAtMost(window, now)
    && Ordered(times) && AllAtMost(times, now)
    && forall later :: now <= later ==> Evict(window, later) == Recent(times, later)
  }

  lemma EvictedRepresents(window: seq<int>, times: seq<int>, now: int, at: int)
    requires Represents(window, times, now) && now <= at
    ensures Represents(Evict(window, at), times, at)
  {
    EvictIsFilter(window, at);
    RecentOrdered(window, at);
    var evicted := Evict(window, at);
    forall later | at <= later ensures Evict(evicted, later) == Recent(times, later) {
      EvictIsFilter(evicted, later);
      RecentLater(window, at, later);
      EvictIsFilter(window, later);
    }
    assert AllAtMost(evicted, at) by {
      forall i | 0 <= i < |evicted| ensures evicted[i] <= at {
        assert evicted[i] in window;
      }
    }
  }

  lemma RecordedRepresents(window: seq<int>, times: seq<int>, now: int, at: int)
    requires Represents(window, times, now) && now <= at
    ensures Represents(Evict(window, at) + [at], times + [at], at)
  {
    EvictedRepresents(window, times, now, at);
    var evicted := Evict(window, at);
    forall later | at <= later ensures Evict(evicted + [at], later) == Recent(times + [at], later) {
      EvictIsFilter(evicted + [at], later);
      RecentConcat(evicted, [at], later);
      RecentConcat(times, [at], later);
      EvictIsFilter(evicted, later);
    }
  }

  lemma LaterRepresents(window: seq<int>, times: seq<int>, now: int, at: int)
    requires Represents(window, times, now) && now <= at
    ensures Represents(window, times, at)
  {
  }

  ghost function LastTime(calls: seq<Call>): int
    requires calls != []
  {
    calls[|calls| - 1].now
  }

  lemma RunSnoc(caps: RateCaps, front: seq<Call>, last: Call)
    ensures var checked := RateCheck(Run(caps, front), caps, last.toolId, last.caller, last.now);
            && Run(caps, front + [last]) == checked.0
            && LastVerdict(caps, front + [last]) == checked.1
    ensures forall side, key ::
              Admitted(caps, front + [last], side, key)
              == if KeyOf(last, side) == key && LastVerdict(caps, front + [last]).Allowed?
                 then Admitted(caps, front, side, key) + [last.now]
                 else Admitted(caps, front, side, key)
  {
    var calls := front + [last];
    assert calls[..|calls| - 1] == front && calls[|calls| - 1] == last;
    forall side, key
      ensures Admitted(caps, calls, side, key)
              == Admitted(caps, front, side, key)
                 + if KeyOf(last, side) == key && LastVerdict(caps, calls).Allowed? then [last.now] else []
    {
    }
  }

  /** One check leaves a window alone, evicts it, or evicts it and appends the reading. */
  lemma WindowAfterCheck(s: RateState, caps: RateCaps, c: Call, side: Side, key: string)
    ensures var (r, v) := RateCheck(s, caps, c.toolId, c.caller, c.now);
            var was, now := WindowIn(s, side, key), WindowIn(r, side, key);
            if KeyOf(c, side) == key && v.Allowed? then
              now == Evict(was, c.now) + [c.now] && |Evict(was, c.now)| < LimitOf(caps, side)
            else now == was || now == Evict(was, c.now)
  {
  }

  lemma OneMoreRepresents(s: RateState, caps: RateCaps, last: Call, side: Side, key: string, a: seq<int>, before: int)
    requires before <= last.now && Represents(WindowIn(s, side, key), a, before)
    ensures var (r, v) := RateCheck(s, caps, last.toolId, last.caller, last.now);
            var times := if KeyOf(last, side) == key && v.Allowed? then a + [last.now] else a;
            Represents(WindowIn(r, side, key), times, last.now)
  {
    var w := WindowIn(s, side, key);
    WindowAfterCheck(s, caps, last, side, key);
    LaterRepresents(w, a, before, last.now);
    if KeyOf(last, side) == key && RateCheck(s, caps, last.toolId, last.caller, last.now).1.Allowed? {
      RecordedRepresents(w, a, last.now, last.now);
    } else {
      EvictedRepresents(w, a, last.now, last.now);
    }
  }

  lemma RunLast(caps: RateCaps, calls: seq<Call>, side: Side, key: string)
    requires calls != []
    ensures var front, last := calls[..|calls| - 1], calls[|calls| - 1];
            var checked := RateCheck(Run(caps, front), caps, last.toolId, last.caller, last.now);
            && Run(caps, calls) == checked.0
            && Admitted(caps, calls, side, key)
               == if KeyOf(last, side) == key && checked.1.Allowed? then Admitted(caps, front, side, key) + [last.now]
                  else Admitted(caps, front, side, key)
  {
    RunSnoc(caps, calls[..|calls| - 1], calls[|calls| - 1]);
    assert calls == calls[..|calls| - 1] + [calls[|calls| - 1]];
  }

  lemma NothingRepresents(caps: RateCaps, side: Side, key: string, now: int)
    ensures Represents(WindowIn(Run(caps, []), side, key), Admitted(caps, [], side, key), now)
  {
  }

  lemma {:induction false} RunRepresents(caps: RateCaps, calls: seq<Call>, side: Side, key: string)
    requires ClockMonotone(calls) && calls != []
    ensures Represents(WindowIn(Run(caps, calls), side, key), Admitted(caps, calls, side, key), LastTime(calls))
  {
    var front, last := calls[..|calls| - 1], calls[|calls| - 1];
    var before := if front == [] then last.now else LastTime(front);
    if front == [] {
      NothingRepresents(caps, side, key, before);
    } else {
      RunRepresents(caps, front, side, key);
    }
    RunLast(caps, calls, side, key);
    OneMoreRepresents(Run(caps, front), caps, last, side, key, Admitted(caps, front, side, key), before);
  }

  /** A call passes the rate check exactly when, over the whole history, fewer than the
      limit of calls of its tool and of its caller passed it in the minute before. "Admitted"
      is by the rate check: one that then finds no concurrency slot counts all the same. */
  lemma AdmittedIffUnderBothLimits(caps: RateCaps, calls: seq<Call>)
    requires ClockMonotone(calls) && calls != []
    ensures var front, last := calls[..|calls| - 1], calls[|calls| - 1];
            LastVerdict(caps, calls).Allowed? <==>
              && |Recent(Admitted(caps, front, ByTool, last.toolId), last.now)| < caps.perTool
              && |Recent(Admitted(caps, front, ByCaller, last.caller), last.now)| < caps.perCaller
  {
    var front, last := calls[..|calls| - 1], calls[|calls| - 1];
    if front != [] {
      RunRepresents(caps, front, ByTool, last.toolId);
      RunRepresents(caps, front, ByCaller, last.caller);
    }
  }

  /** A call the rate check refuses puts its time in no window, of any tool or any caller. */
  lemma RefusedRecordsNothing(s: RateState, caps: RateCaps, c: Call, side: Side, key: string)
    requires !RateCheck(s, caps, c.toolId, c.caller, c.now).1.Allowed?
    ensures var w := WindowIn(RateCheck(s, caps, c.toolId, c.caller, c.now).0, side, key);
            w == WindowIn(s, side, key) || w == Evict(WindowIn(s, side, key), c.now)
  {
  }

  /** Which limit a refusal is put down to: the tool's comes first. */
  lemma RefusalNamesTheLimit(caps: RateCaps, calls: seq<Call>)
    requires ClockMonotone(calls) && calls != []
    ensures var front, last := calls[..|calls| - 1], calls[|calls| - 1];
            LastVerdict(caps, calls).ToolLimit? <==>
              |Recent(Admitted(caps, front, ByTool, last.toolId), last.now)| >= caps.perTool
  {
    var front, last := calls[..|calls| - 1], calls[|calls| - 1];
    if front != [] {
      RunRepresents(caps, front, ByTool, last.toolId);
    }
  }

  lemma {:induction false} BoundedRange(s: set<int>, lo: int, n: nat)
    requires forall i :: i in s ==> lo <= i < lo + n
    ensures |s| <= n
  {
    if n == 0 {
      assert forall i :: i !in s;
    } else {
      BoundedRange(s - {lo + n - 1}, lo, n - 1);
    }
  }

  // ---- what the clock may do ----

  ghost predicate Near(a: int, b: int) {
    a - WINDOW_MS < b < a + WINDOW_MS
  }

  /** A reading a whole window later than `i`, and after it one near `i` again. */
  ghost predicate Recross(ts: seq<int>, i: int, j: int, k: int) {
    0 <= i < j < k < |ts| && ts[j] >= ts[i] + WINDOW_MS && Near(ts[i], ts[k])
  }

  ghost predicate NoRecross(ts: seq<int>) {
    forall i, j, k :: !Recross(ts, i, j, k)
  }

  function Readings(calls: seq<Call>): (ts: seq<int>)
    ensures |ts| == |calls| && forall i :: 0 <= i < |calls| ==> ts[i] == calls[i].now
  {
    seq(|calls|, i requires 0 <= i < |calls| => calls[i].now)
  }

  ghost function InMinute(a: seq<int>, start: int): set<int> {
    set i | 0 <= i < |a| && start <= a[i] < start + 60_000
  }

  ghost predicate WithinLimit(caps: RateCaps, calls: seq<Call>, side: Side, key: string, start: int) {
    |InMinute(Admitted(caps, calls, side, key), start)| <= LimitOf(caps, side)
  }

  /** The reading was dropped because some later call's clock was a whole window past it. */
  ghost predicate Outrun(calls: seq<Call>, at: int, j: int) {
    0 <= at < j < |calls| && calls[j].now >= calls[at].now + WINDOW_MS
  }

  /** Which calls of the history were admitted for the key. */
  function AdmittedCalls(caps: RateCaps, calls: seq<Call>, side: Side, key: string): (idx: seq<nat>)
    ensures |idx| == |Admitted(caps, calls, side, key)|
    ensures forall x :: 0 <= x < |idx| ==>
      idx[x] < |calls| && calls[idx[x]].now == Admitted(caps, calls, side, key)[x]
  {
    if calls == [] then []
    else
      var last := calls[|calls| - 1];
      AdmittedCalls(caps, calls[..|calls| - 1], side, key)
      + if KeyOf(last, side) == key && LastVerdict(caps, calls).Allowed? then [|calls| - 1] else []
  }

  lemma {:induction false} EvictDropsPrefix(ts: seq<int>, now: int) returns (e: nat)
    ensures e <= |ts| && Evict(ts, now) == ts[e..]
    ensures forall x :: 0 <= x < e ==> ts[x] <= now - WINDOW_MS
  {
    if ts != [] && ts[0] <= now - WINDOW_MS {
      var rest := EvictDropsPrefix(ts[1..], now);
      e := rest + 1;
      assert forall x :: 0 < x < e ==> ts[x] == ts[1..][x - 1];
    } else {
      e := 0;
    }
  }

  ghost predicate OutrunBySome(calls: seq<Call>, at: int) {
    exists j :: Outrun(calls, at, j)
  }

  /** `window` is the admitted history from `d` on, and a later call outran each reading
      before that. */
  ghost predicate IsSuffix(window: seq<int>, calls: seq<Call>, a: seq<int>, idx: seq<nat>, d: nat) {
    && |a| == |idx| && d <= |a| && window == a[d..]
    && (forall x :: 0 <= x < |idx| ==> idx[x] < |calls| && calls[idx[x]].now == a[x])
    && forall x :: 0 <= x < d ==> OutrunBySome(calls, idx[x])
  }

  lemma SuffixLater(window: seq<int>, front: seq<Call>, last: Call, a: seq<int>, idx: seq<nat>, d: nat)
    requires IsSuffix(window, front, a, idx, d)
    ensures IsSuffix(window, front + [last], a, idx, d)
  {
    var calls := front + [last];
    forall x | 0 <= x < d ensures OutrunBySome(calls, idx[x]) {
      var j :| Outrun(front, idx[x], j);
      assert Outrun(calls, idx[x], j);
    }
  }

  lemma SuffixEvicted(window: seq<int>, front: seq<Call>, last: Call, a: seq<int>, idx: seq<nat>, d: nat)
    returns (e: nat)
    requires IsSuffix(window, front, a, idx, d)
    ensures d <= e && IsSuffix(Evict(window, last.now), front + [last], a, idx, e)
    ensures forall x :: d <= x < e ==> a[x] <= last.now - WINDOW_MS
  {
    var calls := front + [last];
    SuffixLater(window, front, last, a, idx, d);
    var dropped := EvictDropsPrefix(window, last.now);
    e := d + dropped;
    assert a[d..][dropped..] == a[e..];
    forall x | d <= x < e ensures a[x] <= last.now - WINDOW_MS && OutrunBySome(calls, idx[x]) {
      assert window[x - d] == a[x];
      assert Outrun(calls, idx[x], |front|);
    }
  }

  lemma SuffixRecorded(window: seq<int>, front: seq<Call>, last: Call, a: seq<int>, idx: seq<nat>, d: nat)
    requires IsSuffix(window, front + [last], a, idx, d)
    ensures IsSuffix(window + [last.now], front + [last], a + [last.now], idx + [|front|], d)
  {
    assert (a + [last.now])[d..] == a[d..] + [last.now];
  }

  lemma SuffixStep(w: seq<int>, next: seq<int>, front: seq<Call>, last: Call, a: seq<int>, idx: seq<nat>, d: nat,
                   recorded: bool) returns (e: nat)
    requires IsSuffix(w, front, a, idx, d)
    requires if recorded then next == Evict(w, last.now) + [last.now] else next == w || next == Evict(w, last.now)
    ensures if recorded then IsSuffix(next, front + [last], a + [last.now], idx + [|front|], e)
            else IsSuffix(next, front + [last], a, idx, e)
  {
    if recorded || next != w {
      e := SuffixEvicted(w, front, last, a, idx, d);
      if recorded {
        SuffixRecorded(Evict(w, last.now), front, last, a, idx, e);
      }
    } else {
      SuffixLater(w, front, last, a, idx, d);
      e := d;
    }
  }

  lemma WindowNext(caps: RateCaps, calls: seq<Call>, side: Side, key: string)
    requires calls != []
    ensures var front, last := calls[..|calls| - 1], calls[|calls| - 1];
            var w, next := WindowIn(Run(caps, front), side, key), WindowIn(Run(caps, calls), side, key);
            var a, after := Admitted(caps, front, side, key), Admitted(caps, calls, side, key);
            if KeyOf(last, side) == key && LastVerdict(caps, calls).Allowed?
            then next == Evict(w, last.now) + [last.now] && after == a + [last.now]
            else (next == w || next == Evict(w, last.now)) && after == a
  {
    var front, last := calls[..|calls| - 1], calls[|calls| - 1];
    RunLast(caps, calls, side, key);
    WindowAfterCheck(Run(caps, front), caps, last, side, key);
  }

  /** Whatever the clock does, a window is the end of the admitted history, and each reading
      before it was outrun by a later call. */
  lemma {:induction false} WindowIsSuffix(caps: RateCaps, calls: seq<Call>, side: Side, key: string) returns (d: nat)
    ensures IsSuffix(WindowIn(Run(caps, calls), side, key), calls,
                     Admitted(caps, calls, side, key), AdmittedCalls(caps, calls, side, key), d)
  {
    if calls == [] {
      return 0;
    }
    var front, last := calls[..|calls| - 1], calls[|calls| - 1];
    assert calls == front + [last];
    var w, a := WindowIn(Run(caps, front), side, key), Admitted(caps, front, side, key);
    var idx := AdmittedCalls(caps, front, side, key);
    d := WindowIsSuffix(caps, front, side, key);
    WindowNext(caps, calls, side, key);
    d := SuffixStep(w, WindowIn(Run(caps, calls), side, key), front, last, a, idx, d,
                    KeyOf(last, side) == key && LastVerdict(caps, calls).Allowed?);
  }

  lemma PrefixNoRecross(calls: seq<Call>, n: nat)
    requires n <= |calls| && NoRecross(Readings(calls))
    ensures NoRecross(Readings(calls[..n]))
  {
    forall i, j, k ensures !Recross(Readings(calls[..n]), i, j, k) {
      assert !Recross(Readings(calls), i, j, k);
    }
  }

  /** With such a clock every admitted reading of the last call's own minute is still in the
      window that call finds. */
  lemma MinuteIsInWindow(window: seq<int>, front: seq<Call>, last: Call, a: seq<int>, idx: seq<nat>, d: nat, start: int)
    requires IsSuffix(window, front, a, idx, d) && NoRecross(Readings(front + [last]))
    requires start <= last.now < start + WINDOW_MS
    ensures |InMinute(a, start)| <= |Evict(window, last.now)|
  {
    var calls := front + [last];
    var e := SuffixEvicted(window, front, last, a, idx, d);
    var inside := InMinute(a, start);
    forall x | 0 <= x < d ensures x !in inside {
      var j :| Outrun(front, idx[x], j);
      assert !Recross(Readings(calls), idx[x], j, |front|);
    }
    BoundedRange(inside, e, |a| - e);
  }

  /** If the clock never comes back near a reading it has left by a window, every interval
      of one minute holds at most the limit, for every tool and every caller. */
  lemma {:induction false} BoundWithoutRecross(caps: RateCaps, calls: seq<Call>, side: Side, key: string, start: int)
    requires NoRecross(Readings(calls))
    ensures WithinLimit(caps, calls, side, key, start)
  {
    if calls == [] {
      assert InMinute([], start) == {};
    } else {
      var front, last := calls[..|calls| - 1], calls[|calls| - 1];
      assert calls == front + [last];
      PrefixNoRecross(calls, |front|);
      BoundWithoutRecross(caps, front, side, key, start);
      RunLast(caps, calls, side, key);
      var a := Admitted(caps, front, side, key);
      MinuteSnoc(a, last.now, start);
      if KeyOf(last, side) == key && start <= last.now < start + WINDOW_MS {
        var d := WindowIsSuffix(caps, front, side, key);
        WindowAfterCheck(Run(caps, front), caps, last, side, key);
        MinuteIsInWindow(WindowIn(Run(caps, front), side, key), front, last, a,
                         AdmittedCalls(caps, front, side, key), d, start);
      }
    }
  }

  lemma MinuteSnoc(a: seq<int>, now: int, start: int)
    ensures |InMinute(a + [now], start)|
         == |InMinute(a, start)| + if start <= now < start + WINDOW_MS then 1 else 0
  {
    if start <= now < start + WINDOW_MS {
      assert InMinute(a + [now], start) == InMinute(a, start) + {|a|};
    } else {
      assert InMinute(a + [now], start) == InMinute(a, start);
    }
  }

  /** Over any history with a clock that never runs backwards, in particular. */
  lemma RateBound(caps: RateCaps, calls: seq<Call>, side: Side, key: string, start: int)
    requires ClockMonotone(calls)
    ensures WithinLimit(caps, calls, side, key, start)
  {
    forall i, j, k ensures !Recross(Readings(calls), i, j, k) {
    }
    BoundWithoutRecross(caps, calls, side, key, start);
  }

  /** And it must not come back. For every three readings of which the second is a window
      past the first and the third near the first again: a call refused for its caller at
      the second reading clears the tool's window, and under a limit of one the tool is
      admitted at the first reading and at the third. */
  lemma RecrossBreaksTheBound(a: int, b: int, c: int) returns (calls: seq<Call>, start: int)
    requires b >= a + WINDOW_MS && Near(a, c)
    ensures Readings(calls) == [a, b, b, c]
    ensures !WithinLimit(RateCaps(1, 1), calls, ByTool, "t", start)
  {
    calls := [Call("t", "a", a), Call("u", "b", b), Call("t", "b", b), Call("t", "c", c)];
    start := if a <= c then a else c;
    FourCalls(RateCaps(1, 1), calls, a, b, c);
    OverTheLimit(RateCaps(1, 1), calls, a, c, start);
  }

  lemma FourCalls(caps: RateCaps, calls: seq<Call>, a: int, b: int, c: int)
    requires caps == RateCaps(1, 1) && b >= a + WINDOW_MS
    requires calls == [Call("t", "a", a), Call("u", "b", b), Call("t", "b", b), Call("t", "c", c)]
    ensures Admitted(caps, calls, ByTool, "t") == [a, c]
  {
    var c3 := [Call("t", "a", a), Call("u", "b", b), Call("t", "b", b)];
    ThreeCalls(caps, c3, a, b);
    assert calls == c3 + [Call("t", "c", c)];
    FourthCall(caps, c3, calls, a, c);
  }

  lemma ThreeCalls(caps: RateCaps, c3: seq<Call>, a: int, b: int)
    requires caps == RateCaps(1, 1) && b >= a + WINDOW_MS
    requires c3 == [Call("t", "a", a), Call("u", "b", b), Call("t", "b", b)]
    ensures "t" in Run(caps, c3).perTool && Run(caps, c3).perTool["t"] == []
    ensures "c" !in Run(caps, c3).perCaller
    ensures Admitted(caps, c3, ByTool, "t") == [a]
  {
    var c1, c2 := [Call("t", "a", a)], [Call("t", "a", a), Call("u", "b", b)];
    assert c2 == c1 + [Call("u", "b", b)] && c3 == c2 + [Call("t", "b", b)];
    FirstTwoCalls(caps, c1, c2, a, b);
    ThirdCall(caps, c2, c3, a, b);
  }

  lemma OverTheLimit(caps: RateCaps, calls: seq<Call>, a: int, c: int, start: int)
    requires caps == RateCaps(1, 1) && Admitted(caps, calls, ByTool, "t") == [a, c]
    requires Near(a, c) && start == if a <= c then a else c
    ensures !WithinLimit(caps, calls, ByTool, "t", start)
  {
    BothInOneMinute(a, c, start);
  }

  lemma BothInOneMinute(a: int, c: int, start: int)
    requires Near(a, c) && start == if a <= c then a else c
    ensures |InMinute([a, c], start)| == 2
  {
    assert InMinute([a, c], start) == {0, 1};
  }

  lemma FourthCall(caps: RateCaps, c3: seq<Call>, c4: seq<Call>, a: int, c: int)
    requires caps == RateCaps(1, 1) && c4 == c3 + [Call("t", "c", c)]
    requires "t" in Run(caps, c3).perTool && Run(caps, c3).perTool["t"] == []
    requires "c" !in Run(caps, c3).perCaller
    requires Admitted(caps, c3, ByTool, "t") == [a]
    ensures Admitted(caps, c4, ByTool, "t") == [a, c]
  {
    RunSnoc(caps, c3, Call("t", "c", c));
    assert KeyOf(Call("t", "c", c), ByTool) == "t";
  }

  lemma ThirdCall(caps: RateCaps, c2: seq<Call>, c3: seq<Call>, a: int, b: int)
    requires caps == RateCaps(1, 1) && c3 == c2 + [Call("t", "b", b)] && b >= a + WINDOW_MS
    requires "t" in Run(caps, c2).perTool && Run(caps, c2).perTool["t"] == [a]
    requires Run(caps, c2).perCaller.Keys == {"a", "b"} && Run(caps, c2).perCaller["b"] == [b]
    requires Admitted(caps, c2, ByTool, "t") == [a]
    ensures "t" in Run(caps, c3).perTool && Run(caps, c3).perTool["t"] == []
    ensures "c" !in Run(caps, c3).perCaller
    ensures Admitted(caps, c3, ByTool, "t") == [a]
  {
    RunSnoc(caps, c2, Call("t", "b", b));
    RefusedForItsCaller(Run(caps, c2), caps, a, b);
  }

  lemma RefusedForItsCaller(s: RateState, caps: RateCaps, a: int, b: int)
    requires caps == RateCaps(1, 1) && b >= a + WINDOW_MS
    requires "t" in s.perTool && s.perTool["t"] == [a]
    requires s.perCaller.Keys == {"a", "b"} && s.perCaller["b"] == [b]
    ensures var (r, verdict) := RateCheck(s, caps, "t", "b", b);
      verdict.CallerLimit? && "t" in r.perTool && r.perTool["t"] == [] && "c" !in r.perCaller
  {
    assert Evict([a], b) == [] && Evict([b], b) == [b];
  }

  lemma FirstTwoCalls(caps: RateCaps, c1: seq<Call>, c2: seq<Call>, a: int, b: int)
    requires caps == RateCaps(1, 1)
    requires c1 == [Call("t", "a", a)] && c2 == c1 + [Call("u", "b", b)]
    ensures "t" in Run(caps, c2).perTool && Run(caps, c2).perTool["t"] == [a]
    ensures Run(caps, c2).perCaller.Keys == {"a", "b"} && Run(caps, c2).perCaller["b"] == [b]
    ensures Admitted(caps, c2, ByTool, "t") == [a]
  {
    assert Evict([], a) == [] && [] + [a] == [a] && Evict([], b) == [];
    RunSnoc(caps, [], Call("t", "a", a));
    assert [] + [Call("t", "a", a)] == c1;
    assert Run(caps, c1).perTool["t"] == [a] && "u" !in Run(caps, c1).perTool;
    RunSnoc(caps, c1, Call("u", "b", b));
  }

  /** The calls read this clock: each at one of its ticks, in order, several perhaps at one
      tick and at others none. */
  ghost predicate ReadAgainst(calls: seq<Call>, ticks: seq<int>) {
    exists at :: ReadAt(calls, ticks, at)
  }

  ghost predicate ReadAt(calls: seq<Call>, ticks: seq<int>, at: seq<nat>) {
    && |at| == |calls|
    && (forall i :: 0 <= i < |calls| ==> at[i] < |ticks| && calls[i].now == ticks[at[i]])
    && (forall i, j :: 0 <= i <= j < |at| ==> at[i] <= at[j])
  }

  /** What the clock must be like, exactly: every history read against it keeps the bound if
      and only if it never comes back near a reading it has left by a window. A clock that
      steps back by less, or only over stretches shorter than a window, does no harm. */
  lemma BoundExactlyWhen(ticks: seq<int>)
    ensures NoRecross(ticks) <==>
      forall caps, calls, side, key, start :: ReadAgainst(calls, ticks) ==> WithinLimit(caps, calls, side, key, start)
  {
    if NoRecross(ticks) {
      forall caps, calls, side, key, start | ReadAgainst(calls, ticks)
        ensures WithinLimit(caps, calls, side, key, start)
      {
        var at :| ReadAt(calls, ticks, at);
        forall i, j, k ensures !Recross(Readings(calls), i, j, k) {
          if 0 <= i < j < k < |calls| {
            assert !Recross(ticks, at[i], at[j], at[k]);
          }
        }
        BoundWithoutRecross(caps, calls, side, key, start);
      }
    } else {
      var i, j, k :| Recross(ticks, i, j, k);
      var calls, start := RecrossBreaksTheBound(ticks[i], ticks[j], ticks[k]);
      var r := Readings(calls);
      assert r[0] == ticks[i] && r[1] == ticks[j] && r[2] == ticks[j] && r[3] == ticks[k];
      assert ReadAt(calls, ticks, [i, j, j, k]);
      assert ReadAgainst(calls, ticks);
    }
  }
}
