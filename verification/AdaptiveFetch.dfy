/**
 The adaptive batch size of the distributor (AdaptiveFetchCount in src/tcpserver.go). Floating
 point is modelled by exact reals; `int(x)` of a non-negative float is the floor.
 */
module AdaptiveFetch {

  const MIN_COUNT: int := 10

  function Max(a: int, b: int): int { if a >= b then a else b }
  function Min(a: int, b: int): int { if a <= b then a else b }

  datatype Controller = Controller(baseLine: int, fetchCount: int, maxTimeMs: int,
                                   lastLatencyMs: int, lastThroughput: real, lastFetchCount: int)

  /** NewAdaptiveFetchCount; the time limit is given in seconds. */
  function Fresh(maxTime: int): Controller { Controller(0, 0, maxTime * 1000, 0, 0.0, 0) }

  predicate OverLimit(c: Controller, latencyMs: int)
    requires c.maxTimeMs > 0
  {
    (latencyMs as real) / (c.maxTimeMs as real) > 1.0
  }

  function Throughput(c: Controller, latencyMs: int): real
    requires latencyMs > 0
  {
    (c.fetchCount as real) * 1000.0 / (latencyMs as real)
  }

  function NextBaseLine(c: Controller, latencyMs: int, filled: int): int
    requires c.maxTimeMs > 0 && latencyMs > 0
  {
    if OverLimit(c, latencyMs) then ((c.baseLine as real) / ((latencyMs as real) / (c.maxTimeMs as real))).Floor
    else
      var grow := && c.fetchCount >= c.lastFetchCount
                  && (|| Throughput(c, latencyMs) * 1.1 >= c.lastThroughput
                      || (latencyMs as real) <= (c.lastLatencyMs as real) * 1.1);
      Max(Max(c.baseLine, if grow then c.fetchCount + MIN_COUNT * 10 else c.fetchCount) - MIN_COUNT, filled / 100)
  }

  function Evaluate(c: Controller, latencyMs: int, filled: int): Controller
    requires c.maxTimeMs > 0 && latencyMs > 0
  {
    if c.fetchCount == 0 then
      var b := Max(filled / 100 / MIN_COUNT * MIN_COUNT, MIN_COUNT);
      c.(baseLine := b, fetchCount := b)
    else
      var b := NextBaseLine(c, latencyMs, filled);
      Controller(b, Max(Min(b, filled) / MIN_COUNT * MIN_COUNT, MIN_COUNT), c.maxTimeMs,
                 latencyMs, Throughput(c, latencyMs), c.fetchCount)
  }

  /** The controller as the object it is: the fields change in place. */
  class AdaptiveFetchCount {
    var baseLineMaxCount: int
    var fetchCount: int
    const maxTimeMs: int
    var lastSendLatencyMs: int
    var lastSendThroughput: real
    var lastFetchCount: int

    constructor (maxTime: int)
      ensures View() == Fresh(maxTime)
    {
      baseLineMaxCount, fetchCount, maxTimeMs := 0, 0, maxTime * 1000;
      lastSendLatencyMs, lastSendThroughput, lastFetchCount := 0, 0.0, 0;
    }

    ghost function View(): Controller
      reads this
    {
      Controller(baseLineMaxCount, fetchCount, maxTimeMs, lastSendLatencyMs, lastSendThroughput, lastFetchCount)
    }

    method EvaluateFetchCount(sendLatencyMs: int, filledCapacity: int) returns (count: int)
      requires maxTimeMs > 0 && sendLatencyMs > 0
      modifies this
      ensures View() == Evaluate(old(View()), sendLatencyMs, filledCapacity) && count == fetchCount
    {
      if fetchCount == 0 {
        baseLineMaxCount := Max(filledCapacity / 100 / MIN_COUNT * MIN_COUNT, MIN_COUNT);
        fetchCount := baseLineMaxCount;
        return fetchCount;
      }
      var factor := (sendLatencyMs as real) / (maxTimeMs as real);
      var sendThroughput := (fetchCount as real) * 1000.0 / (sendLatencyMs as real);
      if factor > 1.0 {
        baseLineMaxCount := ((baseLineMaxCount as real) / factor).Floor;
      } else {
        var next := fetchCount;
        if fetchCount >= lastFetchCount {
          if || sendThroughput * 1.1 >= lastSendThroughput
             || (sendLatencyMs as real) <= (lastSendLatencyMs as real) * 1.1 {
            next := next + MIN_COUNT * 10;
          }
        }
        baseLineMaxCount := Max(Max(baseLineMaxCount, next) - MIN_COUNT, filledCapacity / 100);
      }
      lastFetchCount := fetchCount;
      lastSendLatencyMs := sendLatencyMs;
      lastSendThroughput := sendThroughput;
      fetchCount := Max(Min(baseLineMaxCount, filledCapacity) / MIN_COUNT * MIN_COUNT, MIN_COUNT);
      count := fetchCount;
    }
  }

  // ----- every sequence of calls

  datatype Call = Call(latencyMs: int, filled: int)

  ghost predicate Sensible(calls: seq<Call>)
  {
    forall i :: 0 <= i < |calls| ==> calls[i].latencyMs >= 1 && calls[i].filled >= 0
  }

  function After(maxTime: int, calls: seq<Call>): Controller
    requires maxTime >= 1 && Sensible(calls)
    ensures After(maxTime, calls).maxTimeMs == maxTime * 1000
  {
    if calls == [] then Fresh(maxTime)
    else
      var last := calls[|calls| - 1];
      Evaluate(After(maxTime, calls[..|calls| - 1]), last.latencyMs, last.filled)
  }

  predicate Within(c: Controller, filled: int)
  {
    c.fetchCount >= 10 && c.fetchCount % 10 == 0 && c.fetchCount <= Max(filled, 10) && c.baseLine >= 0
  }

  lemma Product(a: real, b: real)
    requires a > 0.0 && b > 0.0
    ensures a * b > 0.0
  {
  }

  /** Over the limit the base line shrinks, strictly when it is positive. */
  lemma Shrinks(baseLine: int, latencyMs: int, maxTimeMs: int)
    requires baseLine >= 0 && maxTimeMs > 0 && (latencyMs as real) / (maxTimeMs as real) > 1.0
    ensures var b := ((baseLine as real) / ((latencyMs as real) / (maxTimeMs as real))).Floor;
            0 <= b && (baseLine > 0 ==> b < baseLine)
  {
    var f := (latencyMs as real) / (maxTimeMs as real);
    var q := (baseLine as real) / f;
    assert q * f == baseLine as real;
    if baseLine > 0 {
      assert q > 0.0;
      Product(q, f - 1.0);
      assert q * f == q + q * (f - 1.0);
    } else {
      assert q == 0.0;
    }
  }

  lemma EvaluateWithin(c: Controller, latencyMs: int, filled: int)
    requires c.maxTimeMs > 0 && latencyMs >= 1 && filled >= 0 && c.baseLine >= 0 && c.fetchCount >= 0
    ensures Within(Evaluate(c, latencyMs, filled), filled)
    ensures c.fetchCount > 0 && OverLimit(c, latencyMs) && c.baseLine > 0 ==>
              Evaluate(c, latencyMs, filled).baseLine < c.baseLine
  {
    if OverLimit(c, latencyMs) { Shrinks(c.baseLine, latencyMs, c.maxTimeMs); }
  }

  /** After any call of any sequence the batch size is a positive multiple of ten that the queue can
      supply, the base line is not negative, and a late batch strictly lowers a positive base line. */
  lemma {:induction false} EveryCall(maxTime: int, calls: seq<Call>)
    requires maxTime >= 1 && calls != [] && Sensible(calls)
    ensures var c, before := After(maxTime, calls), After(maxTime, calls[..|calls| - 1]);
            var last := calls[|calls| - 1];
            && Within(c, last.filled)
            && (|calls| >= 2 && OverLimit(before, last.latencyMs) && before.baseLine > 0 ==>
                  c.baseLine < before.baseLine)
  {
    hide Evaluate;
    var before := calls[..|calls| - 1];
    if before != [] { EveryCall(maxTime, before); }
    EvaluateWithin(After(maxTime, before), calls[|calls| - 1].latencyMs, calls[|calls| - 1].filled);
  }

  /** With a queue of at least ten slots the distributor never waits for more than fits into it. */
  lemma WaitIsSatisfiable(maxTime: int, calls: seq<Call>, capacity: int)
    requires maxTime >= 1 && calls != [] && Sensible(calls) && capacity >= 10
    requires forall i :: 0 <= i < |calls| ==> calls[i].filled <= capacity
    ensures 0 < After(maxTime, calls).fetchCount <= capacity
  {
    EveryCall(maxTime, calls);
  }

  // ----- how the base line moves

  /** The last batch was no smaller than the one before it, and its throughput or its latency no more than
      a tenth worse. */
  predicate Better(before: Controller, latencyMs: int)
    requires latencyMs > 0
  {
    && before.fetchCount >= before.lastFetchCount
    && (|| (before.fetchCount as real) * 1000.0 / (latencyMs as real) * 1.1 >= before.lastThroughput
        || (latencyMs as real) <= (before.lastLatencyMs as real) * 1.1)
  }

  /** The largest multiple of ten that is at most n, but at least ten. */
  predicate RoundedDown(count: int, n: int)
  {
    count % 10 == 0 && if n < 10 then count == 10 else count <= n < count + 10
  }

  lemma EvaluateMoves(c: Controller, latencyMs: int, filled: int)
    requires c.maxTimeMs > 0 && latencyMs >= 1 && filled >= 0 && c.baseLine >= 0 && c.fetchCount > 0
    ensures var d := Evaluate(c, latencyMs, filled);
            && d.lastFetchCount == c.fetchCount && d.lastLatencyMs == latencyMs
            && d.lastThroughput == (c.fetchCount as real) * 1000.0 / (latencyMs as real)
            && RoundedDown(d.fetchCount, Min(d.baseLine, filled))
            && (latencyMs <= c.maxTimeMs ==>
                  && c.baseLine - 10 <= d.baseLine && filled / 100 <= d.baseLine
                  && (if Better(c, latencyMs)
                      then c.fetchCount + 90 <= d.baseLine <= Max(Max(c.baseLine - 10, c.fetchCount + 90), filled / 100)
                      else c.fetchCount - 10 <= d.baseLine <= Max(Max(c.baseLine, c.fetchCount) - 10, filled / 100)))
  {
    OnTimeIsNotOver(c, latencyMs);
  }

  lemma OnTimeIsNotOver(c: Controller, latencyMs: int)
    requires c.maxTimeMs > 0 && latencyMs >= 1
    ensures OverLimit(c, latencyMs) <==> latencyMs > c.maxTimeMs
  {
    var q := (latencyMs as real) / (c.maxTimeMs as real);
    assert q * (c.maxTimeMs as real) == latencyMs as real;
  }

  /** On every call but the first: a batch in time raises the base line to at least ninety above the last
      batch if that was no worse than the one before, and otherwise lets it fall by at most ten; the batch
      size is what the base line and the queue allow, in tens. */
  lemma EveryCallMoves(maxTime: int, calls: seq<Call>)
    requires maxTime >= 1 && |calls| >= 2 && Sensible(calls)
    ensures var c, before := After(maxTime, calls), After(maxTime, calls[..|calls| - 1]);
            var last := calls[|calls| - 1];
            && RoundedDown(c.fetchCount, Min(c.baseLine, last.filled))
            && (last.latencyMs <= maxTime * 1000 ==>
                  && before.baseLine - 10 <= c.baseLine && last.filled / 100 <= c.baseLine
                  && (Better(before, last.latencyMs) ==> before.fetchCount + 90 <= c.baseLine)
                  && (!Better(before, last.latencyMs) ==>
                        c.baseLine <= Max(Max(before.baseLine, before.fetchCount) - 10, last.filled / 100)))
  {
    hide Evaluate, Better, RoundedDown;
    EveryCall(maxTime, calls[..|calls| - 1]);
    EvaluateMoves(After(maxTime, calls[..|calls| - 1]), calls[|calls| - 1].latencyMs, calls[|calls| - 1].filled);
  }

  /** The first call takes a hundredth of the queue, in tens. */
  lemma FirstCall(maxTime: int, call: Call)
    requires maxTime >= 1 && call.latencyMs >= 1 && call.filled >= 0
    ensures var c := After(maxTime, [call]); RoundedDown(c.fetchCount, call.filled / 100) && c.baseLine == c.fetchCount
  {
    assert [call][..0] == [];
    assert After(maxTime, []) == Fresh(maxTime);
  }
}
