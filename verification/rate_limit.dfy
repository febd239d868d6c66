/**
 The token bucket and the account cooldown, two scripts that Redis runs atomically. Amounts and times are exact
 (real seconds for the bucket, whole milliseconds for the cooldown); rounding is not modelled.
 */
module RateLimit {
  import opened Common

  // ---------------------------------------------------------------- the bucket

  /** What a key always uses; only the cost varies between its requests. */
  datatype Rate = Rate(capacity: real, refill: real)

  datatype Bucket = Bucket(tokens: real, ts: real, expires: real)

  datatype Request = Request(cost: real, now: real)

  datatype Decision = Decision(allowed: bool, remaining: real, retryAfter: real)

  predicate Usable(r: Rate) {
    r.capacity > 0.0 && r.refill > 0.0
  }

  function Ceil(x: real): int {
    0 - (0.0 - x).Floor
  }

  function MaxReal(a: real, b: real): real {
    if a >= b then a else b
  }

  function MinReal(a: real, b: real): real {
    if a <= b then a else b
  }

  function TimeToLive(r: Rate): real
    requires Usable(r)
  {
    MaxReal(1.0, Ceil(r.capacity / r.refill * 2.0) as real)
  }

  /** The bucket a request finds: none once its key has expired. */
  function Found(b: Option<Bucket>, now: real): Option<Bucket> {
    if b.Some? && b.value.expires <= now then None else b
  }

  /** The tokens in the bucket after refilling; a missing bucket is full. */
  function Level(r: Rate, b: Option<Bucket>, now: real): real {
    if b.None? then r.capacity
    else MinReal(r.capacity, b.value.tokens + MaxReal(0.0, now - b.value.ts) * r.refill)
  }

  function Decide(r: Rate, b: Option<Bucket>, q: Request): Decision
    requires Usable(r)
  {
    var level := Level(r, b, q.now);
    if level >= q.cost then Decision(true, level - q.cost, 0.0)
    else Decision(false, level, (q.cost - level) / r.refill)
  }

  function AfterRequest(r: Rate, b: Option<Bucket>, q: Request): Bucket
    requires Usable(r)
  {
    Bucket(Decide(r, b, q).remaining, q.now, q.now + TimeToLive(r))
  }

  datatype Outcome = Refused | Ran(decision: Decision)

  /** One key of the limiter. */
  class LimitedKey {
    var bucket: Option<Bucket>

    constructor ()
      ensures bucket == None
    {
      bucket := None;
    }

    method Allow(r: Rate, requested: real, now: real) returns (o: Outcome)
      modifies this
      ensures o.Refused? <==> !Usable(r) || (if requested <= 0.0 then 1.0 else requested) > r.capacity
      ensures o.Refused? ==> bucket == old(bucket)
      ensures o.Ran? ==>
                var q := Request(if requested <= 0.0 then 1.0 else requested, now);
                && o.decision == Decide(r, Found(old(bucket), now), q)
                && bucket == Some(AfterRequest(r, Found(old(bucket), now), q))
    {
      if r.capacity <= 0.0 {
        return Refused;
      }
      if r.refill <= 0.0 {
        return Refused;
      }
      var cost := requested;
      if cost <= 0.0 {
        cost := 1.0;
      }
      if cost > r.capacity {
        return Refused;
      }
      if bucket.Some? && bucket.value.expires <= now {
        bucket := None;
      }
      var tokens, last := r.capacity, now;
      if bucket.Some? {
        tokens, last := bucket.value.tokens, bucket.value.ts;
      }
      var elapsed := MaxReal(0.0, now - last);
      tokens := MinReal(r.capacity, tokens + elapsed * r.refill);
      var allowed, retryAfter := false, 0.0;
      if tokens >= cost {
        tokens := tokens - cost;
        allowed := true;
      } else {
        retryAfter := (cost - tokens) / r.refill;
      }
      bucket := Some(Bucket(tokens, now, now + TimeToLive(r)));
      return Ran(Decision(allowed, tokens, retryAfter));
    }
  }

  // ---------------------------------------------------------------- runs of one key

  /** The bucket after all requests, with expiry or, for comparison, without. */
  function Final(r: Rate, qs: seq<Request>, expiring: bool): Option<Bucket>
    requires Usable(r)
  {
    if qs == [] then None
    else
      var q := qs[|qs| - 1];
      var b := Final(r, qs[..|qs| - 1], expiring);
      Some(AfterRequest(r, if expiring then Found(b, q.now) else b, q))
  }

  /** What request k was told. */
  function Answer(r: Rate, qs: seq<Request>, k: nat, expiring: bool): Decision
    requires Usable(r) && k < |qs|
  {
    var b := Final(r, qs[..k], expiring);
    Decide(r, if expiring then Found(b, qs[k].now) else b, qs[k])
  }

  /** The requests' times never go back, and each could be admitted by a full bucket. */
  ghost predicate Orderly(r: Rate, qs: seq<Request>) {
    && (forall i :: 0 <= i < |qs| ==> 0.0 < qs[i].cost <= r.capacity)
    && (forall i, j :: 0 <= i <= j < |qs| ==> qs[i].now <= qs[j].now)
  }

  lemma OrderlyPrefix(r: Rate, qs: seq<Request>, k: nat)
    requires Orderly(r, qs) && k <= |qs|
    ensures Orderly(r, qs[..k])
  {
  }

  predicate Sound(r: Rate, b: Bucket)
    requires Usable(r)
  {
    0.0 <= b.tokens <= r.capacity && b.expires == b.ts + TimeToLive(r)
  }

  /** What the refill gives up to a time. */
  function FuelAt(r: Rate, t: real): real {
    t * r.refill
  }

  /** Multiplying by the refill rate keeps order and distributes over differences. */
  lemma Scaled(refill: real, a: real, b: real)
    requires refill > 0.0
    ensures (b - a) * refill == b * refill - a * refill
    ensures a <= b <==> a * refill <= b * refill
  {
    if a <= b {
      assert (b - a) * refill >= 0.0;
    } else {
      assert (a - b) * refill > 0.0;
      assert (a - b) * refill == a * refill - b * refill;
    }
  }

  lemma Divided(amount: real, refill: real)
    requires refill > 0.0
    ensures amount / refill * refill == amount
  {
  }

  /** A key lives long enough for its bucket to have filled up. */
  lemma ExpiredIsFull(r: Rate, b: Bucket, now: real)
    requires Usable(r) && Sound(r, b) && b.expires <= now
    ensures b.ts <= now && (now - b.ts) * r.refill >= r.capacity
  {
    var need := r.capacity / r.refill;
    assert need > 0.0;
    assert Ceil(need * 2.0) as real >= need * 2.0;
    Divided(r.capacity, r.refill);
    Scaled(r.refill, need, now - b.ts);
  }

  /** What a request finds: the tokens left and the refill since, up to the capacity, expired or not. */
  lemma FoundLevel(r: Rate, b: Bucket, now: real)
    requires Usable(r) && Sound(r, b) && b.ts <= now
    ensures Level(r, Some(b), now) == MinReal(r.capacity, b.tokens + (FuelAt(r, now) - FuelAt(r, b.ts)))
    ensures FuelAt(r, b.ts) <= FuelAt(r, now)
    ensures Level(r, Found(Some(b), now), now) == Level(r, Some(b), now)
    ensures 0.0 <= Level(r, Some(b), now) <= r.capacity
  {
    Scaled(r.refill, b.ts, now);
    if b.expires <= now {
      ExpiredIsFull(r, b, now);
    }
  }

  lemma {:induction false} FinalIsSound(r: Rate, qs: seq<Request>, expiring: bool)
    requires Usable(r) && Orderly(r, qs) && qs != []
    ensures Final(r, qs, expiring).Some? && Sound(r, Final(r, qs, expiring).value)
    ensures Final(r, qs, expiring).value.ts == qs[|qs| - 1].now
  {
    var front, q := qs[..|qs| - 1], qs[|qs| - 1];
    if front != [] {
      OrderlyPrefix(r, qs, |qs| - 1);
      FinalIsSound(r, front, expiring);
      assert front[|front| - 1] == qs[|qs| - 2];
      FoundLevel(r, Final(r, front, expiring).value, q.now);
    }
  }

  /** Letting keys expire changes no answer and no bucket, on any requests in order of time. */
  lemma {:induction false} ExpiryIsInvisible(r: Rate, qs: seq<Request>)
    requires Usable(r) && Orderly(r, qs)
    ensures Final(r, qs, true) == Final(r, qs, false)
    ensures forall k :: 0 <= k < |qs| ==> Answer(r, qs, k, true) == Answer(r, qs, k, false)
  {
    if qs != [] {
      var n := |qs| - 1;
      OrderlyPrefix(r, qs, n);
      ExpiryIsInvisible(r, qs[..n]);
      if n > 0 {
        FinalIsSound(r, qs[..n], true);
        FoundLevel(r, Final(r, qs[..n], true).value, qs[n].now);
      }
      forall k | 0 <= k < |qs| ensures Answer(r, qs, k, true) == Answer(r, qs, k, false) {
        if k < n {
          assert qs[..n][..k] == qs[..k];
          assert Answer(r, qs[..n], k, true) == Answer(r, qs[..n], k, false);
        }
      }
    }
  }

  /** Tokens stay between none and the capacity. */
  lemma TokensStayInRange(r: Rate, qs: seq<Request>)
    requires Usable(r) && Orderly(r, qs) && qs != []
    ensures Final(r, qs, true).Some? && 0.0 <= Final(r, qs, true).value.tokens <= r.capacity
  {
    FinalIsSound(r, qs, true);
  }

  // ---------------------------------------------------------------- ledgers

  /**
   What a run of requests found and spent, against `fuel`, the refill given up to each of their times. Nothing
   here multiplies.
   */
  ghost predicate Ledger(capacity: real, fuel: seq<real>, found: seq<real>, spent: seq<real>) {
    && |fuel| == |found| == |spent|
    && (forall k :: 0 <= k < |found| ==> 0.0 <= spent[k] <= found[k] <= capacity)
    && (forall k :: 0 < k < |found| ==>
          fuel[k - 1] <= fuel[k] && found[k] == MinReal(capacity, found[k - 1] - spent[k - 1] + (fuel[k] - fuel[k - 1])))
  }

  function Sum(s: seq<real>, i: nat, j: nat): real
    requires i <= j <= |s|
    decreases j
  {
    if i == j then 0.0 else Sum(s, i, j - 1) + s[j - 1]
  }

  lemma {:induction false} LedgerBound(capacity: real, fuel: seq<real>, found: seq<real>, spent: seq<real>, i: nat, j: nat)
    requires Ledger(capacity, fuel, found, spent) && i <= j < |found|
    ensures Sum(spent, i, j) + found[j] <= found[i] + (fuel[j] - fuel[i])
    decreases j
  {
    if i < j {
      LedgerBound(capacity, fuel, found, spent, i, j - 1);
    }
  }

  lemma LedgerRate(capacity: real, fuel: seq<real>, found: seq<real>, spent: seq<real>, i: nat, j: nat)
    requires Ledger(capacity, fuel, found, spent) && i <= j < |found|
    ensures Sum(spent, i, j + 1) <= capacity + (fuel[j] - fuel[i])
  {
    LedgerBound(capacity, fuel, found, spent, i, j);
  }

  lemma {:induction false} IdleLedger(capacity: real, fuel: seq<real>, found: seq<real>, spent: seq<real>, i: nat, k: nat)
    requires Ledger(capacity, fuel, found, spent) && i <= k < |found|
    requires forall j :: i <= j < k ==> spent[j] == 0.0
    ensures found[k] == MinReal(capacity, found[i] + (fuel[k] - fuel[i])) && fuel[i] <= fuel[k]
    decreases k
  {
    if i < k {
      IdleLedger(capacity, fuel, found, spent, i, k - 1);
    }
  }

  // ---------------------------------------------------------------- the run's ledger

  function Fuel(r: Rate, qs: seq<Request>): seq<real> {
    seq(|qs|, k requires 0 <= k < |qs| => FuelAt(r, qs[k].now))
  }

  /** What request k finds in the bucket. */
  function LevelAt(r: Rate, qs: seq<Request>, k: nat): real
    requires Usable(r) && k < |qs|
  {
    Level(r, Found(Final(r, qs[..k], true), qs[k].now), qs[k].now)
  }

  function SpentAt(r: Rate, qs: seq<Request>, k: nat): real
    requires Usable(r) && k < |qs|
  {
    if Answer(r, qs, k, true).allowed then qs[k].cost else 0.0
  }

  function Levels(r: Rate, qs: seq<Request>): seq<real>
    requires Usable(r)
  {
    seq(|qs|, k requires 0 <= k < |qs| => LevelAt(r, qs, k))
  }

  /** The admitted costs, zero where a request was denied. */
  function Spent(r: Rate, qs: seq<Request>): seq<real>
    requires Usable(r)
  {
    seq(|qs|, k requires 0 <= k < |qs| => SpentAt(r, qs, k))
  }

  /** A request leaves behind what it found, less its cost if it was admitted. */
  lemma RequestSpends(r: Rate, qs: seq<Request>, k: nat)
    requires Usable(r) && Orderly(r, qs) && k < |qs|
    ensures 0.0 <= SpentAt(r, qs, k) <= LevelAt(r, qs, k) <= r.capacity
    ensures var left := LevelAt(r, qs, k) - SpentAt(r, qs, k);
            Final(r, qs[..k + 1], true) == Some(Bucket(left, qs[k].now, qs[k].now + TimeToLive(r)))
  {
    assert qs[..k + 1][..k] == qs[..k];
    if k > 0 {
      OrderlyPrefix(r, qs, k);
      FinalIsSound(r, qs[..k], true);
      FoundLevel(r, Final(r, qs[..k], true).value, qs[k].now);
    }
  }

  /** Between two requests the bucket gains what the refill gives, up to the capacity. */
  lemma LevelRises(r: Rate, qs: seq<Request>, k: nat)
    requires Usable(r) && Orderly(r, qs) && 0 < k < |qs|
    ensures Fuel(r, qs)[k - 1] <= Fuel(r, qs)[k]
    ensures LevelAt(r, qs, k)
            == MinReal(r.capacity, LevelAt(r, qs, k - 1) - SpentAt(r, qs, k - 1) + (Fuel(r, qs)[k] - Fuel(r, qs)[k - 1]))
  {
    RequestSpends(r, qs, k - 1);
    OrderlyPrefix(r, qs, k);
    FinalIsSound(r, qs[..k], true);
    FoundLevel(r, Final(r, qs[..k], true).value, qs[k].now);
  }

  lemma RunIsLedger(r: Rate, qs: seq<Request>)
    requires Usable(r) && Orderly(r, qs)
    ensures Ledger(r.capacity, Fuel(r, qs), Levels(r, qs), Spent(r, qs))
  {
    forall k | 0 <= k < |qs| ensures 0.0 <= Spent(r, qs)[k] <= Levels(r, qs)[k] <= r.capacity {
      RequestSpends(r, qs, k);
    }
    forall k | 0 < k < |qs|
      ensures Fuel(r, qs)[k - 1] <= Fuel(r, qs)[k]
      ensures Levels(r, qs)[k]
              == MinReal(r.capacity, Levels(r, qs)[k - 1] - Spent(r, qs)[k - 1] + (Fuel(r, qs)[k] - Fuel(r, qs)[k - 1]))
    {
      LevelRises(r, qs, k);
    }
  }

  // ---------------------------------------------------------------- main results

  lemma FuelBetween(r: Rate, a: real, b: real)
    ensures FuelAt(r, b) - FuelAt(r, a) == (b - a) * r.refill
  {
  }

  lemma RunRate(r: Rate, qs: seq<Request>, i: nat, j: nat)
    requires Usable(r) && Orderly(r, qs) && i <= j < |qs|
    ensures Sum(Spent(r, qs), i, j + 1) <= r.capacity + (FuelAt(r, qs[j].now) - FuelAt(r, qs[i].now))
  {
    RunIsLedger(r, qs);
    LedgerRate(r.capacity, Fuel(r, qs), Levels(r, qs), Spent(r, qs), i, j);
  }

  /** No more than the capacity and the refill of the duration. */
  predicate WithinRate(r: Rate, admitted: real, duration: real) {
    admitted <= r.capacity + r.refill * duration
  }

  lemma WithinFuel(r: Rate, admitted: real, from: real, to: real)
    requires admitted <= r.capacity + (FuelAt(r, to) - FuelAt(r, from))
    ensures WithinRate(r, admitted, to - from)
  {
    FuelBetween(r, from, to);
  }

  /** Over any stretch of requests, no more is admitted than the capacity and what is refilled in its time. */
  lemma RateBound(r: Rate, qs: seq<Request>, i: nat, j: nat)
    requires Usable(r) && Orderly(r, qs) && i <= j < |qs|
    ensures WithinRate(r, Sum(Spent(r, qs), i, j + 1), qs[j].now - qs[i].now)
  {
    RunRate(r, qs, i, j);
    WithinFuel(r, Sum(Spent(r, qs), i, j + 1), qs[i].now, qs[j].now);
  }

  /** Waiting for what is missing, at the rate it comes in, is waiting long enough, and no less is. */
  lemma WaitIsExact(r: Rate, found: real, cost: real, from: real, to: real)
    requires Usable(r) && cost <= r.capacity
    ensures MinReal(r.capacity, found + (FuelAt(r, to) - FuelAt(r, from))) >= cost <==> to - from >= (cost - found) / r.refill
  {
    FuelBetween(r, from, to);
    Divided(cost - found, r.refill);
    Scaled(r.refill, (cost - found) / r.refill, to - from);
  }

  /**
   A denied request, made again with nothing admitted in between, is admitted exactly when it waits as long as it
   was told to.
   */
  lemma RetryAfterIsExact(r: Rate, qs: seq<Request>, i: nat, k: nat)
    requires Usable(r) && Orderly(r, qs) && i < k < |qs| && qs[k].cost == qs[i].cost
    requires forall j :: i <= j < k ==> !Answer(r, qs, j, true).allowed
    ensures Answer(r, qs, k, true).allowed <==> qs[k].now - qs[i].now >= Answer(r, qs, i, true).retryAfter
  {
    RunIsLedger(r, qs);
    assert forall j :: i <= j < k ==> Spent(r, qs)[j] == 0.0;
    IdleLedger(r.capacity, Fuel(r, qs), Levels(r, qs), Spent(r, qs), i, k);
    WaitIsExact(r, LevelAt(r, qs, i), qs[i].cost, qs[i].now, qs[k].now);
  }

  // ---------------------------------------------------------------- a clock that steps back

  predicate InOrder(times: seq<real>) {
    forall i, j :: 0 <= i <= j < |times| ==> times[i] <= times[j]
  }

  /** One cost a request, each one a full bucket could admit. */
  predicate Admissible(r: Rate, costs: seq<real>) {
    forall i :: 0 <= i < |costs| ==> 0.0 < costs[i] <= r.capacity
  }

  function Requests(times: seq<real>, costs: seq<real>): seq<Request>
    requires |times| == |costs|
  {
    seq(|times|, k requires 0 <= k < |times| => Request(costs[k], times[k]))
  }

  /** Every stretch of the requests keeps to the rate. */
  ghost predicate KeepsRate(r: Rate, qs: seq<Request>)
    requires Usable(r)
  {
    forall i, j :: 0 <= i <= j < |qs| ==> StretchKeepsRate(r, qs, i, j)
  }

  predicate StretchKeepsRate(r: Rate, qs: seq<Request>, i: nat, j: nat)
    requires Usable(r) && i <= j < |qs|
  {
    WithinRate(r, Sum(Spent(r, qs), i, j + 1), qs[j].now - qs[i].now)
  }

  lemma {:induction false} AdjacentInOrder(times: seq<real>, i: nat, j: nat)
    requires i <= j < |times| && forall k :: 0 <= k < |times| - 1 ==> times[k] <= times[k + 1]
    ensures times[i] <= times[j]
    decreases j
  {
    if i < j {
      AdjacentInOrder(times, i, j - 1);
      assert times[j - 1] <= times[j - 1 + 1];
    }
  }

  lemma StepsBack(times: seq<real>) returns (k: nat)
    requires !InOrder(times)
    ensures k + 1 < |times| && times[k + 1] < times[k]
  {
    if forall k :: 0 <= k < |times| - 1 ==> times[k] <= times[k + 1] {
      forall i, j | 0 <= i <= j < |times| ensures times[i] <= times[j] {
        AdjacentInOrder(times, i, j);
      }
    }
    k :| 0 <= k < |times| - 1 && times[k + 1] < times[k];
  }

  function CostSum(qs: seq<Request>, k: nat): real
    requires k <= |qs|
  {
    if k == 0 then 0.0 else CostSum(qs, k - 1) + qs[k - 1].cost
  }

  lemma RefillOnlyAdds(r: Rate, b: Bucket, now: real)
    requires Usable(r) && b.tokens <= r.capacity
    ensures b.tokens <= Level(r, Found(Some(b), now), now) <= r.capacity
  {
    Scaled(r.refill, 0.0, MaxReal(0.0, now - b.ts));
  }

  /** Whatever the clock does, a bucket never holds less than the capacity without all that was asked for. */
  lemma {:induction false} NeverBelow(r: Rate, qs: seq<Request>, k: nat)
    requires Usable(r) && k < |qs| && forall i :: 0 <= i < |qs| ==> qs[i].cost > 0.0
    ensures r.capacity - CostSum(qs, k) <= LevelAt(r, qs, k) <= r.capacity
  {
    if k > 0 {
      NeverBelow(r, qs, k - 1);
      assert qs[..k][..k - 1] == qs[..k - 1];
      RefillOnlyAdds(r, Final(r, qs[..k], true).value, qs[k].now);
    }
  }

  lemma {:induction false} SameCosts(qs: seq<Request>, cost: real, k: nat)
    requires k <= |qs| && forall i :: 0 <= i < k ==> qs[i].cost == cost
    ensures CostSum(qs, k) == (k as real) * cost
  {
    if k > 0 {
      SameCosts(qs, cost, k - 1);
      assert (k as real) * cost == ((k - 1) as real) * cost + cost;
    }
  }

  /** Half an amount, in k + 1 equal parts: k of them are at most the half. */
  lemma SmallParts(amount: real, k: nat) returns (part: real)
    requires amount > 0.0
    ensures 0.0 < part <= amount / 2.0 && (k as real) * part <= amount / 2.0
  {
    var n := (k + 1) as real;
    part := amount / 2.0 / n;
    Divided(amount / 2.0, n);
    assert part > 0.0;
    assert n * part == (k as real) * part + part;
    assert (k as real) * part >= 0.0;
  }

  /** Costs that come to next to nothing before request k, and to a given amount each from there on. */
  lemma SmallCosts(times: seq<real>, k: nat, amount: real, cost: real) returns (costs: seq<real>)
    requires k <= |times| && amount > 0.0
    ensures |costs| == |times| && CostSum(Requests(times, costs), k) <= amount / 2.0
    ensures forall i :: 0 <= i < |costs| ==> if i < k then 0.0 < costs[i] <= amount / 2.0 else costs[i] == cost
  {
    var part := SmallParts(amount, k);
    costs := seq(|times|, i => if i < k then part else cost);
    SameCosts(Requests(times, costs), part, k);
  }

  /** Two requests around a step back, after next to nothing, are both admitted and cost this much each. */
  lemma BothAdmitted(r: Rate, times: seq<real>, k: nat, amount: real) returns (costs: seq<real>)
    requires Usable(r) && k + 1 < |times| && 0.0 < amount <= r.capacity
    ensures |costs| == |times| && Admissible(r, costs)
    ensures Sum(Spent(r, Requests(times, costs)), k, k + 2) == r.capacity - amount / 2.0
  {
    var half := (r.capacity - amount / 2.0) / 2.0;
    costs := SmallCosts(times, k, amount, half);
    var qs := Requests(times, costs);
    NeverBelow(r, qs, k);
    NeverBelow(r, qs, k + 1);
    assert CostSum(qs, k + 1) == CostSum(qs, k) + half;
    TwoSpent(r, qs, k, half);
  }

  /** What a step back of this length would refill twice, up to the capacity. */
  function Backlog(r: Rate, back: real): real {
    MinReal(r.refill * back, r.capacity)
  }

  /** That is too much for a stretch that ends before it begins. */
  lemma TooMuch(r: Rate, spent: real, back: real)
    requires Usable(r) && back > 0.0 && spent == r.capacity - Backlog(r, back) / 2.0
    ensures !WithinRate(r, spent, 0.0 - back)
  {
    assert r.refill * back > 0.0;
    assert r.refill * (0.0 - back) == 0.0 - r.refill * back;
  }

  lemma BacklogIsPositive(r: Rate, back: real)
    requires Usable(r) && back > 0.0
    ensures 0.0 < Backlog(r, back) <= r.capacity
  {
    assert r.refill * back > 0.0;
  }

  lemma StepBackExceeds(r: Rate, times: seq<real>, k: nat) returns (costs: seq<real>)
    requires Usable(r) && k + 1 < |times| && times[k + 1] < times[k]
    ensures |costs| == |times| && Admissible(r, costs) && !StretchKeepsRate(r, Requests(times, costs), k, k + 1)
  {
    var back := times[k] - times[k + 1];
    BacklogIsPositive(r, back);
    costs := BothAdmitted(r, times, k, Backlog(r, back));
    TooMuch(r, Sum(Spent(r, Requests(times, costs)), k, k + 2), back);
    assert times[k + 1] - times[k] == 0.0 - back;
  }

  lemma TwoSpent(r: Rate, qs: seq<Request>, k: nat, cost: real)
    requires Usable(r) && k + 1 < |qs| && qs[k].cost == qs[k + 1].cost == cost
    requires LevelAt(r, qs, k) >= cost && LevelAt(r, qs, k + 1) >= cost
    ensures Sum(Spent(r, qs), k, k + 2) == cost + cost
  {
    assert SpentAt(r, qs, k) == cost && SpentAt(r, qs, k + 1) == cost;
    assert Sum(Spent(r, qs), k, k) == 0.0;
    assert Sum(Spent(r, qs), k, k + 1) == cost;
  }

  lemma InOrderKeepsRate(r: Rate, times: seq<real>, costs: seq<real>)
    requires Usable(r) && InOrder(times) && |costs| == |times| && Admissible(r, costs)
    ensures KeepsRate(r, Requests(times, costs))
  {
    var qs := Requests(times, costs);
    forall i, j | 0 <= i <= j < |qs| ensures StretchKeepsRate(r, qs, i, j) {
      RateBound(r, qs, i, j);
    }
  }

  /**
   Requests at these times keep to the rate on every stretch, whatever admissible costs they have, if and only if
   the times never go back.
   */
  lemma RateBoundIffTimesInOrder(r: Rate, times: seq<real>)
    requires Usable(r)
    ensures (forall costs :: |costs| == |times| && Admissible(r, costs) ==> KeepsRate(r, Requests(times, costs)))
            <==> InOrder(times)
  {
    if InOrder(times) {
      forall costs | |costs| == |times| && Admissible(r, costs) ensures KeepsRate(r, Requests(times, costs)) {
        InOrderKeepsRate(r, times, costs);
      }
    } else {
      var k := StepsBack(times);
      var costs := StepBackExceeds(r, times, k);
      assert !KeepsRate(r, Requests(times, costs));
    }
  }

  /** With a clock that steps back, the same second is refilled twice and the bound is exceeded. */
  lemma ClockSteppingBackBreaksBound()
    ensures var r, qs := Rate(1.0, 1.0), [Request(1.0, 10.0), Request(1.0, 9.0), Request(1.0, 10.0)];
            && Answer(r, qs, 0, true).allowed && Answer(r, qs, 2, true).allowed
            && Sum(Spent(r, qs), 0, 3) > r.capacity + (qs[2].now - qs[0].now) * r.refill
  {
    var r, qs := Rate(1.0, 1.0), [Request(1.0, 10.0), Request(1.0, 9.0), Request(1.0, 10.0)];
    assert qs[..0] == [] && qs[..1][..0] == [] && qs[..2][..1] == qs[..1];
    assert TimeToLive(r) == 2.0;
    assert Final(r, qs[..1], true) == Some(Bucket(0.0, 10.0, 12.0));
    assert Final(r, qs[..2], true) == Some(Bucket(0.0, 9.0, 11.0));
    assert SpentAt(r, qs, 0) == 1.0 && SpentAt(r, qs, 1) == 0.0 && SpentAt(r, qs, 2) == 1.0;
    assert Sum(Spent(r, qs), 0, 1) == 1.0;
    assert Sum(Spent(r, qs), 0, 2) == 1.0;
  }

  // ---------------------------------------------------------------- the cooldown

  /** A wait Telegram asked for: the time in milliseconds, the duration in nanoseconds. */
  datatype Flood = Flood(now: int, duration: int)

  /** A duration under a millisecond counts as one. */
  function Milliseconds(duration: int): int {
    Max(1, duration / 1_000_000)
  }

  /** PTTL: what is left of the key, or a negative number if there is none. */
  function Left(deadline: Option<int>, now: int): int {
    if deadline.None? || deadline.value <= now then -2 else deadline.value - now
  }

  function AfterFlood(deadline: Option<int>, f: Flood): Option<int> {
    if Left(deadline, f.now) > Milliseconds(f.duration) then deadline else Some(f.now + Milliseconds(f.duration))
  }

  class Cooldown {
    var deadline: Option<int>

    constructor ()
      ensures deadline == None
    {
      deadline := None;
    }

    /** None is the error for a duration that is not positive; otherwise the wait that is left. */
    method SetAccountCooldown(f: Flood) returns (left: Option<int>)
      modifies this
      ensures left.None? <==> f.duration <= 0
      ensures deadline == if f.duration > 0 then AfterFlood(old(deadline), f) else old(deadline)
      ensures f.duration > 0 ==> left.value == Left(deadline, f.now)
    {
      if f.duration <= 0 {
        return None;
      }
      var requested := f.duration / 1_000_000;
      if requested < 1 {
        requested := 1;
      }
      var current := Left(deadline, f.now);
      if current > requested {
        return Some(current);
      }
      deadline := Some(f.now + requested);
      return Some(requested);
    }

    method AccountCooldown(now: int) returns (left: int)
      ensures left == Max(0, Left(deadline, now))
    {
      left := Left(deadline, now);
      if left < 0 {
        left := 0;
      }
    }
  }

  function Deadline(fs: seq<Flood>): Option<int> {
    if fs == [] then None else AfterFlood(Deadline(fs[..|fs| - 1]), fs[|fs| - 1])
  }

  /** The latest of the deadlines that were asked for. */
  function LatestAsked(fs: seq<Flood>): Option<int> {
    if fs == [] then None
    else Greatest(LatestAsked(fs[..|fs| - 1]), Some(fs[|fs| - 1].now + Milliseconds(fs[|fs| - 1].duration)))
  }

  /** However floods come in, the key's deadline is the latest one asked for. */
  lemma {:induction false} DeadlineIsLatest(fs: seq<Flood>)
    ensures Deadline(fs) == LatestAsked(fs)
  {
    if fs != [] {
      DeadlineIsLatest(fs[..|fs| - 1]);
    }
  }

  /** An account rests until the latest deadline asked for, and not after: in whole milliseconds, and at least one. */
  lemma RestingUntilLatest(fs: seq<Flood>, now: int)
    ensures Left(Deadline(fs), now) > 0 <==>
              exists k :: 0 <= k < |fs| && AsksFor(fs[k], now)
  {
    DeadlineIsLatest(fs);
    LatestIsMaximum(fs);
    if k :| 0 <= k < |fs| && AsksFor(fs[k], now) {
      assert fs[k].now + Milliseconds(fs[k].duration) > now;
    }
    if fs != [] {
      var k :| 0 <= k < |fs| && fs[k].now + Milliseconds(fs[k].duration) == LatestAsked(fs).value;
      assert Left(Deadline(fs), now) > 0 ==> AsksFor(fs[k], now);
    }
  }

  /** The wait asked for reaches past this time. */
  predicate AsksFor(f: Flood, now: int) {
    f.now + 1 > now || f.now + f.duration / 1000000 > now
  }

  lemma {:induction false} LatestIsMaximum(fs: seq<Flood>)
    ensures LatestAsked(fs).None? <==> fs == []
    ensures forall k :: 0 <= k < |fs| ==> fs[k].now + Milliseconds(fs[k].duration) <= LatestAsked(fs).value
    ensures fs != [] ==> exists k :: 0 <= k < |fs| && fs[k].now + Milliseconds(fs[k].duration) == LatestAsked(fs).value
  {
    if fs != [] {
      var front := fs[..|fs| - 1];
      LatestIsMaximum(front);
      assert forall k :: 0 <= k < |front| ==> front[k] == fs[k];
      if front != [] && LatestAsked(fs) == LatestAsked(front) {
        var k :| 0 <= k < |front| && front[k].now + Milliseconds(front[k].duration) == LatestAsked(front).value;
        assert fs[k].now + Milliseconds(fs[k].duration) == LatestAsked(fs).value;
      } else {
        var k := |fs| - 1;
        assert fs[k].now + Milliseconds(fs[k].duration) == LatestAsked(fs).value;
      }
    }
  }
}
