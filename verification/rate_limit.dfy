/**
 The two rate limiters: slots of named buckets handed out under a lock in one process, and
 reservations in a log that processes share.  Times are real numbers of seconds; clocks may go
 back.  Sleeping past the allotted slot is outside the model.
 */
module RateLimit {
  import opened Basics

  function Later(a: real, b: real): real { if a >= b then a else b }

  // --- slots in one process ---

  /** What one `acquire` saw on the clock and the slot it was given. */
  datatype Slot = Slot(seen: real, start: real)

  /** The slots of one bucket, in the order in which the lock was taken. */
  predicate Spaced(interval: real, slots: seq<Slot>) {
    && (forall k | 0 <= k < |slots| :: slots[k].start >= slots[k].seen)
    && (forall k | 0 < k < |slots| :: slots[k].start >= slots[k - 1].start + interval)
  }

  /** The clock and the slot before it are all that holds a slot back. */
  predicate GreedyAt(interval: real, slots: seq<Slot>, k: nat)
    requires k < |slots|
  {
    slots[k].start == if k == 0 then slots[k].seen else Later(slots[k].seen, slots[k - 1].start + interval)
  }

  predicate Greedy(interval: real, slots: seq<Slot>) {
    forall k: nat | k < |slots| :: GreedyAt(interval, slots, k)
  }

  lemma GreedyGrows(interval: real, slots: seq<Slot>, slot: Slot)
    requires Greedy(interval, slots)
    requires slot.start == if slots == [] then slot.seen else Later(slot.seen, slots[|slots| - 1].start + interval)
    ensures Greedy(interval, slots + [slot])
  {
    forall k: nat | k < |slots| + 1
      ensures GreedyAt(interval, slots + [slot], k)
    {
      assert k < |slots| ==> GreedyAt(interval, slots, k);
    }
  }

  class MonotonicRateLimiter {
    const interval: real
    var deadlines: map<string, real>
    ghost var slots: map<string, seq<Slot>>

    ghost predicate Valid()
      reads this
    {
      && interval > 0.0 && slots.Keys == deadlines.Keys
      && forall b | b in slots ::
          slots[b] != [] && Greedy(interval, slots[b]) && deadlines[b] == slots[b][|slots[b]| - 1].start + interval
    }

    constructor (requestsPerSecond: real)
      requires requestsPerSecond > 0.0
      ensures Valid() && interval == 1.0 / requestsPerSecond && slots == map[]
    {
      interval := 1.0 / requestsPerSecond;
      deadlines, slots := map[], map[];
    }

    /** The part under the lock; the caller sleeps for `wait` outside it. */
    method Acquire(bucket: string, now: real) returns (wait: real)
      requires Valid()
      modifies this
      ensures Valid() && wait >= 0.0
      ensures wait == 0.0 || (bucket in old(slots) && wait == old(slots)[bucket][|old(slots)[bucket]| - 1].start + interval - now)
      ensures slots == old(slots)[bucket := (if bucket in old(slots) then old(slots)[bucket] else []) + [Slot(now, now + wait)]]
    {
      var deadline := if bucket in deadlines then deadlines[bucket] else now;
      wait := if deadline > now then deadline - now else 0.0;
      deadlines := deadlines[bucket := Later(now, deadline) + interval];
      ghost var before := if bucket in slots then slots[bucket] else [];
      GreedyGrows(interval, before, Slot(now, now + wait));
      slots := slots[bucket := before + [Slot(now, now + wait)]];
    }
  }

  lemma GreedyIsSpaced(interval: real, slots: seq<Slot>)
    requires Greedy(interval, slots)
    ensures Spaced(interval, slots)
  {
    forall k: nat | k < |slots|
      ensures slots[k].start >= slots[k].seen && (k > 0 ==> slots[k].start >= slots[k - 1].start + interval)
    {
      assert GreedyAt(interval, slots, k);
    }
  }

  /** Any two slots of a bucket are as many intervals apart as there are slots between them. */
  lemma {:induction false} SlotsApart(interval: real, slots: seq<Slot>, i: nat, j: nat)
    requires interval > 0.0 && Greedy(interval, slots) && i < j < |slots|
    ensures slots[j].start >= slots[i].start + (j - i) as real * interval
    decreases j
  {
    assert GreedyAt(interval, slots, j);
    if j > i + 1 {
      SlotsApart(interval, slots, i, j - 1);
    }
  }

  /** And they are the earliest possible: any other spacing for the same calls is later, slot by slot. */
  lemma {:induction false} GreedyIsEarliest(interval: real, slots: seq<Slot>, other: seq<Slot>, k: nat)
    requires Greedy(interval, slots) && Spaced(interval, other)
    requires |other| == |slots| && forall i | 0 <= i < |slots| :: other[i].seen == slots[i].seen
    requires k < |slots|
    ensures slots[k].start <= other[k].start
  {
    assert GreedyAt(interval, slots, k);
    assert other[k].start >= other[k].seen;
    if k > 0 {
      GreedyIsEarliest(interval, slots, other, k - 1);
      assert other[k].start >= other[k - 1].start + interval;
    }
  }

  // --- reservations in a shared log ---

  /** An audit event of one reservation; `units` is what the caller asked for. */
  datatype Row = Row(scope: string, provider: int, at: real, units: nat)

  datatype Decision = Decision(allowed: bool, retryAfter: real)
  datatype Outcome = Decided(decision: Decision) | UnitsInvalid

  predicate Ours(r: Row, scope: string, provider: int) { r.scope == scope && r.provider == provider }

  /** The reservations of one scope, oldest insert first. */
  function Of(rows: seq<Row>, scope: string, provider: int): (log: seq<Row>)
    ensures forall k | 0 <= k < |log| :: Ours(log[k], scope, provider)
  {
    if rows == [] then [] else
      var rest := Of(rows[..|rows| - 1], scope, provider);
      if Ours(rows[|rows| - 1], scope, provider) then rest + [rows[|rows| - 1]] else rest
  }

  /** Each accepted reservation comes its own interval after the one before it. */
  predicate Paced(rate: real, log: seq<Row>)
    requires rate > 0.0
  {
    && (forall k | 0 <= k < |log| :: log[k].units >= 1)
    && forall k: nat | 0 < k < |log| :: PacedAt(rate, log, k)
  }

  predicate PacedAt(rate: real, log: seq<Row>, k: nat)
    requires rate > 0.0 && 0 < k < |log|
  {
    log[k].at - log[k - 1].at >= log[k].units as real / rate
  }

  /** The reservations that count against each other are those of the same scope and provider, in their order. */
  lemma OfAppend(rows: seq<Row>, r: Row, scope: string, provider: int)
    ensures Of(rows + [r], scope, provider) ==
      Of(rows, scope, provider) + if r.scope == scope && r.provider == provider then [r] else []
    ensures Of([], scope, provider) == []
  {
    assert (rows + [r])[..|rows|] == rows;
  }

  lemma PacedGrows(rate: real, log: seq<Row>, r: Row)
    requires rate > 0.0 && Paced(rate, log) && r.units >= 1
    requires log != [] ==> r.at - log[|log| - 1].at >= r.units as real / rate
    ensures Paced(rate, log + [r])
  {
    forall k: nat | 0 < k < |log| + 1
      ensures PacedAt(rate, log + [r], k)
    {
      assert k < |log| ==> PacedAt(rate, log, k);
    }
  }

  function Units(log: seq<Row>): nat { if log == [] then 0 else Units(log[..|log| - 1]) + log[|log| - 1].units }

  lemma PositiveInterval(units: nat, rate: real)
    requires units >= 1 && rate > 0.0
    ensures units as real / rate > 0.0
  {
  }

  /** Accepted times strictly increase, even when the clocks of the callers go back. */
  lemma {:induction false} TimesIncrease(rate: real, log: seq<Row>, i: nat, j: nat)
    requires rate > 0.0 && Paced(rate, log) && i < j < |log|
    ensures log[i].at < log[j].at
    decreases j
  {
    assert PacedAt(rate, log, j);
    PositiveInterval(log[j].units, rate);
    if j > i + 1 {
      TimesIncrease(rate, log, i, j - 1);
    }
  }

  /** The units granted after the first reservation of a stretch fit the project rate over that stretch. */
  lemma {:induction false} UnitsFitRate(rate: real, log: seq<Row>, i: nat, j: nat)
    requires rate > 0.0 && Paced(rate, log) && i <= j < |log|
    ensures Units(log[i + 1..j + 1]) as real <= rate * (log[j].at - log[i].at)
    decreases j
  {
    if j > i {
      assert PacedAt(rate, log, j);
      UnitsFitRate(rate, log, i, j - 1);
      var s := log[i + 1..j + 1];
      assert s[..|s| - 1] == log[i + 1..j] && s[|s| - 1] == log[j];
      var units := log[j].units as real;
      Times(units, rate, log[j].at - log[j - 1].at);
      assert rate * (log[j].at - log[i].at) == rate * (log[j - 1].at - log[i].at) + rate * (log[j].at - log[j - 1].at);
    }
  }

  lemma Times(units: real, rate: real, gap: real)
    requires rate > 0.0 && gap >= units / rate
    ensures rate * gap >= units
  {
    assert rate * (units / rate) == units;
    assert rate * (gap - units / rate) >= 0.0;
  }

  /** In any window of length `T` the units after the first reservation total at most rate times T. */
  lemma WindowBound(rate: real, log: seq<Row>, i: nat, j: nat, from: real, length: real)
    requires rate > 0.0 && Paced(rate, log) && i <= j < |log|
    requires from <= log[i].at && log[j].at <= from + length
    ensures Units(log[i + 1..j + 1]) as real <= rate * length
  {
    UnitsFitRate(rate, log, i, j);
    assert rate * (length - (log[j].at - log[i].at)) >= 0.0;
  }

  class ReservationStore {
    var rows: seq<Row>
    const rates: map<string, real>     // a scope fixes its project rate

    ghost predicate Valid()
      reads this
    {
      && (forall s | s in rates :: rates[s] > 0.0)
      && forall s, p | s in rates :: Paced(rates[s], Of(rows, s, p))
    }

    constructor (rates: map<string, real>)
      requires forall s | s in rates :: rates[s] > 0.0
      ensures Valid() && rows == [] && this.rates == rates
    {
      this.rates, rows := rates, [];
    }

    /** The latest reservation of a scope, by its time. */
    method Latest(scope: string, provider: int) returns (latest: Option<real>)
      ensures latest.None? <==> Of(rows, scope, provider) == []
      ensures latest.Some? ==> forall r | r in Of(rows, scope, provider) :: r.at <= latest.value
      ensures latest.Some? ==> exists r :: r in Of(rows, scope, provider) && r.at == latest.value
    {
      latest := None;
      for n := 0 to |rows|
        invariant latest.None? <==> Of(rows[..n], scope, provider) == []
        invariant latest.Some? ==> forall r | r in Of(rows[..n], scope, provider) :: r.at <= latest.value
        invariant latest.Some? ==> exists r :: r in Of(rows[..n], scope, provider) && r.at == latest.value
      {
        assert rows[..n + 1] == rows[..n] + [rows[n]];
        OfAppend(rows[..n], rows[n], scope, provider);
        if Ours(rows[n], scope, provider) && (latest.None? || rows[n].at >= latest.value) {
          latest := Some(rows[n].at);
        }
      }
      assert rows[..|rows|] == rows;
    }

    /** `ProviderRateLimiter.reserve` with the shared store behind it. */
    method Reserve(scope: string, provider: int, now: real, units: int) returns (o: Outcome)
      requires Valid() && scope in rates
      modifies this
      ensures Valid()
      ensures o == UnitsInvalid <==> !(1 <= units <= 100)
      ensures o.Decided? ==>
        var log := Of(old(rows), scope, provider);
        var interval := units as real / rates[scope];
        && (o.decision.allowed <==> log == [] || now - log[|log| - 1].at >= interval)
        && o.decision.retryAfter == (if o.decision.allowed then 0.0 else interval)
      ensures rows == old(rows) + if o.Decided? && o.decision.allowed then [Row(scope, provider, now, units)] else []
    {
      if !(1 <= units <= 100) {
        return UnitsInvalid;
      }
      var interval := units as real / rates[scope];
      var previous := Latest(scope, provider);
      ghost var log := Of(rows, scope, provider);
      assert Paced(rates[scope], log);
      LatestIsLast(rates[scope], log, previous);
      if previous.Some? && now - previous.value < interval {
        return Decided(Decision(false, interval));
      }
      var row := Row(scope, provider, now, units);
      PacedGrows(rates[scope], log, row);
      forall s, p | s in rates
        ensures Paced(rates[s], Of(rows + [row], s, p))
      {
        OfAppend(rows, row, s, p);
        assert Paced(rates[s], Of(rows, s, p));
      }
      rows := rows + [row];
      o := Decided(Decision(true, 0.0));
    }
  }

  lemma LatestIsLast(rate: real, log: seq<Row>, latest: Option<real>)
    requires rate > 0.0 && Paced(rate, log) && (latest.None? <==> log == [])
    requires latest.Some? ==> (forall r | r in log :: r.at <= latest.value) && exists r :: r in log && r.at == latest.value
    ensures latest.Some? ==> latest.value == log[|log| - 1].at
  {
    if latest.Some? {
      assert log[|log| - 1] in log;
      var r :| r in log && r.at == latest.value;
      var k :| 0 <= k < |log| && log[k] == r;
      if k < |log| - 1 {
        TimesIncrease(rate, log, k, |log| - 1);
      }
    }
  }
}
