/**
 One timer shared by many handlers: its interval is the greatest common divisor
 of the durations asked for, and every counter is rescaled when that changes.
 */
module TimerMultiplexer {
  import opened Divisors

  /** The template `GCD`. */
  method GCD(a: nat, b: nat) returns (u: nat)
    ensures u == Gcd(a, b)
  {
    var v: nat := b;
    u := a;
    while v != 0
      invariant Gcd(u, v) == Gcd(a, b)
      decreases v
    {
      var r: nat := u % v;
      u := v;
      v := r;
    }
  }

  /* ---- what the counters mean ----------------------------------------- */

  predicate DividesAll(d: nat, ds: seq<nat>)
    requires d > 0
  {
    forall i :: 0 <= i < |ds| ==> Divides(d, ds[i])
  }

  ghost predicate IsGcdOf(g: nat, ds: seq<nat>)
    requires g > 0
  {
    DividesAll(g, ds) && forall d: nat | d > 0 && DividesAll(d, ds) :: Divides(d, g)
  }

  predicate IsMaxOf(m: nat, ds: seq<nat>) { m in ds && forall i :: 0 <= i < |ds| ==> ds[i] <= m }

  /** The times among `times` that are multiples of `d`. */
  function Multiples(times: seq<nat>, d: nat): seq<nat>
    requires d > 0
  {
    if times == [] then []
    else
      var n := |times| - 1;
      if Divides(d, times[n]) then Multiples(times[..n], d) + [times[n]] else Multiples(times[..n], d)
  }

  lemma NoMultiples(d: nat)
    requires d > 0
    ensures Multiples([], d) == []
  {
  }

  lemma MultiplesMore(times: seq<nat>, d: nat, t: nat)
    requires d > 0
    ensures Multiples(times + [t], d) == Multiples(times, d) + (if Divides(d, t) then [t] else [])
  {
    assert (times + [t])[..|times|] == times;
    assert Multiples(times, d) + [] == Multiples(times, d);
  }

  /** One more duration: the gcd so far is enough to compute the next. */
  lemma GcdMore(g: nat, ds: seq<nat>, d: nat)
    requires g > 0 && d > 0 && IsGcdOf(g, ds)
    ensures Gcd(d, g) > 0 && IsGcdOf(Gcd(d, g), ds + [d]) && Divides(Gcd(d, g), g) && Divides(Gcd(d, g), d)
  {
    GcdOfBoth(d, g);
    var h, more := Gcd(d, g), ds + [d];
    forall i | 0 <= i < |more| ensures Divides(h, more[i]) {
      if i < |ds| { DividesTrans(h, g, ds[i]); }
    }
    forall e: nat | e > 0 && DividesAll(e, more) ensures Divides(e, h) {
      assert forall i :: 0 <= i < |ds| ==> ds[i] == more[i];
      assert DividesAll(e, ds) && more[|ds|] == d;
      GcdDivides(d, g, e);
    }
  }

  /** The first duration is its own gcd. */
  lemma GcdOne(d: nat)
    requires d > 0
    ensures Gcd(d, d) == d && IsGcdOf(d, [d]) && d / d == 1
  {
    MultipleMod(1, d);
    assert Gcd(d, d) == Gcd(d, 0) == d;
    forall e: nat | e > 0 && DividesAll(e, [d]) ensures Divides(e, d) {
      assert [d][0] == d;
    }
  }

  lemma MaxMore(m: nat, ds: seq<nat>, d: nat)
    requires ds == [] || IsMaxOf(m, ds)
    requires ds == [] ==> m <= d
    ensures IsMaxOf(if m > d then m else d, ds + [d])
  {
    var more := ds + [d];
    assert more[|ds|] == d;
    if ds != [] {
      var i :| 0 <= i < |ds| && ds[i] == m;
      assert more[i] == m;
    }
  }

  /* ---- handlers ------------------------------------------------------- */

  class TimerHandler {
    /** The weak pointer to it can still be locked. */
    var alive: bool
    var periodicity: nat
    /** The logical times at which its callback was called. */
    var fired: seq<nat>
    /** The first duration registered while it was listed, 0 before that; and the ticks since. */
    ghost var duration: nat
    ghost var ticks: seq<nat>

    constructor ()
      ensures alive && periodicity == 0 && fired == [] && duration == 0 && ticks == []
    {
      alive, periodicity, fired, duration, ticks := true, 0, [], 0, [];
    }

    /** Its period is its duration, and it was called at exactly the ticks that are multiples of it. */
    ghost predicate Keeps(interval: nat)
      reads this
    {
      && periodicity * interval == duration
      && (duration == 0 <==> periodicity == 0)
      && (duration == 0 ==> ticks == [])
      && fired == (if duration == 0 then [] else Multiples(ticks, duration))
    }

    /** Its share of `update_timeout`: the first period, or a finer count of the same one. */
    method Rescale(count: nat, interval: nat, multiplier: nat, ghost step: nat)
      requires Keeps(step) && count > 0 && interval > 0 && Divides(interval, count)
      requires if step == 0 then interval == count && multiplier == 1
               else Divides(interval, step) && multiplier == step / interval
      modifies this`periodicity, this`duration
      ensures Keeps(interval) && duration == if old(duration) == 0 then count else old(duration)
    {
      NoMultiples(count);
      hide Multiples;
      RescaleHandler(periodicity, step, interval, count, multiplier);
      if periodicity == 0 {
        periodicity := count / interval;
        duration := count;
      } else {
        periodicity := periodicity * multiplier;
      }
    }

    /** Its share of `timeout`. */
    method Tick(tickCount: nat, interval: nat)
      requires Keeps(interval) && interval > 0
      modifies this`fired, this`ticks
      ensures Keeps(interval)
      ensures
        var t := tickCount * interval;
        && ticks == (if duration > 0 then old(ticks) + [t] else old(ticks))
        && fired == if duration > 0 && Divides(duration, t) then old(fired) + [t] else old(fired)
    {
      hide Multiples, Divides;
      if periodicity != 0 {
        TickCoincides(tickCount, periodicity, interval, ticks);
        ticks := ticks + [tickCount * interval];
        if tickCount % periodicity == 0 {
          fired := fired + [tickCount * interval];
        }
      }
    }
  }

  /* ---- the multiplexer ------------------------------------------------ */

  class Multiplexer {
    var handlersList: seq<TimerHandler>
    var timeoutInterval: nat
    var selfPeriodicity: nat
    var maxPeriodicity: nat
    var tickCount: nat
    /** The interval for which the connection's timer is set, 0 when it is not. */
    var armed: nat
    /** Every duration asked for, and the time counted in ticks. */
    ghost var registered: seq<nat>
    ghost var elapsed: nat

    ghost predicate Valid()
      reads this, handlersList
    {
      && (forall i, j :: 0 <= i < j < |handlersList| ==> handlersList[i] != handlersList[j])
      && (forall h :: h in handlersList && h.alive ==> h.Keeps(timeoutInterval))
      && tickCount * timeoutInterval == elapsed
      && (armed == 0 || armed == timeoutInterval)
      && if registered == [] then timeoutInterval == 0 && tickCount == 0 && selfPeriodicity == maxPeriodicity == 1
         else
           && timeoutInterval > 0 && IsGcdOf(timeoutInterval, registered)
           && IsMaxOf(maxPeriodicity * timeoutInterval, registered)
           && selfPeriodicity * timeoutInterval == registered[0]
    }

    constructor ()
      ensures Valid() && registered == [] && handlersList == [] && elapsed == 0 && armed == 0
    {
      handlersList, timeoutInterval, selfPeriodicity, maxPeriodicity, tickCount, armed := [], 0, 1, 1, 0, 0;
      registered, elapsed := [], 0;
    }

    method GetHandler() returns (h: TimerHandler)
      requires Valid()
      modifies this`handlersList
      ensures Valid() && fresh(h) && handlersList == old(handlersList) + [h] && h.alive && h.duration == 0
    {
      h := new TimerHandler();
      handlersList := handlersList + [h];
    }

    /** The new interval, and the factor by which every counter grows. */
    method Rescale(count: nat) returns (multiplier: nat)
      requires Valid() && count > 0
      modifies this`timeoutInterval, this`selfPeriodicity, this`tickCount, this`maxPeriodicity, this`registered
      ensures timeoutInterval > 0 && registered == old(registered) + [count]
      ensures IsGcdOf(timeoutInterval, registered) && Divides(timeoutInterval, count)
      ensures if old(timeoutInterval) == 0 then timeoutInterval == count && multiplier == 1
              else
                Divides(timeoutInterval, old(timeoutInterval)) && multiplier == old(timeoutInterval) / timeoutInterval
      ensures tickCount * timeoutInterval == elapsed
      ensures IsMaxOf(maxPeriodicity * timeoutInterval, registered)
      ensures selfPeriodicity * timeoutInterval == registered[0]
    {
      hide IsGcdOf, Divides, IsMaxOf;
      ghost var step, ds := timeoutInterval, registered;
      if timeoutInterval == 0 { timeoutInterval := count; }
      var oldGcd := timeoutInterval;
      timeoutInterval := GCD(count, timeoutInterval);
      if ds == [] {
        GcdOne(count);
        assert ds + [count] == [count];
      } else {
        GcdMore(step, ds, count);
      }
      multiplier := oldGcd / timeoutInterval;
      RescaleCounters(selfPeriodicity, tickCount, maxPeriodicity, oldGcd, timeoutInterval, count, ds);
      selfPeriodicity := selfPeriodicity * multiplier;
      tickCount := tickCount * multiplier;
      maxPeriodicity := if maxPeriodicity * multiplier > count / timeoutInterval then maxPeriodicity * multiplier
                        else count / timeoutInterval;
      registered := registered + [count];
    }

    /** `update_timeout` */
    method UpdateTimeout(count: nat)
      requires Valid() && count > 0
      modifies this`timeoutInterval, this`selfPeriodicity, this`tickCount, this`maxPeriodicity, this`registered,
        this`armed
      modifies handlersList
      ensures Valid() && registered == old(registered) + [count] && armed == timeoutInterval
      ensures forall h :: h in handlersList ==>
        h.fired == old(h.fired) && h.ticks == old(h.ticks) && h.alive == old(h.alive)
      ensures forall h :: h in handlersList && h.alive ==>
                h.duration == if old(h.duration) == 0 then count else old(h.duration)
    {
      hide IsGcdOf, Divides, IsMaxOf, TimerHandler.Keeps;
      ghost var step := timeoutInterval;
      var multiplier := Rescale(count);
      var i := 0;
      while i < |handlersList|
        invariant i <= |handlersList|
        invariant forall h :: h in handlersList ==>
                    h.fired == old(h.fired) && h.ticks == old(h.ticks) && h.alive == old(h.alive)
        invariant forall j :: 0 <= j < i && handlersList[j].alive ==>
                    handlersList[j].Keeps(timeoutInterval)
                    && handlersList[j].duration == if old(handlersList[j].duration) == 0 then count
                      else old(handlersList[j].duration)
        invariant forall j :: i <= j < |handlersList| && handlersList[j].alive ==>
                    handlersList[j].Keeps(step) && handlersList[j].duration == old(handlersList[j].duration)
        modifies handlersList
      {
        var s := handlersList[i];
        if s.alive { s.Rescale(count, timeoutInterval, multiplier, step); }
        i := i + 1;
      }
      armed := timeoutInterval;
    }

    /** The loop of `timeout`. */
    method TickAll()
      requires (forall i, j :: 0 <= i < j < |handlersList| ==> handlersList[i] != handlersList[j])
      requires timeoutInterval > 0 && tickCount * timeoutInterval == elapsed
      requires forall h :: h in handlersList && h.alive ==> h.Keeps(timeoutInterval)
      modifies handlersList
      ensures forall h :: h in handlersList ==> h.duration == old(h.duration) && h.alive == old(h.alive)
      ensures forall h :: h in handlersList && h.alive ==>
                h.Keeps(timeoutInterval)
                && h.ticks == (if h.duration > 0 then old(h.ticks) + [elapsed] else old(h.ticks))
                && h.fired == if h.duration > 0 && Divides(h.duration, elapsed) then old(h.fired) + [elapsed]
                  else old(h.fired)
    {
      hide Divides, TimerHandler.Keeps;
      var i := 0;
      while i < |handlersList|
        invariant i <= |handlersList|
        invariant forall h :: h in handlersList ==> h.duration == old(h.duration) && h.alive == old(h.alive)
        invariant forall h :: h in handlersList && h.alive ==> h.Keeps(timeoutInterval)
        invariant forall j :: 0 <= j < i && handlersList[j].alive ==>
                    var h := handlersList[j];
                    && h.ticks == (if h.duration > 0 then old(handlersList[j].ticks) + [elapsed]
                                   else old(handlersList[j].ticks))
                    && h.fired == (if h.duration > 0 && Divides(h.duration, elapsed)
                                   then old(handlersList[j].fired) + [elapsed] else old(handlersList[j].fired))
        invariant forall j :: i <= j < |handlersList| ==>
                    handlersList[j].fired == old(handlersList[j].fired)
                    && handlersList[j].ticks == old(handlersList[j].ticks)
      {
        var s := handlersList[i];
        if s.alive { s.Tick(tickCount, timeoutInterval); }
        i := i + 1;
      }
    }

    /** `timeout`: one tick of the shared timer. */
    method Timeout()
      requires Valid() && armed > 0
      modifies this`tickCount, this`elapsed, this`handlersList, this`armed, handlersList
      ensures Valid() && elapsed == old(elapsed) + timeoutInterval
      ensures forall h :: h in old(handlersList) ==> h.duration == old(h.duration) && h.alive == old(h.alive)
      ensures forall h :: h in old(handlersList) && h.alive ==>
                h.ticks == (if h.duration > 0 then old(h.ticks) + [elapsed] else old(h.ticks))
                && h.fired == if h.duration > 0 && Divides(h.duration, elapsed) then old(h.fired) + [elapsed]
                  else old(h.fired)
      ensures exists k :: 0 <= k <= |old(handlersList)| && handlersList == old(handlersList)[k..]
                          && forall i :: 0 <= i < k ==> !old(handlersList)[i].alive
      ensures forall h :: h in old(handlersList) && h.alive ==> h in handlersList
      ensures if handlersList == [] then armed == 0 else handlersList[0].alive && armed == old(armed)
    {
      hide IsGcdOf, Divides, IsMaxOf, TimerHandler.Keeps;
      assert (tickCount + 1) * timeoutInterval == tickCount * timeoutInterval + timeoutInterval;
      tickCount := tickCount + 1;
      elapsed := elapsed + timeoutInterval;
      TickAll();
      ClearExpired();
    }

    /** `clear_expired`: drops the leading handlers that are gone, all of them and no others. */
    method ClearExpired()
      requires Valid()
      modifies this`handlersList, this`armed
      ensures Valid() && if handlersList == [] then armed == 0 else handlersList[0].alive && armed == old(armed)
      ensures exists k :: 0 <= k <= |old(handlersList)| && handlersList == old(handlersList)[k..]
                          && forall i :: 0 <= i < k ==> !old(handlersList)[i].alive
    {
      var b := 0;
      while b < |handlersList| && !handlersList[b].alive
        invariant b <= |handlersList| && forall i :: 0 <= i < b ==> !handlersList[i].alive
      {
        b := b + 1;
      }
      handlersList := handlersList[b..];
      if handlersList == [] { armed := 0; }
    }
  }

  /** No counter outgrows the times it counts, so rescaling cannot overflow before the clock does. */
  lemma CountersAreSmall(m: Multiplexer, h: TimerHandler)
    requires m.Valid() && m.registered != [] && h in m.handlersList && h.alive
    ensures m.tickCount <= m.elapsed && h.periodicity <= h.duration
    ensures m.selfPeriodicity <= m.registered[0]
    ensures exists d :: d in m.registered && m.maxPeriodicity <= d
  {
    SmallFactor(m.tickCount, m.timeoutInterval);
    SmallFactor(h.periodicity, m.timeoutInterval);
    SmallFactor(m.selfPeriodicity, m.timeoutInterval);
    SmallFactor(m.maxPeriodicity, m.timeoutInterval);
  }

  lemma SmallFactor(n: nat, step: nat)
    requires step > 0
    ensures n <= n * step
  {
  }

  lemma RescaleCounters(self: nat, ticks: nat, max: nat, step: nat, fine: nat, count: nat, ds: seq<nat>)
    requires step > 0 && fine > 0 && count > 0 && Divides(fine, step) && Divides(fine, count)
    requires ds == [] ==> step == count == fine && self == max == 1
    requires ds != [] ==> IsMaxOf(max * step, ds)
    ensures
      var k := step / fine;
      && self * k * fine == self * step && ticks * k * fine == ticks * step
      && IsMaxOf((if max * k > count / fine then max * k else count / fine) * fine, ds + [count])
  {
    hide IsMaxOf;
    var k := step / fine;
    RescaleProduct(self, step, fine);
    RescaleProduct(ticks, step, fine);
    RescaleProduct(max, step, fine);
    assert (count / fine) * fine == count;
    assert max * k > count / fine <==> (max * k) * fine > (count / fine) * fine;
    MaxMore(max * step, ds, count);
  }

  lemma RescaleHandler(p: nat, step: nat, fine: nat, count: nat, k: nat)
    requires fine > 0 && Divides(fine, count)
    requires if step == 0 then fine == count && k == 1 else Divides(fine, step) && k == step / fine
    ensures (count / fine) * fine == count && p * k * fine == (if step == 0 then p * fine else p * step)
    ensures k > 0 && (count > 0 ==> count / fine > 0)
  {
    if step > 0 { RescaleProduct(p, step, fine); RescaleProduct(1, step, fine); }
  }

  /** A tick is the handler's turn exactly when the time is a multiple of its duration. */
  lemma TickCoincides(tick: nat, p: nat, step: nat, ticks: seq<nat>)
    requires p > 0 && step > 0
    ensures p * step > 0 && (Divides(p * step, tick * step) <==> tick % p == 0)
    ensures Multiples(ticks + [tick * step], p * step)
      == Multiples(ticks, p * step) + (if Divides(p * step, tick * step) then [tick * step] else [])
  {
    RescaleMod(tick, p, step);
    MultiplesMore(ticks, p * step, tick * step);
  }

  /** No multiple of a duration falls between two ticks, so none is ever missed. */
  lemma NoneIsSkipped(elapsed: nat, step: nat, duration: nat, t: nat)
    requires step > 0 && duration > 0 && Divides(step, elapsed) && Divides(step, duration) && Divides(duration, t)
    requires elapsed < t
    ensures elapsed + step <= t
  {
    DividesTrans(step, duration, t);
    DividesSum(step, t, elapsed);
    var k := (t - elapsed) / step;
    assert t - elapsed == k * step;
    assert k >= 1;
  }
}
