/** The two sliding-window rate limiters: an in-memory list of timestamps in a cache with a time to
    live, and a Redis sorted set driven by a Lua script.

    Both are compared with one reference, `Accepted`, which never forgets an acceptance.
 */
module RateLimiter {

  type Key = string

  /** Time to live of a cache entry, in seconds. */
  const TTL: real := 300.0

  /** Timestamps on one key, latest last. */
  datatype Log = Start | Next(earlier: Log, now: real)

  function Size(log: Log): nat
  {
    if log.Start? then 0 else Size(log.earlier) + 1
  }

  /** No entry at the end of the log is later than `t`. */
  predicate NotAfter(log: Log, t: real)
  {
    log.Next? ==> log.now <= t
  }

  /** A non-decreasing clock that starts no earlier than zero. */
  predicate ClockOk(log: Log)
  {
    log.Next? ==> 0.0 <= log.now && ClockOk(log.earlier) && NotAfter(log.earlier, log.now)
  }

  /** No timestamp repeats. */
  predicate StrictClock(log: Log)
  {
    ClockOk(log) && (log.Next? ==> StrictClock(log.earlier) && (log.earlier.Next? ==> log.earlier.now < log.now))
  }

  // ----- the reference

  /** The entries later than `since`. */
  function Keep(log: Log, since: real): Log
  {
    if log.Start? then Start
    else if log.now > since then Next(Keep(log.earlier, since), log.now)
    else Keep(log.earlier, since)
  }

  /** The acceptances among the requests, when a request is accepted exactly if fewer than `limit`
      acceptances lie in the `period` before it. */
  ghost function Accepted(reqs: Log, limit: int, period: real): Log
  {
    if reqs.Start? then Start
    else
      var acc := Accepted(reqs.earlier, limit, period);
      if Size(Keep(acc, reqs.now - period)) < limit then Next(acc, reqs.now) else acc
  }

  /** Dropping old entries first makes no difference to a later look. */
  lemma {:induction false} KeepTwice(log: Log, early: real, late: real)
    requires early <= late
    ensures Keep(Keep(log, early), late) == Keep(log, late)
  {
    if log.Next? {
      KeepTwice(log.earlier, early, late);
    }
  }

  lemma {:induction false} KeepNone(log: Log, since: real)
    requires ClockOk(log) && NotAfter(log, since)
    ensures Keep(log, since) == Start
  {
    if log.Next? {
      KeepNone(log.earlier, since);
    }
  }

  lemma {:induction false} AcceptedClock(reqs: Log, limit: int, period: real, t: real)
    requires ClockOk(reqs) && NotAfter(reqs, t)
    ensures ClockOk(Accepted(reqs, limit, period)) && NotAfter(Accepted(reqs, limit, period), t)
  {
    if reqs.Next? {
      AcceptedClock(reqs.earlier, limit, period, reqs.now);
    }
  }

  // ----- the bound over every window

  /** The window `[lo, lo + period)` or `(lo, lo + period]`. */
  predicate InWindow(t: real, lo: real, period: real, leftClosed: bool)
  {
    if leftClosed then lo <= t < lo + period else lo < t <= lo + period
  }

  function CountIn(log: Log, lo: real, period: real, leftClosed: bool): nat
  {
    if log.Start? then 0
    else CountIn(log.earlier, lo, period, leftClosed) + if InWindow(log.now, lo, period, leftClosed) then 1 else 0
  }

  lemma {:induction false} CountWithinKept(log: Log, lo: real, period: real, leftClosed: bool, t: real)
    requires InWindow(t, lo, period, leftClosed)
    ensures CountIn(log, lo, period, leftClosed) <= Size(Keep(log, t - period))
  {
    if log.Next? {
      CountWithinKept(log.earlier, lo, period, leftClosed, t);
    }
  }

  /** In every run every half-open window of length `period` holds at most `limit` acceptances. */
  lemma {:induction false} WindowBound(reqs: Log, limit: nat, period: real, lo: real, leftClosed: bool)
    ensures CountIn(Accepted(reqs, limit, period), lo, period, leftClosed) <= limit
  {
    if reqs.Next? {
      WindowBound(reqs.earlier, limit, period, lo, leftClosed);
      if InWindow(reqs.now, lo, period, leftClosed) {
        CountWithinKept(Accepted(reqs.earlier, limit, period), lo, period, leftClosed, reqs.now);
      }
    }
  }

  lemma {:induction false} KeptIsWindow(log: Log, now: real, period: real)
    requires ClockOk(log) && NotAfter(log, now)
    ensures Size(Keep(log, now - period)) == CountIn(log, now - period, period, false)
  {
    if log.Next? {
      KeptIsWindow(log.earlier, now, period);
    }
  }

  /** A request is rejected exactly when the window that ends at it already holds `limit` acceptances. */
  lemma RejectedIffFull(reqs: Log, limit: nat, period: real)
    requires ClockOk(reqs) && reqs.Next?
    ensures Accepted(reqs, limit, period) == Accepted(reqs.earlier, limit, period) <==>
            CountIn(Accepted(reqs.earlier, limit, period), reqs.now - period, period, false) == limit
  {
    var acc := Accepted(reqs.earlier, limit, period);
    AcceptedClock(reqs.earlier, limit, period, reqs.now);
    KeptIsWindow(acc, reqs.now, period);
    WindowBound(reqs.earlier, limit, period, reqs.now - period, false);
    assert Next(acc, reqs.now) != acc by { NextDiffers(acc, reqs.now); }
  }

  lemma NextDiffers(log: Log, t: real)
    ensures Next(log, t) != log
  {
    assert Size(Next(log, t)) != Size(log);
  }

  // ----- the in-memory limiter

  /** A cache slot: absent, or a list of timestamps with the instant it expires. */
  datatype Slot = Absent | Slot(times: seq<real>, expires: real)

  /** The timestamps later than `since`, in order. */
  function Recent(times: seq<real>, since: real): seq<real>
  {
    if times == [] then []
    else
      var front := Recent(times[..|times| - 1], since);
      if times[|times| - 1] > since then front + [times[|times| - 1]] else front
  }

  /** What a lookup at `now` finds. */
  function Live(slot: Slot, now: real): seq<real>
  {
    if slot.Slot? && now < slot.expires then slot.times else []
  }

  function MemoryStep(slot: Slot, limit: int, period: real, now: real): (bool, Slot)
  {
    var recent := Recent(Live(slot, now), now - period);
    if |recent| >= limit then (false, Slot(recent, now + TTL)) else (true, Slot(recent + [now], now + TTL))
  }

  class InMemoryLimiter {
    var slots: map<Key, Slot>

    constructor ()
      ensures slots == map[]
    {
      slots := map[];
    }

    function Lookup(key: Key): Slot
      reads this
    {
      if key in slots then slots[key] else Absent
    }

    /** One call under the lock: an absent or expired entry is created empty, the list is pruned,
        and the entry is written back whether or not the request is accepted. */
    method Check(key: Key, limit: int, period: real, now: real) returns (allowed: bool)
      modifies this
      ensures (allowed, Lookup(key)) == MemoryStep(old(Lookup(key)), limit, period, now)
      ensures forall k :: k != key ==> Lookup(k) == old(Lookup(k))
    {
      if !(key in slots && slots[key].Slot? && now < slots[key].expires) {
        slots := slots[key := Slot([], now + TTL)];
      }
      var timestamps := [];
      var stored := slots[key].times;
      ghost var held := slots;
      for i := 0 to |stored|
        invariant slots == held
        invariant timestamps == Recent(stored[..i], now - period)
      {
        assert stored[..i + 1][..i] == stored[..i];
        if stored[i] > now - period {
          timestamps := timestamps + [stored[i]];
        }
      }
      assert stored[..|stored|] == stored;
      if |timestamps| >= limit {
        slots := slots[key := Slot(timestamps, now + TTL)];
        return false;
      }
      slots := slots[key := Slot(timestamps + [now], now + TTL)];
      return true;
    }
  }

  ghost function ToLog(times: seq<real>): Log
  {
    if times == [] then Start else Next(ToLog(times[..|times| - 1]), times[|times| - 1])
  }

  lemma ToLogAppend(times: seq<real>, t: real)
    ensures ToLog(times + [t]) == Next(ToLog(times), t)
  {
  }

  lemma {:induction false} ToLogRecent(times: seq<real>, since: real)
    ensures ToLog(Recent(times, since)) == Keep(ToLog(times), since)
    ensures |Recent(times, since)| == Size(Keep(ToLog(times), since))
  {
    if times != [] {
      var front := times[..|times| - 1];
      ToLogRecent(front, since);
      ToLogAppend(Recent(front, since), times[|times| - 1]);
    }
  }

  /** Slot and acceptances after a run on one key. */
  ghost function MemoryRun(reqs: Log, limit: int, period: real): (Slot, Log)
  {
    if reqs.Start? then (Absent, Start)
    else
      var (slot, acc) := MemoryRun(reqs.earlier, limit, period);
      var (ok, slot') := MemoryStep(slot, limit, period, reqs.now);
      (slot', if ok then Next(acc, reqs.now) else acc)
  }

  /** From `now` on, the slot and the full history look the same, until the slot may expire. */
  ghost predicate SameFrom(slot: Slot, acc: Log, period: real, now: real)
  {
    forall later :: later >= now && InTime(period, now, later) ==> SameAt(slot, acc, period, later)
  }

  /** The window is no longer than the time to live, or the next look comes before the expiry. */
  predicate InTime(period: real, now: real, later: real)
  {
    period <= TTL || later < now + TTL
  }

  /** Every request comes in time after the one before it. */
  predicate GapsOk(reqs: Log, period: real)
  {
    reqs.Next? ==> GapsOk(reqs.earlier, period) && (reqs.earlier.Next? ==> InTime(period, reqs.earlier.now, reqs.now))
  }

  lemma {:induction false} ShortPeriodGapsOk(reqs: Log, period: real)
    requires period <= TTL
    ensures GapsOk(reqs, period)
  {
    if reqs.Next? {
      ShortPeriodGapsOk(reqs.earlier, period);
    }
  }

  ghost predicate SameAt(slot: Slot, acc: Log, period: real, now: real)
  {
    Keep(ToLog(Live(slot, now)), now - period) == Keep(acc, now - period)
  }

  /** The step on the log the slot stands for. */
  function LogStep(log: Log, limit: int, period: real, now: real): (bool, Log)
  {
    var kept := Keep(log, now - period);
    if Size(kept) >= limit then (false, kept) else (true, Next(kept, now))
  }

  lemma MemoryStepView(slot: Slot, limit: int, period: real, now: real)
    ensures var (ok, slot') := MemoryStep(slot, limit, period, now);
            slot'.Slot? && slot'.expires == now + TTL &&
            (ok, ToLog(slot'.times)) == LogStep(ToLog(Live(slot, now)), limit, period, now)
  {
    ToLogRecent(Live(slot, now), now - period);
    ToLogAppend(Recent(Live(slot, now), now - period), now);
  }

  /** Pruned list and full history agree while the entry lives, and both are empty afterwards. */
  lemma {:induction false} LaterLook(acc: Log, period: real, now: real, later: real, ok: bool)
    requires later >= now && InTime(period, now, later) && ClockOk(acc) && NotAfter(acc, now) && 0.0 <= now
    ensures var kept, full := Keep(acc, now - period), if ok then Next(acc, now) else acc;
            Keep(if ok then Next(kept, now) else kept, later - period) == Keep(full, later - period) &&
            (later >= now + TTL ==> Keep(full, later - period) == Start)
  {
    KeepTwice(acc, now - period, later - period);
    if later >= now + TTL {
      KeepNone(if ok then Next(acc, now) else acc, later - period);
    }
  }

  lemma MemoryStepKeeps(slot: Slot, acc: Log, limit: int, period: real, now: real)
    requires SameAt(slot, acc, period, now)
    requires ClockOk(acc) && NotAfter(acc, now) && 0.0 <= now
    ensures MemoryStep(slot, limit, period, now).0 <==> Size(Keep(acc, now - period)) < limit
    ensures SameFrom(MemoryStep(slot, limit, period, now).1,
                     if MemoryStep(slot, limit, period, now).0 then Next(acc, now) else acc, period, now)
  {
    MemoryStepView(slot, limit, period, now);
    var (ok, slot') := MemoryStep(slot, limit, period, now);
    var full := if ok then Next(acc, now) else acc;
    forall later | later >= now && InTime(period, now, later) ensures SameAt(slot', full, period, later) {
      LaterLook(acc, period, now, later, ok);
    }
  }

  /** While every request comes in time after the one before it, in particular for every run when
      `period` is at most the time to live, the cache expiry changes no decision. */
  lemma {:induction false} MemoryIsReference(reqs: Log, limit: int, period: real)
    requires ClockOk(reqs) && GapsOk(reqs, period)
    ensures MemoryRun(reqs, limit, period).1 == Accepted(reqs, limit, period)
    ensures reqs.Next? ==>
              SameFrom(MemoryRun(reqs, limit, period).0, Accepted(reqs, limit, period), period, reqs.now)
  {
    if reqs.Next? {
      MemoryIsReference(reqs.earlier, limit, period);
      var slot, acc := MemoryRun(reqs.earlier, limit, period).0, Accepted(reqs.earlier, limit, period);
      StillSame(reqs, slot, acc, period);
      AcceptedClock(reqs.earlier, limit, period, reqs.now);
      MemoryStepKeeps(slot, acc, limit, period, reqs.now);
      MemoryRunNext(reqs, limit, period);
    }
  }

  /** A request in time finds the slot and the full history looking the same. */
  lemma StillSame(reqs: Log, slot: Slot, acc: Log, period: real)
    requires reqs.Next? && ClockOk(reqs) && GapsOk(reqs, period)
    requires if reqs.earlier.Next? then SameFrom(slot, acc, period, reqs.earlier.now) else slot.Absent? && acc.Start?
    ensures SameAt(slot, acc, period, reqs.now)
  {
    if reqs.earlier.Next? {
      assert InTime(period, reqs.earlier.now, reqs.now);
    }
  }

  lemma MemoryRunNext(reqs: Log, limit: int, period: real)
    requires reqs.Next?
    ensures var (slot, acc) := MemoryRun(reqs.earlier, limit, period);
            var (ok, slot') := MemoryStep(slot, limit, period, reqs.now);
            MemoryRun(reqs, limit, period) == (slot', if ok then Next(acc, reqs.now) else acc)
  {
  }

  /** The bound holds for what the in-memory limiter itself accepts. */
  lemma MemoryWindowBound(reqs: Log, limit: nat, period: real, lo: real, leftClosed: bool)
    requires ClockOk(reqs) && period <= TTL
    ensures CountIn(MemoryRun(reqs, limit, period).1, lo, period, leftClosed) <= limit
  {
    ShortPeriodGapsOk(reqs, period);
    MemoryIsReference(reqs, limit, period);
    WindowBound(reqs, limit, period, lo, leftClosed);
  }

  /** `n` entries with the same timestamp. */
  function Burst(t: real, n: nat): Log
  {
    if n == 0 then Start else Next(Burst(t, n - 1), t)
  }

  lemma {:induction false} BurstFacts(t: real, n: nat, since: real)
    requires 0.0 <= t && t > since
    ensures ClockOk(Burst(t, n)) && NotAfter(Burst(t, n), t) && Size(Burst(t, n)) == n
    ensures Keep(Burst(t, n), since) == Burst(t, n)
  {
    if n > 0 {
      BurstFacts(t, n - 1, since);
    }
  }

  /** The reference accepts a burst up to the limit. */
  lemma {:induction false} BurstAccepted(t: real, n: nat, limit: nat, period: real)
    requires 0.0 <= t && 0.0 < period
    ensures Accepted(Burst(t, n), limit, period) == Burst(t, if n <= limit then n else limit)
  {
    if n > 0 {
      BurstAccepted(t, n - 1, limit, period);
      BurstFacts(t, if n - 1 <= limit then n - 1 else limit, t - period);
    }
  }

  lemma {:induction false} BurstGapsOk(t: real, n: nat, period: real)
    ensures GapsOk(Burst(t, n), period)
  {
    if n > 0 {
      BurstGapsOk(t, n - 1, period);
    }
  }

  /** A full burst is forgotten when the entry expires, although the period has not passed. */
  lemma ForgottenBurst(limit: nat, period: real)
    requires 0 < limit && TTL < period
    ensures var reqs := Next(Burst(0.0, limit), TTL);
            ClockOk(reqs) && MemoryRun(reqs, limit, period).1 != Accepted(reqs, limit, period)
  {
    var burst := Burst(0.0, limit);
    BurstFacts(0.0, limit, TTL - period);
    BurstGapsOk(0.0, limit, period);
    BurstAccepted(0.0, limit, limit, period);
    MemoryIsReference(burst, limit, period);
    ForgottenAfter(burst, limit, period);
    NextDiffers(burst, TTL);
  }

  lemma ForgottenAfter(reqs: Log, limit: nat, period: real)
    requires reqs.Next? && reqs.now == 0.0 && 0 < limit
    ensures MemoryRun(Next(reqs, TTL), limit, period).1 == Next(MemoryRun(reqs, limit, period).1, TTL)
  {
  }

  /** The cache expiry is invisible in every run exactly when the period is at most the time to live
      or nothing is ever accepted. */
  lemma ExpiryInvisibleIff(limit: int, period: real)
    ensures (forall reqs :: ClockOk(reqs) ==> MemoryRun(reqs, limit, period).1 == Accepted(reqs, limit, period)) <==>
            period <= TTL || limit <= 0
  {
    if period <= TTL {
      forall reqs | ClockOk(reqs) ensures MemoryRun(reqs, limit, period).1 == Accepted(reqs, limit, period) {
        ShortPeriodGapsOk(reqs, period);
        MemoryIsReference(reqs, limit, period);
      }
    } else if limit <= 0 {
      forall reqs ensures MemoryRun(reqs, limit, period).1 == Accepted(reqs, limit, period) {
        NothingAccepted(reqs, limit, period);
      }
    } else {
      ForgottenBurst(limit, period);
    }
  }

  lemma {:induction false} NothingAccepted(reqs: Log, limit: int, period: real)
    requires limit <= 0
    ensures MemoryRun(reqs, limit, period).1 == Start == Accepted(reqs, limit, period)
  {
    if reqs.Next? {
      NothingAccepted(reqs.earlier, limit, period);
    }
  }

  // ----- the Lua script

  /** A sorted set whose members are their own scores, with the instant the key expires. */
  datatype ZSet = ZSet(members: set<real>, expires: real)

  const NO_KEY := ZSet({}, 0.0)

  /** Members left after ZREMRANGEBYSCORE from 0 to `now - period` on a key that may have expired. */
  function Pruned(z: ZSet, period: real, now: real): set<real>
  {
    set t | t in z.members && now < z.expires && !(0.0 <= t <= now - period)
  }

  /** Prune, ZCARD, and if below the limit ZADD and EXPIRE. */
  function LuaStep(z: ZSet, limit: int, period: real, now: real): (bool, ZSet)
  {
    var kept := Pruned(z, period, now);
    if |kept| >= limit then (false, ZSet(kept, z.expires)) else (true, ZSet(kept + {now}, now + period))
  }

  /** The keys of the Redis server. */
  class SortedSetLimiter {
    var keys: map<Key, ZSet>

    constructor ()
      ensures keys == map[]
    {
      keys := map[];
    }

    function Lookup(key: Key): ZSet
      reads this
    {
      if key in keys then keys[key] else NO_KEY
    }

    /** One atomic evaluation of the script: whatever history of acceptances the key stands for, the
        request is accepted exactly when fewer than `limit` distinct ones lie in the window, and
        afterwards the key stands for the history with this acceptance added. */
    method Check(key: Key, limit: int, period: real, now: real) returns (allowed: bool)
      modifies this
      ensures (allowed, Lookup(key)) == LuaStep(old(Lookup(key)), limit, period, now)
      ensures forall k :: k != key ==> Lookup(k) == old(Lookup(k))
      ensures forall acc :: StandsFor(old(Lookup(key)), acc, period, now) ==>
                (allowed <==> |Stamps(Keep(acc, now - period))| < limit) &&
                StandsFor(Lookup(key), if allowed then Next(acc, now) else acc, period, now)
    {
      var z := Lookup(key);
      ghost var before := z;
      if now >= z.expires {
        z := ZSet({}, z.expires);
      }
      var kept := set t | t in z.members && !(0.0 <= t <= now - period);
      assert kept == Pruned(before, period, now);
      forall acc | StandsFor(before, acc, period, now)
        ensures var (ok, z') := LuaStep(before, limit, period, now);
                (ok <==> |Stamps(Keep(acc, now - period))| < limit) &&
                StandsFor(z', if ok then Next(acc, now) else acc, period, now)
      {
        LuaStepKeeps(before, acc, limit, period, now);
      }
      keys := keys[key := ZSet(kept, z.expires)];
      if |kept| >= limit {
        return false;
      }
      keys := keys[key := ZSet(kept + {now}, now + period)];
      return true;
    }
  }

  ghost function LuaRun(reqs: Log, limit: int, period: real): (ZSet, Log)
  {
    if reqs.Start? then (NO_KEY, Start)
    else
      var (z, acc) := LuaRun(reqs.earlier, limit, period);
      var (ok, z') := LuaStep(z, limit, period, reqs.now);
      (z', if ok then Next(acc, reqs.now) else acc)
  }

  /** The distinct timestamps of a log. */
  ghost function Stamps(log: Log): set<real>
  {
    if log.Start? then {} else Stamps(log.earlier) + {log.now}
  }

  lemma {:induction false} StampsKept(log: Log, since: real, t: real)
    ensures t in Stamps(Keep(log, since)) <==> t in Stamps(log) && t > since
  {
    if log.Next? {
      StampsKept(log.earlier, since, t);
    }
  }

  lemma {:induction false} StampsClock(log: Log, t: real, s: real)
    requires ClockOk(log) && NotAfter(log, t) && s in Stamps(log)
    ensures 0.0 <= s <= t
  {
    if s != log.now {
      StampsClock(log.earlier, t, s);
    }
  }

  /** The key holds nothing but acceptances, and every acceptance still inside the window. */
  ghost predicate Holds(z: ZSet, acc: Log, period: real, now: real)
  {
    && z.members <= Stamps(acc)
    && forall t :: t in Stamps(acc) && t > now - period ==> t in z.members && t + period <= z.expires
  }

  /** At `now` the key holds what a run with the acceptances `acc` leaves behind. */
  ghost predicate StandsFor(z: ZSet, acc: Log, period: real, now: real)
  {
    0.0 < period && 0.0 <= now && ClockOk(acc) && NotAfter(acc, now) && Holds(z, acc, period, now)
  }

  /** Pruning leaves exactly the distinct acceptances of the window. */
  lemma PrunedIsWindow(z: ZSet, acc: Log, period: real, now: real)
    requires StandsFor(z, acc, period, now)
    ensures Pruned(z, period, now) == Stamps(Keep(acc, now - period))
  {
    forall t ensures t in Pruned(z, period, now) <==> t in Stamps(Keep(acc, now - period)) {
      StampsKept(acc, now - period, t);
      if t in Stamps(acc) {
        StampsClock(acc, now, t);
      }
    }
  }

  /** Adding the timestamp of an acceptance, with the key's new expiry. */
  lemma AddKeeps(acc: Log, kept: set<real>, period: real, now: real)
    requires 0.0 < period && 0.0 <= now && ClockOk(acc) && NotAfter(acc, now)
    requires kept == Stamps(Keep(acc, now - period))
    ensures StandsFor(ZSet(kept + {now}, now + period), Next(acc, now), period, now)
  {
    forall t ensures t in kept <==> t in Stamps(acc) && t > now - period {
      StampsKept(acc, now - period, t);
    }
    forall t | t in Stamps(Next(acc, now)) && t > now - period ensures t in kept + {now} && t <= now {
      if t != now {
        StampsClock(acc, now, t);
      }
    }
    assert Stamps(Next(acc, now)) == Stamps(acc) + {now};
  }

  lemma PruneKeeps(z: ZSet, acc: Log, kept: set<real>, period: real, now: real)
    requires StandsFor(z, acc, period, now) && kept == Stamps(Keep(acc, now - period))
    ensures StandsFor(ZSet(kept, z.expires), acc, period, now)
  {
    forall t ensures t in kept <==> t in Stamps(acc) && t > now - period {
      StampsKept(acc, now - period, t);
    }
  }

  lemma LuaStepKeeps(z: ZSet, acc: Log, limit: int, period: real, now: real)
    requires StandsFor(z, acc, period, now)
    ensures LuaStep(z, limit, period, now).0 <==> |Stamps(Keep(acc, now - period))| < limit
    ensures StandsFor(LuaStep(z, limit, period, now).1,
                      if LuaStep(z, limit, period, now).0 then Next(acc, now) else acc, period, now)
  {
    PrunedIsWindow(z, acc, period, now);
    AddKeeps(acc, Pruned(z, period, now), period, now);
    PruneKeeps(z, acc, Pruned(z, period, now), period, now);
  }

  lemma {:induction false} LuaRunHolds(reqs: Log, limit: int, period: real, later: real)
    requires ClockOk(reqs) && NotAfter(reqs, later) && 0.0 < period && 0.0 <= later
    ensures StandsFor(LuaRun(reqs, limit, period).0, LuaRun(reqs, limit, period).1, period, later)
  {
    if reqs.Next? {
      LuaRunHolds(reqs.earlier, limit, period, reqs.now);
      var (z, acc) := LuaRun(reqs.earlier, limit, period);
      LuaStepKeeps(z, acc, limit, period, reqs.now);
    }
  }

  /** The script accepts exactly when fewer than `limit` distinct acceptances are in the window. */
  lemma LuaDecision(reqs: Log, limit: int, period: real)
    requires ClockOk(reqs) && reqs.Next? && 0.0 < period
    ensures var acc := LuaRun(reqs.earlier, limit, period).1;
            LuaRun(reqs, limit, period).1 ==
            if |Stamps(Keep(acc, reqs.now - period))| < limit then Next(acc, reqs.now) else acc
  {
    LuaRunHolds(reqs.earlier, limit, period, reqs.now);
    var (z, acc) := LuaRun(reqs.earlier, limit, period);
    LuaStepKeeps(z, acc, limit, period, reqs.now);
  }

  /** Distinct acceptances in a window. */
  ghost function StampsIn(log: Log, lo: real, period: real, leftClosed: bool): set<real>
  {
    set t | t in Stamps(log) && InWindow(t, lo, period, leftClosed)
  }

  lemma {:induction false} SubsetCardinality<T>(s: set<T>, t: set<T>)
    requires s <= t
    ensures |s| <= |t|
  {
    if s != {} {
      var x :| x in s;
      SubsetCardinality(s - {x}, t - {x});
    }
  }

  lemma StampsInNext(acc: Log, now: real, lo: real, period: real, leftClosed: bool)
    ensures |StampsIn(Next(acc, now), lo, period, leftClosed)| <= |StampsIn(acc, lo, period, leftClosed)| ||
            |StampsIn(Next(acc, now), lo, period, leftClosed)| <= |Stamps(Keep(acc, now - period))| + 1
  {
    var d := StampsIn(Next(acc, now), lo, period, leftClosed);
    if InWindow(now, lo, period, leftClosed) {
      var kept := Stamps(Keep(acc, now - period));
      forall t | t in d ensures t in kept + {now} {
        StampsKept(acc, now - period, t);
      }
      SubsetCardinality(d, kept + {now});
    } else {
      assert d == StampsIn(acc, lo, period, leftClosed);
    }
  }

  /** Whatever repeats, no half-open window of length `period`, open on either side, holds more than
      `limit` distinct accepted timestamps. */
  lemma {:induction false} LuaWindowBound(reqs: Log, limit: nat, period: real, lo: real, leftClosed: bool)
    requires ClockOk(reqs) && 0.0 < period
    ensures |StampsIn(LuaRun(reqs, limit, period).1, lo, period, leftClosed)| <= limit
  {
    if reqs.Next? {
      LuaWindowBound(reqs.earlier, limit, period, lo, leftClosed);
      LuaDecision(reqs, limit, period);
      StampsInNext(LuaRun(reqs.earlier, limit, period).1, reqs.now, lo, period, leftClosed);
    } else {
      assert StampsIn(Start, lo, period, leftClosed) == {};
    }
  }

  lemma {:induction false} StrictStamps(log: Log)
    requires StrictClock(log)
    ensures |Stamps(log)| == Size(log)
  {
    if log.Next? {
      StrictStamps(log.earlier);
      if log.now in Stamps(log.earlier) {
        StampsClock(log.earlier, log.earlier.now, log.now);
      }
    }
  }

  lemma {:induction false} StrictKept(log: Log, since: real)
    requires StrictClock(log)
    ensures StrictClock(Keep(log, since))
    ensures Keep(log, since).Next? && log.Next? ==> Keep(log, since).now <= log.now
  {
    if log.Next? {
      StrictKept(log.earlier, since);
    }
  }

  lemma {:induction false} StrictAccepted(reqs: Log, limit: int, period: real)
    requires StrictClock(reqs)
    ensures StrictClock(Accepted(reqs, limit, period))
    ensures Accepted(reqs, limit, period).Next? && reqs.Next? ==> Accepted(reqs, limit, period).now <= reqs.now
  {
    if reqs.Next? {
      StrictAccepted(reqs.earlier, limit, period);
    }
  }

  /** For strictly increasing timestamps the script decides as the reference does: neither the
      sorted set nor the key expiry loses anything. */
  lemma {:induction false} LuaIsReference(reqs: Log, limit: int, period: real)
    requires StrictClock(reqs) && 0.0 < period
    ensures LuaRun(reqs, limit, period).1 == Accepted(reqs, limit, period)
  {
    if reqs.Next? {
      var acc := Accepted(reqs.earlier, limit, period);
      LuaIsReference(reqs.earlier, limit, period);
      LuaDecision(reqs, limit, period);
      StrictAccepted(reqs.earlier, limit, period);
      StrictKept(acc, reqs.now - period);
      StrictStamps(Keep(acc, reqs.now - period));
    }
  }

  /** For strictly increasing timestamps the two limiters accept the same requests. */
  lemma LimitersAgree(reqs: Log, limit: int, period: real)
    requires StrictClock(reqs) && 0.0 < period <= TTL
    ensures LuaRun(reqs, limit, period).1 == MemoryRun(reqs, limit, period).1
  {
    LuaIsReference(reqs, limit, period);
    ShortPeriodGapsOk(reqs, period);
    MemoryIsReference(reqs, limit, period);
  }

  lemma {:induction false} BurstStamps(t: real, n: nat)
    ensures Stamps(Burst(t, n)) == if n == 0 then {} else {t}
  {
    if n > 0 {
      BurstStamps(t, n - 1);
    }
  }

  /** Requests with one and the same timestamp share one member of the sorted set. */
  lemma {:induction false} LuaBurst(reqs: Log, t: real, limit: int, period: real)
    requires reqs == Burst(t, Size(reqs)) && 0.0 <= t && 0.0 < period && 2 <= limit
    ensures LuaRun(reqs, limit, period).1 == reqs
  {
    if reqs.Next? {
      LuaBurst(reqs.earlier, t, limit, period);
      BurstFacts(t, Size(reqs), t - period);
      BurstFacts(t, Size(reqs.earlier), t - period);
      BurstStamps(t, Size(reqs.earlier));
      LuaDecision(reqs, limit, period);
    }
  }

  lemma {:induction false} NoneIffNone(log: Log)
    ensures Size(log) == 0 <==> Stamps(log) == {}
  {
  }

  lemma {:induction false} SmallLimitAgrees(reqs: Log, limit: int, period: real)
    requires ClockOk(reqs) && 0.0 < period && limit <= 1
    ensures LuaRun(reqs, limit, period).1 == Accepted(reqs, limit, period)
  {
    if reqs.Next? {
      SmallLimitAgrees(reqs.earlier, limit, period);
      LuaDecision(reqs, limit, period);
      NoneIffNone(Keep(Accepted(reqs.earlier, limit, period), reqs.now - period));
    }
  }

  /** One request more than the limit, all at one instant: the script accepts it. */
  lemma UnboundedBurst(limit: nat, period: real)
    requires 2 <= limit && 0.0 < period
    ensures var reqs := Burst(0.0, limit + 1);
            ClockOk(reqs) && LuaRun(reqs, limit, period).1 != Accepted(reqs, limit, period)
  {
    BurstFacts(0.0, limit + 1, 0.0 - period);
    BurstFacts(0.0, limit, 0.0 - period);
    LuaBurst(Burst(0.0, limit + 1), 0.0, limit, period);
    BurstAccepted(0.0, limit + 1, limit, period);
  }

  /** When timestamps may repeat, the script follows the reference in every run exactly when the
      limit is at most one. */
  lemma LuaToleratesRepeatsIff(limit: int, period: real)
    requires 0.0 < period
    ensures (forall reqs :: ClockOk(reqs) ==> LuaRun(reqs, limit, period).1 == Accepted(reqs, limit, period)) <==> limit <= 1
  {
    if limit <= 1 {
      forall reqs | ClockOk(reqs) ensures LuaRun(reqs, limit, period).1 == Accepted(reqs, limit, period) {
        SmallLimitAgrees(reqs, limit, period);
      }
    } else {
      UnboundedBurst(limit, period);
    }
  }

  // ----- Redis with the memory behind it

  /** What became of the evaluation of the script in one request: its reply came back, it took effect
      but the reply was lost, or it did not run, which includes a missing client. */
  datatype Outcome = Answered | ReplyLost | NotRun

  /** A request whose script failed goes on to the memory, which reads the clock again. */
  datatype Traffic = NoTraffic | Request(earlier: Traffic, now: real, again: real, outcome: Outcome)

  function MixedStep(z: ZSet, slot: Slot, limit: int, period: real, now: real, again: real, outcome: Outcome): (bool, ZSet, Slot)
  {
    var (redis, z') := LuaStep(z, limit, period, now);
    var (memory, slot') := MemoryStep(slot, limit, period, again);
    match outcome
    case Answered => (redis, z', slot)
    case ReplyLost => (memory, z', slot')
    case NotRun => (memory, z, slot')
  }

  method CheckWithFallback(redis: SortedSetLimiter, memory: InMemoryLimiter, key: Key, limit: int, period: real,
                           now: real, again: real, outcome: Outcome) returns (allowed: bool)
    modifies redis, memory
    ensures (allowed, redis.Lookup(key), memory.Lookup(key)) ==
            MixedStep(old(redis.Lookup(key)), old(memory.Lookup(key)), limit, period, now, again, outcome)
    ensures forall k :: k != key ==> redis.Lookup(k) == old(redis.Lookup(k)) && memory.Lookup(k) == old(memory.Lookup(k))
  {
    if outcome != NotRun {
      allowed := redis.Check(key, limit, period, now);
      if outcome == Answered {
        return;
      }
    }
    allowed := memory.Check(key, limit, period, again);
  }

  /** Both stores and the acceptances, each with the timestamp it was accepted under. */
  ghost function MixedRun(reqs: Traffic, limit: int, period: real): (ZSet, Slot, Log)
  {
    if reqs.NoTraffic? then (NO_KEY, Absent, Start)
    else
      var (z, slot, acc) := MixedRun(reqs.earlier, limit, period);
      var (ok, z', slot') := MixedStep(z, slot, limit, period, reqs.now, reqs.again, reqs.outcome);
      (z', slot', if !ok then acc else Next(acc, if reqs.outcome == Answered then reqs.now else reqs.again))
  }

  /** The requests the script ran for. */
  function RedisPart(reqs: Traffic): Log
  {
    if reqs.NoTraffic? then Start
    else if reqs.outcome == NotRun then RedisPart(reqs.earlier)
    else Next(RedisPart(reqs.earlier), reqs.now)
  }

  /** The requests the memory decided. */
  function MemoryPart(reqs: Traffic): Log
  {
    if reqs.NoTraffic? then Start
    else if reqs.outcome == Answered then MemoryPart(reqs.earlier)
    else Next(MemoryPart(reqs.earlier), reqs.again)
  }

  /** The two stores do not see each other, and every acceptance is one of theirs. */
  lemma {:induction false} MixedIsBoth(reqs: Traffic, limit: int, period: real, lo: real, leftClosed: bool)
    ensures var (z, slot, acc) := MixedRun(reqs, limit, period);
            var (redis, memory) := (LuaRun(RedisPart(reqs), limit, period), MemoryRun(MemoryPart(reqs), limit, period));
            z == redis.0 && slot == memory.0 &&
            CountIn(acc, lo, period, leftClosed) <=
            CountIn(redis.1, lo, period, leftClosed) + CountIn(memory.1, lo, period, leftClosed)
  {
    if reqs.Request? {
      MixedIsBoth(reqs.earlier, limit, period, lo, leftClosed);
    }
  }

  /** An answered request of a mixed run is accepted exactly when the script alone, over all requests it
      ran for, accepts it; any other one exactly when the memory alone does. */
  lemma MixedDecision(reqs: Traffic, limit: int, period: real)
    requires reqs.Request?
    ensures var acc := MixedRun(reqs.earlier, limit, period).2;
            MixedRun(reqs, limit, period).2 ==
            if reqs.outcome == Answered
            then (if LuaRun(RedisPart(reqs), limit, period).1 == LuaRun(RedisPart(reqs.earlier), limit, period).1
                  then acc else Next(acc, reqs.now))
            else (if MemoryRun(MemoryPart(reqs), limit, period).1 == MemoryRun(MemoryPart(reqs.earlier), limit, period).1
                  then acc else Next(acc, reqs.again))
  {
    MixedIsBoth(reqs.earlier, limit, period, 0.0, true);
    NextDiffers(LuaRun(RedisPart(reqs.earlier), limit, period).1, reqs.now);
    NextDiffers(MemoryRun(MemoryPart(reqs.earlier), limit, period).1, reqs.again);
  }

  /** However Redis fails and recovers during a run, no half-open window of length `period` holds more
      than twice the limit. */
  lemma MixedWindowBound(reqs: Traffic, limit: nat, period: real, lo: real, leftClosed: bool)
    requires StrictClock(RedisPart(reqs)) && ClockOk(MemoryPart(reqs)) && 0.0 < period <= TTL
    ensures CountIn(MixedRun(reqs, limit, period).2, lo, period, leftClosed) <= 2 * limit
  {
    MixedIsBoth(reqs, limit, period, lo, leftClosed);
    LuaIsReference(RedisPart(reqs), limit, period);
    WindowBound(RedisPart(reqs), limit, period, lo, leftClosed);
    MemoryWindowBound(MemoryPart(reqs), limit, period, lo, leftClosed);
  }

  // The factor two is reached: a full window in Redis, then a full window in memory.

  /** `n` strictly increasing instants from zero on, all before `period`. */
  function Spread(n: nat, period: real): Log
  {
    if n == 0 then Start
    else
      var earlier := Spread(n - 1, period);
      Next(earlier, if earlier.Start? then 0.0 else (earlier.now + period) / 2.0)
  }

  lemma {:induction false} SpreadFacts(n: nat, period: real)
    requires 0.0 < period
    ensures StrictClock(Spread(n, period)) && Size(Spread(n, period)) == n
    ensures Spread(n, period).Next? ==> 0.0 <= Spread(n, period).now < period
    ensures CountIn(Spread(n, period), 0.0, period, true) == n
  {
    if n > 0 {
      SpreadFacts(n - 1, period);
    }
  }

  /** The requests of `redis`, all answered, and then those of `memory`, for which the script does not run. */
  function RedisThenMemory(redis: Log, memory: Log): Traffic
  {
    if memory.Next? then Request(RedisThenMemory(redis, memory.earlier), memory.now, memory.now, NotRun)
    else if redis.Next? then Request(RedisThenMemory(redis.earlier, memory), redis.now, redis.now, Answered)
    else NoTraffic
  }

  lemma {:induction false} RedisThenMemoryParts(redis: Log, memory: Log, limit: int, period: real, lo: real, leftClosed: bool)
    ensures var reqs := RedisThenMemory(redis, memory);
            RedisPart(reqs) == redis && MemoryPart(reqs) == memory &&
            CountIn(MixedRun(reqs, limit, period).2, lo, period, leftClosed) ==
            CountIn(LuaRun(redis, limit, period).1, lo, period, leftClosed) +
            CountIn(MemoryRun(memory, limit, period).1, lo, period, leftClosed)
  {
    var reqs := RedisThenMemory(redis, memory);
    if memory.Next? {
      RedisThenMemoryParts(redis, memory.earlier, limit, period, lo, leftClosed);
      MixedIsBoth(reqs.earlier, limit, period, lo, leftClosed);
    } else if redis.Next? {
      RedisThenMemoryParts(redis.earlier, memory, limit, period, lo, leftClosed);
      MixedIsBoth(reqs.earlier, limit, period, lo, leftClosed);
    }
  }

  /** One clock for the whole run. */
  predicate InOrder(reqs: Traffic)
  {
    reqs.Request? ==>
      reqs.now <= reqs.again && InOrder(reqs.earlier) && (reqs.earlier.Request? ==> reqs.earlier.again <= reqs.now)
  }

  lemma {:induction false} RedisThenBurstInOrder(redis: Log, t: real, n: nat)
    requires ClockOk(redis) && NotAfter(redis, t)
    ensures var reqs := RedisThenMemory(redis, Burst(t, n)); InOrder(reqs) && (reqs.Request? ==> reqs.again <= t)
    decreases redis, n
  {
    if n > 0 {
      RedisThenBurstInOrder(redis, t, n - 1);
    } else if redis.Next? {
      RedisThenBurstInOrder(redis.earlier, redis.now, 0);
    }
  }

  lemma {:induction false} BurstCount(t: real, n: nat, lo: real, period: real)
    requires InWindow(t, lo, period, true)
    ensures CountIn(Burst(t, n), lo, period, true) == n
  {
    if n > 0 {
      BurstCount(t, n - 1, lo, period);
    }
  }

  lemma {:induction false} KeepIsNoLonger(log: Log, since: real)
    ensures Size(Keep(log, since)) <= Size(log)
  {
    if log.Next? {
      KeepIsNoLonger(log.earlier, since);
    }
  }

  lemma {:induction false} FewAllAccepted(reqs: Log, limit: nat, period: real)
    requires Size(reqs) <= limit
    ensures Accepted(reqs, limit, period) == reqs
  {
    if reqs.Next? {
      FewAllAccepted(reqs.earlier, limit, period);
      KeepIsNoLonger(reqs.earlier, reqs.now - period);
    }
  }

  /** Redis fails right after a full window: for every limit and period, twice the limit is accepted
      within one period. */
  lemma MixedBoundReached(limit: nat, period: real)
    requires 0.0 < period <= TTL
    ensures var full := Spread(limit, period);
            var reqs := RedisThenMemory(full, Burst(if full.Next? then full.now else 0.0, limit));
            StrictClock(RedisPart(reqs)) && ClockOk(MemoryPart(reqs)) && InOrder(reqs) &&
            CountIn(MixedRun(reqs, limit, period).2, 0.0, period, true) == 2 * limit
  {
    var full := Spread(limit, period);
    SpreadFacts(limit, period);
    var t := if full.Next? then full.now else 0.0;
    var burst := Burst(t, limit);
    BurstFacts(t, limit, t - period);
    BurstCount(t, limit, 0.0, period);
    FewAllAccepted(full, limit, period);
    FewAllAccepted(burst, limit, period);
    LuaIsReference(full, limit, period);
    ShortPeriodGapsOk(burst, period);
    MemoryIsReference(burst, limit, period);
    RedisThenMemoryParts(full, burst, limit, period, 0.0, true);
    RedisThenBurstInOrder(full, t, limit);
  }
}
