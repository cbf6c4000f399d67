/** The polling wait, against a clock and an environment that changes the store at any time.

    Real time is a parameter: `env` gives the store at every instant, and a schedule gives the
    delays between the loop's accesses. The theorems quantify over every environment and every
    schedule. */
module WaitLoop {
  import opened ByteCodec
  import opened Handles
  import opened Machine
  import opened Wrappers

  /** `check(i)` passes between the i-th probe and the clock reading after it, `pause(i)` between
      that reading and the next probe (the sleep and any overhead), and `fetch` between the
      successful probe and the read of the bytes. */
  datatype Schedule = Schedule(check: nat -> nat, pause: nat -> nat, fetch: nat)

  function ProbeTime(start: int, sch: Schedule, i: nat): int {
    if i == 0 then start
    else ProbeTime(start, sch, i - 1) + sch.check(i - 1) + sch.pause(i - 1)
  }

  function ClockTime(start: int, sch: Schedule, i: nat): int {
    ProbeTime(start, sch, i) + sch.check(i)
  }

  /** Every iteration takes at least `tick`; a positive poll interval is such a bound. */
  ghost predicate Advances(sch: Schedule, tick: nat) {
    0 < tick && forall i: nat :: tick <= sch.check(i) + sch.pause(i)
  }

  datatype Waiting = Waiting(env: int -> Store, key: string, start: int, timeout: int, sch: Schedule) {

    predicate SeenAt(i: nat) {
      key in env(ProbeTime(start, sch, i))
    }

    /** The i-th probe fails and the clock reading after it is not past the deadline. */
    predicate GoesOn(i: nat) {
      !SeenAt(i) && ClockTime(start, sch, i) <= start + timeout
    }

    /** The loop is left at probe `k`, by finding the key or by giving up. */
    predicate StopsAt(k: nat) {
      !GoesOn(k) && forall i: nat :: i < k ==> GoesOn(i)
    }

    function EndTime(k: nat): int {
      if SeenAt(k) then ProbeTime(start, sch, k) + sch.fetch else ClockTime(start, sch, k)
    }

    /** The bytes of the key at the time they are read, or the error raised. */
    function ResultAt(k: nat): Result<Bytes> {
      if !SeenAt(k) then Err(Timeout)
      else if key in env(EndTime(k)) then Ok(env(EndTime(k))[key])
      else Err(KeyNotFound)
    }
  }

  /** The loop itself. It ends, after at most timeout / tick + 2 probes, and raises a timeout only
      after every probe failed and the clock passed the deadline. The extra result `k` is the number
      of the last probe. */
  method WaitForBytes(w: Waiting, ghost tick: nat) returns (r: Result<Bytes>, now: int, k: nat)
    requires Advances(w.sch, tick)
    ensures w.StopsAt(k)
    ensures r == w.ResultAt(k)
    ensures now == if w.SeenAt(k) then ProbeTime(w.start, w.sch, k) + w.sch.fetch
                   else ClockTime(w.start, w.sch, k)
    ensures w.SeenAt(k) ==> r == match Lookup(w.env(now), w.key)
                                 case Some(bytes) => Ok(bytes)
                                 case None => Err(KeyNotFound)
    ensures k + 1 <= (if w.timeout < 0 then 0 else w.timeout / tick) + 2
  {
    now := w.start;
    var endTime := now + w.timeout;
    var i := 0;
    while w.key !in w.env(now)
      invariant now == ProbeTime(w.start, w.sch, i)
      invariant forall j: nat :: j < i ==> w.GoesOn(j)
      decreases endTime - now
    {
      var currTime := now + w.sch.check(i);
      if currTime > endTime {
        ProbeBound(w, i, tick);
        return Err(Timeout), currTime, i;
      }
      now := currTime + w.sch.pause(i);
      i := i + 1;
    }
    ProbeBound(w, i, tick);
    now := now + w.sch.fetch;
    r := if w.key in w.env(now) then Ok(w.env(now)[w.key]) else Err(KeyNotFound);
    k := i;
  }

  lemma {:induction false} ProbesAdvance(start: int, sch: Schedule, i: nat, tick: nat)
    requires Advances(sch, tick)
    ensures start + i * tick <= ProbeTime(start, sch, i)
  {
    if i != 0 {
      ProbesAdvance(start, sch, i - 1, tick);
      assert i * tick == (i - 1) * tick + tick;
    }
  }

  lemma ProbeBound(w: Waiting, k: nat, tick: nat)
    requires Advances(w.sch, tick)
    requires forall i: nat :: i < k ==> w.GoesOn(i)
    ensures k + 1 <= (if w.timeout < 0 then 0 else w.timeout / tick) + 2
  {
    if 2 <= k {
      assert w.GoesOn(k - 1);
      ProbesAdvance(w.start, w.sch, k - 1, tick);
      QuotientBound(k - 1, tick, w.timeout);
    }
  }

  lemma QuotientBound(m: nat, tick: nat, t: int)
    requires 0 < tick && m * tick <= t
    ensures 0 <= t && m <= t / tick
  {
    assert 0 <= m * tick;
    var q := t / tick;
    assert t < (q + 1) * tick;
    if q < m {
      MulMono(q + 1, m, tick);
    }
  }

  /** The key is in the store from `arrival` on. */
  ghost predicate StaysFrom(w: Waiting, arrival: int) {
    forall t: int :: arrival <= t ==> w.key in w.env(t)
  }

  /** A key that is put once, at `arrival`, with the bytes `v`. */
  ghost predicate ArrivesWith(w: Waiting, arrival: int, v: Bytes) {
    && (forall t: int :: t < arrival ==> w.key !in w.env(t))
    && (forall t: int :: arrival <= t ==> Lookup(w.env(t), w.key) == Some(v))
  }

  /** A probe is at most `lag` away from its clock reading, and an iteration takes at most `lag` more
      than the poll interval. */
  ghost predicate Prompt(sch: Schedule, poll: nat, lag: nat) {
    forall i: nat :: sch.check(i) <= lag && sch.check(i) + sch.pause(i) <= poll + lag
  }

  /** No missed key. With prompt iterations, a key that arrives by deadline - lag and stays is never
      reported as a timeout: it is seen within one poll interval plus `lag` of its arrival (at once
      if it was there, whatever the timeout), and the bytes it holds when they are fetched are
      returned. */
  lemma NoMissedKey(w: Waiting, k: nat, arrival: int, poll: nat, lag: nat)
    requires w.StopsAt(k) && StaysFrom(w, arrival) && Prompt(w.sch, poll, lag)
    requires arrival <= w.start || arrival <= w.start + w.timeout - lag
    ensures w.ResultAt(k) != Err(Timeout)
    ensures var probe := ProbeTime(w.start, w.sch, k);
            && probe <= (if arrival <= w.start then w.start else arrival + poll + lag)
            && (arrival <= probe + w.sch.fetch ==>
                  w.ResultAt(k) == Ok(w.env(probe + w.sch.fetch)[w.key]))
  {
    var sch := w.sch;
    assert sch.check(k) <= lag;
    if arrival <= w.start {
      assert !w.GoesOn(0);
    }
    if 0 < k {
      assert w.GoesOn(k - 1);
      assert sch.check(k - 1) + sch.pause(k - 1) <= poll + lag;
    }
    ProbeAfterStart(w, k);
  }

  /** Waiting for a delayed put: a key that is absent when the wait begins and arrives in time is
      returned with the very bytes that were put. */
  lemma DelayedPutIsReturned(w: Waiting, k: nat, arrival: int, v: Bytes, poll: nat, lag: nat)
    requires w.StopsAt(k) && ArrivesWith(w, arrival, v) && Prompt(w.sch, poll, lag)
    requires arrival <= w.start || arrival <= w.start + w.timeout - lag
    ensures w.ResultAt(k) == Ok(v)
    ensures arrival <= ProbeTime(w.start, w.sch, k)
  {
    NoMissedKey(w, k, arrival, poll, lag);
  }

  lemma {:induction false} ProbeAfterStart(w: Waiting, k: nat)
    ensures w.start <= ProbeTime(w.start, w.sch, k)
    decreases k
  {
    if k != 0 {
      ProbeAfterStart(w, k - 1);
    }
  }

  lemma {:induction false} ProbesOrdered(w: Waiting, i: nat, j: nat)
    requires i <= j
    ensures ProbeTime(w.start, w.sch, i) <= ProbeTime(w.start, w.sch, j)
    decreases j
  {
    if i < j {
      ProbesOrdered(w, i, j - 1);
    }
  }

  /** Exactly what a wait for such a key returns, however slow its iterations: a timeout if some probe
      comes before the arrival and its clock reading after the deadline, and otherwise the bytes. */
  lemma MissedIff(w: Waiting, k: nat, arrival: int, v: Bytes)
    requires w.StopsAt(k) && ArrivesWith(w, arrival, v)
    ensures w.ResultAt(k) ==
            if exists i: nat :: ProbeTime(w.start, w.sch, i) < arrival
                                && w.start + w.timeout < ClockTime(w.start, w.sch, i)
            then Err(Timeout) else Ok(v)
  {
    if i: nat :| ProbeTime(w.start, w.sch, i) < arrival
                 && w.start + w.timeout < ClockTime(w.start, w.sch, i)
    {
      assert !w.GoesOn(i);
      assert i < k ==> w.GoesOn(i);
      ProbesOrdered(w, k, i);
    }
  }

  /** Every probe is followed by its clock reading after `c`, and that by the next probe after `d`. */
  ghost predicate Regular(sch: Schedule, c: nat, d: nat) {
    forall i: nat :: sch.check(i) == c && sch.pause(i) == d
  }

  lemma {:induction false} RegularProbes(start: int, sch: Schedule, c: nat, d: nat, i: nat)
    requires Regular(sch, c, d)
    ensures ProbeTime(start, sch, i) == start + i * (c + d)
  {
    if i != 0 {
      RegularProbes(start, sch, c, d, i - 1);
      assert i * (c + d) == (i - 1) * (c + d) + (c + d);
    }
  }

  /** When a wait for a key that never comes gives up: at the first clock reading past the deadline,
      and its probes and readings are `c + d` apart. */
  lemma RegularTimeout(w: Waiting, c: nat, d: nat, k: nat)
    requires Regular(w.sch, c, d) && w.StopsAt(k)
    requires forall t: int :: w.key !in w.env(t)
    ensures w.ResultAt(k) == Err(Timeout)
    ensures w.timeout < k * (c + d) + c
    ensures 0 < k ==> (k - 1) * (c + d) + c <= w.timeout
    ensures ClockTime(w.start, w.sch, k) == w.start + k * (c + d) + c
  {
    RegularProbes(w.start, w.sch, c, d, k);
    if 0 < k {
      RegularProbes(w.start, w.sch, c, d, k - 1);
      assert w.GoesOn(k - 1);
    }
  }
}
