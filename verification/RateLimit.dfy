/** Limiting how fast copy jobs are started (RsyncCopyController._apply_rate_limit,
    barman/copy_controller.py). Times are real numbers read from a clock that never runs back. */
module RateLimit {

  /** In increasing order, and the n-th start from any start is at least a period later. */
  predicate Ordered(trace: seq<real>) { forall i, j :: 0 <= i < j < |trace| ==> trace[i] <= trace[j] }

  predicate Spaced(trace: seq<real>, batch: nat, period: real) {
    forall i :: 0 <= i < |trace| - batch ==> trace[i + batch] >= trace[i] + period
  }

  function Recent(history: seq<real>, windowStart: real): seq<real> {
    if history == [] then []
    else if history[0] > windowStart then [history[0]] + Recent(history[1..], windowStart)
    else Recent(history[1..], windowStart)
  }

  /** The history kept is the end of the trace; whatever was dropped is a period old. */
  predicate Remembers(history: seq<real>, trace: seq<real>, now: real, period: real) {
    && |history| <= |trace| && history == trace[|trace| - |history|..]
    && forall i :: 0 <= i < |trace| - |history| ==> trace[i] <= now - period
  }

  predicate Limited(history: seq<real>, trace: seq<real>, now: real, batch: nat, period: real) {
    && Ordered(trace) && Spaced(trace, batch, period) && (trace != [] ==> trace[|trace| - 1] <= now)
    && Remembers(history, trace, now, period) && |history| <= batch + 1
  }

  class Clock {
    var now: real
    /** All the time that was slept through. */
    ghost var slept: real

    constructor (now: real)
      ensures this.now == now && slept == 0.0
    {
      this.now, slept := now, 0.0;
    }

    /** Time passes between any two looks at the clock. */
    method Time() returns (t: real)
      modifies this
      ensures t == now >= old(now) && slept == old(slept)
    {
      var passed: real := *;
      if passed > 0.0 {
        now := now + passed;
      }
      t := now;
    }

    method Sleep(seconds: real)
      requires seconds >= 0.0
      modifies this
      ensures now >= old(now) + seconds && slept == old(slept) + seconds
    {
      var late := Time();
      now, slept := now + seconds, slept + seconds;
    }
  }

  /** One generator of jobs, its history and the starts of all jobs it has generated. */
  class JobStarter {
    const batch: nat
    const period: real
    const clock: Clock
    var history: seq<real>
    ghost var trace: seq<real>

    ghost predicate Valid()
      reads this, clock
    {
      batch >= 1 && period >= 0.0 && Limited(history, trace, clock.now, batch, period)
    }

    constructor (batch: nat, period: real, clock: Clock)
      requires batch >= 1 && period >= 0.0
      ensures Valid() && trace == [] && this.batch == batch && this.period == period && this.clock == clock
    {
      this.batch, this.period, this.clock := batch, period, clock;
      history, trace := [], [];
    }

    /** Looks at the clock, after sleeping if the window is full. */
    method NextStart(kept: seq<real>, now: real) returns (start: real)
      requires batch >= 1 && now <= clock.now && (kept != [] ==> kept[0] > now - period)
      modifies clock
      ensures start == clock.now >= old(clock.now)
      ensures |kept| >= batch ==> start >= kept[0] + period
      ensures clock.slept == old(clock.slept) + if |kept| >= batch then kept[0] + period - now else 0.0
    {
      var windowStart := now - period;
      if |kept| >= batch {
        clock.Sleep(kept[0] - windowStart);
      }
      start := clock.Time();
    }

    /** Starts a job, waiting first if `batch` jobs have started within the period, and then only
        until the oldest of them has left it. */
    method ApplyRateLimit() returns (start: real, ghost looked: real)
      requires Valid()
      modifies this, clock
      ensures Valid() && trace == old(trace) + [start] && old(clock.now) <= looked <= start
      ensures clock.slept == old(clock.slept) + Wait(old(trace), looked, batch, period)
    {
      hide Limited, Remembers, Recent, Wait;
      ghost var before := clock.now;
      var now := clock.Time();
      var kept := Recent(history, now - period);
      looked := now;
      Prune(history, trace, before, now, batch, period);
      FullWindow(kept, trace, now, batch, period);
      start := NextStart(kept, now);
      SpacingContinues(history, kept, trace, before, start, now, batch, period);
      history := kept + [start];
      trace := trace + [start];
    }
  }

  /** How long a job has to wait at a time: until the start `batch` back is a period old. */
  function Wait(trace: seq<real>, now: real, batch: nat, period: real): real {
    if |trace| >= batch >= 1 && trace[|trace| - batch] > now - period then trace[|trace| - batch] + period - now else 0.0
  }

  // ---------------------------------------------------------------- why it works

  lemma FullWindow(kept: seq<real>, trace: seq<real>, now: real, batch: nat, period: real)
    requires batch >= 1 && Remembers(kept, trace, now, period) && |kept| <= batch && (kept != [] ==> kept[0] > now - period)
    ensures Wait(trace, now, batch, period) == if |kept| >= batch then kept[0] + period - now else 0.0
  {
    if |kept| >= batch { assert kept[0] == trace[|trace| - batch]; }
  }

  /** Pruning an ordered history keeps a suffix, and drops only what is out of the window. */
  lemma {:induction false} RecentIsSuffix(history: seq<real>, trace: seq<real>, windowStart: real)
    requires Ordered(trace) && |history| <= |trace| && history == trace[|trace| - |history|..]
    ensures var kept := Recent(history, windowStart);
      && |kept| <= |history| && kept == trace[|trace| - |kept|..]
      && (forall i :: |trace| - |history| <= i < |trace| - |kept| ==> trace[i] <= windowStart)
      && (forall i :: 0 <= i < |kept| ==> kept[i] > windowStart)
  {
    if history != [] {
      RecentIsSuffix(history[1..], trace, windowStart);
      if history[0] > windowStart {
        AllRecent(history[1..], windowStart);
        assert history == [history[0]] + history[1..];
      }
    }
  }

  lemma {:induction false} AllRecent(history: seq<real>, windowStart: real)
    requires forall i :: 0 <= i < |history| ==> history[i] > windowStart
    ensures Recent(history, windowStart) == history
  {
    if history != [] { AllRecent(history[1..], windowStart); }
  }

  /** Any stretch of time shorter than the period sees at most `batch` starts. */
  lemma FewStartsPerPeriod(trace: seq<real>, batch: nat, period: real, i: nat, j: nat)
    requires batch >= 1 && period >= 0.0 && Ordered(trace) && Spaced(trace, batch, period)
    requires i <= j < |trace| && trace[j] - trace[i] < period
    ensures j - i + 1 <= batch
  {
    var later := if i + batch < |trace| then i + batch else i;
    assert later == i || trace[later] >= trace[i] + period;
    assert later <= j ==> trace[later] <= trace[j];
  }

  /** No more than `batch` starts fit in the window: this is what the spacing so far gives. */
  lemma RecentIsShort(kept: seq<real>, trace: seq<real>, now: real, batch: nat, period: real)
    requires batch >= 1 && period >= 0.0 && Ordered(trace) && Spaced(trace, batch, period)
    requires |kept| <= |trace| && kept == trace[|trace| - |kept|..]
    requires trace != [] ==> trace[|trace| - 1] <= now
    requires forall i :: 0 <= i < |kept| ==> kept[i] > now - period
    ensures |kept| <= batch
  {
    if kept != [] {
      var first := |trace| - |kept|;
      assert kept[0] == trace[first];
      FewStartsPerPeriod(trace, batch, period, first, |trace| - 1);
    }
  }

  lemma Prune(history: seq<real>, trace: seq<real>, before: real, now: real, batch: nat, period: real)
    requires batch >= 1 && period >= 0.0 && before <= now && Limited(history, trace, before, batch, period)
    ensures var kept := Recent(history, now - period);
      Remembers(kept, trace, now, period) && |kept| <= batch && (kept != [] ==> kept[0] > now - period)
  {
    RecentIsSuffix(history, trace, now - period);
    RecentIsShort(Recent(history, now - period), trace, now, batch, period);
    hide Ordered, Spaced, Recent;
  }

  lemma StaysOrdered(trace: seq<real>, start: real)
    requires Ordered(trace) && (trace != [] ==> trace[|trace| - 1] <= start)
    ensures Ordered(trace + [start])
  {
    var longer := trace + [start];
    forall i, j | 0 <= i < j < |longer| ensures longer[i] <= longer[j] {
      if j == |trace| && i < |trace| - 1 { assert trace[i] <= trace[|trace| - 1]; }
    }
  }

  /** The start `batch` back is the oldest one kept, or it was pruned for being a period old. */
  lemma StaysSpaced(kept: seq<real>, trace: seq<real>, now: real, start: real, batch: nat, period: real)
    requires batch >= 1 && now <= start && Spaced(trace, batch, period)
    requires Remembers(kept, trace, now, period) && |kept| <= batch
    requires |kept| == batch ==> start >= kept[0] + period
    ensures Spaced(trace + [start], batch, period)
  {
    var longer := trace + [start];
    forall i | 0 <= i < |longer| - batch ensures longer[i + batch] >= longer[i] + period {
      if i + batch < |trace| {
        assert trace[i + batch] >= trace[i] + period;
      } else if |kept| == batch {
        assert trace[i] == kept[0];
      }
    }
  }

  lemma StaysRemembered(kept: seq<real>, trace: seq<real>, now: real, start: real, period: real)
    requires now <= start && Remembers(kept, trace, now, period)
    ensures Remembers(kept + [start], trace + [start], start, period)
  {
    var longer := trace + [start];
    assert longer[|longer| - (|kept| + 1)..] == kept + [start];
  }

  lemma SpacingContinues(history: seq<real>, kept: seq<real>, trace: seq<real>, before: real, start: real, now: real,
                         batch: nat, period: real)
    requires batch >= 1 && before <= now <= start && Limited(history, trace, before, batch, period)
    requires Remembers(kept, trace, now, period) && |kept| <= batch
    requires |kept| == batch ==> start >= kept[0] + period
    ensures Limited(kept + [start], trace + [start], start, batch, period)
  {
    StaysOrdered(trace, start);
    StaysSpaced(kept, trace, now, start, batch, period);
    StaysRemembered(kept, trace, now, start, period);
    hide Ordered, Spaced, Remembers;
  }
}
