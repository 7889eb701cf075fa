/**
 * What one `log_log` call does, as the sequence of external calls it makes:
 * the lock hook, the clock, and the sinks.  `Dispatch` states it
 * declaratively (which sinks fire, then one clock reading and one
 * invocation per firing sink); `Logc.Logger.LogLog` computes it the way the
 * C loop does, and is proved equal to it.
 */
module Dispatcher {
  import opened Wrappers
  import opened Levels
  import opened Registry

  /** A reading of the wall clock (`time(NULL)` followed by `localtime`). */
  datatype Time = Time(seconds: int)

  /** One variadic argument, passed through to the sinks uninterpreted. */
  datatype Arg = Arg(bits: int)

  /** The functions a `log_LockFn` pointer can name. */
  datatype LockFn = LockFn(id: nat)

  /** `log_event`; `time == None` is the null `struct tm *` of a fresh event. */
  datatype LogEvent = LogEvent(
    fmt: string, args: seq<Arg>, file: string, line: int,
    level: Level, time: Option<Time>, udata: Handle)

  /** The sinks a dispatch can reach: the default console sink and registry slot `index`. */
  datatype Sink = Console | Slot(index: nat)

  /** One call that `log_log` makes into code outside the logger. */
  datatype Call =
    | LockHook(fn: LockFn, acquire: bool, udata: Handle)
    | ReadClock(now: Time)
    | Invoke(sink: Sink, callback: LogFn, ev: LogEvent)

  /** The fields of the logger state `L` that a dispatch reads. */
  datatype Config = Config(
    lock: Option<LockFn>, lockUdata: Handle, level: Level, quiet: bool,
    callbacks: seq<Callback>)

  /** The event `log_log` builds on its stack before any sink runs. */
  function NewEvent(level: Level, file: string, line: int, fmt: string, args: seq<Arg>): (ev: LogEvent)
    ensures ev.time.None?
  {
    LogEvent(fmt, args, file, line, level, None, NullHandle)
  }

  /**
   * `init_event`: read the clock only when the event has no time yet, then
   * bind the event to the sink's handle.  Also returns the clock reads made.
   */
  function InitEvent(ev: LogEvent, udata: Handle, now: Time): (r: (LogEvent, seq<Call>))
    ensures r.0.udata == udata && r.0.time.Some?
    ensures ev.time.Some? ==> r.0.time == ev.time && r.1 == []
    ensures ev.time.None? ==> r.1 == [ReadClock(r.0.time.value)]
    ensures r.0.(time := ev.time, udata := ev.udata) == ev
  {
    if ev.time.None? then
      (ev.(time := Some(now), udata := udata), [ReadClock(now)])
    else
      (ev.(udata := udata), [])
  }

  /** Once an event has its time, later `init_event` calls neither read the clock nor change it. */
  lemma InitEventReadsClockOnce(ev: LogEvent, u1: Handle, u2: Handle, t1: Time, t2: Time)
    ensures var first := InitEvent(ev, u1, t1);
      var second := InitEvent(first.0, u2, t2);
      second.1 == [] && second.0.time == first.0.time && second.0 == first.0.(udata := u2)
  {
  }

  /** Orders sinks as `log_log` visits them: the console first, then slots by index. */
  function Rank(s: Sink): nat
  {
    match s
    case Console => 0
    case Slot(i) => i + 1
  }

  /** The default sink is gated on `!L.quiet && level >= L.level`. */
  predicate ConsoleEnabled(cfg: Config, level: Level) {
    !cfg.quiet && AtLeast(level, cfg.level)
  }

  function ConsoleSinks(cfg: Config, level: Level): (r: seq<Sink>)
    ensures |r| <= 1
    ensures forall k :: 0 <= k < |r| ==> r[k] == Console
  {
    if ConsoleEnabled(cfg, level) then [Console] else []
  }

  /** The slots among the first `n` whose threshold `level` meets, in index order. */
  function FiringSlots(cbs: seq<Callback>, level: Level, n: nat): (r: seq<Sink>)
    requires n <= |cbs|
    ensures |r| <= n
    ensures forall k :: 0 <= k < |r| ==>
      r[k].Slot? && r[k].index < n && AtLeast(level, cbs[r[k].index].level)
  {
    if n == 0 then []
    else FiringSlots(cbs, level, n - 1) + (if AtLeast(level, cbs[n - 1].level) then [Slot(n - 1)] else [])
  }

  /** The firing slots are distinct and listed in increasing index order. */
  lemma {:induction false} FiringSlotsIncreasing(cbs: seq<Callback>, level: Level, n: nat, k1: nat, k2: nat)
    requires n <= |cbs|
    requires k1 < k2 < |FiringSlots(cbs, level, n)|
    ensures FiringSlots(cbs, level, n)[k1].index < FiringSlots(cbs, level, n)[k2].index
  {
    var p := FiringSlots(cbs, level, n - 1);
    if k2 < |p| {
      FiringSlotsIncreasing(cbs, level, n - 1, k1, k2);
    }
  }

  lemma FiringSinksStep(cons: seq<Sink>, cbs: seq<Callback>, level: Level, n: nat)
    requires n < |cbs|
    ensures cons + FiringSlots(cbs, level, n + 1)
      == cons + FiringSlots(cbs, level, n) + (if AtLeast(level, cbs[n].level) then [Slot(n)] else [])
  {
  }

  /** Every slot below `n` whose threshold is met is among the firing ones. */
  lemma {:induction false} FiringSlotsComplete(cbs: seq<Callback>, level: Level, n: nat, i: nat)
    requires n <= |cbs|
    requires i < n && AtLeast(level, cbs[i].level)
    ensures Slot(i) in FiringSlots(cbs, level, n)
  {
    if i < n - 1 {
      FiringSlotsComplete(cbs, level, n - 1, i);
    }
  }

  /** The sinks a dispatch fires, in the order it fires them. */
  function FiringSinks(cfg: Config, level: Level): seq<Sink>
  {
    ConsoleSinks(cfg, level) + FiringSlots(cfg.callbacks, level, FirstFree(cfg.callbacks))
  }

  /** Every slot in `sinks` is an occupied slot of the registry. */
  predicate Reachable(cbs: seq<Callback>, sinks: seq<Sink>) {
    forall k :: 0 <= k < |sinks| && sinks[k].Slot? ==>
      sinks[k].index < |cbs| && cbs[sinks[k].index].fn.Some?
  }

  /** The callback and the handle a sink is invoked with. */
  function Target(cbs: seq<Callback>, s: Sink): (LogFn, Handle)
    requires s.Slot? ==> s.index < |cbs| && cbs[s.index].fn.Some?
  {
    match s
    case Console => (StdoutCallback, Stderr)
    case Slot(i) => (cbs[i].fn.value, cbs[i].udata)
  }

  /** One invocation per sink, each with the event stamped `now` and bound to that sink's handle. */
  function Invocations(cbs: seq<Callback>, sinks: seq<Sink>, ev: LogEvent, now: Time): (r: seq<Call>)
    requires Reachable(cbs, sinks)
    ensures |r| == |sinks|
    ensures forall k :: 0 <= k < |r| ==> r[k].Invoke? && r[k].sink == sinks[k]
  {
    seq(|sinks|, k requires 0 <= k < |sinks| =>
      var t := Target(cbs, sinks[k]);
      Invoke(sinks[k], t.0, ev.(time := Some(now), udata := t.1)))
  }

  lemma InvocationsAppend(cbs: seq<Callback>, a: seq<Sink>, b: seq<Sink>, ev: LogEvent, now: Time)
    requires Reachable(cbs, a + b)
    ensures Reachable(cbs, a) && Reachable(cbs, b)
    ensures Invocations(cbs, a + b, ev, now) == Invocations(cbs, a, ev, now) + Invocations(cbs, b, ev, now)
  {
    assert forall k :: 0 <= k < |a| ==> (a + b)[k] == a[k];
    assert forall k :: 0 <= k < |b| ==> (a + b)[|a| + k] == b[k];
  }

  /**
   * The same calls produced one sink at a time, as `log_log` does: the
   * clock is read just before the first invocation.
   */
  function Emissions(cbs: seq<Callback>, sinks: seq<Sink>, ev: LogEvent, now: Time): (r: seq<Call>)
    requires Reachable(cbs, sinks)
    ensures |r| == |ClockCalls(sinks, now)| + |sinks|
  {
    if sinks == [] then []
    else
      var s := sinks[|sinks| - 1];
      var t := Target(cbs, s);
      Emissions(cbs, sinks[..|sinks| - 1], ev, now)
        + (if |sinks| == 1 then [ReadClock(now)] else [])
        + [Invoke(s, t.0, ev.(time := Some(now), udata := t.1))]
  }

  /** Reading the clock lazily yields one reading followed by all the invocations. */
  lemma {:induction false} EmissionsAreClockThenInvocations(cbs: seq<Callback>, sinks: seq<Sink>, ev: LogEvent, now: Time)
    requires Reachable(cbs, sinks)
    ensures Emissions(cbs, sinks, ev, now) == ClockCalls(sinks, now) + Invocations(cbs, sinks, ev, now)
    decreases |sinks|
  {
    if sinks != [] {
      var init := sinks[..|sinks| - 1];
      var s := sinks[|sinks| - 1];
      var t := Target(cbs, s);
      var last := [Invoke(s, t.0, ev.(time := Some(now), udata := t.1))];
      InvocationsSnoc(cbs, sinks, ev, now);
      EmissionsAreClockThenInvocations(cbs, init, ev, now);
      if |sinks| == 1 {
        assert Invocations(cbs, init, ev, now) == [];
      } else {
        assert ClockCalls(init, now) == ClockCalls(sinks, now);
        CallsAssoc(ClockCalls(sinks, now), Invocations(cbs, init, ev, now), last);
      }
    }
  }

  /** Invocations for one more sink end with that sink's invocation. */
  lemma InvocationsSnoc(cbs: seq<Callback>, sinks: seq<Sink>, ev: LogEvent, now: Time)
    requires |sinks| > 0 && Reachable(cbs, sinks)
    ensures Reachable(cbs, sinks[..|sinks| - 1])
    ensures var s := sinks[|sinks| - 1];
      var t := Target(cbs, s);
      Invocations(cbs, sinks, ev, now)
        == Invocations(cbs, sinks[..|sinks| - 1], ev, now) + [Invoke(s, t.0, ev.(time := Some(now), udata := t.1))]
  {
    var init := sinks[..|sinks| - 1];
    assert Reachable(cbs, init) by {
      forall k | 0 <= k < |init| && init[k].Slot?
        ensures init[k].index < |cbs| && cbs[init[k].index].fn.Some?
      {
        assert init[k] == sinks[k];
      }
    }
    var s := sinks[|sinks| - 1];
    var t := Target(cbs, s);
    var a := Invocations(cbs, sinks, ev, now);
    var b := Invocations(cbs, init, ev, now) + [Invoke(s, t.0, ev.(time := Some(now), udata := t.1))];
    forall k | 0 <= k < |a|
      ensures a[k] == b[k]
    {
      if k < |init| {
        assert init[k] == sinks[k];
      }
    }
  }


  /** One more firing sink extends the emissions by at most a clock reading and its invocation. */
  lemma EmissionsSnoc(cbs: seq<Callback>, prefix: seq<Call>, sinks: seq<Sink>, s: Sink, ev: LogEvent, now: Time)
    requires Reachable(cbs, sinks + [s])
    ensures Reachable(cbs, sinks) && (s.Slot? ==> s.index < |cbs| && cbs[s.index].fn.Some?)
    ensures var t := Target(cbs, s);
      prefix + Emissions(cbs, sinks, ev, now)
        + (if sinks == [] then [ReadClock(now)] else [])
        + [Invoke(s, t.0, ev.(time := Some(now), udata := t.1))]
      == prefix + Emissions(cbs, sinks + [s], ev, now)
  {
    var all := sinks + [s];
    assert all[..|all| - 1] == sinks;
    assert all[|all| - 1] == s;
    assert Reachable(cbs, sinks) by {
      forall k | 0 <= k < |sinks| && sinks[k].Slot?
        ensures sinks[k].index < |cbs| && cbs[sinks[k].index].fn.Some?
      {
        assert all[k] == sinks[k];
      }
    }
    var t := Target(cbs, s);
    var clock: seq<Call> := if sinks == [] then [ReadClock(now)] else [];
    var last := [Invoke(s, t.0, ev.(time := Some(now), udata := t.1))];
    assert Emissions(cbs, all, ev, now) == Emissions(cbs, sinks, ev, now) + clock + last;
    CallsAssoc(prefix, Emissions(cbs, sinks, ev, now) + clock, last);
    CallsAssoc(prefix, Emissions(cbs, sinks, ev, now), clock);
  }

  lemma CallsAssoc(a: seq<Call>, b: seq<Call>, c: seq<Call>)
    ensures a + (b + c) == a + b + c
  {
  }

  /** `lock()` (acquire) or `unlock()`: one hook call when a hook is installed, none otherwise. */
  function LockCalls(cfg: Config, acquire: bool): (r: seq<Call>)
    ensures |r| <= 1
  {
    if cfg.lock.Some? then [LockHook(cfg.lock.value, acquire, cfg.lockUdata)] else []
  }

  /** The clock is read once, before the first sink, when any sink fires. */
  function ClockCalls(sinks: seq<Sink>, now: Time): (r: seq<Call>)
    ensures |r| <= 1
  {
    if sinks == [] then [] else [ReadClock(now)]
  }

  lemma FiringSinksReachable(cfg: Config, level: Level)
    ensures Reachable(cfg.callbacks, FiringSinks(cfg, level))
  {
  }

  /**
   * `log_log(level, file, line, fmt, args...)` with the clock reading `now`.
   * It makes at most four calls beyond one per occupied slot: the two lock
   * calls, the clock reading and the console sink.
   */
  function Dispatch(cfg: Config, level: Level, file: string, line: int, fmt: string,
                    args: seq<Arg>, now: Time): (r: seq<Call>)
    ensures |r| <= FirstFree(cfg.callbacks) + 4
  {
    var sinks := FiringSinks(cfg, level);
    FiringSinksReachable(cfg, level);
    LockCalls(cfg, true)
      + ClockCalls(sinks, now)
      + Invocations(cfg.callbacks, sinks, NewEvent(level, file, line, fmt, args), now)
      + LockCalls(cfg, false)
  }

  lemma DispatchUnfold(cfg: Config, level: Level, file: string, line: int, fmt: string,
                       args: seq<Arg>, now: Time)
    ensures Reachable(cfg.callbacks, FiringSinks(cfg, level))
    ensures Dispatch(cfg, level, file, line, fmt, args, now)
      == LockCalls(cfg, true)
        + ClockCalls(FiringSinks(cfg, level), now)
        + Invocations(cfg.callbacks, FiringSinks(cfg, level), NewEvent(level, file, line, fmt, args), now)
        + LockCalls(cfg, false)
  {
    FiringSinksReachable(cfg, level);
  }

  /** What `log_log` has done part-way through: the event on its stack and the calls made so far. */
  datatype Progress = Progress(ev: LogEvent, calls: seq<Call>)

  /** `init_event` for a sink with handle `udata`, then the sink's invocation with the event. */
  function Fire(p: Progress, sink: Sink, callback: LogFn, udata: Handle, now: Time): (q: Progress)
    ensures q.ev.udata == udata && q.ev.time.Some?
    ensures |q.calls| == |p.calls| + (if p.ev.time.None? then 2 else 1)
    ensures q.calls[|q.calls| - 1] == Invoke(sink, callback, q.ev)
  {
    var init := InitEvent(p.ev, udata, now);
    Progress(init.0, p.calls + init.1 + [Invoke(sink, callback, init.0)])
  }

  /** The console step of `log_log`: the default sink fires on stderr when enabled. */
  function ConsoleStep(cfg: Config, level: Level, now: Time, p: Progress): Progress {
    if ConsoleEnabled(cfg, level) then Fire(p, Console, StdoutCallback, Stderr, now) else p
  }

  /** One turn of `log_log`'s registry loop, at occupied slot `i`. */
  function Turn(cbs: seq<Callback>, level: Level, i: nat, p: Progress, now: Time): Progress
    requires i < |cbs| && cbs[i].fn.Some?
  {
    if AtLeast(level, cbs[i].level) then Fire(p, Slot(i), cbs[i].fn.value, cbs[i].udata, now) else p
  }

  /** The first `n` turns of `log_log`'s registry loop, from `start`. */
  function Walk(cbs: seq<Callback>, level: Level, n: nat, start: Progress, now: Time): Progress
    requires n <= FirstFree(cbs)
  {
    if n == 0 then start else Turn(cbs, level, n - 1, Walk(cbs, level, n - 1, start, now), now)
  }

  /**
   * `p` is what `log_log` has done once `cons` and the firing slots below
   * `n` have run: the event is the caller's, stamped with `now` once any
   * sink has fired, and the calls are `prefix` and then their emissions.
   */
  predicate Emitted(cbs: seq<Callback>, cons: seq<Sink>, level: Level, n: nat,
                    ev0: LogEvent, now: Time, prefix: seq<Call>, p: Progress)
    requires n <= |cbs|
  {
    var sinks := cons + FiringSlots(cbs, level, n);
    && Reachable(cbs, sinks)
    && p.ev == ev0.(time := if |sinks| == 0 then None else Some(now), udata := p.ev.udata)
    && p.calls == prefix + Emissions(cbs, sinks, ev0, now)
  }

  /** One turn of the loop keeps `Emitted`, one slot further on. */
  lemma TurnEmits(cbs: seq<Callback>, cons: seq<Sink>, level: Level, i: nat,
                  ev0: LogEvent, now: Time, prefix: seq<Call>, p: Progress)
    requires i < FirstFree(cbs)
    ensures Emitted(cbs, cons, level, i, ev0, now, prefix, p)
      ==> Emitted(cbs, cons, level, i + 1, ev0, now, prefix, Turn(cbs, level, i, p, now))
  {
    var sinks := cons + FiringSlots(cbs, level, i);
    FiringSinksStep(cons, cbs, level, i);
    if !Emitted(cbs, cons, level, i, ev0, now, prefix, p) {
    } else if AtLeast(level, cbs[i].level) {
      var s := sinks + [Slot(i)];
      assert Reachable(cbs, s) by {
        forall k | 0 <= k < |s| && s[k].Slot?
          ensures s[k].index < |cbs| && cbs[s[k].index].fn.Some?
        {
          if k < |sinks| {
            assert s[k] == sinks[k];
          }
        }
      }
      EmissionsSnoc(cbs, prefix, sinks, Slot(i), ev0, now);
    } else {
      assert cons + FiringSlots(cbs, level, i + 1) == sinks;
    }
  }

  /** After `n` turns the loop has emitted exactly the calls for `cons` and the firing slots below `n`. */
  lemma {:induction false} WalkEmits(cbs: seq<Callback>, cons: seq<Sink>, level: Level, n: nat,
                                     ev0: LogEvent, now: Time, prefix: seq<Call>, start: Progress)
    requires n <= FirstFree(cbs)
    requires Emitted(cbs, cons, level, 0, ev0, now, prefix, start)
    ensures Emitted(cbs, cons, level, n, ev0, now, prefix, Walk(cbs, level, n, start, now))
  {
    if n > 0 {
      WalkEmits(cbs, cons, level, n - 1, ev0, now, prefix, start);
      TurnEmits(cbs, cons, level, n - 1, ev0, now, prefix, Walk(cbs, level, n - 1, start, now));
    }
  }

  /** The console step starts the emissions: the lock call, then the console sink if it fires. */
  lemma ConsoleEmits(cfg: Config, level: Level, ev0: LogEvent, now: Time)
    requires ev0.time.None?
    ensures Emitted(cfg.callbacks, ConsoleSinks(cfg, level), level, 0, ev0, now, LockCalls(cfg, true),
                    ConsoleStep(cfg, level, now, Progress(ev0, LockCalls(cfg, true))))
  {
    var cons := ConsoleSinks(cfg, level);
    var lockCalls := LockCalls(cfg, true);
    assert cons + FiringSlots(cfg.callbacks, level, 0) == cons;
    if ConsoleEnabled(cfg, level) {
      var ev := ev0.(time := Some(now), udata := Stderr);
      assert ConsoleStep(cfg, level, now, Progress(ev0, lockCalls))
        == Progress(ev, lockCalls + [ReadClock(now)] + [Invoke(Console, StdoutCallback, ev)]);
      assert Emissions(cfg.callbacks, cons, ev0, now) == [ReadClock(now)] + [Invoke(Console, StdoutCallback, ev)] by {
        assert cons[..0] == [];
      }
      CallsAssoc(lockCalls, [ReadClock(now)], [Invoke(Console, StdoutCallback, ev)]);
    } else {
      assert lockCalls + [] == lockCalls;
    }
  }

  /**
   * The step-by-step reading of `log_log` (lock, console, the registry loop
   * up to the first free slot, unlock) makes exactly the calls of `Dispatch`.
   */
  lemma WalkIsDispatch(cfg: Config, level: Level, file: string, line: int, fmt: string,
                       args: seq<Arg>, now: Time)
    ensures var start := ConsoleStep(cfg, level, now, Progress(NewEvent(level, file, line, fmt, args), LockCalls(cfg, true)));
      Walk(cfg.callbacks, level, FirstFree(cfg.callbacks), start, now).calls + LockCalls(cfg, false)
        == Dispatch(cfg, level, file, line, fmt, args, now)
  {
    var cbs := cfg.callbacks;
    var ev0 := NewEvent(level, file, line, fmt, args);
    var lockCalls := LockCalls(cfg, true);
    var start := ConsoleStep(cfg, level, now, Progress(ev0, lockCalls));
    var n := FirstFree(cbs);
    var sinks := FiringSinks(cfg, level);
    var w := Walk(cbs, level, n, start, now);
    assert Reachable(cbs, sinks) && w.calls == lockCalls + Emissions(cbs, sinks, ev0, now) by {
      ConsoleEmits(cfg, level, ev0, now);
      WalkEmits(cbs, ConsoleSinks(cfg, level), level, n, ev0, now, lockCalls, start);
    }
    assert w.calls == lockCalls + (ClockCalls(sinks, now) + Invocations(cbs, sinks, ev0, now)) by {
      EmissionsAreClockThenInvocations(cbs, sinks, ev0, now);
    }
    DispatchUnfold(cfg, level, file, line, fmt, args, now);
    CallsAssoc(lockCalls, ClockCalls(sinks, now), Invocations(cbs, sinks, ev0, now));
  }

  /** Where each kind of call sits in a dispatch: sink invocations form one block after the lock and the clock. */
  lemma DispatchShape(cfg: Config, level: Level, file: string, line: int, fmt: string,
                      args: seq<Arg>, now: Time)
    ensures var d := Dispatch(cfg, level, file, line, fmt, args, now);
      var sinks := FiringSinks(cfg, level);
      var p := |LockCalls(cfg, true)| + |ClockCalls(sinks, now)|;
      && |d| == p + |sinks| + |LockCalls(cfg, false)|
      && (forall k :: 0 <= k < |d| ==> (d[k].Invoke? <==> p <= k < p + |sinks|))
      && (forall k :: p <= k < p + |sinks| ==> d[k].sink == sinks[k - p])
  {
  }

  /** In a call list shaped like a dispatch, a sink is invoked exactly when it is among `sinks`. */
  lemma InvokedIffListed(d: seq<Call>, p: nat, sinks: seq<Sink>, s: Sink)
    requires p + |sinks| <= |d|
    requires forall k :: 0 <= k < |d| ==> (d[k].Invoke? <==> p <= k < p + |sinks|)
    requires forall k :: p <= k < p + |sinks| ==> d[k].sink == sinks[k - p]
    ensures (exists k :: 0 <= k < |d| && d[k].Invoke? && d[k].sink == s) <==> s in sinks
  {
    if s in sinks {
      var j :| 0 <= j < |sinks| && sinks[j] == s;
      assert d[p + j].Invoke? && d[p + j].sink == s;
    }
  }

  /** In a call list shaped like a dispatch, invocations follow the order of `sinks`. */
  lemma InvokedInOrder(d: seq<Call>, p: nat, sinks: seq<Sink>)
    requires p + |sinks| <= |d|
    requires forall k :: 0 <= k < |d| ==> (d[k].Invoke? <==> p <= k < p + |sinks|)
    requires forall k :: p <= k < p + |sinks| ==> d[k].sink == sinks[k - p]
    requires forall j1, j2 :: 0 <= j1 < j2 < |sinks| ==> Rank(sinks[j1]) < Rank(sinks[j2])
    ensures forall k1, k2 :: 0 <= k1 < k2 < |d| && d[k1].Invoke? && d[k2].Invoke? ==>
      Rank(d[k1].sink) < Rank(d[k2].sink)
  {
    forall k1, k2 | 0 <= k1 < k2 < |d| && d[k1].Invoke? && d[k2].Invoke?
      ensures Rank(d[k1].sink) < Rank(d[k2].sink)
    {
      assert d[k1].sink == sinks[k1 - p] && d[k2].sink == sinks[k2 - p];
    }
  }

  /** The console is among the firing sinks exactly when it is enabled. */
  lemma ConsoleListedIff(cfg: Config, level: Level)
    ensures Console in FiringSinks(cfg, level) <==> ConsoleEnabled(cfg, level)
  {
    var slots := FiringSlots(cfg.callbacks, level, FirstFree(cfg.callbacks));
    if ConsoleEnabled(cfg, level) {
      assert FiringSinks(cfg, level)[0] == Console;
    } else {
      assert FiringSinks(cfg, level) == slots;
      assert forall k :: 0 <= k < |slots| ==> slots[k] != Console;
    }
  }

  /** Slot `i` is among the firing sinks exactly when it is occupied before the first free slot and its threshold is met. */
  lemma SlotListedIff(cfg: Config, level: Level, i: nat)
    ensures Slot(i) in FiringSinks(cfg, level)
      <==> i < FirstFree(cfg.callbacks) && AtLeast(level, cfg.callbacks[i].level)
  {
    var n := FirstFree(cfg.callbacks);
    var cons := ConsoleSinks(cfg, level);
    var slots := FiringSlots(cfg.callbacks, level, n);
    assert FiringSinks(cfg, level) == cons + slots;
    if i < n && AtLeast(level, cfg.callbacks[i].level) {
      FiringSlotsComplete(cfg.callbacks, level, n, i);
    }
    if Slot(i) in cons + slots {
      assert Slot(i) in slots;
    }
  }

  /** The firing sinks are in strictly increasing rank: the console, then slots by index. */
  lemma FiringSinksIncreasing(cfg: Config, level: Level)
    ensures var sinks := FiringSinks(cfg, level);
      forall j1, j2 :: 0 <= j1 < j2 < |sinks| ==> Rank(sinks[j1]) < Rank(sinks[j2])
  {
    var sinks := FiringSinks(cfg, level);
    var cons := ConsoleSinks(cfg, level);
    var slots := FiringSlots(cfg.callbacks, level, FirstFree(cfg.callbacks));
    forall j1, j2 | 0 <= j1 < j2 < |sinks|
      ensures Rank(sinks[j1]) < Rank(sinks[j2])
    {
      assert sinks[j2] == slots[j2 - |cons|];
      if j1 >= |cons| {
        assert sinks[j1] == slots[j1 - |cons|];
        FiringSlotsIncreasing(cfg.callbacks, level, FirstFree(cfg.callbacks), j1 - |cons|, j2 - |cons|);
      }
    }
  }

  /** The default console sink fires, on stderr, exactly when `!quiet && level >= L.level`. */
  lemma ConsoleFiresIff(cfg: Config, level: Level, file: string, line: int, fmt: string,
                        args: seq<Arg>, now: Time)
    ensures var d := Dispatch(cfg, level, file, line, fmt, args, now);
      (exists k :: 0 <= k < |d| && d[k].Invoke? && d[k].sink == Console)
        <==> !cfg.quiet && AtLeast(level, cfg.level)
  {
    var d := Dispatch(cfg, level, file, line, fmt, args, now);
    var sinks := FiringSinks(cfg, level);
    DispatchShape(cfg, level, file, line, fmt, args, now);
    InvokedIffListed(d, |LockCalls(cfg, true)| + |ClockCalls(sinks, now)|, sinks, Console);
    ConsoleListedIff(cfg, level);
  }

  /**
   * Registered slot `i` fires exactly when it lies before the first free slot
   * and `level` meets its threshold; `quiet` and `L.level` play no part.
   */
  lemma SlotFiresIff(cfg: Config, level: Level, file: string, line: int, fmt: string,
                     args: seq<Arg>, now: Time, i: nat)
    ensures var d := Dispatch(cfg, level, file, line, fmt, args, now);
      (exists k :: 0 <= k < |d| && d[k].Invoke? && d[k].sink == Slot(i))
        <==> i < FirstFree(cfg.callbacks) && AtLeast(level, cfg.callbacks[i].level)
  {
    var d := Dispatch(cfg, level, file, line, fmt, args, now);
    var sinks := FiringSinks(cfg, level);
    DispatchShape(cfg, level, file, line, fmt, args, now);
    InvokedIffListed(d, |LockCalls(cfg, true)| + |ClockCalls(sinks, now)|, sinks, Slot(i));
    SlotListedIff(cfg, level, i);
  }

  /**
   * With the occupied slots a prefix of the table, as registration keeps them,
   * slot `i` fires exactly when it holds a function and `level` meets its threshold.
   */
  lemma ContiguousSlotFiresIff(cfg: Config, level: Level, file: string, line: int, fmt: string,
                               args: seq<Arg>, now: Time, i: nat)
    requires Contiguous(cfg.callbacks)
    ensures var d := Dispatch(cfg, level, file, line, fmt, args, now);
      (exists k :: 0 <= k < |d| && d[k].Invoke? && d[k].sink == Slot(i))
        <==> i < |cfg.callbacks| && cfg.callbacks[i].fn.Some? && AtLeast(level, cfg.callbacks[i].level)
  {
    SlotFiresIff(cfg, level, file, line, fmt, args, now, i);
    if i < |cfg.callbacks| {
      ContiguousPrefix(cfg.callbacks, i);
    }
  }

  /** Sinks are invoked at most once each: the console first, then the registry in increasing slot order. */
  lemma InvocationOrder(cfg: Config, level: Level, file: string, line: int, fmt: string,
                        args: seq<Arg>, now: Time)
    ensures var d := Dispatch(cfg, level, file, line, fmt, args, now);
      forall k1, k2 :: 0 <= k1 < k2 < |d| && d[k1].Invoke? && d[k2].Invoke? ==>
        Rank(d[k1].sink) < Rank(d[k2].sink)
  {
    var d := Dispatch(cfg, level, file, line, fmt, args, now);
    var sinks := FiringSinks(cfg, level);
    DispatchShape(cfg, level, file, line, fmt, args, now);
    FiringSinksIncreasing(cfg, level);
    InvokedInOrder(d, |LockCalls(cfg, true)| + |ClockCalls(sinks, now)|, sinks);
  }

  /**
   * Every invocation passes the caller's event unchanged, bound to the
   * sink's own handle: `stderr` and `stdout_callback` for the console,
   * the slot's `udata` and function for a registered sink.
   */
  lemma InvocationPayload(cfg: Config, level: Level, file: string, line: int, fmt: string,
                          args: seq<Arg>, now: Time)
    ensures var d := Dispatch(cfg, level, file, line, fmt, args, now);
      forall k :: 0 <= k < |d| && d[k].Invoke? ==>
        && d[k].ev.(time := None, udata := NullHandle) == NewEvent(level, file, line, fmt, args)
        && (d[k].sink.Console? ==> d[k].callback == StdoutCallback && d[k].ev.udata == Stderr)
        && (d[k].sink.Slot? ==>
              d[k].sink.index < |cfg.callbacks|
              && cfg.callbacks[d[k].sink.index].fn == Some(d[k].callback)
              && d[k].ev.udata == cfg.callbacks[d[k].sink.index].udata)
  {
    DispatchShape(cfg, level, file, line, fmt, args, now);
  }

  /**
   * The clock is read exactly once when some sink fires and never otherwise,
   * before every invocation, and every sink sees that one reading.
   */
  lemma SharedTimestamp(cfg: Config, level: Level, file: string, line: int, fmt: string,
                        args: seq<Arg>, now: Time)
    ensures var d := Dispatch(cfg, level, file, line, fmt, args, now);
      && (forall k :: 0 <= k < |d| && d[k].ReadClock? ==> d[k] == ReadClock(now))
      && (forall k :: 0 <= k < |d| && d[k].Invoke? ==> d[k].ev.time == Some(now))
      && ((exists k :: 0 <= k < |d| && d[k].ReadClock?) <==> (exists k :: 0 <= k < |d| && d[k].Invoke?))
      && (forall k1, k2 :: 0 <= k1 < |d| && 0 <= k2 < |d| && d[k1].ReadClock? && d[k2].ReadClock? ==> k1 == k2)
      && (forall k1, k2 :: 0 <= k1 < |d| && 0 <= k2 < |d| && d[k1].ReadClock? && d[k2].Invoke? ==> k1 < k2)
  {
    var d := Dispatch(cfg, level, file, line, fmt, args, now);
    var sinks := FiringSinks(cfg, level);
    var lk := LockCalls(cfg, true);
    var p := |lk| + |ClockCalls(sinks, now)|;
    DispatchShape(cfg, level, file, line, fmt, args, now);
    if sinks != [] {
      assert d[|lk|].ReadClock?;
      assert d[p].Invoke?;
    }
  }

  /**
   * With a hook installed, a dispatch calls it with `true` first and with
   * `false` last, and nowhere else; with none installed it makes no lock call.
   */
  lemma LockBracket(cfg: Config, level: Level, file: string, line: int, fmt: string,
                    args: seq<Arg>, now: Time)
    ensures var d := Dispatch(cfg, level, file, line, fmt, args, now);
      && (cfg.lock.None? ==> forall k :: 0 <= k < |d| ==> !d[k].LockHook?)
      && (cfg.lock.Some? ==>
            && |d| >= 2
            && d[0] == LockHook(cfg.lock.value, true, cfg.lockUdata)
            && d[|d| - 1] == LockHook(cfg.lock.value, false, cfg.lockUdata)
            && forall k :: 0 < k < |d| - 1 ==> !d[k].LockHook?)
  {
    var sinks := FiringSinks(cfg, level);
    var clock := ClockCalls(sinks, now);
    var invocations := Invocations(cfg.callbacks, sinks, NewEvent(level, file, line, fmt, args), now);
    DispatchUnfold(cfg, level, file, line, fmt, args, now);
    CallsAssoc(LockCalls(cfg, true), clock, invocations);
    assert forall k :: 0 <= k < |clock + invocations| ==> !(clock + invocations)[k].LockHook?;
    LockCallsAround(cfg, clock + invocations);
  }

  /** Lock calls placed around calls that contain none bracket them. */
  lemma LockCallsAround(cfg: Config, mid: seq<Call>)
    requires forall k :: 0 <= k < |mid| ==> !mid[k].LockHook?
    ensures var d := LockCalls(cfg, true) + mid + LockCalls(cfg, false);
      && (cfg.lock.None? ==> forall k :: 0 <= k < |d| ==> !d[k].LockHook?)
      && (cfg.lock.Some? ==>
            && |d| >= 2
            && d[0] == LockHook(cfg.lock.value, true, cfg.lockUdata)
            && d[|d| - 1] == LockHook(cfg.lock.value, false, cfg.lockUdata)
            && forall k :: 0 < k < |d| - 1 ==> !d[k].LockHook?)
  {
  }

  /** The invocations of registered sinks in a list of calls, in order. */
  function RegisteredCalls(calls: seq<Call>): (r: seq<Call>)
    ensures |r| <= |calls|
  {
    if calls == [] then []
    else
      var c := calls[|calls| - 1];
      RegisteredCalls(calls[..|calls| - 1]) + (if c.Invoke? && c.sink.Slot? then [c] else [])
  }

  lemma {:induction false} RegisteredCallsAppend(a: seq<Call>, b: seq<Call>)
    ensures RegisteredCalls(a + b) == RegisteredCalls(a) + RegisteredCalls(b)
    decreases |b|
  {
    if b == [] {
      assert a + b == a;
    } else {
      assert (a + b)[..|a + b| - 1] == a + b[..|b| - 1];
      assert (a + b)[|a + b| - 1] == b[|b| - 1];
      RegisteredCallsAppend(a, b[..|b| - 1]);
    }
  }

  lemma {:induction false} RegisteredCallsOfNone(calls: seq<Call>)
    requires forall k :: 0 <= k < |calls| ==> !(calls[k].Invoke? && calls[k].sink.Slot?)
    ensures RegisteredCalls(calls) == []
    decreases |calls|
  {
    if calls != [] {
      RegisteredCallsOfNone(calls[..|calls| - 1]);
    }
  }

  lemma {:induction false} RegisteredCallsOfAll(calls: seq<Call>)
    requires forall k :: 0 <= k < |calls| ==> calls[k].Invoke? && calls[k].sink.Slot?
    ensures RegisteredCalls(calls) == calls
    decreases |calls|
  {
    if calls != [] {
      RegisteredCallsOfAll(calls[..|calls| - 1]);
    }
  }

  predicate NoRegistered(calls: seq<Call>) {
    forall k :: 0 <= k < |calls| ==> !(calls[k].Invoke? && calls[k].sink.Slot?)
  }

  lemma RegisteredCallsPick(lock: seq<Call>, clock: seq<Call>, console: seq<Call>, body: seq<Call>, unlock: seq<Call>)
    requires NoRegistered(lock) && NoRegistered(clock) && NoRegistered(console) && NoRegistered(unlock)
    requires forall k :: 0 <= k < |body| ==> body[k].Invoke? && body[k].sink.Slot?
    ensures RegisteredCalls(lock + clock + console + body + unlock) == body
  {
    RegisteredCallsAppend(lock + clock + console + body, unlock);
    RegisteredCallsAppend(lock + clock + console, body);
    RegisteredCallsAppend(lock + clock, console);
    RegisteredCallsAppend(lock, clock);
    RegisteredCallsOfNone(lock);
    RegisteredCallsOfNone(clock);
    RegisteredCallsOfNone(console);
    RegisteredCallsOfNone(unlock);
    RegisteredCallsOfAll(body);
  }

  lemma Regroup(a: seq<Call>, b: seq<Call>, c: seq<Call>, d: seq<Call>, e: seq<Call>)
    ensures a + b + (c + d) + e == (a + b + c) + d + e
  {
  }

  /** The registered sinks' share of a dispatch: their invocations, in slot order. */
  lemma RegisteredCallsOfDispatch(cfg: Config, level: Level, file: string, line: int, fmt: string,
                                  args: seq<Arg>, now: Time)
    ensures RegisteredCalls(Dispatch(cfg, level, file, line, fmt, args, now))
      == Invocations(cfg.callbacks, FiringSlots(cfg.callbacks, level, FirstFree(cfg.callbacks)),
                     NewEvent(level, file, line, fmt, args), now)
  {
    var cbs := cfg.callbacks;
    var ev := NewEvent(level, file, line, fmt, args);
    var cons := ConsoleSinks(cfg, level);
    var slots := FiringSlots(cbs, level, FirstFree(cbs));
    var sinks := FiringSinks(cfg, level);
    FiringSinksReachable(cfg, level);
    InvocationsAppend(cbs, cons, slots, ev, now);
    var lock, clock := LockCalls(cfg, true), ClockCalls(sinks, now);
    var console := Invocations(cbs, cons, ev, now);
    var body := Invocations(cbs, slots, ev, now);
    var unlock := LockCalls(cfg, false);
    assert Dispatch(cfg, level, file, line, fmt, args, now) == lock + clock + console + body + unlock by {
      var all := Invocations(cbs, sinks, ev, now);
      assert Dispatch(cfg, level, file, line, fmt, args, now) == lock + clock + all + unlock;
      assert all == console + body;
      Regroup(lock, clock, console, body, unlock);
    }
    assert NoRegistered(lock) && NoRegistered(clock) && NoRegistered(console) && NoRegistered(unlock);
    RegisteredCallsPick(lock, clock, console, body, unlock);
  }

  /** `log_set_quiet` and `log_set_level` have no effect on what registered sinks receive. */
  lemma RegisteredCallsIgnoreConsoleSettings(cfg: Config, quiet: bool, minimum: Level, level: Level,
                                             file: string, line: int, fmt: string, args: seq<Arg>, now: Time)
    ensures RegisteredCalls(Dispatch(cfg.(quiet := quiet, level := minimum), level, file, line, fmt, args, now))
      == RegisteredCalls(Dispatch(cfg, level, file, line, fmt, args, now))
  {
    RegisteredCallsOfDispatch(cfg, level, file, line, fmt, args, now);
    RegisteredCallsOfDispatch(cfg.(quiet := quiet, level := minimum), level, file, line, fmt, args, now);
  }
}
