/**
 * The logger state `L` of logc and the functions that update or read it:
 * the setters, `log_add_callback`, `log_add_fp` and `log_log`.  The state
 * is one object here rather than a file-scope static.
 */
module Logc {
  import opened Wrappers
  import opened Levels
  import opened Registry
  import opened Dispatcher

  class Logger {
    /** The context handed to the lock hook (`L.udata`). */
    var udata: Handle
    /** The lock hook (`L.lock`); `None` is a null pointer. */
    var lock: Option<LockFn>
    /** The console sink's threshold (`L.level`). */
    var level: Level
    var quiet: bool
    /** `L.callbacks`, the fixed array of MAX_CALLBACKS slots. */
    const callbacks: array<Callback>

    /** The registry has MAX_CALLBACKS slots and its occupied slots form a prefix. */
    ghost predicate Valid()
      reads this, callbacks
    {
      callbacks.Length == MaxCallbacks && Contiguous(callbacks[..])
    }

    /** The state as the dispatch specification sees it. */
    function Snapshot(): (cfg: Config)
      reads this, callbacks
    {
      Config(lock, udata, level, quiet, callbacks[..])
    }

    /** The zero-initialised static state: no hook, level TRACE, not quiet, every slot free. */
    constructor ()
      ensures Valid() && fresh(callbacks)
      ensures Snapshot() == Config(None, NullHandle, Trace, false, EmptyRegistry())
    {
      udata := NullHandle;
      lock := None;
      level := Trace;
      quiet := false;
      callbacks := new Callback[MaxCallbacks](_ => EmptySlot);
    }

    /** `log_set_lock`: install or replace (or, with `None`, remove) the lock hook. */
    method SetLock(fn: Option<LockFn>, context: Handle)
      requires Valid()
      modifies this
      ensures Valid()
      ensures Snapshot() == old(Snapshot()).(lock := fn, lockUdata := context)
    {
      lock := fn;
      udata := context;
    }

    /** `log_set_level`: the console sink's threshold. */
    method SetLevel(minimum: Level)
      requires Valid()
      modifies this
      ensures Valid()
      ensures Snapshot() == old(Snapshot()).(level := minimum)
    {
      level := minimum;
    }

    /** `log_set_quiet`: suppress or re-enable the console sink. */
    method SetQuiet(enable: bool)
      requires Valid()
      modifies this
      ensures Valid()
      ensures Snapshot() == old(Snapshot()).(quiet := enable)
    {
      quiet := enable;
    }

    /**
     * `log_add_callback`: store `{fn, context, minimum}` in the first slot
     * whose function is null and return 0, or return -1 when there is none.
     */
    method AddCallback(fn: Option<LogFn>, context: Handle, minimum: Level) returns (r: int)
      requires Valid()
      modifies callbacks
      ensures Valid()
      ensures Registration(callbacks[..], r) == Register(old(callbacks[..]), Callback(fn, context, minimum))
    {
      ghost var before := callbacks[..];
      var i := 0;
      while i < MaxCallbacks
        invariant 0 <= i <= MaxCallbacks
        invariant forall j :: 0 <= j < i ==> callbacks[j].fn.Some?
        invariant callbacks[..] == before
      {
        if callbacks[i].fn.None? {
          callbacks[i] := Callback(fn, context, minimum);
          RegisterWritesLowestFreeSlot(before, Callback(fn, context, minimum), i);
          RegisterKeepsContiguous(before, Callback(fn, context, minimum));
          return RegisterOk;
        }
        i := i + 1;
      }
      RegisterWhenFull(before, Callback(fn, context, minimum));
      return RegisterFull;
    }

    /** `log_add_fp`: register the file renderer on stream `fp`. */
    method AddFp(fp: Handle, minimum: Level) returns (r: int)
      requires Valid()
      modifies callbacks
      ensures Valid()
      ensures Registration(callbacks[..], r) == Register(old(callbacks[..]), Callback(Some(FileCallback), fp, minimum))
    {
      r := AddCallback(Some(FileCallback), fp, minimum);
    }

    /**
     * `log_log`: returns the calls it makes, in order, with `now` the
     * clock's reading should it be read.  The state is left as it was.
     */
    method LogLog(lvl: Level, file: string, line: int, fmt: string, args: seq<Arg>, now: Time)
      returns (calls: seq<Call>)
      requires callbacks.Length == MaxCallbacks
      ensures calls == Dispatch(Snapshot(), lvl, file, line, fmt, args, now)
    {
      ghost var cfg := Snapshot();
      ghost var cbs := cfg.callbacks;
      var ev := NewEvent(lvl, file, line, fmt, args);
      calls := [];
      if lock.Some? {
        calls := [LockHook(lock.value, true, udata)];
      }
      assert calls == LockCalls(cfg, true);
      if !quiet && AtLeast(lvl, level) {
        var init := InitEvent(ev, Stderr, now);
        ev := init.0;
        calls := calls + init.1 + [Invoke(Console, StdoutCallback, ev)];
      }
      ghost var start := Progress(ev, calls);
      assert start == ConsoleStep(cfg, lvl, now, Progress(NewEvent(lvl, file, line, fmt, args), LockCalls(cfg, true)));

      var i := 0;
      while i < MaxCallbacks && callbacks[i].fn.Some?
        invariant 0 <= i <= FirstFree(cbs)
        invariant Progress(ev, calls) == Walk(cbs, lvl, i, start, now)
      {
        var cb := callbacks[i];
        assert cb == cbs[i] && i < FirstFree(cbs) by {
          FirstFreeStep(cbs, i);
        }
        if AtLeast(lvl, cb.level) {
          var init := InitEvent(ev, cb.udata, now);
          ev := init.0;
          calls := calls + init.1 + [Invoke(Slot(i), cb.fn.value, ev)];
        }
        i := i + 1;
      }
      assert i == FirstFree(cbs) by {
        FirstFreeUnique(cbs, i);
      }

      if lock.Some? {
        calls := calls + [LockHook(lock.value, false, udata)];
      }
      WalkIsDispatch(cfg, lvl, file, line, fmt, args, now);
    }
  }
}
