# logc in Dafny

A model of `include/logc.h` from logc, a small single-header C logging library. It covers
the implementation block (include/logc.h:59-195) and the declarations that block uses from
lines 11-37: the version macros, the `log_level` enumeration, the `log_event` record and the
two function-pointer types `log_LogFn` and `log_LockFn`.

- **The logger state `L`.** This covers the lock hook and its context, the console
  threshold, the quiet flag and the fixed table of `MAX_CALLBACKS` (32) callback slots.
  It is the class `Logc.Logger` (`logger.dfy`). The 32 slots are an `array<Callback>`.
- **The setters.** `log_set_lock`, `log_set_level` and `log_set_quiet` update those
  fields in place.
- **Registration.**
  - `log_add_callback` is a loop over the array, proved against the pure specification
    `Registry.Register` (`registry.dfy`). It stores the callback in the lowest slot whose
    function pointer is null and returns 0, or returns -1 when every slot is taken.
  - `log_add_fp` is the same with the file renderer.
- **Dispatch.** `log_log` is the method `Logc.Logger.LogLog`.
  - C's `log_log` reads `L` and otherwise only calls out: the lock hook, `time` and
    `localtime`, and the sink functions. So the method returns the ordered list of those
    external calls (`Dispatcher.Call`) and changes no state.
  - The list is proved equal to `Dispatcher.Dispatch` (`dispatcher.dfy`). That function
    states the dispatch declaratively:
    1. the lock call;
    2. one clock reading if any sink fires;
    3. one invocation per firing sink: the console sink if enabled, then the occupied
       prefix of the registry in slot order, filtered by each slot's threshold;
    4. the unlock call.
  - `Dispatcher.Walk` and `Dispatcher.Turn` restate the C loop one slot at a time.
    `Dispatcher.WalkIsDispatch` ties them to `Dispatch`.
- **Levels.** The level enumeration and its name table are in `levels.dfy`.
- **Version string.** `logc_version` is in `version.dfy`.

The clock is not read by the model. Its reading is the parameter `now` of `LogLog` and
`Dispatch`, and a `ReadClock(now)` entry in the call list records where the C code reads
it. Pointers to user code (lock hooks, log functions, `FILE *` and `udata` handles) are
opaque identifiers.

## Model

| member | source | states |
|---|---|---|
| Levels.LevelString | include/logc.h:77-78 | each level name in the `level_strings` table is 4 or 5 upper-case letters |
| Levels.LevelStringRoundTrip | include/logc.h:123 | `log_level_string` is injective: parsing the name of a level gives back that level, and a string names a level exactly when it is that level's entry |
| Levels.AtLeastIsTotalOrder | include/logc.h:17-24 | `>=` on the enumerators, which every filter uses, is a total order on the six severities |
| Version.VersionRoundTrip | include/logc.h:187-193 | the `"%d.%d.%d"` rendering determines its triple: parsing it back gives `(major, minor, patch)` for every triple of C `int`s, negative ones included |
| Version.VersionString | include/logc.h:187-193 | the intended result of `logc_version`, the full `"%d.%d.%d"` text; for any three C `int`s it is 5 to 35 characters long |
| Version.ReleasedVersion | include/logc.h:11-15 | `LOGC_VERSION` renders as `"0.1.0"` |
| Version.LogcVersionAsWritten | include/logc.h:187-193 | the code as written yields a result exactly when the text and its NUL fit the 20-byte buffer; that result is then `VersionString` of the triple and parses back to it |
| Version.VersionBufferOverrun | include/logc.h:188-189 | components of 1000000000 overflow the 20-byte buffer |
| Version.VersionBufferFits | include/logc.h:188-189 | components in [0, 100000) always fit the buffer |
| Registry.Register | include/logc.h:134-142 | `log_add_callback` on the whole table: the table keeps its 32 slots and the status is 0 or -1 (the lemmas below say which and what is written) |
| Registry.FirstFree | include/logc.h:135-136 | the scan stops at the lowest slot with a null function, or past the end when there is none; every slot before it is occupied |
| Registry.RegisterSucceedsIff | include/logc.h:134-142 | `log_add_callback` returns 0 exactly when some slot has a null function, and -1 otherwise |
| Registry.RegisterWritesLowestFreeSlot | include/logc.h:134-139 | a successful registration writes `{fn, udata, level}` to the lowest free slot, changes no other slot and returns 0 |
| Registry.RegisterWhenFull | include/logc.h:140-141 | with all 32 slots taken, registration returns -1 and leaves the table unchanged |
| Registry.RegisterKeepsContiguous | include/logc.h:134-142 | registration keeps the occupied slots a prefix of the table, which is what lets `log_log` stop at the first null function |
| Registry.RegisterAllInOrder | include/logc.h:134-142 | a series of non-null registrations that fits fills consecutive slots, in call order, from the first free one, and every call returns 0 |
| Registry.RegistrationCapacity | include/logc.h:134-142 | from the zeroed table, up to 32 registrations all succeed in order; the 33rd fails and changes nothing |
| Logc.Logger.constructor | include/logc.h:69-75 | the zero-initialised static `L`: no lock hook, level TRACE, not quiet, 32 free slots |
| Logc.Logger.SetLock | include/logc.h:125-128 | `log_set_lock` replaces the hook and its context and nothing else |
| Logc.Logger.SetLevel | include/logc.h:130 | `log_set_level` replaces the console threshold and nothing else |
| Logc.Logger.SetQuiet | include/logc.h:132 | `log_set_quiet` replaces the quiet flag and nothing else |
| Logc.Logger.AddCallback | include/logc.h:134-142 | the slot loop leaves exactly the table and returns exactly the status of `Registry.Register`, and keeps the occupied slots a prefix |
| Logc.Logger.AddFp | include/logc.h:144-146 | `log_add_fp` is `log_add_callback` with the file renderer and the stream as context |
| Dispatcher.Dispatch | include/logc.h:156-185 | `log_log` as its list of external calls: at most the two lock calls, one clock reading and the console sink beyond one invocation per occupied slot (the lemmas below say which calls, in what order) |
| Logc.Logger.LogLog | include/logc.h:156-185 | the calls `log_log` makes, in order, are exactly `Dispatcher.Dispatch` of the current state |
| Dispatcher.NewEvent | include/logc.h:158-163 | the event built on the stack has no time yet |
| Dispatcher.InitEvent | include/logc.h:148-154 | `init_event` reads the clock only when the event has no time, then sets the event's handle; no other field changes |
| Dispatcher.InitEventReadsClockOnce | include/logc.h:148-154 | once stamped, later `init_event` calls make no clock read and keep the time, changing only the handle |
| Dispatcher.FiringSlots | include/logc.h:174-177 | every slot listed lies in the scanned range and its threshold is met by the level |
| Dispatcher.FiringSlotsIncreasing | include/logc.h:174 | the firing slots are visited in strictly increasing index order |
| Dispatcher.FiringSlotsComplete | include/logc.h:174-177 | every scanned slot whose threshold is met is among the firing ones |
| Dispatcher.WalkIsDispatch | include/logc.h:165-184 | lock, the console step, the slot loop up to the first null function, then unlock, make exactly the calls of `Dispatch` |
| Dispatcher.WalkEmits | include/logc.h:174-182 | after n turns the loop has made the calls of the firing sinks so far, with the clock read just before the first one |
| Dispatcher.ConsoleFiresIff | include/logc.h:167-172 | the console sink is invoked exactly when `!L.quiet && level >= L.level` |
| Dispatcher.SlotFiresIff | include/logc.h:174-182 | slot i is invoked exactly when every slot up to it is occupied and `level >= cb->level`; quiet and `L.level` do not matter |
| Dispatcher.ContiguousSlotFiresIff | include/logc.h:174-182 | when the occupied slots form a prefix, as `log_add_callback` keeps them, slot i is invoked exactly when its function is non-null and `level >= cb->level` |
| Dispatcher.InvocationOrder | include/logc.h:167-182 | each sink is invoked at most once: the console first, then slots in increasing index order |
| Dispatcher.InvocationPayload | include/logc.h:156-182 | every sink receives the caller's fmt, args, file, line and level unchanged, bound to its own handle and function: stderr and `stdout_callback` for the console, the slot's `udata` and `fn` otherwise |
| Dispatcher.SharedTimestamp | include/logc.h:148-182 | the clock is read once when some sink fires and never otherwise, before every invocation; that reading is `now`, and every sink sees it |
| Dispatcher.LockBracket | include/logc.h:165-184 | through `lock()` and `unlock()`: with a hook installed, the first call is `lock(true, udata)`, the last is `lock(false, udata)` and no other lock call occurs; with none installed, no lock call occurs |
| Dispatcher.RegisteredCallsOfDispatch | include/logc.h:174-182 | the registered sinks' share of a dispatch is one invocation per firing slot, in slot order |
| Dispatcher.RegisteredCallsIgnoreConsoleSettings | include/logc.h:167-182 | `log_set_quiet` and `log_set_level` do not change what registered sinks receive |

## Left out

- The renderers `stdout_callback` and `file_callback` (include/logc.h:85-109) are left
  out: `strftime`, `fprintf`, `vfprintf` and `fflush` are I/O into C's standard library.
  A sink invocation is recorded as a `Call`, and what the sink writes is not modelled.
- ANSI colours under `LOGC_USE_COLOR` (include/logc.h:80-83, 88-91) are left out for the
  same reason.
- `va_list`, `va_start` and `va_end` are left out. The variadic arguments are an
  uninterpreted `seq<Arg>` carried in the event.
- `time(NULL)` and `localtime` are not called. Their reading is the parameter `now`. The
  model does not capture `localtime`'s shared static buffer.
- `logc_version` does not model `malloc` or `memcpy`. The heap copy, and a failed
  `malloc`, are left out.
- Real mutual exclusion and concurrency are left out. The lock hook is recorded as a call
  at the points `log_log` makes it, and no interleaving of threads is modelled.
- The logging macros `log_trace` … `log_fatal` (include/logc.h:39-44) are left out. They
  only pass `__FILE__` and `__LINE__` to `log_log`, and those are its parameters here.
- Out-of-range `log_level` values are left out, because `Level` has exactly the six
  enumerators. `level_strings[level]` with another value is undefined behaviour in C.
- src/logc.h, which declares the same interface again, is not part of this model.
- Mutation of `L` by a callback or lock hook during `log_log` is left out, because
  external code is opaque. The model assumes the state is stable for the whole dispatch.
- Dispatcher.InvocationPayload, Dispatcher.SharedTimestamp: assume that no sink writes to
  the event and that the clock never fails. In C every sink receives the same stack
  `log_event` through a non-const pointer (include/logc.h:36, 170, 179), so a sink that
  changes `fmt`, `line` or `level` changes what later sinks receive, and one that sets
  `time` to NULL makes the next `init_event` read the clock again. Likewise, if
  `localtime` returns NULL, the time stays NULL and each later firing sink reads the
  clock again. The model gives each sink the caller's event with only the time and handle
  that `init_event` sets, and treats a clock reading as always succeeding, because sink code and `localtime` are opaque here.
- Logc.Logger.LogLog: requires only that the table has 32 slots. It does not require the
  occupied slots to form a prefix, which the C code does not need either: the loop stops
  at the first null function whatever follows.

## Findings

| source | as written | input that shows it | evidently intended | confidence | as-written member | corrected member |
|---|---|---|---|---|---|---|
| include/logc.h:188-189 | `sprintf` formats `"%d.%d.%d"` into a 20-byte stack buffer. Three C `int`s can need up to 35 characters plus the NUL, and `sprintf` then writes past the buffer. | `logc_version(1000000000, 1000000000, 1000000000)`: 32 characters plus NUL | the full `major.minor.patch` string, whatever the components (e.g. via a buffer of at least 36 bytes or `snprintf` into a sized allocation) | not executed | Version.LogcVersionAsWritten, Version.VersionBufferOverrun | Version.VersionString, Version.VersionRoundTrip |
