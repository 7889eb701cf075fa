/**
 * The sink registry: the fixed array of `MAX_CALLBACKS` callback slots in
 * the logger state, and what registering a callback does to it.  A slot is
 * free when its function pointer is null.
 */
module Registry {
  import opened Wrappers
  import opened Levels

  /** MAX_CALLBACKS */
  const MaxCallbacks: nat := 32

  /** `log_add_callback`'s return values. */
  const RegisterOk: int := 0
  const RegisterFull: int := -1

  /** An opaque `void *` handed through to a callback or to the lock hook. */
  datatype Handle = NullHandle | Stderr | Pointer(address: nat)

  /** The functions a `log_LogFn` pointer can name. */
  datatype LogFn = StdoutCallback | FileCallback | UserFn(id: nat)

  /** One registry slot, the C `Callback` record; `fn == None` is a null pointer. */
  datatype Callback = Callback(fn: Option<LogFn>, udata: Handle, level: Level)

  /** A slot of the statically zero-initialised logger state. */
  const EmptySlot: Callback := Callback(None, NullHandle, Trace)

  /** The registry of a freshly started process. */
  function EmptyRegistry(): (slots: seq<Callback>)
    ensures |slots| == MaxCallbacks
    ensures forall i :: 0 <= i < |slots| ==> slots[i].fn.None?
  {
    seq(MaxCallbacks, _ => EmptySlot)
  }

  /** Index of the first slot whose function pointer is null; |slots| if none is. */
  function FirstFree(slots: seq<Callback>): (i: nat)
    ensures i <= |slots|
    ensures forall j :: 0 <= j < i ==> slots[j].fn.Some?
    ensures i < |slots| ==> slots[i].fn.None?
  {
    FirstFreeFrom(slots, 0)
  }

  /** The scan for a free slot, from index `from` upwards. */
  function FirstFreeFrom(slots: seq<Callback>, from: nat): (i: nat)
    requires from <= |slots|
    ensures from <= i <= |slots|
    ensures forall j :: from <= j < i ==> slots[j].fn.Some?
    ensures i < |slots| ==> slots[i].fn.None?
    decreases |slots| - from
  {
    if from == |slots| || slots[from].fn.None? then from else FirstFreeFrom(slots, from + 1)
  }

  /** An occupied slot at or before the first free one lies strictly before it. */
  lemma FirstFreeStep(slots: seq<Callback>, i: nat)
    requires i <= FirstFree(slots) && i < |slots| && slots[i].fn.Some?
    ensures i + 1 <= FirstFree(slots)
  {
  }

  /** The occupied slots form a prefix of the array: every slot from the first free one on is free. */
  predicate Contiguous(slots: seq<Callback>) {
    forall j :: FirstFree(slots) <= j < |slots| ==> slots[j].fn.None?
  }

  /** In a contiguous registry, a slot is occupied exactly when it lies before the first free one. */
  lemma ContiguousPrefix(slots: seq<Callback>, i: nat)
    requires Contiguous(slots) && i < |slots|
    ensures slots[i].fn.Some? <==> i < FirstFree(slots)
  {
  }

  /** The first free slot is the one index with only occupied slots before it. */
  lemma FirstFreeUnique(slots: seq<Callback>, k: nat)
    requires k <= |slots|
    requires forall j :: 0 <= j < k ==> slots[j].fn.Some?
    requires k < |slots| ==> slots[k].fn.None?
    ensures FirstFree(slots) == k
  {
    FirstFreeFromUnique(slots, 0, k);
  }

  lemma {:induction false} FirstFreeFromUnique(slots: seq<Callback>, from: nat, k: nat)
    requires from <= k <= |slots|
    requires forall j :: from <= j < k ==> slots[j].fn.Some?
    requires k < |slots| ==> slots[k].fn.None?
    ensures FirstFreeFrom(slots, from) == k
    decreases k - from
  {
    if from < k {
      FirstFreeFromUnique(slots, from + 1, k);
    }
  }

  /** The registry and the status `log_add_callback` leaves and returns. */
  datatype Registration = Registration(slots: seq<Callback>, status: int)

  /** `log_add_callback`: store `cb` in the first free slot, or fail when there is none. */
  function Register(slots: seq<Callback>, cb: Callback): (r: Registration)
    ensures |r.slots| == |slots|
    ensures r.status == RegisterOk || r.status == RegisterFull
  {
    var k := FirstFree(slots);
    if k < |slots| then Registration(slots[k := cb], RegisterOk)
    else Registration(slots, RegisterFull)
  }

  /** Registration succeeds exactly when some slot is free. */
  lemma RegisterSucceedsIff(slots: seq<Callback>, cb: Callback)
    ensures Register(slots, cb).status == RegisterOk <==> exists k :: 0 <= k < |slots| && slots[k].fn.None?
  {
    var k := FirstFree(slots);
    if k == |slots| {
      assert forall j :: 0 <= j < |slots| ==> slots[j].fn.Some?;
    }
  }

  /** A successful registration writes the lowest free slot and no other. */
  lemma RegisterWritesLowestFreeSlot(slots: seq<Callback>, cb: Callback, k: nat)
    requires k < |slots| && slots[k].fn.None?
    requires forall j :: 0 <= j < k ==> slots[j].fn.Some?
    ensures Register(slots, cb) == Registration(slots[k := cb], RegisterOk)
  {
    FirstFreeUnique(slots, k);
  }

  /** With every slot taken, registration fails and leaves the registry as it was. */
  lemma RegisterWhenFull(slots: seq<Callback>, cb: Callback)
    requires forall j :: 0 <= j < |slots| ==> slots[j].fn.Some?
    ensures Register(slots, cb) == Registration(slots, RegisterFull)
  {
    FirstFreeUnique(slots, |slots|);
  }

  /** Registration keeps the occupied slots a prefix, since it fills the first free slot. */
  lemma RegisterKeepsContiguous(slots: seq<Callback>, cb: Callback)
    requires Contiguous(slots)
    ensures Contiguous(Register(slots, cb).slots)
  {
    var k := FirstFree(slots);
    if k < |slots| {
      var r := Register(slots, cb).slots;
      if cb.fn.Some? {
        FirstFreeUnique(r, if k + 1 < |slots| then k + 1 else |slots|);
      } else {
        FirstFreeUnique(r, k);
      }
    }
  }

  /** A series of `log_add_callback` calls: the final registry and each call's status. */
  function RegisterAll(slots: seq<Callback>, cbs: seq<Callback>): (r: (seq<Callback>, seq<int>))
    ensures |r.0| == |slots| && |r.1| == |cbs|
    decreases |cbs|
  {
    if cbs == [] then (slots, [])
    else
      var first := Register(slots, cbs[0]);
      var rest := RegisterAll(first.slots, cbs[1..]);
      (rest.0, [first.status] + rest.1)
  }

  /** Writing slot `n` and then splicing the rest after it is one splice at `n`. */
  lemma SpliceStep(slots: seq<Callback>, n: nat, cbs: seq<Callback>)
    requires 0 < |cbs| && n + |cbs| <= |slots|
    ensures var next := slots[n := cbs[0]];
      next[..n + 1] + cbs[1..] + next[n + |cbs|..] == slots[..n] + cbs + slots[n + |cbs|..]
  {
    var next := slots[n := cbs[0]];
    assert next[..n + 1] == slots[..n] + [cbs[0]];
    assert next[n + |cbs|..] == slots[n + |cbs|..];
    assert [cbs[0]] + cbs[1..] == cbs;
  }

  /** Registering a non-null callback with a slot to spare moves the first free slot up by one. */
  lemma RegisterNext(slots: seq<Callback>, cb: Callback)
    requires Contiguous(slots) && FirstFree(slots) < |slots| && cb.fn.Some?
    ensures var r := Register(slots, cb);
      && r.slots == slots[FirstFree(slots) := cb] && r.status == RegisterOk
      && Contiguous(r.slots) && FirstFree(r.slots) == FirstFree(slots) + 1
  {
    RegisterKeepsContiguous(slots, cb);
    FirstFreeUnique(Register(slots, cb).slots, FirstFree(slots) + 1);
  }

  /**
   * Registering non-null callbacks into a contiguous registry with room for
   * them all: every call succeeds and they occupy consecutive slots in
   * the order of registration, right after the slots already taken.
   */
  lemma {:induction false} RegisterAllInOrder(slots: seq<Callback>, cbs: seq<Callback>)
    requires Contiguous(slots)
    requires FirstFree(slots) + |cbs| <= |slots|
    requires forall i :: 0 <= i < |cbs| ==> cbs[i].fn.Some?
    ensures RegisterAll(slots, cbs).0
      == slots[..FirstFree(slots)] + cbs + slots[FirstFree(slots) + |cbs|..]
    ensures forall i :: 0 <= i < |cbs| ==> RegisterAll(slots, cbs).1[i] == RegisterOk
    decreases |cbs|
  {
    var n := FirstFree(slots);
    if |cbs| == 0 {
      assert slots == slots[..n] + cbs + slots[n..];
    } else {
      var tail := cbs[1..];
      RegisterNext(slots, cbs[0]);
      var next := Register(slots, cbs[0]).slots;
      assert forall i :: 0 <= i < |tail| ==> tail[i].fn.Some?;
      RegisterAllInOrder(next, tail);
      assert n + 1 + |tail| == n + |cbs|;
      RegisterAllCons(slots, cbs, next, n);
    }
  }

  /** The inductive step of `RegisterAllInOrder`, from the registrations after the first. */
  lemma RegisterAllCons(slots: seq<Callback>, cbs: seq<Callback>, next: seq<Callback>, n: nat)
    requires 0 < |cbs| && n + |cbs| <= |slots|
    requires Register(slots, cbs[0]) == Registration(next, RegisterOk)
    requires next == slots[n := cbs[0]]
    requires RegisterAll(next, cbs[1..]).0 == next[..n + 1] + cbs[1..] + next[n + |cbs|..]
    requires forall i :: 0 <= i < |cbs| - 1 ==> RegisterAll(next, cbs[1..]).1[i] == RegisterOk
    ensures RegisterAll(slots, cbs).0 == slots[..n] + cbs + slots[n + |cbs|..]
    ensures forall i :: 0 <= i < |cbs| ==> RegisterAll(slots, cbs).1[i] == RegisterOk
  {
    var tail := cbs[1..];
    var rest := RegisterAll(next, tail);
    assert RegisterAll(slots, cbs) == (rest.0, [RegisterOk] + rest.1);
    SpliceStep(slots, n, cbs);
    forall i | 0 <= i < |cbs|
      ensures RegisterAll(slots, cbs).1[i] == RegisterOk
    {
      if i > 0 {
        assert RegisterAll(slots, cbs).1[i] == rest.1[i - 1];
      }
    }
  }

  /**
   * From a fresh registry: up to MAX_CALLBACKS registrations all succeed, in
   * order; once it holds MAX_CALLBACKS callbacks, the next registration fails
   * and leaves the registry unchanged.
   */
  lemma RegistrationCapacity(cbs: seq<Callback>, extra: Callback)
    requires |cbs| <= MaxCallbacks
    requires forall i :: 0 <= i < |cbs| ==> cbs[i].fn.Some?
    ensures var r := RegisterAll(EmptyRegistry(), cbs);
      && r.0[..|cbs|] == cbs
      && (forall i :: 0 <= i < |cbs| ==> r.1[i] == RegisterOk)
      && (|cbs| == MaxCallbacks ==> Register(r.0, extra) == Registration(r.0, RegisterFull))
  {
    FillFreeRegistry(EmptyRegistry(), cbs, extra);
  }

  /** `RegistrationCapacity` for any registry whose slots are all free. */
  lemma FillFreeRegistry(empty: seq<Callback>, cbs: seq<Callback>, extra: Callback)
    requires forall i :: 0 <= i < |empty| ==> empty[i].fn.None?
    requires |cbs| <= |empty|
    requires forall i :: 0 <= i < |cbs| ==> cbs[i].fn.Some?
    ensures var r := RegisterAll(empty, cbs);
      && r.0[..|cbs|] == cbs
      && (forall i :: 0 <= i < |cbs| ==> r.1[i] == RegisterOk)
      && (|cbs| == |empty| ==> Register(r.0, extra) == Registration(r.0, RegisterFull))
  {
    var r := RegisterAll(empty, cbs);
    assert r.0 == cbs + empty[|cbs|..] && (forall i :: 0 <= i < |cbs| ==> r.1[i] == RegisterOk) by {
      assert FirstFree(empty) == 0 && Contiguous(empty) by {
        FirstFreeUnique(empty, 0);
      }
      RegisterAllInOrder(empty, cbs);
      assert empty[..0] + cbs == cbs;
    }
    assert r.0[..|cbs|] == cbs;
    if |cbs| == |empty| {
      assert r.0 == cbs;
      RegisterWhenFull(r.0, extra);
    }
  }
}
