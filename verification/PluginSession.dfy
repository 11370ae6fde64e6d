/** The request protocol between host and plug-in (src/cwhost/session.py). The plug-in is any
    finite list of callbacks followed by a return or a fault. */
module PluginSession {
  import opened Bytes
  import opened HeapModel
  import opened FirstFitHeap
  import opened HandleModel
  import opened HandleRuns
  import opened MemoryHandles
  import opened SessionModel
  import opened Wrappers
  import G = Guest

  const REQ_INITIALIZE := -2
  const REQ_TERMINATE := -1

  datatype Phase = Fresh | Loaded | Initialized | Terminated

  datatype Callback =
    | Done(result: int)                          // CWDonePluginRequest
    | GetPreferences(data: seq<Byte>)            // CWGetNamedPreferences: a request-scoped handle
    | AllocKept(data: seq<Byte>)                 // a handle that outlives the request
    | FreeMemHandle(handle: int)                 // CWFreeMemHandle
    | Memory(call: Call)                         // a Memory Manager call or a store by the program

  /** One entry into the guest. */
  datatype Behaviour = Behaviour(callbacks: seq<Callback>, result: int, faults: bool)

  datatype Answer = Returned(value: int) | NotLoaded | AfterTermination | Faulted | NoDone

  /** The results passed to CWDonePluginRequest, in order. */
  function DoneResults(callbacks: seq<Callback>): seq<int> {
    if callbacks == [] then []
    else
      var last, init := callbacks[|callbacks| - 1], callbacks[..|callbacks| - 1];
      DoneResults(init) + if last.Done? then [last.result] else []
  }

  // ----- what the end of a request frees

  /** b is the record or the block of a request-scoped handle that is not in `left`. */
  ghost predicate ScopedOwns(cw: map<int, CwHandle>, left: map<int, CwHandle>, b: int) {
    exists h :: h in cw && h !in left && cw[h].scoped && (h == b || cw[h].block == b)
  }

  /** From s to s', the request-scoped handles outside `left` are freed, and nothing else. */
  ghost predicate Released(s: Session, left: map<int, CwHandle>, s': Session) {
    s'.core.table == s.core.table && s'.core.mem == s.core.mem &&
    (forall h :: h in s'.cw ==> h in s.cw && s'.cw[h] == s.cw[h]) &&
    (forall h :: h in s.cw ==> (h in s'.cw <==> h in left || !s.cw[h].scoped)) &&
    (forall b :: b in s'.core.heap.live ==> b in s.core.heap.live && s'.core.heap.live[b] == s.core.heap.live[b]) &&
    (forall b :: b in s.core.heap.live ==> (b in s'.core.heap.live <==> !ScopedOwns(s.cw, left, b)))
  }

  lemma {:induction false} ReleaseOne(s: Session, left: map<int, CwHandle>, t: Session, h: int, u: Session)
    requires GoodSession(s) && Released(s, left, t)
    requires h in left && h in s.cw && s.cw[h].scoped
    requires forall k :: k in left ==> k in s.cw && left[k] == s.cw[k]
    requires CwFreeStep(t, h, Ok(h), u) && h in t.cw
    requires u.cw == t.cw - {h} && u.core.mem == t.core.mem && u.core.table == t.core.table
    requires u.core.heap.live == t.core.heap.live - {h, t.cw[h].block}
    ensures Released(s, left - {h}, u)
  {
    hide GoodSession, CwFreeStep;
    var rest, block := left - {h}, s.cw[h].block;
    forall b | b in s.core.heap.live ensures b in u.core.heap.live <==> !ScopedOwns(s.cw, rest, b) {
      if ScopedOwns(s.cw, left, b) {
        var k :| k in s.cw && k !in left && s.cw[k].scoped && (k == b || s.cw[k].block == b);
        assert k !in rest;
      }
      if b == h || b == block {
        assert h !in rest;
      }
      if ScopedOwns(s.cw, rest, b) {
        var k :| k in s.cw && k !in rest && s.cw[k].scoped && (k == b || s.cw[k].block == b);
        assert k != h ==> k !in left;
      }
    }
  }

  /** A skipped handle is not scoped, so nothing changes. */
  lemma {:induction false} ReleaseNone(s: Session, left: map<int, CwHandle>, t: Session, h: int)
    requires GoodSession(s) && Released(s, left, t) && h in left && h in s.cw && !s.cw[h].scoped
    ensures Released(s, left - {h}, t)
  {
    forall b | b in s.core.heap.live ensures b in t.core.heap.live <==> !ScopedOwns(s.cw, left - {h}, b) {
      if ScopedOwns(s.cw, left - {h}, b) {
        var k :| k in s.cw && k !in left - {h} && s.cw[k].scoped && (k == b || s.cw[k].block == b);
        assert k !in left;
      }
      if ScopedOwns(s.cw, left, b) {
        var k :| k in s.cw && k !in left && s.cw[k].scoped && (k == b || s.cw[k].block == b);
        assert k !in left - {h};
      }
    }
  }

  lemma {:induction false} ReleaseStart(s: Session)
    ensures Released(s, s.cw, s)
  {
  }

  /** Freeing the request's handles leaves every Memory Manager handle's contents and master word,
      and every kept plug-in handle's bytes, as they were. */
  lemma {:induction false} ReleaseKeepsHandles(s: Session, left: map<int, CwHandle>, s': Session)
    requires GoodSession(s) && GoodSession(s') && Released(s, left, s')
    ensures forall m :: m in s.core.table ==>
              m in s'.core.table && Contents(s'.core, m) == Contents(s.core, m) &&
              (MasterHolds(s'.core, m) <==> MasterHolds(s.core, m))
    ensures forall h :: h in s'.cw ==> CwBytes(s', h) == CwBytes(s, h)
  {
    forall m | m in s.core.table
      ensures m in s'.core.table && Contents(s'.core, m) == Contents(s.core, m)
      ensures MasterHolds(s'.core, m) <==> MasterHolds(s.core, m)
    {
      assert GoodHandle(s.core, m) && GoodHandle(s'.core, m);
      SameBlockBytes(s.core, s'.core, s.core.table[m].block, s.core.table[m].requested);
      SameBlockBytes(s.core, s'.core, m, 4);
    }
    forall h | h in s'.cw ensures CwBytes(s', h) == CwBytes(s, h) {
      assert GoodRecord(s, h) && GoodRecord(s', h);
      SameBlockBytes(s.core, s'.core, s.cw[h].block, s.cw[h].size);
    }
  }

  /** What one callback does to the heap, the memory and the two kinds of handles. */
  ghost predicate CallbackStep(s: Session, cb: Callback, ok: bool, s': Session) {
    match cb
    case Done(_) => s' == s
    case GetPreferences(data) => exists r :: CwAllocStep(s, data, true, r, s') && (ok <==> r.Ok?)
    case AllocKept(data) => exists r :: CwAllocStep(s, data, false, r, s') && (ok <==> r.Ok?)
    case FreeMemHandle(h) => exists r :: CwFreeStep(s, h, r, s') && (ok <==> r.Ok?)
    case Memory(call) =>
      s'.cw == s.cw && exists r :: Step(s.core, call, r, s'.core) && Succeeds(s.core, call, r, ok)
  }

  ghost predicate Succeeds(s: State, call: Call, r: Result, ok: bool) {
    ok <==> if call.ProgramStore? then G.Mapped(s.mem, call.address, |call.data|) else r.Ok?
  }

  /** The sessions before, between and after the callbacks of one entry into the guest. */
  ghost predicate Trace(trace: seq<Session>, callbacks: seq<Callback>) {
    |trace| == |callbacks| + 1 &&
    forall i :: 0 <= i < |callbacks| ==> CallbackStep(trace[i], callbacks[i], true, trace[i + 1])
  }

  /** The callbacks can be run from s, one after the other, without one failing. */
  ghost predicate CanRun(s: Session, callbacks: seq<Callback>) {
    exists trace :: Trace(trace, callbacks) && trace[0] == s
  }

  /** A callback that can succeed cannot fail, and it leads to one session. */
  lemma {:induction false} CallbackDetermined(s: Session, cb: Callback, s1: Session, ok: bool, s2: Session)
    requires CallbackStep(s, cb, true, s1) && CallbackStep(s, cb, ok, s2) && !cb.Done?
    ensures ok && s2 == s1
  {
    hide CwAllocStep, CwFreeStep, Step, G.Mapped;
    match cb
    case GetPreferences(data) =>
      var r1 :| CwAllocStep(s, data, true, r1, s1) && r1.Ok?;
      var r2 :| CwAllocStep(s, data, true, r2, s2) && (ok <==> r2.Ok?);
      CwAllocDetermined(s, data, true, r1, s1, r2, s2);
    case AllocKept(data) =>
      var r1 :| CwAllocStep(s, data, false, r1, s1) && r1.Ok?;
      var r2 :| CwAllocStep(s, data, false, r2, s2) && (ok <==> r2.Ok?);
      CwAllocDetermined(s, data, false, r1, s1, r2, s2);
    case FreeMemHandle(h) =>
      var r1 :| CwFreeStep(s, h, r1, s1) && r1.Ok?;
      var r2 :| CwFreeStep(s, h, r2, s2) && (ok <==> r2.Ok?);
      CwFreeDetermined(s, h, r1, s1, r2, s2);
    case Memory(call) =>
      MemoryDetermined(s, call, s1, ok, s2);
  }

  lemma {:induction false} MemoryDetermined(s: Session, call: Call, s1: Session, ok: bool, s2: Session)
    requires CallbackStep(s, Memory(call), true, s1) && CallbackStep(s, Memory(call), ok, s2)
    ensures ok && s2 == s1
  {
    hide NewStep, DisposeStep, ResizeStep, BitsStep, G.Mapped, G.Store;
    var r1 :| Step(s.core, call, r1, s1.core) && Succeeds(s.core, call, r1, true);
    var r2 :| Step(s.core, call, r2, s2.core) && Succeeds(s.core, call, r2, ok);
    if !call.ProgramStore? {
      StepDetermined(s.core, call, r1, s1.core, r2, s2.core);
    }
  }

  /** Two traces from one session agree as far as both go. */
  lemma {:induction false} TraceDetermined(t: seq<Session>, u: seq<Session>, callbacks: seq<Callback>, n: nat)
    requires Trace(t, callbacks) && n <= |callbacks| && Trace(u, callbacks[..n]) && t[0] == u[0]
    ensures t[n] == u[n]
    decreases n
  {
    hide CallbackStep;
    if n > 0 {
      var before := callbacks[..n - 1];
      assert callbacks[..n][..n - 1] == before;
      assert Trace(u[..n], before) by {
        forall i | 0 <= i < n - 1 ensures CallbackStep(u[..n][i], before[i], true, u[..n][i + 1]) {
          assert CallbackStep(u[i], callbacks[..n][i], true, u[i + 1]);
        }
      }
      TraceDetermined(t, u[..n], callbacks, n - 1);
      assert CallbackStep(t[n - 1], callbacks[n - 1], true, t[n - 1 + 1]);
      assert CallbackStep(u[n - 1], callbacks[..n][n - 1], true, u[n - 1 + 1]);
      OneStep(t[n - 1], callbacks[n - 1], t[n], u[n]);
    }
  }

  lemma {:induction false} OneStep(s: Session, cb: Callback, s1: Session, s2: Session)
    requires CallbackStep(s, cb, true, s1) && CallbackStep(s, cb, true, s2)
    ensures s1 == s2
  {
    if !cb.Done? {
      CallbackDetermined(s, cb, s1, true, s2);
    }
  }

  /** After a prefix has run, a callback other than a completion fails only if the whole cannot run. */
  lemma {:induction false} FailsAfter(u: seq<Session>, callbacks: seq<Callback>, n: nat, after: Session)
    requires n < |callbacks| && Trace(u, callbacks[..n]) && !callbacks[n].Done?
    requires CallbackStep(u[n], callbacks[n], false, after)
    ensures !CanRun(u[0], callbacks)
  {
    hide CallbackStep;
    if CanRun(u[0], callbacks) {
      var t :| Trace(t, callbacks) && t[0] == u[0];
      TraceDetermined(t, u, callbacks, n);
      assert CallbackStep(t[n], callbacks[n], true, t[n + 1]);
      CallbackDetermined(t[n], callbacks[n], t[n + 1], false, after);
    }
  }

  /** Completions only add up. */
  lemma {:induction false} DoneGrows(callbacks: seq<Callback>, n: nat)
    requires n <= |callbacks|
    ensures |DoneResults(callbacks[..n])| <= |DoneResults(callbacks)|
    ensures n < |callbacks| && callbacks[n].Done? ==> |DoneResults(callbacks[..n])| < |DoneResults(callbacks)|
    decreases |callbacks| - n
  {
    if n == |callbacks| {
      assert callbacks[..n] == callbacks;
    } else {
      assert callbacks[..n + 1][..n] == callbacks[..n];
      DoneGrows(callbacks, n + 1);
    }
  }

  // ----- over the callbacks of a request

  lemma {:induction false} CallbackKeeps(s: Session, cb: Callback, ok: bool, s': Session)
    requires GoodSession(s) && CallbackStep(s, cb, ok, s')
    ensures GoodSession(s')
    ensures !cb.Memory? ==> s'.core.table == s.core.table
  {
    hide CwAllocStep, CwFreeStep, Step;
    match cb
    case Done(_) =>
    case GetPreferences(data) =>
      var r :| CwAllocStep(s, data, true, r, s') && (ok <==> r.Ok?);
      CwAllocGood(s, data, true, r, s');
    case AllocKept(data) =>
      var r :| CwAllocStep(s, data, false, r, s') && (ok <==> r.Ok?);
      CwAllocGood(s, data, false, r, s');
    case FreeMemHandle(h) =>
      var r :| CwFreeStep(s, h, r, s') && (ok <==> r.Ok?);
      CwFreeGood(s, h, r, s');
    case Memory(call) =>
      var r :| Step(s.core, call, r, s'.core) && Succeeds(s.core, call, r, ok);
      assert s' == s.(core := s'.core);
      if call.ProgramStore? {
        ProgramStoreKeeps(s, call, r, s'.core);
      } else {
        MemoryCallKeeps(s, call, r, s'.core);
      }
  }

  lemma {:induction false} CwAllocGood(s: Session, data: seq<Byte>, scoped: bool, r: Result, s': Session)
    requires GoodSession(s) && CwAllocStep(s, data, scoped, r, s')
    ensures GoodSession(s') && s'.core.table == s.core.table
  {
    hide GoodSession;
    if r.Ok? {
      CwAllocKeeps(s, data, scoped, r.address, s');
    } else {
      CwAllocFails(s, data, scoped, r, s');
    }
  }

  lemma {:induction false} CwFreeGood(s: Session, h: int, r: Result, s': Session)
    requires GoodSession(s) && CwFreeStep(s, h, r, s')
    ensures GoodSession(s') && s'.core.table == s.core.table
  {
    hide GoodSession;
    if r.Ok? {
      CwFreeKeeps(s, h, s');
    }
  }

  lemma {:induction false} TraceKeeps(trace: seq<Session>, callbacks: seq<Callback>, n: nat)
    requires Trace(trace, callbacks) && GoodSession(trace[0]) && n <= |callbacks|
    ensures GoodSession(trace[n])
    decreases n
  {
    hide CallbackStep, GoodSession;
    if n > 0 {
      TraceKeeps(trace, callbacks, n - 1);
      assert CallbackStep(trace[n - 1], callbacks[n - 1], true, trace[n - 1 + 1]);
      CallbackKeeps(trace[n - 1], callbacks[n - 1], true, trace[n]);
    }
  }

  /** The block of a locked handle does not move while a plug-in runs, whatever it does with its own
      memory handles on the same heap, unless it unlocks, sets the state of, or disposes that handle. */
  lemma {:induction false} LockedStaysInRequest(trace: seq<Session>, callbacks: seq<Callback>, m: int, n: nat)
    requires Trace(trace, callbacks) && GoodSession(trace[0]) && n <= |callbacks|
    requires m in trace[0].core.table && Locked(trace[0].core.table[m])
    requires forall i :: 0 <= i < n ==> callbacks[i].Memory? ==> !Releases(callbacks[i].call, m)
    ensures m in trace[n].core.table && Locked(trace[n].core.table[m])
    ensures trace[n].core.table[m].block == trace[0].core.table[m].block
    decreases n
  {
    hide CallbackStep, Locked;
    if n > 0 {
      LockedStaysInRequest(trace, callbacks, m, n - 1);
      TraceKeeps(trace, callbacks, n - 1);
      assert CallbackStep(trace[n - 1], callbacks[n - 1], true, trace[n - 1 + 1]);
      LockedCallback(trace[n - 1], callbacks[n - 1], trace[n], m);
    }
  }

  lemma {:induction false} LockedCallback(s: Session, cb: Callback, s': Session, m: int)
    requires GoodSession(s) && CallbackStep(s, cb, true, s') && (cb.Memory? ==> !Releases(cb.call, m))
    requires m in s.core.table && Locked(s.core.table[m])
    ensures m in s'.core.table && Locked(s'.core.table[m])
    ensures s'.core.table[m].block == s.core.table[m].block
  {
    hide Step, CwAllocStep, CwFreeStep;
    if cb.Memory? {
      var r :| Step(s.core, cb.call, r, s'.core) && Succeeds(s.core, cb.call, r, true);
      LockedStep(s.core, cb.call, r, s'.core, m);
    } else {
      CallbackKeeps(s, cb, true, s');
    }
  }

  // ----- which plug-in handles outlive a request

  /** A callback that gives out a plug-in handle: preferences for this request only, others to keep; it holds the
      data. */
  lemma {:induction false} HandleGiven(s: Session, cb: Callback, s': Session) returns (h: int)
    requires GoodSession(s) && CallbackStep(s, cb, true, s') && (cb.GetPreferences? || cb.AllocKept?)
    ensures h !in s.cw && h in s'.cw && s'.cw == s.cw[h := s'.cw[h]] && (s'.cw[h].scoped <==> cb.GetPreferences?)
    ensures GoodSession(s') && CwBytes(s', h) == cb.data
  {
    var r :| CwAllocStep(s, cb.data, cb.GetPreferences?, r, s') && r.Ok?;
    h := r.address;
    CwAllocKeeps(s, cb.data, cb.GetPreferences?, h, s');
    RecordsAreLive(s);
  }

  lemma {:induction false} RecordsAreLive(s: Session)
    requires GoodSession(s)
    ensures forall h :: h in s.cw ==> h in s.core.heap.live
  {
    forall h | h in s.cw ensures h in s.core.heap.live { assert GoodRecord(s, h); }
  }

  /** Only freeing a plug-in handle takes it away, and nothing changes its entry. */
  lemma {:induction false} EntryStays(s: Session, cb: Callback, s': Session, h: int)
    requires GoodSession(s) && CallbackStep(s, cb, true, s') && h in s.cw && cb != FreeMemHandle(h)
    ensures h in s'.cw && s'.cw[h] == s.cw[h]
  {
    if cb.GetPreferences? || cb.AllocKept? {
      var given := HandleGiven(s, cb, s');
    }
  }

  lemma {:induction false} EntryStaysOn(trace: seq<Session>, callbacks: seq<Callback>, i: nat, n: nat, h: int)
    requires Trace(trace, callbacks) && GoodSession(trace[0]) && i <= n <= |callbacks| && h in trace[i].cw
    requires forall j :: i <= j < n ==> callbacks[j] != FreeMemHandle(h)
    ensures h in trace[n].cw && trace[n].cw[h] == trace[i].cw[h]
    decreases n
  {
    hide CallbackStep, GoodSession;
    if n > i {
      EntryStaysOn(trace, callbacks, i, n - 1, h);
      TraceKeeps(trace, callbacks, n - 1);
      assert CallbackStep(trace[n - 1], callbacks[n - 1], true, trace[n - 1 + 1]);
      EntryStays(trace[n - 1], callbacks[n - 1], trace[n], h);
    }
  }

  /** Of the handles given out during a request and not freed by the plug-in, those for preferences are gone when it
      has returned, and the others are still there. */
  lemma {:induction false} GivenInRequest(trace: seq<Session>, callbacks: seq<Callback>, i: nat, h: int, s': Session)
    requires Trace(trace, callbacks) && GoodSession(trace[0]) && i < |callbacks|
    requires callbacks[i].GetPreferences? || callbacks[i].AllocKept?
    requires h !in trace[i].cw && h in trace[i + 1].cw
    requires forall j :: i < j < |callbacks| ==> callbacks[j] != FreeMemHandle(h)
    requires Released(trace[|callbacks|], map[], s')
    ensures h in s'.cw <==> callbacks[i].AllocKept?
  {
    hide CallbackStep, GoodSession;
    TraceKeeps(trace, callbacks, i);
    assert CallbackStep(trace[i], callbacks[i], true, trace[i + 1]);
    var given := HandleGiven(trace[i], callbacks[i], trace[i + 1]);
    EntryStaysOn(trace, callbacks, i + 1, |callbacks|, h);
  }

  // ----- the session

  class PluginSession {
    const handles: Handles
    const loaded: bool
    const hasTermRoutine: bool
    var cw: map<int, CwHandle>
    var phase: Phase
    var current: Option<int>
    var done: Option<int>
    var doneCount: nat
    var closed: bool
    ghost var entered: nat  // how often the guest has been entered

    ghost function Model(): Session
      reads this, handles, handles.heap, handles.heap.guest
    {
      Session(handles.Model(), cw)
    }

    ghost predicate Valid()
      reads this, handles, handles.heap, handles.heap.guest
    {
      GoodSession(Model()) && doneCount <= 1 && (doneCount == 1 <==> done.Some?)
    }

    constructor (handles: Handles, loaded: bool, hasTermRoutine: bool)
      requires handles.Valid()
      ensures Valid() && this.handles == handles && this.loaded == loaded && this.hasTermRoutine == hasTermRoutine
      ensures cw == map[] && phase == (if loaded then Loaded else Fresh) && !closed && entered == 0
    {
      this.handles, this.loaded, this.hasTermRoutine := handles, loaded, hasTermRoutine;
      cw, phase := map[], if loaded then Loaded else Fresh;
      current, done, doneCount, closed, entered := None, None, 0, false, 0;
    }

    method DoneRequest(result: int) returns (ok: bool)
      requires Valid()
      modifies this`done, this`doneCount
      ensures Valid() && Model() == old(Model())
      ensures ok <==> old(doneCount) == 0
      ensures ok ==> doneCount == 1 && done == Some(result)
      ensures !ok ==> doneCount == old(doneCount) && done == old(done)
    {
      if doneCount != 0 {
        return false;
      }
      done, doneCount := Some(result), 1;
      return true;
    }

    method AllocCwHandle(data: seq<Byte>, scoped: bool) returns (r: Result)
      requires Valid()
      modifies this`cw, handles.heap`free, handles.heap`live, handles.heap.guest
      ensures Valid() && CwAllocStep(old(Model()), data, scoped, r, Model())
    {
      hide LowestFit, NoFit, Tiled;
      ghost var s := Model();
      var heap := handles.heap;
      var h := heap.Alloc(8, 4);
      if !h.Ok? {
        CwAllocFails(s, data, scoped, h, Model());
        return h;
      }
      ghost var mid := heap.Model();
      var block := heap.Alloc(|data|, 4);
      if !block.Ok? {
        assert AllocStep(s.core.heap, 8, 4, Ok(h.address), mid) && AllocStep(mid, |data|, 4, Exhausted, heap.Model());
        CwAllocFails(s, data, scoped, Exhausted, Model());
        return block;
      }
      ghost var after := heap.Model();
      assert AllocStep(s.core.heap, 8, 4, Ok(h.address), mid) && AllocStep(mid, |data|, 4, Ok(block.address), after);
      WriteHandle(h.address, block.address, data);
      cw := cw[h.address := CwHandle(block.address, |data|, scoped)];
      CwAllocKeeps(s, data, scoped, h.address, Model());
      return h;
    }

    /** The data, then the two words of the record. */
    method WriteHandle(h: int, block: int, data: seq<Byte>)
      requires handles.heap.Valid() && h in handles.heap.live && handles.heap.live[h] == 8
      requires block in handles.heap.live && |data| <= handles.heap.live[block]
      modifies handles.heap.guest
      ensures handles.heap.Valid()
      ensures handles.heap.guest.mem ==
              var mem := old(handles.heap.guest.mem);
              G.Store(if data == [] then mem else G.Store(mem, block, data), h, ToBe(block, 4) + ToBe(|data|, 4))
    {
      BlockInside(handles.heap.Model(), block);
      if data != [] {
        StoreAt(block, data);
      }
      BlockInside(handles.heap.Model(), h);
      assert |data| < TWO32 by {
        if h != block {
          LiveApart(handles.heap.Model(), h, block);
        }
      }
      assert |data| % TWO32 == |data| && block % TWO32 == block;
      WriteRecord(h, ToBe(block % TWO32, 4), ToBe(|data| % TWO32, 4));
    }

    method WriteRecord(h: int, first: seq<Byte>, second: seq<Byte>)
      requires handles.heap.Valid() && h in handles.heap.live && handles.heap.live[h] == 8
      requires |first| == |second| == 4
      modifies handles.heap.guest
      ensures handles.heap.Valid()
      ensures handles.heap.guest.mem == G.Store(old(handles.heap.guest.mem), h, first + second)
    {
      hide G.Store;
      BlockInside(handles.heap.Model(), h);
      ghost var mem := handles.heap.guest.mem;
      StoreAt(h, first);
      StoreAt(h + 4, second);
      StoreTwice(mem, h, first, second);
    }

    method StoreAt(a: int, data: seq<Byte>)
      requires 0 <= a < TWO32 && G.Mapped(handles.heap.guest.mem, a, |data|)
      modifies handles.heap.guest
      ensures handles.heap.guest.mem == G.Store(old(handles.heap.guest.mem), a, data)
    {
      assert a % TWO32 == a;
      var ok := handles.heap.guest.Write(a, data);
    }

    method FreeCwHandle(h: int) returns (r: Result)
      requires Valid()
      modifies this`cw, handles.heap`free, handles.heap`live
      ensures Valid() && CwFreeStep(old(Model()), h, r, Model())
      ensures r.Ok? ==> Model().core.heap.live == old(Model()).core.heap.live - {h, old(cw)[h].block}
    {
      hide Tiled;
      ghost var s := Model();
      if h !in cw {
        return Invalid;
      }
      assert GoodRecord(s, h);
      var item := cw[h];
      cw := cw - {h};
      var f := handles.heap.Free(item.block);
      ghost var mid := handles.heap.Model();
      var g := handles.heap.Free(h);
      assert FreeStep(s.core.heap, item.block, Ok(item.block), mid) && FreeStep(mid, h, Ok(h), handles.heap.Model());
      CwFreeKeeps(s, h, Model());
      return Ok(h);
    }

    method FreeRequestHandles()
      requires Valid()
      modifies this`cw, handles.heap`free, handles.heap`live
      ensures Valid() && Released(old(Model()), map[], Model())
    {
      ghost var s := Model();
      var items := cw;
      ReleaseStart(s);
      while |items| > 0
        invariant Valid() && Released(s, items, Model())
        invariant forall k :: k in items ==> k in s.cw && items[k] == s.cw[k]
        decreases |items|
      {
        hide Released, GoodSession, CwFreeStep;
        var h := SomeKey(items);
        ghost var t := Model();
        if items[h].scoped {
          assert h in t.cw by { StillThere(s, items, t, h); }
          var r := FreeCwHandle(h);
          FreeSucceeds(t, h, r, Model());
          ReleaseOne(s, items, t, h, Model());
        } else {
          ReleaseNone(s, items, t, h);
        }
        items := items - {h};
      }
      NoneLeft(items);
    }

    method RunCallback(cb: Callback) returns (ok: bool)
      requires Valid()
      modifies this`cw, this`done, this`doneCount, handles, handles.heap, handles.heap.guest
      ensures Valid()
      ensures !cb.Done? ==> doneCount == old(doneCount) && done == old(done)
      ensures cb.Done? ==> (ok <==> old(doneCount) == 0)
      ensures cb.Done? && ok ==> doneCount == 1 && done == Some(cb.result)
      ensures CallbackStep(old(Model()), cb, ok, Model())
    {
      hide CwAllocStep, CwFreeStep, Step, GoodSession;
      match cb
      case Done(result) =>
        ok := DoneRequest(result);
      case GetPreferences(data) =>
        var r := AllocCwHandle(data, true);
        ok := r.Ok?;
        assert CwAllocStep(old(Model()), data, true, r, Model());
      case AllocKept(data) =>
        var r := AllocCwHandle(data, false);
        ok := r.Ok?;
        assert CwAllocStep(old(Model()), data, false, r, Model());
      case FreeMemHandle(h) =>
        var r := FreeCwHandle(h);
        ok := r.Ok?;
        assert CwFreeStep(old(Model()), h, r, Model());
      case Memory(call) =>
        ok := RunMemoryCall(call);
    }

    method RunMemoryCall(call: Call) returns (ok: bool)
      requires Valid()
      modifies handles, handles.heap, handles.heap.guest
      ensures Valid() && cw == old(cw)
      ensures exists r :: Step(old(Model()).core, call, r, Model().core) && Succeeds(old(Model()).core, call, r, ok)
    {
      hide NewStep, DisposeStep, ResizeStep, BitsStep, GoodState;
      ghost var s := Model();
      var r: Result;
      match call {
        case New(size, clear) => r := handles.New(size, clear);
        case Dispose(m) => r := handles.Dispose(m);
        case Resize(m, size) => r := handles.Resize(m, size);
        case Lock(m) => r := handles.Lock(m);
        case Unlock(m) => r := handles.Unlock(m);
        case SetState(m, bits) => r := handles.SetState(m, bits);
        case ProgramStore(address, data) =>
          ok := ProgramWrite(address, data);
          r := Ok(0);
          ProgramStoreKeeps(s, call, r, Model().core);
          assert Step(s.core, call, r, Model().core) && Succeeds(s.core, call, r, ok);
          return;
      }
      ok := r.Ok?;
      MemoryCallKeeps(s, call, r, Model().core);
      assert Step(s.core, call, r, Model().core) && Succeeds(s.core, call, r, ok);
    }

    /** A store by the emulated program: all of it or, where memory is not mapped, none. */
    method ProgramWrite(address: int, data: seq<Byte>) returns (ok: bool)
      modifies handles.heap.guest
      ensures handles.Model() == var s := old(handles.Model());
                if G.Mapped(s.mem, address, |data|) then s.(mem := G.Store(s.mem, address, data)) else s
      ensures ok <==> G.Mapped(old(handles.Model()).mem, address, |data|)
    {
      var mem := handles.heap.guest.mem;
      ok := forall x :: address <= x < address + |data| ==> x in mem;
      if ok {
        ghost var m := G.Store(mem, address, data);
        handles.heap.guest.mem :=
          map x | x in mem :: if address <= x < address + |data| then data[x - address] else mem[x];
        assert handles.heap.guest.mem == m;
      }
    }

    /** Enter the guest: callbacks in order until one fails, then the return or the fault. */
    method CallGuest(run: Behaviour) returns (ok: bool, ghost trace: seq<Session>)
      requires Valid()
      modifies this`cw, this`done, this`doneCount, this`entered, handles, handles.heap, handles.heap.guest
      ensures Valid() && entered == old(entered) + 1
      ensures ok ==> !run.faults && doneCount == old(doneCount) + |DoneResults(run.callbacks)|
      ensures ok && |DoneResults(run.callbacks)| == 1 ==> done == Some(DoneResults(run.callbacks)[0])
      ensures ok ==> Trace(trace, run.callbacks) && trace[0] == old(Model()) && trace[|run.callbacks|] == Model()
      ensures !ok ==> run.faults || !CanRun(old(Model()), run.callbacks) ||
                      old(doneCount) + |DoneResults(run.callbacks)| > 1
    {
      hide CallbackStep, GoodSession, CanRun, DoneResults;
      entered := entered + 1;
      trace := [Model()];
      var i := 0;
      NoneYet(run.callbacks);
      while i < |run.callbacks|
        invariant i <= |run.callbacks| && Valid() && entered == old(entered) + 1
        invariant doneCount == old(doneCount) + |DoneResults(run.callbacks[..i])|
        invariant |DoneResults(run.callbacks[..i])| == 1 ==> done == Some(DoneResults(run.callbacks[..i])[0])
        invariant Trace(trace, run.callbacks[..i]) && trace[0] == old(Model()) && trace[i] == Model()
      {
        OneMoreDone(run.callbacks, i);
        DoneGrows(run.callbacks, i);
        ok := RunCallback(run.callbacks[i]);
        if !ok {
          if !run.callbacks[i].Done? {
            FailsAfter(trace, run.callbacks, i, Model());
          }
          return;
        }
        TraceGrows(trace, run.callbacks, i, Model());
        trace := trace + [Model()];
        i := i + 1;
      }
      assert run.callbacks[..|run.callbacks|] == run.callbacks;
      ok := !run.faults;
    }

    /** `request`. `trace` is the session from the entry into the guest to the moment it came back. */
    method Request(code: int, run: Behaviour) returns (answer: Answer, ghost trace: seq<Session>)
      requires Valid()
      modifies this, handles, handles.heap, handles.heap.guest
      ensures Valid() && closed == old(closed)
      ensures answer == NotLoaded <==> !loaded
      ensures answer == AfterTermination <==> loaded && old(phase) == Terminated
      ensures answer in {NotLoaded, AfterTermination} ==> entered == old(entered) && Model() == old(Model())
      ensures answer !in {NotLoaded, AfterTermination} ==> entered == old(entered) + 1
      ensures answer.Returned? ==>
                DoneResults(run.callbacks) == [answer.value] &&
                Trace(trace, run.callbacks) && trace[0] == old(Model()) && GoodSession(trace[|run.callbacks|]) &&
                Released(trace[|run.callbacks|], map[], Model()) && (forall h :: h in cw ==> !cw[h].scoped)
      ensures answer.Returned? <==>
                loaded && old(phase) != Terminated && !run.faults && |DoneResults(run.callbacks)| == 1 &&
                CanRun(old(Model()), run.callbacks)
      ensures answer == NoDone ==>
                DoneResults(run.callbacks) == [] && Trace(trace, run.callbacks) && trace[0] == old(Model()) &&
                Model() == trace[|run.callbacks|]
      ensures phase == if !answer.Returned? then old(phase)
                       else if code == -2 then Initialized
                       else if code == -1 then Terminated
                       else old(phase)
      ensures answer.Returned? ==> current == None && doneCount == 1 && done == Some(answer.value)
      ensures answer in {Faulted, NoDone} ==> current == Some(code)
    {
      hide Released, GoodSession, DoneResults, CallbackStep;
      ghost var before := Model();
      if !loaded {
        return NotLoaded, [];
      }
      if phase == Terminated {
        return AfterTermination, [];
      }
      current, done, doneCount := Some(code), None, 0;
      var ok;
      ok, trace := CallGuest(run);
      if !ok {
        return Faulted, trace;
      }
      if doneCount != 1 {
        return NoDone, trace;
      }
      answer := Returned(done.value);
      assert |DoneResults(run.callbacks)| == 1 && DoneResults(run.callbacks) == [done.value];
      FreeRequestHandles();
      assert forall h :: h in cw ==> !cw[h].scoped by { NoScoped(trace[|run.callbacks|], Model()); }
      if code == REQ_INITIALIZE {
        phase := Initialized;
      } else if code == REQ_TERMINATE {
        phase := Terminated;
      }
      current := None;
    }

    /** `close`: a pending terminate request, then the fragment's termination routine. `mid` is the session
        between the two. */
    method Close(terminate: Behaviour, routine: Behaviour)
      returns (ok: bool, ghost trace: seq<Session>, ghost mid: Session)
      requires Valid()
      modifies this, handles, handles.heap, handles.heap.guest
      ensures Valid() && closed
      ensures old(closed) ==> ok && entered == old(entered) && phase == old(phase) && Model() == old(Model())
      ensures !old(closed) && old(phase) in {Fresh, Loaded} ==>
                ok && entered == old(entered) && phase == old(phase) && Model() == old(Model())
      ensures !old(closed) && old(phase) == Terminated ==>
                phase == Terminated && entered == (old(entered) + if loaded && hasTermRoutine then 1 else 0) &&
                (ok <==> (loaded && hasTermRoutine ==> RoutineReturns(old(Model()), old(doneCount), routine)))
      ensures !old(closed) && old(phase) == Initialized ==>
                (phase == Terminated <==>
                 loaded && !terminate.faults && |DoneResults(terminate.callbacks)| == 1 &&
                 CanRun(old(Model()), terminate.callbacks))
      ensures !old(closed) && old(phase) == Initialized && phase == Terminated ==>
                Trace(trace, terminate.callbacks) && trace[0] == old(Model()) &&
                Released(trace[|terminate.callbacks|], map[], mid) &&
                entered == (old(entered) + if hasTermRoutine then 2 else 1) &&
                (ok <==> (hasTermRoutine ==> RoutineReturns(mid, 1, routine)))
      ensures !old(closed) && old(phase) == Initialized && phase != Terminated ==>
                !ok && phase == Initialized && entered == old(entered) + if loaded then 1 else 0
    {
      hide Released, GoodSession, DoneResults, CallbackStep, CanRun, Trace;
      trace, mid := [], Model();
      if closed {
        return true, trace, mid;
      }
      closed := true;
      if phase == Initialized {
        var answer;
        answer, trace := Request(REQ_TERMINATE, terminate);
        mid := Model();
        if !answer.Returned? {
          return false, trace, mid;
        }
      }
      if phase in {Initialized, Terminated} && loaded && hasTermRoutine {
        ghost var inside;
        ok, inside := CallGuest(routine);
        if ok { RanThrough(inside, routine.callbacks); }
        return ok && routine.result == 0, trace, mid;
      }
      return true, trace, mid;
    }
  }

  /** The termination routine returns 0, and does not complete a request for the second time. */
  ghost predicate RoutineReturns(s: Session, done: nat, run: Behaviour) {
    !run.faults && run.result == 0 && CanRun(s, run.callbacks) && done + |DoneResults(run.callbacks)| <= 1
  }

  lemma {:induction false} RanThrough(trace: seq<Session>, callbacks: seq<Callback>)
    requires Trace(trace, callbacks)
    ensures CanRun(trace[0], callbacks)
  {
  }

  lemma {:induction false} NoneYet(callbacks: seq<Callback>)
    ensures DoneResults(callbacks[..0]) == []
  {
  }

  lemma {:induction false} OneMoreDone(callbacks: seq<Callback>, i: nat)
    requires i < |callbacks|
    ensures DoneResults(callbacks[..i + 1]) ==
            DoneResults(callbacks[..i]) + if callbacks[i].Done? then [callbacks[i].result] else []
  {
    assert callbacks[..i + 1][..i] == callbacks[..i];
  }

  lemma {:induction false} TraceGrows(trace: seq<Session>, callbacks: seq<Callback>, i: nat, s: Session)
    requires i < |callbacks| && Trace(trace, callbacks[..i]) && CallbackStep(trace[i], callbacks[i], true, s)
    ensures Trace(trace + [s], callbacks[..i + 1])
  {
    hide CallbackStep;
    var longer, prefix := trace + [s], callbacks[..i + 1];
    forall j | 0 <= j < i + 1 ensures CallbackStep(longer[j], prefix[j], true, longer[j + 1]) {
      if j < i {
        assert CallbackStep(trace[j], callbacks[..i][j], true, trace[j + 1]);
      }
    }
  }

  lemma {:induction false} StoreTwice(mem: G.Memory, a: int, x: seq<Byte>, y: seq<Byte>)
    ensures G.Store(G.Store(mem, a, x), a + |x|, y) == G.Store(mem, a, x + y)
  {
  }

  lemma {:induction false} StillThere(s: Session, left: map<int, CwHandle>, t: Session, h: int)
    requires Released(s, left, t) && h in left && h in s.cw
    ensures h in t.cw && t.cw[h] == s.cw[h]
  {
  }

  lemma {:induction false} FreeSucceeds(t: Session, h: int, r: Result, u: Session)
    requires CwFreeStep(t, h, r, u) && h in t.cw
    ensures r.Ok? && CwFreeStep(t, h, Ok(h), u)
    ensures u.cw == t.cw - {h} && u.core.mem == t.core.mem && u.core.table == t.core.table
  {
  }

  lemma {:induction false} NoScoped(s: Session, s': Session)
    requires Released(s, map[], s')
    ensures forall h :: h in s'.cw ==> !s'.cw[h].scoped
  {
  }

  lemma {:induction false} NoneLeft<K, V>(m: map<K, V>)
    requires |m| == 0
    ensures m == map[]
  {
  }
}
