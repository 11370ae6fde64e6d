/** Runs of the handle manager: the map from handle to bytes it implements, and what holds
    over any sequence of calls and program stores. */
module HandleRuns {
  import opened Bytes
  import opened HeapModel
  import opened HandleModel
  import G = Guest

  datatype Call =
    | New(size: int, clear: bool)
    | Dispose(m: int)
    | Resize(m: int, size: int)
    | Lock(m: int)
    | Unlock(m: int)
    | SetState(m: int, bits: int)
    | ProgramStore(address: int, data: seq<Byte>)  // the emulated program writes memory

  function WithLock(bits: int): int {
    if bits / 0x80 % 2 == 1 then bits else bits + 0x80
  }

  function WithoutLock(bits: int): int {
    bits % 0x80
  }

  function Bits(s: State, m: int): int {
    if m in s.table then s.table[m].bits else 0
  }

  ghost predicate Step(s: State, call: Call, r: Result, s': State) {
    match call
    case New(size, clear) => NewStep(s, size, clear, r, s')
    case Dispose(m) => DisposeStep(s, m, r, s')
    case Resize(m, size) => ResizeStep(s, m, size, r, s')
    case Lock(m) => (r.Ok? <==> m in s.table) && BitsStep(s, m, WithLock(Bits(s, m)), r.Ok?, s')
    case Unlock(m) => (r.Ok? <==> m in s.table) && BitsStep(s, m, WithoutLock(Bits(s, m)), r.Ok?, s')
    case SetState(m, bits) =>
      (r.Ok? <==> 0 <= bits <= 0xFF && m in s.table) && BitsStep(s, m, bits, r.Ok?, s')
    case ProgramStore(address, data) =>
      s' == if G.Mapped(s.mem, address, |data|) then s.(mem := G.Store(s.mem, address, data)) else s
  }

  /** The handle a call is about. */
  predicate About(call: Call, r: Result, m: int) {
    match call
    case New(_, _) => r == Ok(m)
    case Dispose(k) => k == m
    case Resize(k, _) => k == m
    case Lock(k) => k == m
    case Unlock(k) => k == m
    case SetState(k, _) => k == m
    case ProgramStore(_, _) => false
  }

  lemma {:induction false} BitsKeep(s: State, m: int, bits: int, ok: bool, s': State)
    requires GoodState(s) && BitsStep(s, m, bits, ok, s') && 0 <= bits < 0x100
    ensures GoodState(s') && Undisturbed(s, s', {})
  {
    forall k | k in s'.table ensures GoodHandle(s', k) {
      assert GoodHandle(s, k);
    }
    assert s' == s.(table := s'.table);
    UndisturbedSame(s, s'.table);
  }

  /** Every call, successful or not, keeps the invariant of heap, memory and table. */
  lemma {:induction false} StepKeeps(s: State, call: Call, r: Result, s': State)
    requires GoodState(s) && Step(s, call, r, s')
    ensures GoodState(s')
  {
    match call
    case New(size, clear) =>
      if r.Ok? {
        NewSizeOk(s, size, clear, r, s');
        NewKeeps(s, size, clear, r.address, s');
      } else {
        NewFails(s, size, clear, r, s');
      }
    case Dispose(m) =>
      if r.Ok? {
        DisposeKeeps(s, m, s');
      }
    case Resize(m, size) =>
      if r.Ok? {
        ResizeKeeps(s, m, size, r.address, s');
      }
    case Lock(m) => LockKeeps(s, call, r, s');
    case Unlock(m) => LockKeeps(s, call, r, s');
    case SetState(m, bits) => LockKeeps(s, call, r, s');
    case ProgramStore(address, data) =>
      forall m | m in s'.table ensures GoodHandle(s', m) {
        assert GoodHandle(s, m);
      }
  }

  lemma {:induction false} NewSizeOk(s: State, size: int, clear: bool, r: Result, s': State)
    requires NewStep(s, size, clear, r, s') && r.Ok?
    ensures size >= 0
  {
    var block := s'.table[r.address].block;
    var mid :| AllocStep(s.heap, size, 16, Ok(block), mid) && AllocStep(mid, 4, 4, Ok(r.address), s'.heap);
  }

  lemma {:induction false} LockKeeps(s: State, call: Call, r: Result, s': State)
    requires GoodState(s) && Step(s, call, r, s') && (call.Lock? || call.Unlock? || call.SetState?)
    ensures GoodState(s') && Undisturbed(s, s', {})
  {
    if r.Ok? {
      assert GoodHandle(s, call.m);
      var bits := s'.table[call.m].bits;
      assert 0 <= bits < 0x100;
      BitsKeep(s, call.m, bits, true, s');
    } else {
      UndisturbedSame(s, s.table);
    }
  }

  // ----- the lock

  /** The lock is the top bit of the state byte. */
  lemma {:induction false} LockedIsTopBit(s: State, m: int)
    requires GoodState(s) && m in s.table
    ensures Locked(s.table[m]) <==> s.table[m].bits >= 0x80
  {
    assert GoodHandle(s, m);
  }

  /** Locking sets that bit, unlocking clears it, and neither touches the other seven. */
  lemma {:induction false} LockBits(s: State, call: Call, r: Result, s': State)
    requires GoodState(s) && Step(s, call, r, s') && (call.Lock? || call.Unlock?)
    ensures r.Ok? <==> call.m in s.table
    ensures r.Ok? ==>
              call.m in s'.table && s'.table[call.m].bits % 0x80 == s.table[call.m].bits % 0x80 &&
              s'.table[call.m].bits / 0x80 == (if call.Lock? then 1 else 0) &&
              s' == s.(table := s.table[call.m := s.table[call.m].(bits := s'.table[call.m].bits)])
    ensures !r.Ok? ==> s' == s
  {
    if r.Ok? {
      assert GoodHandle(s, call.m);
    }
  }

  /** The state byte is set to what is asked for, a byte. */
  lemma {:induction false} StateBits(s: State, m: int, bits: int, r: Result, s': State)
    requires GoodState(s) && Step(s, SetState(m, bits), r, s')
    ensures r.Ok? <==> 0 <= bits < 0x100 && m in s.table
    ensures r.Ok? ==> s' == s.(table := s.table[m := s.table[m].(bits := bits)])
    ensures !r.Ok? ==> s' == s
  {
  }

  /** Right after an unlock a resize is never refused for a lock; it succeeds or the heap is full. */
  lemma {:induction false} UnlockedMoves(s: State, m: int, s1: State, size: int, r: Result, s2: State)
    requires GoodState(s) && Step(s, Unlock(m), Ok(m), s1) && Step(s1, Resize(m, size), r, s2) && size >= 0
    ensures r.Ok? || r.Exhausted?
  {
    LockBits(s, Unlock(m), Ok(m), s1);
  }

  /** Right after a lock a resize leaves the block where it is, or fails: where it would have to move it is refused
      for the lock. */
  lemma {:induction false} LockedDoesNotMove(s: State, m: int, s1: State, size: int, r: Result, s2: State)
    requires GoodState(s) && Step(s, Lock(m), Ok(m), s1) && Step(s1, Resize(m, size), r, s2) && size >= 0
    ensures r == if Amount(size) <= s.heap.live[s.table[m].block] || StaysPut(s.heap, s.table[m].block, Amount(size))
                 then Ok(s.table[m].block) else Unmovable
  {
    assert GoodHandle(s, m);
    LockBits(s, Lock(m), Ok(m), s1);
  }

  /** No call changes another live handle: its entry, contents and master word stay. */
  lemma {:induction false} OthersKept(s: State, call: Call, r: Result, s': State, k: int)
    requires GoodState(s) && GoodState(s') && Step(s, call, r, s') && !call.ProgramStore?
    requires k in s.table && !About(call, r, k)
    ensures k in s'.table && s'.table[k] == s.table[k]
    ensures Contents(s', k) == Contents(s, k) && (MasterHolds(s, k) <==> MasterHolds(s', k))
  {
    hide MasterHolds, Contents;
    match call
    case New(size, clear) =>
      if r.Ok? {
        NewSizeOk(s, size, clear, r, s');
        NewKeeps(s, size, clear, r.address, s');
      } else {
        NewFails(s, size, clear, r, s');
      }
      HandleUndisturbed(s, s', {}, k);
    case Dispose(m) =>
      if r.Ok? {
        DisposeKeeps(s, m, s');
        HandleUndisturbed(s, s', {m, s.table[m].block}, k);
      }
    case Resize(m, size) =>
      if r.Ok? {
        ResizeKeeps(s, m, size, r.address, s');
        HandleUndisturbed(s, s', {m, s.table[m].block}, k);
      }
    case Lock(m) =>
      LockKeeps(s, call, r, s');
      HandleUndisturbed(s, s', {}, k);
    case Unlock(m) =>
      LockKeeps(s, call, r, s');
      HandleUndisturbed(s, s', {}, k);
    case SetState(m, bits) =>
      LockKeeps(s, call, r, s');
      HandleUndisturbed(s, s', {}, k);
  }

  // ----- the map from handle to bytes

  datatype Item = Item(bytes: seq<Byte>, bits: int)

  ghost function View(s: State): map<int, Item>
    requires GoodState(s)
  {
    map m | m in s.table :: Item(Contents(s, m), s.table[m].bits)
  }

  ghost predicate SameBut(v: map<int, Item>, v': map<int, Item>, m: int) {
    forall k :: k != m ==> (k in v <==> k in v') && (k in v ==> v'[k] == v[k])
  }

  function MinLength(b: seq<Byte>, n: nat): nat {
    if n < |b| then n else |b|
  }

  /** What each call means on the map, with no address in sight. */
  ghost predicate MapStep(v: map<int, Item>, call: Call, r: Result, v': map<int, Item>) {
    if !r.Ok? then v' == v
    else
      match call
      case New(size, clear) =>
        r.address !in v && SameBut(v, v', r.address) && r.address in v' && v'[r.address].bits == 0 &&
        |v'[r.address].bytes| == size && (clear ==> v'[r.address].bytes == Zeros(size))
      case Dispose(m) => m in v && SameBut(v, v', m) && m !in v'
      case Resize(m, size) =>
        m in v && m in v' && SameBut(v, v', m) && v'[m].bits == v[m].bits && |v'[m].bytes| == size &&
        var n := MinLength(v[m].bytes, size); v'[m].bytes[..n] == v[m].bytes[..n]
      case Lock(m) => m in v && m in v' && SameBut(v, v', m) && v'[m] == v[m].(bits := WithLock(v[m].bits))
      case Unlock(m) => m in v && m in v' && SameBut(v, v', m) && v'[m] == v[m].(bits := WithoutLock(v[m].bits))
      case SetState(m, bits) => m in v && m in v' && SameBut(v, v', m) && v'[m] == v[m].(bits := bits)
      case ProgramStore(_, _) => true
  }

  lemma {:induction false} SameView(s: State, s': State)
    requires GoodState(s) && GoodState(s') && s.table == s'.table && Undisturbed(s, s', {})
    ensures View(s') == View(s)
  {
    forall k | k in s.table ensures Contents(s', k) == Contents(s, k) {
      HandleUndisturbed(s, s', {}, k);
    }
  }

  lemma {:induction false} FailureKeepsView(s: State, call: Call, r: Result, s': State)
    requires GoodState(s) && GoodState(s') && Step(s, call, r, s') && !call.ProgramStore? && !r.Ok?
    ensures View(s') == View(s)
  {
    if call.New? {
      NewFails(s, call.size, call.clear, r, s');
      SameView(s, s');
    }
  }

  lemma {:induction false} OthersSame(s: State, call: Call, r: Result, s': State, m: int)
    requires GoodState(s) && GoodState(s') && Step(s, call, r, s') && !call.ProgramStore?
    requires r.Ok? && About(call, r, m)
    requires forall k :: k in s'.table && k != m ==> k in s.table
    ensures SameBut(View(s), View(s'), m)
  {
    forall k | k != m && k in s.table
      ensures k in s'.table && View(s')[k] == View(s)[k]
    {
      OthersKept(s, call, r, s', k);
    }
  }

  lemma {:induction false} NewRefines(s: State, call: Call, m: int, s': State)
    requires GoodState(s) && GoodState(s') && call.New? && Step(s, call, Ok(m), s')
    requires SameBut(View(s), View(s'), m)
    ensures MapStep(View(s), call, Ok(m), View(s'))
  {
    NewSizeOk(s, call.size, call.clear, Ok(m), s');
    NewKeeps(s, call.size, call.clear, m, s');
    hide SameBut, Undisturbed, GoodState, Contents;
    assert m in View(s') && View(s')[m] == Item(Contents(s', m), 0);
  }

  lemma {:induction false} ResizeRefines(s: State, call: Call, nb: int, s': State)
    requires GoodState(s) && GoodState(s') && call.Resize? && Step(s, call, Ok(nb), s')
    requires SameBut(View(s), View(s'), call.m)
    ensures MapStep(View(s), call, Ok(nb), View(s'))
  {
    ResizeKeeps(s, call.m, call.size, nb, s');
  }

  lemma {:induction false} BitsRefines(s: State, call: Call, r: Result, s': State)
    requires GoodState(s) && GoodState(s') && Step(s, call, r, s') && r.Ok?
    requires call.Lock? || call.Unlock? || call.SetState?
    requires SameBut(View(s), View(s'), call.m)
    ensures MapStep(View(s), call, r, View(s'))
  {
    LockKeeps(s, call, r, s');
    hide SameBut;
    SameContents(s, s', call.m);
  }

  /** The manager refines the map: every call does to the map exactly what it means. */
  lemma {:induction false} CallsRefineMap(s: State, call: Call, r: Result, s': State)
    requires GoodState(s) && Step(s, call, r, s') && !call.ProgramStore?
    ensures GoodState(s') && MapStep(View(s), call, r, View(s'))
  {
    StepKeeps(s, call, r, s');
    if !r.Ok? {
      FailureKeepsView(s, call, r, s');
    } else {
      hide GoodState, SameBut, NewStep, ResizeStep, BitsStep;
      OthersSame(s, call, r, s', if call.New? then r.address else call.m);
      if call.New? {
        NewRefines(s, call, r.address, s');
      } else if call.Resize? {
        ResizeRefines(s, call, r.address, s');
      } else if !call.Dispose? {
        BitsRefines(s, call, r, s');
      }
    }
  }

  lemma {:induction false} SameContents(s: State, s': State, m: int)
    requires GoodState(s) && GoodState(s') && m in s.table && m in s'.table && Undisturbed(s, s', {})
    requires s'.table[m].block == s.table[m].block && s'.table[m].requested == s.table[m].requested
    ensures Contents(s', m) == Contents(s, m)
  {
    HandleUndisturbed(s, s', {}, m);
  }

  /** A program store inside a handle's bytes changes those bytes and no other handle. */
  lemma {:induction false} ProgramWrites(s: State, m: int, at: nat, data: seq<Byte>, s': State)
    requires GoodState(s) && m in s.table && at + |data| <= s.table[m].requested
    requires Step(s, ProgramStore(s.table[m].block + at, data), Ok(0), s')
    ensures GoodState(s') && Contents(s', m) == Splice(Contents(s, m), at, data)
    ensures forall k :: k in s.table && k != m ==> Contents(s', k) == Contents(s, k)
  {
    StepKeeps(s, ProgramStore(s.table[m].block + at, data), Ok(0), s');
    assert GoodHandle(s, m);
    LiveMapped(s, s.table[m].block);
    var a := s.table[m].block + at;
    assert G.Mapped(s.mem, a, |data|) by {
      G.LoadPart(s.mem, s.table[m].block, s.table[m].requested, at, |data|);
    }
    forall k | k in s.table && k != m ensures Contents(s', k) == Contents(s, k) {
      assert GoodHandle(s, k);
      LiveApart(s.heap, s.table[m].block, s.table[k].block);
      LiveMapped(s, s.table[k].block);
      G.LoadElsewhere(s.mem, a, data, s.table[k].block, s.table[k].requested);
    }
  }

  // ----- each call has one outcome

  lemma {:induction false} NewDetermined(s: State, size: int, clear: bool, r1: Result, s1: State, r2: Result, s2: State)
    requires NewStep(s, size, clear, r1, s1) && NewStep(s, size, clear, r2, s2) && r1.Ok?
    ensures r2 == r1 && s2 == s1
  {
    hide AllocStep;
    NewSizeOk(s, size, clear, r1, s1);
    var b := s1.table[r1.address].block;
    var mid :| AllocStep(s.heap, size, 16, Ok(b), mid) && AllocStep(mid, 4, 4, r1, s1.heap);
    PairDetermined(s.heap, size, 16, 4, 4, b, mid, r1.address, s1.heap, s2.heap);
    if r2.Ok? {
      var c := s2.table[r2.address].block;
      var mid2 :| AllocStep(s.heap, size, 16, Ok(c), mid2) && AllocStep(mid2, 4, 4, r2, s2.heap);
      AllocDetermined(s.heap, size, 16, Ok(b), mid, Ok(c), mid2);
      AllocDetermined(mid, 4, 4, r1, s1.heap, r2, s2.heap);
    }
  }

  lemma {:induction false} DisposeDetermined(s: State, m: int, s1: State, s2: State)
    requires DisposeStep(s, m, Ok(m), s1) && DisposeStep(s, m, Ok(m), s2)
    ensures s1 == s2
  {
    hide FreeStep;
    var block := s.table[m].block;
    var mid1 :| FreeStep(s.heap, block, Ok(block), mid1) && FreeStep(mid1, m, Ok(m), s1.heap);
    var mid2 :| FreeStep(s.heap, block, Ok(block), mid2) && FreeStep(mid2, m, Ok(m), s2.heap);
    FreeDetermined(s.heap, block, Ok(block), mid1, Ok(block), mid2);
    FreeDetermined(mid1, m, Ok(m), s1.heap, Ok(m), s2.heap);
  }

  lemma {:induction false} ResizeDetermined(s: State, m: int, size: int, r1: Result, s1: State, r2: Result, s2: State)
    requires ResizeStep(s, m, size, r1, s1) && ResizeStep(s, m, size, r2, s2) && r1.Ok?
    ensures r2 == r1 && s2 == s1
  {
    hide ReallocStep;
    if !r2.Invalid? {
      ReallocDetermined(s.heap, s.table[m].block, size, !Locked(s.table[m]), r1, s1.heap, r2, s2.heap);
    }
  }

  /** A call that can succeed cannot fail, and it leads to one state. */
  lemma {:induction false} StepDetermined(s: State, call: Call, r1: Result, s1: State, r2: Result, s2: State)
    requires Step(s, call, r1, s1) && Step(s, call, r2, s2) && r1.Ok?
    ensures s2 == s1 && (!call.ProgramStore? ==> r2.Ok?)
  {
    hide NewStep, DisposeStep, ResizeStep, G.Store, G.Mapped;
    match call
    case New(size, clear) => NewDetermined(s, size, clear, r1, s1, r2, s2);
    case Dispose(m) => DisposeSucceeds(s, m, r1, s1, r2, s2);
    case Resize(m, size) => ResizeDetermined(s, m, size, r1, s1, r2, s2);
    case _ =>
  }

  lemma {:induction false} DisposeSucceeds(s: State, m: int, r1: Result, s1: State, r2: Result, s2: State)
    requires DisposeStep(s, m, r1, s1) && DisposeStep(s, m, r2, s2) && r1.Ok?
    ensures s2 == s1 && r2.Ok?
  {
    DisposeDetermined(s, m, s1, s2);
  }

  // ----- whole runs

  /** A run: each state follows from the one before by the call between them. */
  ghost predicate Run(states: seq<State>, calls: seq<Call>, results: seq<Result>) {
    |states| == |calls| + 1 && |results| == |calls| &&
    forall i :: 0 <= i < |calls| ==> Step(states[i], calls[i], results[i], states[i + 1])
  }

  lemma {:induction false} RunKeeps(states: seq<State>, calls: seq<Call>, results: seq<Result>, n: nat)
    requires Run(states, calls, results) && GoodState(states[0]) && n < |states|
    ensures GoodState(states[n])
    decreases n
  {
    if n > 0 {
      RunKeeps(states, calls, results, n - 1);
      assert Step(states[n - 1], calls[n - 1], results[n - 1], states[n - 1 + 1]);
      StepKeeps(states[n - 1], calls[n - 1], results[n - 1], states[n]);
    }
  }

  /** In every state of a run, free bytes and live bytes add up to the heap's size. */
  lemma {:induction false} RunConserves(states: seq<State>, calls: seq<Call>, results: seq<Result>, n: nat)
    requires Run(states, calls, results) && GoodState(states[0]) && n < |states|
    ensures GoodState(states[n])
    ensures FreeBytes(states[n].heap.free) + LiveBytes(states[n].heap.live) == states[n].heap.size ==
            states[0].heap.size
  {
    RunKeeps(states, calls, results, n);
    HeapConserved(states[n].heap);
    SameSize(states, calls, results, n);
  }

  lemma {:induction false} SameSize(states: seq<State>, calls: seq<Call>, results: seq<Result>, n: nat)
    requires Run(states, calls, results) && GoodState(states[0]) && n < |states|
    ensures states[n].heap.size == states[0].heap.size && states[n].heap.base == states[0].heap.base
    decreases n
  {
    if n > 0 {
      SameSize(states, calls, results, n - 1);
      assert Step(states[n - 1], calls[n - 1], results[n - 1], states[n - 1 + 1]);
    }
  }

  /** A call that may change the lock or the life of m. */
  predicate Releases(call: Call, m: int) {
    match call
    case Unlock(k) => k == m
    case SetState(k, _) => k == m
    case Dispose(k) => k == m
    case _ => false
  }

  lemma {:induction false} LockedStep(s: State, call: Call, r: Result, s': State, m: int)
    requires GoodState(s) && Step(s, call, r, s') && !Releases(call, m)
    requires m in s.table && Locked(s.table[m])
    ensures m in s'.table && Locked(s'.table[m]) && s'.table[m].block == s.table[m].block
  {
    if call.New? && r.Ok? {
      NewSizeOk(s, call.size, call.clear, r, s');
      NewKeeps(s, call.size, call.clear, r.address, s');
    } else if call.Resize? && r.Ok? && call.m == m {
      ResizeKeeps(s, m, call.size, r.address, s');
    }
  }

  /** The block of a locked handle does not move in any run that does not unlock, set the state
      of, or dispose that handle. */
  lemma {:induction false} LockedStays(states: seq<State>, calls: seq<Call>, results: seq<Result>, m: int, n: nat)
    requires Run(states, calls, results) && GoodState(states[0]) && n < |states|
    requires m in states[0].table && Locked(states[0].table[m])
    requires forall i :: 0 <= i < n ==> !Releases(calls[i], m)
    ensures m in states[n].table && Locked(states[n].table[m])
    ensures states[n].table[m].block == states[0].table[m].block
    decreases n
  {
    if n > 0 {
      LockedStays(states, calls, results, m, n - 1);
      RunKeeps(states, calls, results, n - 1);
      assert Step(states[n - 1], calls[n - 1], results[n - 1], states[n - 1 + 1]);
      LockedStep(states[n - 1], calls[n - 1], results[n - 1], states[n], m);
    }
  }

  ghost predicate MastersHold(s: State)
    requires GoodState(s)
  {
    forall m :: m in s.table ==> MasterHolds(s, m)
  }

  /** The program writes no master word. */
  ghost predicate SparesMasters(s: State, call: Call) {
    call.ProgramStore? ==>
      forall m :: m in s.table ==> call.address + |call.data| <= m || m + 4 <= call.address
  }

  lemma {:induction false} MastersStep(s: State, call: Call, r: Result, s': State)
    requires GoodState(s) && Step(s, call, r, s') && MastersHold(s) && SparesMasters(s, call)
    ensures GoodState(s') && MastersHold(s')
  {
    StepKeeps(s, call, r, s');
    forall m | m in s'.table ensures MasterHolds(s', m) {
      if call.ProgramStore? {
        assert GoodHandle(s, m);
        LiveMapped(s, m);
        if G.Mapped(s.mem, call.address, |call.data|) {
          G.LoadElsewhere(s.mem, call.address, call.data, m, 4);
        }
      } else if m in s.table && !About(call, r, m) {
        OthersKept(s, call, r, s', m);
      } else if call.New? && r.Ok? {
        NewSizeOk(s, call.size, call.clear, r, s');
        NewKeeps(s, call.size, call.clear, r.address, s');
      } else if call.Resize? && r.Ok? {
        ResizeKeeps(s, m, call.size, r.address, s');
      } else if r.Ok? {
        LockKeeps(s, call, r, s');
        HandleUndisturbed(s, s', {}, m);
      }
    }
  }

  /** In every run that starts with intact master words and whose program stores spare them, each
      live master word holds its block's address throughout. */
  lemma {:induction false} MastersAlwaysHold(states: seq<State>, calls: seq<Call>, results: seq<Result>, n: nat)
    requires Run(states, calls, results) && GoodState(states[0]) && MastersHold(states[0]) && n < |states|
    requires forall i :: 0 <= i < n ==> SparesMasters(states[i], calls[i])
    ensures GoodState(states[n]) && MastersHold(states[n])
    decreases n
  {
    if n > 0 {
      MastersAlwaysHold(states, calls, results, n - 1);
      assert Step(states[n - 1], calls[n - 1], results[n - 1], states[n - 1 + 1]);
      MastersStep(states[n - 1], calls[n - 1], results[n - 1], states[n]);
    }
  }

  /** A block address names at most one handle, and never a master word. */
  lemma {:induction false} BlockNamesOneHandle(s: State, m: int, k: int, pointer: int)
    requires GoodState(s) && m in s.table && s.table[m].block == pointer
    ensures k in s.table && s.table[k].block == pointer ==> k == m
    ensures pointer !in s.table
    ensures pointer in s.heap.live && s.heap.live[pointer] == Amount(s.table[m].requested)
  {
    assert GoodHandle(s, m);
  }
}
