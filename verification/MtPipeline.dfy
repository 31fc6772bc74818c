/** The three threads of the match finder (LzFindMt.c): HASH fills blocks of hash heads, BT reads
    them and fills blocks of matches, LZ reads those. */
module MtPipeline {
  import opened MtSync
  import opened Sums

  const HASH_BLOCK: nat := 0x2_0000
  const BT_BLOCK: nat := 0x1_0000
  const HASH_BLOCKS: nat := 2
  const BT_BLOCKS: nat := 16

  /** The steps of HASH at a move of the window: it waits for both locks, has both, leaves both. */
  datatype Move = Still | WantBt | WantHash | Moves | Leaves

  /** Both rings, where each thread is, and the positions: those of each hash block and each bt
      block of the run, how far BT is in its hash block and in the block it fills, and how far
      LZ is in its block. */
  datatype State = State(btSync: Sync, lz: Reading, bt: Filling, hashSync: Sync, btReads: Reading, hash: Filling,
                         move: Move, hs: seq<nat>, bs: seq<nat>, hashOff: nat, btOff: nat, lzOff: nat)

  /** A step of one thread. */
  datatype Action = InitMt | LzReads(r: ReadStep) | LzGoes(n: nat) | BtFills(f: FillStep) | BtReads(r: ReadStep)
    | BtGoes(n: nat) | HashFills(f: FillStep, n: nat) | HashMoves

  // ---------- the steps ----------

  /** The read steps of LZ: it keeps the lock as long as it has a block. */
  predicate LzCan(s: State, a: ReadStep) {
    && a != Init && a != Leave && a != Return && CanRead(s.btSync, s.lz, a)
    && (a == Stop ==> s.lz == Inside)
    && (a == Unlock ==> 1 <= s.btSync.numProcessed <= |s.bs| && s.lzOff == s.bs[s.btSync.numProcessed - 1])
  }

  /** The read steps of BT: in BtGetMatches, at its end, and when it stops HASH. */
  predicate BtCanRead(s: State, a: ReadStep) {
    && a != Init && CanRead(s.hashSync, s.btReads, a)
    && (match a
        case Leave => s.bt.AtFilled?
        case Stop => s.bt == AtStopped && s.btReads == Aside
        case SetStop => s.bt == AtStopped
        case FreeStop => s.bt == AtStopped
        case Stopped => s.bt == AtStopped
        case _ => s.bt.AtFill?)
    && (a == Unlock ==> 1 <= s.hashSync.numProcessed <= |s.hs| && s.hashOff == s.hs[s.hashSync.numProcessed - 1])
  }

  predicate BtCanFill(s: State, a: FillStep) {
    && CanFill(s.btSync, s.bt, a)
    && (a == Fill ==> s.btReads == Inside)
    && (a == Release ==> s.btReads == Aside)
    && (a == SetStopped ==> s.btReads == Outside)
  }

  predicate Can(s: State, a: Action) {
    match a
    case InitMt => s.lz == Outside && s.btSync.needStart && s.hashSync.needStart
    case LzReads(r) => LzCan(s, r)
    case LzGoes(n) =>
      && s.lz == Inside && 1 <= s.btSync.numProcessed <= |s.bs|
      && s.lzOff + n <= s.bs[s.btSync.numProcessed - 1]
    case BtFills(f) => BtCanFill(s, f)
    case BtReads(r) => BtCanRead(s, r)
    case BtGoes(n) =>
      && s.bt.AtFill? && s.btReads == Inside && 1 <= s.hashSync.numProcessed <= |s.hs|
      && s.hashOff + n <= s.hs[s.hashSync.numProcessed - 1] && s.btOff + n <= BT_BLOCK
    case HashFills(f, n) =>
      && CanFill(s.hashSync, s.hash, f) && n + 2 <= HASH_BLOCK && (f == TakeFree ==> s.move == Still)
    case HashMoves =>
      && s.hash.AtFree?
      && (s.move == WantBt ==> s.btSync.cs == Nobody)
      && (s.move == WantHash ==> s.hashSync.cs == Nobody)
  }

  /** Enter both critical sections, move the block, leave both in the opposite order. */
  function NextMove(m: Move): Move {
    match m
    case Still => WantBt
    case WantBt => WantHash
    case WantHash => Moves
    case Moves => Leaves
    case Leaves => Still
  }

  function Do(s: State, a: Action): (r: State)
    requires Can(s, a)
  {
    match a
    case InitMt => s.(btSync := Read(s.btSync, Outside, Init).0, hashSync := Read(s.hashSync, Outside, Init).0)
    case LzReads(r) =>
      var t := Read(s.btSync, s.lz, r);
      var s1 := s.(btSync := t.0, lz := t.1);
      if r == Start then s1.(bs := [], btOff := 0, lzOff := 0) else if r == Free then s1.(lzOff := 0) else s1
    case LzGoes(n) => s.(lzOff := s.lzOff + n)
    case BtFills(f) =>
      var t := DoFill(s.btSync, s.bt, f);
      var s1 := s.(btSync := t.0, bt := t.1);
      if f == Fill then s1.(bs := s.bs + [s.btOff], btOff := 0) else s1
    case BtReads(r) =>
      var t := Read(s.hashSync, s.btReads, r);
      var s1 := s.(hashSync := t.0, btReads := t.1);
      if r == Start then s1.(hs := [], hashOff := 0) else if r == Free then s1.(hashOff := 0) else s1
    case BtGoes(n) => s.(hashOff := s.hashOff + n, btOff := s.btOff + n)
    case HashFills(f, n) =>
      var t := DoFill(s.hashSync, s.hash, f);
      var s1 := s.(hashSync := t.0, hash := t.1);
      if f == Fill then s1.(hs := s.hs + [n]) else s1
    case HashMoves =>
      var btCs := if s.move == WantBt then Mover else if s.move == Leaves then Nobody else s.btSync.cs;
      var hashCs := if s.move == WantHash then Mover else if s.move == Moves then Nobody else s.hashSync.cs;
      s.(move := NextMove(s.move), btSync := s.btSync.(cs := btCs), hashSync := s.hashSync.(cs := hashCs))
  }

  // ---------- the invariant: threads and locks ----------

  /** Where BT can be in the hash ring, by where it is in its own. */
  predicate BtInStep(bt: Filling, c: Reading) {
    match bt
    case Asleep => c == Outside
    case AtFree(i) => c == Aside || (c == Outside && i == 0)
    case AtCheck(i) => c == Aside || (c == Outside && i == 0)
    case AtFill(i) => c != StopSetting && !Stopping(c) && (c == Outside || c == Starting ==> i == 0)
    case AtFilled(i) => c == Inside || c == Aside
    case AtStopped => c == Outside || c == Aside || c == StopSetting || Stopping(c)
  }

  /** Who has the locks while the window moves. */
  predicate Locks(s: State) {
    && (s.btSync.cs == Mover <==> s.move == WantHash || s.move == Moves || s.move == Leaves)
    && (s.hashSync.cs == Mover <==> s.move == Moves)
    && (s.move != Still ==> s.hash.AtFree?)
  }

  /** As long as BT may still start HASH, the semaphores are as MtSync_Init left them. */
  predicate Startable(s: State) {
    && (s.lz == Outside && s.btSync.inited ==> s.hashSync.inited)
    && (s.lz != Outside && s.btReads == Outside && Working(s.btSync, s.bt) ==> s.hashSync.inited)
    && (s.lz == Starting ==> s.hashSync.inited)
  }

  predicate Threads(s: State) {
    && Inv(s.btSync, s.lz, s.bt) && Inv(s.hashSync, s.btReads, s.hash)
    && |s.btSync.slots| == BT_BLOCKS && |s.hashSync.slots| == HASH_BLOCKS
    && s.lz != Aside && BtInStep(s.bt, s.btReads) && Locks(s) && Startable(s)
  }

  lemma {:induction false} ThreadsParts(s: State)
    requires Threads(s)
    ensures Inv(s.btSync, s.lz, s.bt) && Inv(s.hashSync, s.btReads, s.hash)
    ensures |s.btSync.slots| == BT_BLOCKS == 16 && |s.hashSync.slots| == HASH_BLOCKS == 2
    ensures s.lz != Aside && BtInStep(s.bt, s.btReads) && Locks(s) && Startable(s)
  {
    hide Inv, BtInStep, Locks, Startable;
  }

  lemma {:induction false} InitMtKeeps(s: State)
    requires Threads(s) && Can(s, InitMt)
    ensures Threads(Do(s, InitMt))
  {
    hide InSlots;
    ReadKeeps(s.btSync, s.lz, s.bt, Init);
    ReadKeeps(s.hashSync, s.btReads, s.hash, Init);
  }

  lemma {:induction false} LzReadFields(s: State, a: ReadStep)
    requires LzCan(s, a) && s.lz != Aside
    ensures CanRead(s.btSync, s.lz, a) && Can(s, LzReads(a)) && Read(s.btSync, s.lz, a).1 != Aside
    ensures (var t, r := Do(s, LzReads(a)), Read(s.btSync, s.lz, a);
      && t.btSync == r.0 && t.lz == r.1 && t.bt == s.bt && t.hashSync == s.hashSync && t.btReads == s.btReads
      && t.hash == s.hash && t.move == s.move)
  {
    hide CanRead;
  }

  lemma {:induction false} LzRests(q: Sync, c: Reading, f: Filling)
    requires Inv(q, c, f)
    ensures c == Outside ==> f == Asleep && !q.canStart
  {
    hide InSlots;
  }

  lemma {:induction false} LzStartable(s: State, a: ReadStep)
    requires Startable(s) && LzCan(s, a) && s.lz != Aside
    requires s.lz == Outside ==> s.bt == Asleep && !s.btSync.canStart
    ensures Startable(Do(s, LzReads(a)))
  {
    match a
    case Start =>
    case Go =>
    case Unlock =>
    case Free =>
    case Take =>
    case Lock =>
    case Stop =>
    case SetStop =>
    case FreeStop =>
    case Stopped =>
  }

  lemma {:induction false} LzThreads(s: State, t: State)
    requires Threads(s) && Inv(t.btSync, t.lz, t.bt) && t.lz != Aside && Startable(t)
    requires t.bt == s.bt && t.hashSync == s.hashSync && t.btReads == s.btReads && t.hash == s.hash && t.move == s.move
    requires (t.btSync.cs == Mover <==> s.btSync.cs == Mover) && |t.btSync.slots| == |s.btSync.slots|
    ensures Threads(t)
  {
    hide Inv, BtInStep, Startable;
  }

  lemma {:induction false} LzKeeps(s: State, a: ReadStep)
    requires Threads(s) && LzCan(s, a)
    ensures Threads(Do(s, LzReads(a)))
  {
    hide *;
    ThreadsParts(s);
    LzReadFields(s, a);
    ReadKeeps(s.btSync, s.lz, s.bt, a);
    HolderIs(s.btSync, s.lz, s.bt);
    ReadHolder(s.btSync, s.lz, a);
    LzRests(s.btSync, s.lz, s.bt);
    LzStartable(s, a);
    LzThreads(s, Do(s, LzReads(a)));
  }

  lemma {:induction false} BtFillKeeps(s: State, a: FillStep)
    requires Threads(s) && BtCanFill(s, a)
    ensures Threads(Do(s, BtFills(a)))
  {
    hide InSlots;
    FillKeeps(s.btSync, s.lz, s.bt, a);
  }

  lemma {:induction false} BtReadFields(s: State, a: ReadStep)
    requires BtCanRead(s, a)
    ensures CanRead(s.hashSync, s.btReads, a) && Can(s, BtReads(a))
    ensures (var t, r := Do(s, BtReads(a)), Read(s.hashSync, s.btReads, a);
      && t.hashSync == r.0 && t.btReads == r.1 && t.bt == s.bt && t.btSync == s.btSync && t.lz == s.lz
      && t.hash == s.hash && t.move == s.move)
  {
    hide CanRead, Read;
  }

  lemma {:induction false} BtReadInStep(s: State, a: ReadStep)
    requires BtCanRead(s, a) && BtInStep(s.bt, s.btReads)
    ensures BtInStep(s.bt, Read(s.hashSync, s.btReads, a).1)
  {
  }

  lemma {:induction false} BtReadLocks(s: State, a: ReadStep)
    requires BtCanRead(s, a) && (s.hashSync.cs == Reader <==> s.btReads == Inside)
    ensures (var q := Read(s.hashSync, s.btReads, a).0;
      && (q.cs == Mover <==> s.hashSync.cs == Mover) && |q.slots| == |s.hashSync.slots|
      && (q.inited == s.hashSync.inited || s.bt == AtStopped))
    ensures Read(s.hashSync, s.btReads, a).1 == Outside ==> s.bt == AtStopped
  {
    ReadHolder(s.hashSync, s.btReads, a);
    hide Read, CanRead;
  }

  lemma {:induction false} BtReadThreads(s: State, t: State)
    requires Threads(s) && Inv(t.hashSync, t.btReads, t.hash) && BtInStep(t.bt, t.btReads)
    requires t.bt == s.bt && t.btSync == s.btSync && t.lz == s.lz && t.hash == s.hash && t.move == s.move
    requires (t.hashSync.cs == Mover <==> s.hashSync.cs == Mover) && |t.hashSync.slots| == |s.hashSync.slots|
    requires t.hashSync.inited == s.hashSync.inited || s.bt == AtStopped
    requires s.btReads == Outside || t.btReads != Outside || s.bt == AtStopped
    ensures Threads(t)
  {
    if s.lz == Outside || s.lz == Starting {
      LzAway(s);
    }
    hide Inv, BtInStep;
  }

  lemma {:induction false} LzAway(s: State)
    requires Threads(s) && (s.lz == Outside || s.lz == Starting)
    ensures s.bt == Asleep
  {
    hide InSlots, Startable, Locks, Runs;
  }

  lemma {:induction false} BtReadKeeps(s: State, a: ReadStep)
    requires Threads(s) && BtCanRead(s, a)
    ensures Threads(Do(s, BtReads(a)))
  {
    hide *;
    ThreadsParts(s);
    BtReadFields(s, a);
    ReadKeeps(s.hashSync, s.btReads, s.hash, a);
    HolderIs(s.hashSync, s.btReads, s.hash);
    BtReadInStep(s, a);
    BtReadLocks(s, a);
    BtReadThreads(s, Do(s, BtReads(a)));
  }

  lemma {:induction false} HashKeeps(s: State, a: FillStep, n: nat)
    requires Threads(s) && Can(s, HashFills(a, n))
    ensures Threads(Do(s, HashFills(a, n)))
  {
    hide InSlots;
    FillKeeps(s.hashSync, s.btReads, s.hash, a);
  }

  lemma {:induction false} MoveDoes(s: State)
    requires Can(s, HashMoves)
    ensures (var t := Do(s, HashMoves);
      && t.btSync == s.btSync.(cs := t.btSync.cs) && t.hashSync == s.hashSync.(cs := t.hashSync.cs)
      && t.lz == s.lz && t.bt == s.bt && t.btReads == s.btReads && t.hash == s.hash && t.hs == s.hs && t.bs == s.bs
      && t.hashOff == s.hashOff && t.btOff == s.btOff && t.lzOff == s.lzOff)
  {
  }

  lemma {:induction false} MoveLocks(s: State)
    requires Can(s, HashMoves) && Locks(s)
    ensures (var t := Do(s, HashMoves);
      && Locks(t) && (t.btSync.cs == Reader <==> s.btSync.cs == Reader)
      && (t.hashSync.cs == Reader <==> s.hashSync.cs == Reader))
  {
  }

  lemma {:induction false} MoveKeeps(s: State)
    requires Threads(s) && Can(s, HashMoves)
    ensures Threads(Do(s, HashMoves))
  {
    hide *;
    var t := Do(s, HashMoves);
    ThreadsParts(s);
    MoveDoes(s);
    MoveLocks(s);
    HolderKeeps(s.btSync, s.lz, s.bt, t.btSync.cs);
    HolderKeeps(s.hashSync, s.btReads, s.hash, t.hashSync.cs);
    MoveThreads(s, t);
  }

  lemma {:induction false} MoveThreads(s: State, t: State)
    requires Threads(s) && Inv(t.btSync, t.lz, t.bt) && Inv(t.hashSync, t.btReads, t.hash) && Locks(t)
    requires t.btSync == s.btSync.(cs := t.btSync.cs) && t.hashSync == s.hashSync.(cs := t.hashSync.cs)
    requires t.lz == s.lz && t.bt == s.bt && t.btReads == s.btReads && t.hash == s.hash
    ensures Threads(t)
  {
    hide Inv, Locks, BtInStep;
  }

  lemma {:induction false} HolderFree(q: Sync, c: Reading, f: Filling, h: Holder)
    ensures Rests(q.(cs := h), f) == Rests(q, f) && Begins(q.(cs := h)) == Begins(q)
    ensures Runs(q.(cs := h), c, f) == Runs(q, c, f)
  {
    hide InSlots;
  }

  lemma {:induction false} HolderKeeps(q: Sync, c: Reading, f: Filling, h: Holder)
    requires Inv(q, c, f) && (h == Reader <==> q.cs == Reader)
    ensures Inv(q.(cs := h), c, f)
  {
    hide Rests, Begins, Runs;
    HolderFree(q, c, f, h);
  }

  /** Every step of every thread keeps it. */
  lemma {:induction false} ThreadsKept(s: State, a: Action)
    requires Threads(s) && Can(s, a)
    ensures Threads(Do(s, a))
  {
    match a
    case InitMt => InitMtKeeps(s);
    case LzReads(r) => LzKeeps(s, r);
    case LzGoes(n) =>
    case BtFills(f) => BtFillKeeps(s, f);
    case BtReads(r) => BtReadKeeps(s, r);
    case BtGoes(n) =>
    case HashFills(f, n) => HashKeeps(s, f, n);
    case HashMoves => MoveKeeps(s);
  }

  // ---------- the invariant: positions ----------

  lemma {:induction false} SumAdd(xs: seq<nat>, n: nat)
    ensures Sum(xs + [n]) == Sum(xs) + n
  {
    SumAppend(xs, [n]);
    assert Sum([n]) == n;
  }

  /** A run of the ring has begun. */
  predicate Begun(c: Reading) { c != Outside && c != Starting }

  /** How far the reader is, and how many blocks are made: off counts in the block it has. */
  predicate Along(q: Sync, c: Reading, f: Filling, xs: seq<nat>, off: nat) {
    && Working(q, f) && |xs| == (if f.AtFilled? then Made(f) + 1 else Made(f))
    && 1 <= q.numProcessed <= |xs| + 1
    && (Has(c) == 0 ==> off == 0)
    && (Has(c) == 1 ==> q.numProcessed <= |xs| && off <= xs[q.numProcessed - 1])
    && (c == Locking ==> off == 0)
    && (c == Freeing ==> off == xs[q.numProcessed - 1])
  }

  function Position(q: Sync, xs: seq<nat>, off: nat): nat
    requires 1 <= q.numProcessed <= |xs| + 1
  {
    Sum(xs[..q.numProcessed - 1]) + off
  }

  /** The same from the start of a run until it is stopped. */
  predicate Ring(q: Sync, c: Reading, f: Filling, xs: seq<nat>, off: nat) {
    && (c == Starting ==> xs == [] && off == 0)
    && (Begun(c) && !Stopping(c) ==> Along(q, c, f, xs, off))
  }

  /** A position, once there is one. */
  function Passed(q: Sync, c: Reading, xs: seq<nat>, off: nat): int {
    if Begun(c) && 1 <= q.numProcessed <= |xs| + 1 then Position(q, xs, off) else 0
  }

  predicate Exhausted(q: Sync, xs: seq<nat>, off: nat) {
    1 <= q.numProcessed <= |xs| && off == xs[q.numProcessed - 1]
  }

  predicate RingKept(q: Sync, c: Reading, q': Sync, c': Reading, f: Filling, xs: seq<nat>, off: nat, xs': seq<nat>,
                     off': nat) {
    && Ring(q', c', f, xs', off')
    && (c != Outside && !Stopping(c) && !Stopping(c') ==> Passed(q', c', xs', off') == Passed(q, c, xs, off))
  }

  lemma {:induction false} RingStart(q: Sync, c: Reading, f: Filling, a: ReadStep, xs: seq<nat>, off: nat)
    requires Inv(q, c, f) && CanRead(q, c, a) && Ring(q, c, f, xs, off) && (a == Start || a == Go)
    ensures (var r := Read(q, c, a);
      var xs', off' := if a == Start then [] else xs, if a == Start then 0 else off;
      RingKept(q, c, r.0, r.1, f, xs, off, xs', off'))
  {
    assert Sum([]) == 0 && (xs == [] ==> xs[..0] == []);
    hide InSlots, Sum;
  }

  lemma {:induction false} RingFree(q: Sync, c: Reading, f: Filling, xs: seq<nat>, off: nat)
    requires Inv(q, c, f) && CanRead(q, c, Free) && Ring(q, c, f, xs, off)
    ensures (var r := Read(q, c, Free); RingKept(q, c, r.0, r.1, f, xs, off, xs, 0))
  {
    SumStep(xs, q.numProcessed - 1);
    hide InSlots, Sum, Runs;
  }

  lemma {:induction false} RingStop(q: Sync, c: Reading, f: Filling, xs: seq<nat>, off: nat)
    requires Inv(q, c, f) && CanRead(q, c, Stop) && Ring(q, c, f, xs, off)
    ensures (var r := Read(q, c, Stop); RingKept(q, c, r.0, r.1, f, xs, off, xs, off))
  {
    hide InSlots, Sum, Rests, Begins;
  }

  /** From here on the run is stopped. */
  lemma {:induction false} RingSetStop(q: Sync, c: Reading, f: Filling, a: ReadStep, xs: seq<nat>, off: nat)
    requires CanRead(q, c, a) && Ring(q, c, f, xs, off) && (a == SetStop || a == FreeStop || a == Stopped)
    ensures (var r := Read(q, c, a); RingKept(q, c, r.0, r.1, f, xs, off, xs, off))
  {
    hide Along, Position;
  }

  lemma {:induction false} RingStops(q: Sync, c: Reading, f: Filling, a: ReadStep, xs: seq<nat>, off: nat)
    requires Inv(q, c, f) && CanRead(q, c, a) && Ring(q, c, f, xs, off)
    requires a == Stop || a == SetStop || a == FreeStop || a == Stopped
    ensures (var r := Read(q, c, a); RingKept(q, c, r.0, r.1, f, xs, off, xs, off))
  {
    hide Inv, Read, CanRead, Ring, RingKept;
    match a
    case Stop => RingStop(q, c, f, xs, off);
    case SetStop => RingSetStop(q, c, f, a, xs, off);
    case FreeStop => RingSetStop(q, c, f, a, xs, off);
    case Stopped => RingSetStop(q, c, f, a, xs, off);
  }

  lemma {:induction false} RingUnlock(q: Sync, c: Reading, f: Filling, xs: seq<nat>, off: nat)
    requires Inv(q, c, f) && CanRead(q, c, Unlock) && Ring(q, c, f, xs, off) && Exhausted(q, xs, off)
    ensures (var r := Read(q, c, Unlock); RingKept(q, c, r.0, r.1, f, xs, off, xs, off))
  {
    hide InSlots, Sum, Rests, Begins;
  }

  lemma {:induction false} RingTake(q: Sync, c: Reading, f: Filling, xs: seq<nat>, off: nat)
    requires Inv(q, c, f) && Ring(q, c, f, xs, off)
    ensures CanRead(q, c, Take) ==> (var r := Read(q, c, Take); RingKept(q, c, r.0, r.1, f, xs, off, xs, off))
    ensures CanRead(q, c, Lock) ==> (var r := Read(q, c, Lock); RingKept(q, c, r.0, r.1, f, xs, off, xs, off))
  {
    hide InSlots, Sum, Rests, Begins;
  }

  lemma {:induction false} RingAside(q: Sync, c: Reading, f: Filling, xs: seq<nat>, off: nat)
    requires Inv(q, c, f) && Ring(q, c, f, xs, off)
    ensures CanRead(q, c, Leave) ==> (var r := Read(q, c, Leave); RingKept(q, c, r.0, r.1, f, xs, off, xs, off))
    ensures CanRead(q, c, Return) ==> (var r := Read(q, c, Return); RingKept(q, c, r.0, r.1, f, xs, off, xs, off))
  {
    hide InSlots, Sum, Rests, Begins;
  }

  lemma {:induction false} RingPlain(q: Sync, c: Reading, f: Filling, a: ReadStep, xs: seq<nat>, off: nat)
    requires Inv(q, c, f) && CanRead(q, c, a) && Ring(q, c, f, xs, off) && (a == Unlock ==> Exhausted(q, xs, off))
    requires a == Unlock || a == Take || a == Lock || a == Leave || a == Return
    ensures (var r := Read(q, c, a); RingKept(q, c, r.0, r.1, f, xs, off, xs, off))
  {
    hide Inv, Read, CanRead, Ring, RingKept;
    match a
    case Unlock => RingUnlock(q, c, f, xs, off);
    case Take => RingTake(q, c, f, xs, off);
    case Lock => RingTake(q, c, f, xs, off);
    case Leave => RingAside(q, c, f, xs, off);
    case Return => RingAside(q, c, f, xs, off);
  }

  lemma {:induction false} RingOther(q: Sync, c: Reading, f: Filling, a: ReadStep, xs: seq<nat>, off: nat)
    requires Inv(q, c, f) && CanRead(q, c, a) && Ring(q, c, f, xs, off) && (a == Unlock ==> Exhausted(q, xs, off))
    requires a != Start && a != Go && a != Free
    ensures (var r := Read(q, c, a); RingKept(q, c, r.0, r.1, f, xs, off, xs, off))
  {
    hide Inv, Ring, RingKept, CanRead, Read;
    match a
    case Init => RingInit(q, c, f, xs, off);
    case Unlock => RingPlain(q, c, f, a, xs, off);
    case Take => RingPlain(q, c, f, a, xs, off);
    case Lock => RingPlain(q, c, f, a, xs, off);
    case Leave => RingPlain(q, c, f, a, xs, off);
    case Return => RingPlain(q, c, f, a, xs, off);
    case Stop => RingStops(q, c, f, a, xs, off);
    case SetStop => RingStops(q, c, f, a, xs, off);
    case FreeStop => RingStops(q, c, f, a, xs, off);
    case Stopped => RingStops(q, c, f, a, xs, off);
  }

  lemma {:induction false} RingInit(q: Sync, c: Reading, f: Filling, xs: seq<nat>, off: nat)
    requires CanRead(q, c, Init)
    ensures (var r := Read(q, c, Init); RingKept(q, c, r.0, r.1, f, xs, off, xs, off))
  {
  }

  lemma {:induction false} RingRead(q: Sync, c: Reading, f: Filling, a: ReadStep, xs: seq<nat>, off: nat)
    requires Inv(q, c, f) && CanRead(q, c, a) && Ring(q, c, f, xs, off) && (a == Unlock ==> Exhausted(q, xs, off))
    ensures (var r := Read(q, c, a);
      var xs', off' := if a == Start then [] else xs, if a == Start || a == Free then 0 else off;
      RingKept(q, c, r.0, r.1, f, xs, off, xs', off'))
  {
    hide *;
    if a == Start || a == Go {
      RingStart(q, c, f, a, xs, off);
    } else if a == Free {
      RingFree(q, c, f, xs, off);
    } else {
      RingOther(q, c, f, a, xs, off);
    }
  }

  lemma {:induction false} SumStep(xs: seq<nat>, k: int)
    requires 0 <= k < |xs|
    ensures Sum(xs[..k + 1]) == Sum(xs[..k]) + xs[k]
  {
    SumAdd(xs[..k], xs[k]);
    assert xs[..k] + [xs[k]] == xs[..k + 1];
  }

  lemma {:induction false} RingMore(q: Sync, c: Reading, f: Filling, xs: seq<nat>, off: nat, n: nat)
    requires Inv(q, c, f) && CanFill(q, f, Fill) && Ring(q, c, f, xs, off)
    ensures (var r := DoFill(q, f, Fill);
      && Ring(r.0, c, r.1, xs + [n], off)
      && (Begun(c) && !Stopping(c) ==> Passed(r.0, c, xs + [n], off) == Passed(q, c, xs, off)))
  {
    hide Sum, InSlots;
    if 1 <= q.numProcessed <= |xs| + 1 {
      assert (xs + [n])[..q.numProcessed - 1] == xs[..q.numProcessed - 1];
    }
  }

  /** A stop is seen only when there is one. */
  lemma {:induction false} CheckGoesOn(q: Sync, c: Reading, f: Filling)
    requires Inv(q, c, f) && f.AtCheck?
    ensures q.stopWriting <==> Stopping(c)
  {
    hide InSlots;
  }

  lemma {:induction false} RingSame(q: Sync, c: Reading, f: Filling, a: FillStep, xs: seq<nat>, off: nat)
    requires Inv(q, c, f) && CanFill(q, f, a) && Ring(q, c, f, xs, off) && a != Fill
    ensures (var r := DoFill(q, f, a);
      && Ring(r.0, c, r.1, xs, off)
      && (Begun(c) && !Stopping(c) ==> Passed(r.0, c, xs, off) == Passed(q, c, xs, off)))
  {
    hide Sum, Inv;
    if a == Check {
      CheckGoesOn(q, c, f);
    }
  }

  lemma {:induction false} RingFill(q: Sync, c: Reading, f: Filling, a: FillStep, xs: seq<nat>, off: nat, n: nat)
    requires Inv(q, c, f) && CanFill(q, f, a) && Ring(q, c, f, xs, off)
    ensures (var r := DoFill(q, f, a);
      var xs' := if a == Fill then xs + [n] else xs;
      && Ring(r.0, c, r.1, xs', off)
      && (Begun(c) && !Stopping(c) ==> Passed(r.0, c, xs', off) == Passed(q, c, xs, off)))
  {
    hide *;
    if a == Fill {
      RingMore(q, c, f, xs, off, n);
    } else {
      RingSame(q, c, f, a, xs, off);
    }
  }

  /** Until LZ stops: what BT has read is what it has passed on, and what it is at. */
  predicate Link(s: State) {
    Begun(s.lz) && !Stopping(s.lz) ==> Passed(s.hashSync, s.btReads, s.hs, s.hashOff) == Sum(s.bs) + s.btOff
  }

  predicate Positions(s: State) {
    && AtMost(s.hs, HASH_BLOCK) && AtMost(s.bs, BT_BLOCK) && s.btOff <= BT_BLOCK
    && (!s.bt.AtFill? ==> s.btOff == 0) && (s.lz == Starting ==> s.btOff == 0)
    && Ring(s.btSync, s.lz, s.bt, s.bs, s.lzOff) && Ring(s.hashSync, s.btReads, s.hash, s.hs, s.hashOff)
    && Link(s)
  }

  /** The parts of Positions that are not about one ring. */
  predicate Offsets(s: State) {
    && AtMost(s.hs, HASH_BLOCK) && AtMost(s.bs, BT_BLOCK) && s.btOff <= BT_BLOCK
    && (!s.bt.AtFill? ==> s.btOff == 0) && (s.lz == Starting ==> s.btOff == 0)
  }

  lemma {:induction false} LzPhases(s: State, a: ReadStep)
    requires LzCan(s, a)
    ensures (var c := Read(s.btSync, s.lz, a).1;
      && (Begun(c) && !Stopping(c) ==> a != Start && (s.lz == Starting || (Begun(s.lz) && !Stopping(s.lz))))
      && (c == Starting ==> a == Start))
    ensures a == Start ==> s.lz == Outside
    ensures a == Unlock ==> Exhausted(s.btSync, s.bs, s.lzOff)
  {
  }

  lemma {:induction false} LzLink(s: State, t: State)
    requires Link(s) && Ring(s.btSync, s.lz, s.bt, s.bs, s.lzOff) && Offsets(s)
    requires s.lz == Starting ==> Passed(s.hashSync, s.btReads, s.hs, s.hashOff) == 0
    requires Begun(t.lz) && !Stopping(t.lz) ==>
      && (s.lz == Starting || (Begun(s.lz) && !Stopping(s.lz)))
      && t.bs == s.bs && t.btOff == s.btOff && t.hashSync == s.hashSync && t.btReads == s.btReads && t.hs == s.hs
      && t.hashOff == s.hashOff
    ensures Link(t)
  {
    assert Sum([]) == 0;
    hide Sum, Passed, Along, AtMost;
  }

  lemma {:induction false} LzOffsets(s: State, a: ReadStep)
    requires Threads(s) && Offsets(s) && Link(s) && LzCan(s, a)
    requires Ring(s.btSync, s.lz, s.bt, s.bs, s.lzOff)
    ensures (var t := Do(s, LzReads(a)); Offsets(t) && Link(t))
    ensures a == Unlock ==> Exhausted(s.btSync, s.bs, s.lzOff)
  {
    hide *;
    LzPhases(s, a);
    LzDoes(s, a);
    if s.lz == Starting {
      NotBegun(s);
    }
    LzLink(s, Do(s, LzReads(a)));
    LzOffsetsAfter(s, Do(s, LzReads(a)));
  }

  lemma {:induction false} LzOffsetsAfter(s: State, t: State)
    requires Offsets(s) && t.hs == s.hs && t.bt == s.bt
    requires (t.bs == s.bs && t.btOff == s.btOff && t.lz != Starting) || (t.bs == [] && t.btOff == 0)
    ensures Offsets(t)
  {
  }

  lemma {:induction false} LzPositions(s: State, a: ReadStep)
    requires Threads(s) && Positions(s) && LzCan(s, a)
    ensures Positions(Do(s, LzReads(a)))
  {
    hide *;
    PositionsParts(s);
    ThreadsParts(s);
    LzOffsets(s, a);
    LzDoes(s, a);
    RingRead(s.btSync, s.lz, s.bt, a, s.bs, s.lzOff);
    KeptRing(s.btSync, s.lz, Do(s, LzReads(a)).btSync, Do(s, LzReads(a)).lz, s.bt, s.bs, s.lzOff,
             Do(s, LzReads(a)).bs, Do(s, LzReads(a)).lzOff);
    PositionsIntro(Do(s, LzReads(a)));
  }

  lemma {:induction false} KeptRing(q: Sync, c: Reading, q': Sync, c': Reading, f: Filling, xs: seq<nat>, off: nat,
                                    xs': seq<nat>, off': nat)
    requires RingKept(q, c, q', c', f, xs, off, xs', off')
    ensures Ring(q', c', f, xs', off')
    ensures c != Outside && !Stopping(c) && !Stopping(c') ==> Passed(q', c', xs', off') == Passed(q, c, xs, off)
  {
    hide Ring, Passed, Stopping;
  }

  lemma {:induction false} PositionsParts(s: State)
    requires Positions(s)
    ensures Offsets(s) && Link(s)
    ensures Ring(s.btSync, s.lz, s.bt, s.bs, s.lzOff) && Ring(s.hashSync, s.btReads, s.hash, s.hs, s.hashOff)
  {
    hide Link, Ring, AtMost;
  }

  lemma {:induction false} PositionsIntro(s: State)
    requires Offsets(s) && Link(s)
    requires Ring(s.btSync, s.lz, s.bt, s.bs, s.lzOff) && Ring(s.hashSync, s.btReads, s.hash, s.hs, s.hashOff)
    ensures Positions(s)
  {
    hide Link, Ring, AtMost;
  }

  lemma {:induction false} LzDoes(s: State, a: ReadStep)
    requires LzCan(s, a)
    ensures CanRead(s.btSync, s.lz, a) && Can(s, LzReads(a))
    ensures (var t, r := Do(s, LzReads(a)), Read(s.btSync, s.lz, a);
      && t.btSync == r.0 && t.lz == r.1 && t.bt == s.bt && t.hashSync == s.hashSync && t.btReads == s.btReads
      && t.hash == s.hash && t.hs == s.hs && t.hashOff == s.hashOff
      && t.bs == (if a == Start then [] else s.bs) && t.btOff == (if a == Start then 0 else s.btOff)
      && t.lzOff == if a == Start || a == Free then 0 else s.lzOff)
  {
    hide CanRead, Read;
  }

  lemma {:induction false} NotBegun(s: State)
    requires Threads(s) && (s.lz == Outside || s.lz == Starting)
    ensures s.btReads == Outside && Passed(s.hashSync, s.btReads, s.hs, s.hashOff) == 0 && s.bt == Asleep
  {
    hide InSlots, Startable, Locks;
  }

  lemma {:induction false} BtReadDoes(s: State, a: ReadStep)
    requires BtCanRead(s, a)
    ensures CanRead(s.hashSync, s.btReads, a) && Can(s, BtReads(a))
    ensures a == Unlock ==> Exhausted(s.hashSync, s.hs, s.hashOff)
    ensures (var t, r := Do(s, BtReads(a)), Read(s.hashSync, s.btReads, a);
      && t.hashSync == r.0 && t.btReads == r.1 && t.bt == s.bt && t.btSync == s.btSync && t.lz == s.lz
      && t.hash == s.hash && t.bs == s.bs && t.btOff == s.btOff && t.lzOff == s.lzOff
      && t.hs == (if a == Start then [] else s.hs) && t.hashOff == if a == Start || a == Free then 0 else s.hashOff)
  {
    hide CanRead, Read;
  }

  lemma {:induction false} BtReadOffsets(s: State, a: ReadStep)
    requires Threads(s) && Offsets(s) && Link(s) && BtCanRead(s, a)
    requires (var t := Do(s, BtReads(a));
      RingKept(s.hashSync, s.btReads, t.hashSync, t.btReads, s.hash, s.hs, s.hashOff, t.hs, t.hashOff))
    ensures (var t := Do(s, BtReads(a)); Offsets(t) && Link(t))
  {
    BtReadDoes(s, a);
    if Begun(s.lz) && !Stopping(s.lz) {
      BtLinked(s, a);
    }
    hide InSlots, Runs, Rests, Startable, Locks, Sum, Ring, Passed, BtInStep, Inv, BtCanRead, Do;
  }

  /** As long as LZ does not stop, BT does not either; it starts with nothing done. */
  lemma {:induction false} BtLinked(s: State, a: ReadStep)
    requires Threads(s) && Link(s) && BtCanRead(s, a) && Begun(s.lz) && !Stopping(s.lz)
    ensures (var r := Read(s.hashSync, s.btReads, a).1;
      !Stopping(r) && !Stopping(s.btReads)
        && (s.btReads == Outside ==> Sum(s.bs) + s.btOff == 0 && (r == Outside || r == Starting)))
  {
    hide InSlots, Sum, Startable, Locks;
  }

  lemma {:induction false} BtReadPositions(s: State, a: ReadStep)
    requires Threads(s) && Positions(s) && BtCanRead(s, a)
    ensures Positions(Do(s, BtReads(a)))
  {
    hide *;
    PositionsParts(s);
    ThreadsParts(s);
    BtReadDoes(s, a);
    RingRead(s.hashSync, s.btReads, s.hash, a, s.hs, s.hashOff);
    BtReadOffsets(s, a);
    KeptRing(s.hashSync, s.btReads, Do(s, BtReads(a)).hashSync, Do(s, BtReads(a)).btReads, s.hash, s.hs, s.hashOff,
             Do(s, BtReads(a)).hs, Do(s, BtReads(a)).hashOff);
    PositionsIntro(Do(s, BtReads(a)));
  }

  lemma {:induction false} BtFillDoes(s: State, a: FillStep)
    requires BtCanFill(s, a)
    ensures CanFill(s.btSync, s.bt, a) && Can(s, BtFills(a))
    ensures (var t, r := Do(s, BtFills(a)), DoFill(s.btSync, s.bt, a);
      && t.btSync == r.0 && t.bt == r.1 && t.lz == s.lz && t.hashSync == s.hashSync && t.btReads == s.btReads
      && t.hash == s.hash && t.hs == s.hs && t.hashOff == s.hashOff && t.lzOff == s.lzOff
      && t.bs == (if a == Fill then s.bs + [s.btOff] else s.bs) && t.btOff == (if a == Fill then 0 else s.btOff)
      && (a == Fill ==> s.bt.AtFill? && t.bt.AtFilled?) && (a != Fill ==> !s.bt.AtFill?))
  {
  }

  lemma {:induction false} BtFillOffsets(s: State, a: FillStep)
    requires Threads(s) && Offsets(s) && Link(s) && BtCanFill(s, a)
    ensures (var t := Do(s, BtFills(a)); Offsets(t) && Link(t))
  {
    hide *;
    BtFillDoes(s, a);
    SumAdd(s.bs, s.btOff);
    OffsetsAfter(s, Do(s, BtFills(a)));
    LinkAfter(s, Do(s, BtFills(a)));
  }

  lemma {:induction false} OffsetsAfter(s: State, t: State)
    requires Offsets(s) && t.hs == s.hs && t.lz == s.lz
    requires (t.bs == s.bs && t.btOff == s.btOff && !s.bt.AtFill?) || (t.bs == s.bs + [s.btOff] && t.btOff == 0)
    ensures Offsets(t)
  {
  }

  lemma {:induction false} LinkAfter(s: State, t: State)
    requires Link(s) && t.hashSync == s.hashSync && t.btReads == s.btReads && t.hs == s.hs && t.hashOff == s.hashOff
    requires t.lz == s.lz && Sum(t.bs) + t.btOff == Sum(s.bs) + s.btOff
    ensures Link(t)
  {
    hide Passed, Sum;
  }

  lemma {:induction false} BtFillPositions(s: State, a: FillStep)
    requires Threads(s) && Positions(s) && BtCanFill(s, a)
    ensures Positions(Do(s, BtFills(a)))
  {
    hide *;
    PositionsParts(s);
    ThreadsParts(s);
    BtFillDoes(s, a);
    RingFill(s.btSync, s.lz, s.bt, a, s.bs, s.lzOff, s.btOff);
    BtFillOffsets(s, a);
    PositionsIntro(Do(s, BtFills(a)));
  }

  lemma {:induction false} HashDoes(s: State, a: FillStep, n: nat)
    requires Can(s, HashFills(a, n))
    ensures CanFill(s.hashSync, s.hash, a) && n + 2 <= HASH_BLOCK
    ensures (var t, r := Do(s, HashFills(a, n)), DoFill(s.hashSync, s.hash, a);
      && t.hashSync == r.0 && t.hash == r.1 && t.lz == s.lz && t.btSync == s.btSync && t.btReads == s.btReads
      && t.bt == s.bt && t.bs == s.bs && t.btOff == s.btOff && t.hashOff == s.hashOff && t.lzOff == s.lzOff
      && t.hs == if a == Fill then s.hs + [n] else s.hs)
  {
    hide CanFill, DoFill;
  }

  lemma {:induction false} HashOffsets(s: State, t: State, n: nat)
    requires Threads(s) && Offsets(s) && Link(s) && n <= HASH_BLOCK
    requires t.lz == s.lz && t.bt == s.bt && t.bs == s.bs && t.btOff == s.btOff && t.btReads == s.btReads
    requires t.hs == s.hs || t.hs == s.hs + [n]
    requires Begun(s.btReads) && !Stopping(s.btReads) ==>
      Passed(t.hashSync, s.btReads, t.hs, t.hashOff) == Passed(s.hashSync, s.btReads, s.hs, s.hashOff)
    ensures Offsets(t) && Link(t)
  {
    if Begun(s.lz) && !Stopping(s.lz) {
      BtGoesOn(s);
    }
    hide Threads, Sum, Position;
  }

  /** As long as LZ does not stop, BT does not either. */
  lemma {:induction false} BtGoesOn(s: State)
    requires Threads(s) && Begun(s.lz) && !Stopping(s.lz)
    ensures Working(s.btSync, s.bt) && !Stopping(s.btReads) && s.btReads != StopSetting
  {
    hide InSlots, Startable, Locks;
  }

  lemma {:induction false} HashPositions(s: State, a: FillStep, n: nat)
    requires Threads(s) && Positions(s) && Can(s, HashFills(a, n))
    ensures Positions(Do(s, HashFills(a, n)))
  {
    hide *;
    PositionsParts(s);
    ThreadsParts(s);
    HashDoes(s, a, n);
    RingFill(s.hashSync, s.btReads, s.hash, a, s.hs, s.hashOff, n);
    HashOffsets(s, Do(s, HashFills(a, n)), n);
    PositionsIntro(Do(s, HashFills(a, n)));
  }

  /** Reading on within a block. */
  lemma {:induction false} RingGoes(q: Sync, c: Reading, f: Filling, xs: seq<nat>, off: nat, n: nat)
    requires Ring(q, c, f, xs, off) && c == Inside && 1 <= q.numProcessed <= |xs| && off + n <= xs[q.numProcessed - 1]
    ensures Ring(q, c, f, xs, off + n) && Passed(q, c, xs, off + n) == Passed(q, c, xs, off) + n
  {
    hide Sum;
  }

  lemma {:induction false} LzGoesPositions(s: State, n: nat)
    requires Positions(s) && Can(s, LzGoes(n))
    ensures Positions(Do(s, LzGoes(n)))
  {
    RingGoes(s.btSync, s.lz, s.bt, s.bs, s.lzOff, n);
    hide Ring, Passed, Sum;
  }

  lemma {:induction false} BtGoesPositions(s: State, n: nat)
    requires Positions(s) && Can(s, BtGoes(n)) && Threads(s)
    ensures Positions(Do(s, BtGoes(n)))
  {
    RingGoes(s.hashSync, s.btReads, s.hash, s.hs, s.hashOff, n);
    if s.lz == Starting {
      NotBegun(s);
    }
    hide Ring, Passed, Sum, Threads;
  }

  lemma {:induction false} LockPositions(s: State)
    requires Positions(s) && Can(s, HashMoves)
    ensures Positions(Do(s, HashMoves))
  {
    hide *;
    var t := Do(s, HashMoves);
    MoveDoes(s);
    PositionsParts(s);
    SameRing(s.btSync, t.btSync, s.lz, s.bt, s.bs, s.lzOff);
    SameRing(s.hashSync, t.hashSync, s.btReads, s.hash, s.hs, s.hashOff);
    SameOffsets(s, t);
    PositionsIntro(t);
  }

  lemma {:induction false} SameOffsets(s: State, t: State)
    requires Offsets(s) && Link(s) && t.hs == s.hs && t.bs == s.bs && t.btOff == s.btOff && t.bt == s.bt && t.lz == s.lz
    requires t.btReads == s.btReads && t.hashOff == s.hashOff
    requires Passed(t.hashSync, s.btReads, s.hs, s.hashOff) == Passed(s.hashSync, s.btReads, s.hs, s.hashOff)
    ensures Offsets(t) && Link(t)
  {
    hide Passed, Sum, AtMost;
  }

  lemma {:induction false} SameRing(q: Sync, q': Sync, c: Reading, f: Filling, xs: seq<nat>, off: nat)
    requires q'.numProcessed == q.numProcessed && q'.canStart == q.canStart
    ensures Ring(q', c, f, xs, off) <==> Ring(q, c, f, xs, off)
    ensures Passed(q', c, xs, off) == Passed(q, c, xs, off)
  {
    hide Sum;
  }

  lemma {:induction false} InitPositions(s: State)
    requires Threads(s) && Positions(s) && Can(s, InitMt)
    ensures Positions(Do(s, InitMt))
  {
    NotBegun(s);
    hide InSlots, Sum, Passed, Runs, Startable, Locks, Along;
  }

  lemma {:induction false} PositionsKept(s: State, a: Action)
    requires Threads(s) && Positions(s) && Can(s, a)
    ensures Positions(Do(s, a))
  {
    hide *;
    match a
    case InitMt => InitPositions(s);
    case LzReads(r) => LzParts(s, r);
      LzPositions(s, r);
    case LzGoes(n) => LzGoesPositions(s, n);
    case BtFills(f) => BtFillParts(s, f);
      BtFillPositions(s, f);
    case BtReads(r) => BtReadParts(s, r);
      BtReadPositions(s, r);
    case BtGoes(n) => BtGoesPositions(s, n);
    case HashFills(f, n) => HashPositions(s, f, n);
    case HashMoves => LockPositions(s);
  }

  lemma {:induction false} LzParts(s: State, a: ReadStep)
    requires Can(s, LzReads(a))
    ensures LzCan(s, a)
  {
  }

  lemma {:induction false} BtReadParts(s: State, a: ReadStep)
    requires Can(s, BtReads(a))
    ensures BtCanRead(s, a)
  {
  }

  lemma {:induction false} BtFillParts(s: State, a: FillStep)
    requires Can(s, BtFills(a))
    ensures BtCanFill(s, a)
  {
  }
}
