/** What holds in every run of the three threads. */
module MtRuns {
  import Arith
  import opened MtSync
  import opened MtPipeline
  import opened Sums

  // ---------- whole runs ----------

  function EmptyRing(n: nat): Sync {
    Sync(true, false, false, false, 0, 0, 0, Nobody, seq(n, _ => 0), false)
  }

  /** After MatchFinderMt_Create, before MatchFinderMt_InitMt. */
  function First(): State {
    State(EmptyRing(BT_BLOCKS), Outside, Asleep, EmptyRing(HASH_BLOCKS), Outside, Asleep, Still, [], [], 0, 0, 0)
  }

  /** The steps can be taken one after the other. */
  predicate IsRun(s: State, run: seq<Action>)
    decreases |run|
  {
    run == [] || (Can(s, run[0]) && IsRun(Do(s, run[0]), run[1..]))
  }

  function After(s: State, run: seq<Action>): State
    requires IsRun(s, run)
    decreases |run|
  {
    if run == [] then s else After(Do(s, run[0]), run[1..])
  }

  /** A state that some interleaving leads to. */
  ghost predicate Reachable(s: State) {
    exists run: seq<Action> :: IsRun(First(), run) && After(First(), run) == s
  }

  lemma {:induction false} RunKept(s: State, run: seq<Action>)
    requires Threads(s) && Positions(s) && IsRun(s, run)
    ensures Threads(After(s, run)) && Positions(After(s, run))
    decreases |run|
  {
    hide Threads, Positions, Can, Do;
    if run != [] {
      ThreadsKept(s, run[0]);
      PositionsKept(s, run[0]);
      RunKept(Do(s, run[0]), run[1..]);
    }
  }

  lemma {:induction false} FirstHolds()
    ensures Threads(First()) && Positions(First())
  {
  }

  lemma {:induction false} ReachableKept(s: State)
    requires Reachable(s)
    ensures Threads(s) && Positions(s)
  {
    hide Threads, Positions, Can, Do, First;
    var run :| IsRun(First(), run) && After(First(), run) == s;
    FirstHolds();
    RunKept(First(), run);
  }

  // ---------- safety ----------

  /** The window moves only while neither LZ nor BT is in a block, and neither of them can take a
      position, nor BT end its block, before it has moved. */
  lemma {:induction false} MoveIsAlone(s: State)
    requires Reachable(s) && s.move == Moves
    ensures s.lz != Inside && s.btReads != Inside
    ensures forall n: nat :: !Can(s, LzGoes(n)) && !Can(s, BtGoes(n))
    ensures !Can(s, BtFills(Fill))
    ensures s.btSync.cs == Mover && s.hashSync.cs == Mover
  {
    ReachableKept(s);
    hide InSlots, Reachable, Positions, Startable, Runs, Rests;
  }

  /** While HASH fills a block, or BT does, its reader has another one, and no block that waits
      to be read is in that slot. */
  lemma {:induction false} SlotsAreSafe(s: State, j: int)
    requires Reachable(s)
    ensures s.hash.AtFill? && Taken(s.hashSync, s.btReads) - Has(s.btReads) <= j < Made(s.hash) ==>
              s.hash.index % HASH_BLOCKS != j % HASH_BLOCKS
    ensures s.bt.AtFill? && Taken(s.btSync, s.lz) - Has(s.lz) <= j < Made(s.bt) ==>
              s.bt.index % BT_BLOCKS != j % BT_BLOCKS
  {
    hide *;
    ReachableKept(s);
    ThreadsParts(s);
    if s.hash.AtFill? && Taken(s.hashSync, s.btReads) - Has(s.btReads) <= j < Made(s.hash) {
      NotOverwritten(s.hashSync, s.btReads, s.hash, j);
    }
    if s.bt.AtFill? && Taken(s.btSync, s.lz) - Has(s.lz) <= j < Made(s.bt) {
      NotOverwritten(s.btSync, s.lz, s.bt, j);
    }
  }

  /** The slot of block k holds block k. */
  predicate LooksAt(q: Sync, n: nat, k: int) {
    k >= 0 && |q.slots| == n > 0 && q.slots[k % n] == k
  }

  /** Both readers find, in the slot they look at, the blocks 0, 1, 2, … of the run in turn. */
  lemma {:induction false} BlocksInOrder(s: State)
    requires Reachable(s)
    ensures s.lz == Inside ==> LooksAt(s.btSync, BT_BLOCKS, s.btSync.numProcessed - 1)
    ensures s.btReads == Inside ==> LooksAt(s.hashSync, HASH_BLOCKS, s.hashSync.numProcessed - 1)
  {
    hide *;
    ReachableKept(s);
    ThreadsParts(s);
    if s.lz == Inside {
      RingLooks(s.btSync, s.lz, s.bt, BT_BLOCKS);
    }
    if s.btReads == Inside {
      RingLooks(s.hashSync, s.btReads, s.hash, HASH_BLOCKS);
    }
  }

  lemma {:induction false} RingLooks(q: Sync, c: Reading, f: Filling, n: nat)
    requires Inv(q, c, f) && c == Inside && |q.slots| == n
    ensures LooksAt(q, n, q.numProcessed - 1)
  {
    InOrder(q, c, f);
    hide Inv;
  }

  // ---------- nobody waits for ever in vain ----------

  /** A step that is not left to the will of a thread: HASH need not move the window, readers need
      not read on, BT need not take one more hash block for the block it fills, and LZ need not begin. */
  predicate Forward(s: State, a: Action) {
    && Can(s, a) && !a.InitMt? && !a.LzGoes? && !a.BtGoes? && a != BtReads(Unlock)
    && (a.HashMoves? ==> s.move != Still)
  }

  ghost predicate Moving(s: State) {
    exists a :: Forward(s, a)
  }

  lemma {:induction false} Steps(s: State, a: Action)
    requires Forward(s, a)
    ensures Moving(s)
  {
  }

  lemma {:induction false} LzMoves(s: State, a: ReadStep)
    requires CanRead(s.btSync, s.lz, a)
    requires a != Init && a != Leave && a != Return && a != Unlock && a != Stop
    ensures Moving(s)
  {
    hide CanRead, Moving;
    Steps(s, LzReads(a));
  }

  lemma {:induction false} BtMoves(s: State, a: ReadStep)
    requires BtCanRead(s, a) && a != Unlock
    ensures Moving(s)
  {
    hide BtCanRead, Moving;
    Steps(s, BtReads(a));
  }

  lemma {:induction false} BtFillMoves(s: State, a: FillStep)
    requires BtCanFill(s, a)
    ensures Moving(s)
  {
    hide BtCanFill, Moving;
    Steps(s, BtFills(a));
  }

  lemma {:induction false} HashFillMoves(s: State, a: FillStep)
    requires CanFill(s.hashSync, s.hash, a) && (a == TakeFree ==> s.move == Still)
    ensures Moving(s)
  {
    hide CanFill, Moving;
    Steps(s, HashFills(a, 0));
  }

  /** With nobody in its way HASH goes on with a move. */
  lemma {:induction false} MoverMoves(s: State)
    requires s.hash.AtFree? && s.move != Still
    requires s.move == WantBt ==> s.btSync.cs == Nobody
    requires s.move == WantHash ==> s.hashSync.cs == Nobody
    ensures Moving(s)
  {
    hide Moving;
    Steps(s, HashMoves);
  }

  /** HASH goes on where BT waits for it. */
  lemma {:induction false} HashGoesOn(s: State)
    requires Threads(s) && s.lz != Inside
    requires (s.btReads == Waiting && s.hashSync.filled == 0) || (s.btReads == StopWaiting && !s.hashSync.wasStopped)
    ensures Moving(s)
  {
    hide Threads, Inv, BtInStep, Startable, Moving;
    ThreadsParts(s);
    if s.btReads == Waiting {
      FillIsComing(s.hashSync, s.btReads, s.hash);
    } else {
      StopIsSeen(s.hashSync, s.btReads, s.hash);
    }
    HolderIs(s.btSync, s.lz, s.bt);
    HolderIs(s.hashSync, s.btReads, s.hash);
    match s.hash
    case Asleep => HashFillMoves(s, Wake);
    case AtFree(i) =>
      if s.move == Still {
        HashFillMoves(s, TakeFree);
      } else {
        MoverMoves(s);
      }
    case AtCheck(i) => HashFillMoves(s, Check);
    case AtFill(i) => HashFillMoves(s, Fill);
    case AtFilled(i) => HashFillMoves(s, Release);
    case AtStopped => HashFillMoves(s, SetStopped);
  }

  /** BT goes on inside a block, unless HASH has to. */
  lemma {:induction false} BtHasStepInside(s: State)
    requires Threads(s) && s.lz != Inside && s.bt.AtFill?
    requires s.btReads == Outside ==> s.hashSync.inited && s.hashSync.needStart
    ensures Moving(s)
  {
    hide Threads, Inv, Startable, Moving;
    ThreadsParts(s);
    if s.btReads == Waiting && s.hashSync.filled == 0 {
      HashGoesOn(s);
    } else {
      HolderIs(s.hashSync, s.btReads, s.hash);
      HolderIs(s.btSync, s.lz, s.bt);
      match s.btReads
      case Outside => BtMoves(s, Start);
      case Starting => BtMoves(s, Go);
      case Waiting => BtMoves(s, Take);
      case Locking =>
        if s.hashSync.cs == Nobody {
          BtMoves(s, Lock);
        } else {
          MoverMoves(s);
        }
      case Inside => BtFillMoves(s, Fill);
      case Aside =>
        if s.hashSync.cs == Nobody {
          BtMoves(s, Return);
        } else {
          MoverMoves(s);
        }
      case Freeing => BtMoves(s, Free);
      case _ => assert false;
    }
  }

  /** BT goes on while it stops HASH. */
  lemma {:induction false} BtStops(s: State)
    requires Threads(s) && s.lz != Inside && s.bt == AtStopped
    ensures Moving(s)
  {
    hide Threads, Inv, Startable, Moving;
    ThreadsParts(s);
    if s.btReads == StopWaiting && !s.hashSync.wasStopped {
      HashGoesOn(s);
    } else {
      HolderIs(s.hashSync, s.btReads, s.hash);
      HolderIs(s.btSync, s.lz, s.bt);
      match s.btReads
      case Outside => BtFillMoves(s, SetStopped);
      case Aside => BtMoves(s, Stop);
      case StopSetting => BtMoves(s, SetStop);
      case StopFreeing => BtMoves(s, FreeStop);
      case StopWaiting => BtMoves(s, Stopped);
      case _ => assert false;
    }
  }

  lemma {:induction false} BtWillStart(s: State)
    requires Threads(s) && s.lz != Outside && s.bt.AtFill? && s.btReads == Outside
    ensures s.hashSync.inited && s.hashSync.needStart
  {
    hide InSlots, Runs, Locks;
  }

  /** BT goes on where LZ waits for it. */
  lemma {:induction false} BtHasStep(s: State)
    requires Threads(s)
    requires (s.lz == Waiting && s.btSync.filled == 0) || (s.lz == StopWaiting && !s.btSync.wasStopped)
    ensures Moving(s)
  {
    ThreadsParts(s);
    if s.lz == Waiting {
      FillIsComing(s.btSync, s.lz, s.bt);
    } else {
      StopIsSeen(s.btSync, s.lz, s.bt);
    }
    if s.bt.AtFill? {
      if s.btReads == Outside {
        BtWillStart(s);
      }
      BtHasStepInside(s);
    } else if s.bt == AtStopped {
      BtStops(s);
    } else {
      HolderIs(s.btSync, s.lz, s.bt);
      hide Threads, Inv, Startable, Moving, Locks;
      match s.bt
      case Asleep => BtFillMoves(s, Wake);
      case AtFree(i) => BtFillMoves(s, TakeFree);
      case AtCheck(i) => BtFillMoves(s, Check);
      case AtFilled(i) =>
        if s.btReads == Inside {
          BtMoves(s, Leave);
        } else {
          BtFillMoves(s, Release);
        }
    }
  }

  /** Where HASH has the first lock it gets the second one, or BT is at work in its block. */
  lemma {:induction false} MoverGoesOn(s: State)
    requires Threads(s) && s.btSync.cs == Mover
    ensures Moving(s)
  {
    hide Threads, Inv, Startable, Moving;
    ThreadsParts(s);
    HolderIs(s.hashSync, s.btReads, s.hash);
    HolderIs(s.btSync, s.lz, s.bt);
    if s.move == WantHash && s.btReads == Inside {
      if s.bt.AtFill? {
        BtFillMoves(s, Fill);
      } else {
        BtMoves(s, Leave);
      }
    } else {
      MoverMoves(s);
    }
  }

  lemma {:induction false} LzSteps(s: State)
    requires Threads(s) && s.lz != Outside && s.lz != Inside
    requires !(s.lz == Waiting && s.btSync.filled == 0) && !(s.lz == StopWaiting && !s.btSync.wasStopped)
    ensures Moving(s)
  {
    hide Threads, Inv, Startable, Moving, BtInStep, Locks, LzCan, Can;
    ThreadsParts(s);
    if s.lz == Locking && s.btSync.cs == Mover {
      MoverGoesOn(s);
    } else {
      HolderIs(s.btSync, s.lz, s.bt);
      match s.lz
      case Starting => LzMoves(s, Go);
      case Waiting => LzMoves(s, Take);
      case Locking => LzMoves(s, Lock);
      case Freeing => LzMoves(s, Free);
      case StopSetting => LzMoves(s, SetStop);
      case StopFreeing => LzMoves(s, FreeStop);
      case StopWaiting => LzMoves(s, Stopped);
    }
  }

  /** LZ waits for a block, a lock, or the end of the other threads. */
  predicate Waits(s: State) { s.lz != Outside && s.lz != Inside }

  /** Then some thread can take a step that it has to take. */
  lemma {:induction false} WaitMoves(s: State)
    requires Threads(s) && Waits(s)
    ensures Moving(s)
  {
    ThreadsParts(s);
    if (s.lz == Waiting && s.btSync.filled == 0) || (s.lz == StopWaiting && !s.btSync.wasStopped) {
      BtHasStep(s);
    } else {
      LzSteps(s);
    }
  }

  /** So in every reachable state. */
  lemma {:induction false} NoDeadlock(s: State)
    requires Reachable(s) && Waits(s)
    ensures exists a :: Forward(s, a)
  {
    ReachableKept(s);
    WaitMoves(s);
    hide Forward, Reachable;
  }

  // ---------- stop and start again ----------

  /** When LZ is outside, all threads sleep, and MatchFinderMt_InitMt succeeds and makes the rings
      what they were before the first start. */
  lemma {:induction false} RestartIsFresh(s: State)
    requires Reachable(s) && s.lz == Outside
    ensures Can(s, InitMt) && s.bt == Asleep && s.btReads == Outside && s.hash == Asleep && s.move == Still
    ensures (var t, f := Do(s, InitMt), Do(First(), InitMt);
      && t.btSync.(numProcessed := 0, stopWriting := false, slots := f.btSync.slots) == f.btSync
      && t.hashSync.(numProcessed := 0, stopWriting := false, slots := f.hashSync.slots) == f.hashSync)
  {
    ReachableKept(s);
    hide InSlots, Reachable, Positions;
  }

  // ---------- how far HASH may be ahead ----------

  lemma {:induction false} RingAhead(q: Sync, c: Reading, f: Filling, xs: seq<nat>, off: nat, b: nat)
    requires Inv(q, c, f) && Along(q, c, f, xs, off) && Begun(c) && !Stopping(c) && AtMost(xs, b)
    ensures Sum(xs) <= Position(q, xs, off) + (|q.slots| - (if f.AtFill? then 1 else 0)) * b
  {
    var k, m := q.numProcessed - 1, |q.slots| - (if f.AtFill? then 1 else 0);
    hide *;
    RingCount(q, c, f, xs, off);
    TailBound(xs, k, b, m);
    PositionIs(q, xs, off);
  }

  lemma {:induction false} TailBound(xs: seq<nat>, k: nat, b: nat, m: int)
    requires k <= |xs| && |xs| - k <= m && AtMost(xs, b)
    ensures Sum(xs) <= Sum(xs[..k]) + m * b
  {
    hide AtMost, Sum;
    SumTail(xs, k, b);
    Arith.MulMonotone(b, |xs| - k, m);
    assert b * (|xs| - k) == (|xs| - k) * b && b * m == m * b;
  }

  lemma {:induction false} PositionIs(q: Sync, xs: seq<nat>, off: nat)
    requires 1 <= q.numProcessed <= |xs| + 1
    ensures Position(q, xs, off) == Sum(xs[..q.numProcessed - 1]) + off
  {
  }

  lemma {:induction false} RingCount(q: Sync, c: Reading, f: Filling, xs: seq<nat>, off: nat)
    requires Inv(q, c, f) && Along(q, c, f, xs, off) && Begun(c) && !Stopping(c)
    ensures 1 <= q.numProcessed <= |xs| + 1
    ensures |xs| - (q.numProcessed - 1) <= |q.slots| - (if f.AtFill? then 1 else 0)
  {
    hide InSlots;
  }

  /** HASH is never further ahead of LZ than the space that MatchFinderMt_Create reserves. */
  lemma {:induction false} LeadIsReserved(s: State)
    requires Reachable(s) && Begun(s.lz) && !Stopping(s.lz) && Begun(s.btReads)
    ensures 1 <= s.btSync.numProcessed <= |s.bs| + 1
    ensures Sum(s.hs) <= Position(s.btSync, s.bs, s.lzOff) + 0x4_0000 + 0x10_0000
  {
    ReachableKept(s);
    ThreadsParts(s);
    BothAlong(s);
    RingAhead(s.hashSync, s.btReads, s.hash, s.hs, s.hashOff, HASH_BLOCK);
    RingAhead(s.btSync, s.lz, s.bt, s.bs, s.lzOff, BT_BLOCK);
    hide Along, Sum, Reachable, Inv, Threads, Positions, AtMost;
  }

  lemma {:induction false} BothAlong(s: State)
    requires Threads(s) && Positions(s) && Begun(s.lz) && !Stopping(s.lz) && Begun(s.btReads)
    ensures !Stopping(s.btReads) && AtMost(s.hs, HASH_BLOCK) && AtMost(s.bs, BT_BLOCK)
    ensures Along(s.btSync, s.lz, s.bt, s.bs, s.lzOff) && Along(s.hashSync, s.btReads, s.hash, s.hs, s.hashOff)
    ensures 1 <= s.hashSync.numProcessed <= |s.hs| + 1 && 1 <= s.btSync.numProcessed <= |s.bs| + 1
    ensures Position(s.hashSync, s.hs, s.hashOff) == Sum(s.bs) + s.btOff
    ensures s.btOff <= if s.bt.AtFill? then BT_BLOCK else 0
  {
    MtPipeline.BtGoesOn(s);
    hide Threads, Sum, Position;
  }
}
