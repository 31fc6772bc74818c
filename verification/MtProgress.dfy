/** LZ does not wait for ever: however the threads take turns, each step that they have to take
    brings the end of its wait nearer. */
module MtProgress {
  import opened MtSync
  import opened MtPipeline
  import opened MtRuns

  // ---------- how much is left to do ----------

  /** How many steps LZ itself has to take. */
  function LzLeft(c: Reading): (r: nat)
    ensures r < 4
  {
    match c
    case Starting => 3
    case Freeing => 3
    case Waiting => 2
    case Locking => 1
    case StopSetting => 3
    case StopFreeing => 2
    case StopWaiting => 1
    case _ => 0
  }

  /** How far a filling thread is from asking for another block. */
  function FillLeft(f: Filling): (r: nat)
    ensures r < 6
  {
    match f
    case AtCheck(_) => 5
    case AtFill(_) => 4
    case AtStopped => 4
    case AtFilled(_) => 3
    case Asleep => 3
    case AtFree(_) => 2
  }

  /** How far BT is from having filled its block, or from having stopped HASH. */
  function BtLeft(f: Filling, c: Reading): (r: nat)
    ensures r < 10
  {
    match c
    case Outside => if f.AtFill? then 9 else 0
    case Starting => 8
    case Freeing => 8
    case Waiting => 7
    case Locking => 6
    case Inside => 5
    case Aside => if f.AtFill? then 6 else 4
    case StopSetting => 3
    case StopFreeing => 2
    case StopWaiting => 1
  }

  /** How many blocks HASH may fill before BT gives one back. */
  function HashFree(s: State): nat {
    if s.btReads == Outside then 0 else s.hashSync.free
  }

  function MoveLeft(m: Move): (r: nat)
    ensures r < 5
  {
    match m
    case WantBt => 4
    case WantHash => 3
    case Moves => 2
    case Leaves => 1
    case Still => 0
  }

  /** What is left of HASH, behind what is left of BT, behind what is left of LZ. */
  function Left(s: State): nat {
    (((((LzLeft(s.lz) * 17 + s.btSync.free) * 6 + FillLeft(s.bt)) * 10 + BtLeft(s.bt, s.btReads)) * 3
      + HashFree(s)) * 6 + FillLeft(s.hash)) * 5 + MoveLeft(s.move)
  }

  const LONGEST: nat := 4 * 17 * 6 * 10 * 3 * 6 * 5

  /** No more blocks are free than there are. */
  lemma {:induction false} FreeBounded(s: State)
    requires Threads(s) && Waits(s)
    ensures s.btSync.free <= 16 && HashFree(s) <= 2 && Left(s) < LONGEST
    ensures s.hash != Asleep && s.hash != AtStopped ==> s.btReads != Outside
    ensures s.hashSync.canStart ==> s.btReads != Outside
  {
    ThreadsParts(s);
    FreeWithin(s.btSync, s.lz, s.bt);
    if s.btReads != Outside {
      FreeWithin(s.hashSync, s.btReads, s.hash);
    } else {
      RestsAsleep(s.hashSync, s.hash);
    }
    hide Threads, Inv, BtInStep, Locks, Startable, LzLeft, FillLeft, BtLeft, MoveLeft;
  }

  lemma {:induction false} FreeWithin(q: Sync, c: Reading, f: Filling)
    requires Inv(q, c, f) && c != Outside
    ensures q.free <= |q.slots|
  {
    hide InSlots;
  }

  lemma {:induction false} RestsAsleep(q: Sync, f: Filling)
    requires Inv(q, Outside, f)
    ensures f == Asleep && !q.canStart
  {
  }

  // ---------- every step lowers it ----------

  /** t is what is left after a step that lowers one part, and may raise those behind it. */
  predicate Lower(s: State, t: State) {
    if t.lz != s.lz then LzLeft(t.lz) < LzLeft(s.lz)
    else if t.btSync.free != s.btSync.free then t.btSync.free < s.btSync.free
    else if t.bt != s.bt then FillLeft(t.bt) < FillLeft(s.bt)
    else if t.btReads != s.btReads then BtLeft(t.bt, t.btReads) < BtLeft(s.bt, s.btReads)
    else if HashFree(t) != HashFree(s) then HashFree(t) < HashFree(s)
    else if t.hash != s.hash then FillLeft(t.hash) < FillLeft(s.hash)
    else MoveLeft(t.move) < MoveLeft(s.move)
  }

  lemma {:induction false} LowerLeft(s: State, t: State)
    requires Lower(s, t) && t.btSync.free <= 16 && HashFree(t) <= 2
    ensures Left(t) < Left(s)
  {
    hide LzLeft, FillLeft, BtLeft, HashFree, MoveLeft;
  }

  lemma {:induction false} LzLowers(s: State, r: ReadStep)
    requires Waits(s) && s.lz != Aside && LzCan(s, r)
    ensures Lower(s, Do(s, LzReads(r)))
  {
  }

  lemma {:induction false} BtFillLowers(s: State, f: FillStep)
    requires BtCanFill(s, f)
    ensures Lower(s, Do(s, BtFills(f)))
  {
  }

  lemma {:induction false} BtReadLowers(s: State, r: ReadStep)
    requires BtCanRead(s, r) && r != Unlock && BtInStep(s.bt, s.btReads)
    ensures Lower(s, Do(s, BtReads(r)))
  {
  }

  lemma {:induction false} HashFillLowers(s: State, f: FillStep, n: nat)
    requires Can(s, HashFills(f, n)) && s.btReads != Outside
    ensures Lower(s, Do(s, HashFills(f, n)))
  {
  }

  lemma {:induction false} MoveLowers(s: State)
    requires Can(s, HashMoves) && s.move != Still
    ensures Lower(s, Do(s, HashMoves))
  {
  }

  /** Every step that has to be taken while LZ waits brings the end of the wait nearer. */
  lemma {:induction false} ForwardLowers(s: State, a: Action)
    requires Threads(s) && Waits(s) && Forward(s, a) && Waits(Do(s, a))
    ensures Left(Do(s, a)) < Left(s)
  {
    ThreadsParts(s);
    ThreadsKept(s, a);
    FreeBounded(s);
    FreeBounded(Do(s, a));
    hide Threads, Inv, BtInStep, Locks, Startable, Lower, Left, Do, LzCan, BtCanRead, BtCanFill;
    match a {
      case LzReads(r) => LzLowers(s, r);
      case BtFills(f) => BtFillLowers(s, f);
      case BtReads(r) => BtReadLowers(s, r);
      case HashFills(f, n) => HashFillLowers(s, f, n);
      case HashMoves => MoveLowers(s);
    }
    LowerLeft(s, Do(s, a));
  }

  // ---------- whole waits ----------

  /** Steps that have to be taken, each while LZ waits. */
  predicate WaitsOn(s: State, run: seq<Action>)
    decreases |run|
  {
    run == [] || (Waits(s) && Forward(s, run[0]) && WaitsOn(Do(s, run[0]), run[1..]))
  }

  lemma {:induction false} WaitLeft(s: State, run: seq<Action>)
    requires Threads(s) && WaitsOn(s, run)
    ensures |run| <= if Waits(s) then Left(s) + 1 else 0
    decreases |run|
  {
    hide Threads, Left, Do, Can;
    if run != [] {
      ThreadsKept(s, run[0]);
      WaitLeft(Do(s, run[0]), run[1..]);
      if Waits(Do(s, run[0])) {
        ForwardLowers(s, run[0]);
      }
    }
  }

  /** From no reachable state is a wait longer than a constant number of such steps, whichever
      thread takes them. */
  lemma {:induction false} WaitIsBounded(s: State, run: seq<Action>)
    requires Reachable(s) && WaitsOn(s, run)
    ensures |run| <= LONGEST
  {
    hide *;
    ReachableKept(s);
    WaitLeft(s, run);
    if Waits(s) {
      FreeBounded(s);
    }
  }

  lemma {:induction false} EndOfWait(s: State) returns (run: seq<Action>)
    requires Threads(s)
    ensures WaitsOn(s, run) && IsRun(s, run) && !Waits(After(s, run))
    decreases if Waits(s) then Left(s) + 1 else 0
  {
    hide Threads, Left, Do, Can;
    run := [];
    if Waits(s) {
      WaitMoves(s);
      var a :| Forward(s, a);
      ThreadsKept(s, a);
      if Waits(Do(s, a)) {
        ForwardLowers(s, a);
      }
      var rest := EndOfWait(Do(s, a));
      run := [a] + rest;
      assert run[1..] == rest;
    }
  }

  /** And as long as LZ waits there is a next one: they lead to the end of the wait. */
  lemma {:induction false} WaitEnds(s: State)
    requires Reachable(s)
    ensures exists run: seq<Action> :: WaitsOn(s, run) && IsRun(s, run) && !Waits(After(s, run))
  {
    hide *;
    ReachableKept(s);
    var run := EndOfWait(s);
  }
}
