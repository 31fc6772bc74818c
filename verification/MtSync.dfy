/** CMtSync (LzFindMt.c:122-240, 448-549, 740-794): a ring of blocks between a thread that fills
    them and one that reads them, with two semaphores, a lock, and a way to stop and start again.
    Every step is one operation on the shared fields. */
module MtSync {
  import Arith

  datatype Holder = Nobody | Reader | Mover

  /** The shared fields, who is in the critical section, which block each slot holds, and whether
      the semaphores are as MtSync_Init leaves them. */
  datatype Sync = Sync(needStart: bool, stopWriting: bool, canStart: bool, wasStopped: bool, numProcessed: nat,
                       free: nat, filled: nat, cs: Holder, slots: seq<int>, inited: bool)

  /** Where the reading thread is: outside, in the steps of MtSync_GetNextBlock, with a block and
      the lock, with a block alone, or in the steps of MtSync_StopWriting. */
  datatype Reading = Outside | Starting | Waiting | Locking | Inside | Aside | Freeing
    | StopSetting | StopFreeing | StopWaiting

  /** Where the filling thread is, with its blockIndex. */
  datatype Filling = Asleep | AtFree(index: nat) | AtCheck(index: nat) | AtFill(index: nat) | AtFilled(index: nat)
    | AtStopped

  datatype ReadStep = Init | Start | Go | Unlock | Free | Take | Lock | Leave | Return | Stop | SetStop
    | FreeStop | Stopped

  datatype FillStep = Wake | TakeFree | Check | Fill | Release | SetStopped

  // ---------- the steps ----------

  predicate CanRead(q: Sync, c: Reading, a: ReadStep) {
    match a
    case Init => c == Outside
    case Start => c == Outside && q.needStart && q.inited
    case Go => c == Starting
    case Unlock => c == Inside
    case Free => c == Freeing
    case Take => c == Waiting && q.filled > 0
    case Lock => c == Locking && q.cs == Nobody
    case Leave => c == Inside
    case Return => c == Aside && q.cs == Nobody
    case Stop => c == Inside || c == Aside
    case SetStop => c == StopSetting
    case FreeStop => c == StopFreeing
    case Stopped => c == StopWaiting && q.wasStopped
  }

  function Read(q: Sync, c: Reading, a: ReadStep): (r: (Sync, Reading))
    requires CanRead(q, c, a)
  {
    match a
    case Init => (q.(free := |q.slots|, filled := 0, inited := true), Outside)
    case Start => (q.(numProcessed := 1, needStart := false, stopWriting := false, wasStopped := false), Starting)
    case Go => (q.(canStart := true), Waiting)
    case Unlock => (q.(cs := Nobody), Freeing)
    case Free => (q.(numProcessed := q.numProcessed + 1, free := q.free + 1), Waiting)
    case Take => (q.(filled := q.filled - 1), Locking)
    case Lock => (q.(cs := Reader), Inside)
    case Leave => (q.(cs := Nobody), Aside)
    case Return => (q.(cs := Reader), Inside)
    case Stop => (if c == Inside then q.(cs := Nobody) else q, StopSetting)
    case SetStop => (q.(stopWriting := true), StopFreeing)
    case FreeStop => (q.(free := q.free + 1), StopWaiting)
    case Stopped => (q.(wasStopped := false, needStart := true, inited := false), Outside)
  }

  predicate CanFill(q: Sync, f: Filling, a: FillStep) {
    match a
    case Wake => f == Asleep && q.canStart
    case TakeFree => f.AtFree? && q.free > 0
    case Check => f.AtCheck?
    case Fill => f.AtFill? && |q.slots| > 0
    case Release => f.AtFilled?
    case SetStopped => f == AtStopped
  }

  function DoFill(q: Sync, f: Filling, a: FillStep): (r: (Sync, Filling))
    requires CanFill(q, f, a)
  {
    match a
    case Wake => (q.(canStart := false), AtFree(0))
    case TakeFree => (q.(free := q.free - 1), AtCheck(f.index))
    case Check => (q, if q.stopWriting then AtStopped else AtFill(f.index))
    case Fill => (q.(slots := q.slots[f.index % |q.slots| := f.index]), AtFilled(f.index))
    case Release => (q.(filled := q.filled + 1), AtFree(f.index + 1))
    case SetStopped => (q.(wasStopped := true), Asleep)
  }

  // ---------- the invariant ----------

  /** How many blocks the reader has. */
  function Has(c: Reading): (r: nat) {
    if c == Locking || c == Inside || c == Aside || c == Freeing || c == StopSetting || c == StopFreeing then 1 else 0
  }

  /** How many blocks are being filled, or were when the stop was seen. */
  function Making(q: Sync, f: Filling): (r: nat) {
    if f.AtCheck? || f.AtFill? || f.AtFilled? || f == AtStopped || (f == Asleep && q.wasStopped) then 1 else 0
  }

  /** How many blocks the reader has had, and the filler has made known. */
  function Taken(q: Sync, c: Reading): int {
    if Has(c) == 1 || c == StopWaiting then q.numProcessed else q.numProcessed - 1
  }

  function Made(f: Filling): nat {
    if f.AtFree? || f.AtCheck? || f.AtFill? || f.AtFilled? then f.index else 0
  }

  predicate Stopping(c: Reading) { c == StopFreeing || c == StopWaiting }

  /** The filling thread is at work, or about to be. */
  predicate Working(q: Sync, f: Filling) {
    if f == Asleep then q.canStart else f != AtStopped
  }

  /** Each block from lo on that is made is in its slot. */
  predicate InSlots(slots: seq<int>, lo: int, hi: int) {
    |slots| > 0 && forall j: int | lo <= j < hi && 0 <= j :: slots[j % |slots|] == j
  }

  /** Between two runs. */
  predicate Rests(q: Sync, f: Filling) {
    && q.needStart && f == Asleep && !q.canStart && !q.wasStopped
    && (q.inited ==> q.free == |q.slots| && q.filled == 0)
  }

  /** Nothing made or taken yet. */
  predicate Begins(q: Sync) {
    q.free == |q.slots| && q.filled == 0 && q.numProcessed == 1 && !q.wasStopped && !q.stopWriting
  }

  /** While a run goes on: no block is lost, filled blocks are those made and not taken, and
      the slots hold them. */
  predicate Runs(q: Sync, c: Reading, f: Filling) {
    && !q.needStart && q.numProcessed >= 1
    && q.free + q.filled + Making(q, f) + Has(c) == |q.slots|
    && (q.stopWriting <==> Stopping(c))
    && (q.canStart ==> f == Asleep && c == Waiting && Begins(q))
    && (Working(q, f) ==> !q.wasStopped && q.filled == Made(f) - Taken(q, c)
                          && InSlots(q.slots, Taken(q, c) - Has(c), if f.AtFilled? then Made(f) + 1 else Made(f)))
    && (!Working(q, f) ==> Stopping(c) && (f == Asleep <==> q.wasStopped))
    && (c == StopWaiting && (f.AtFree? || f.AtFill? || f.AtFilled?) ==> q.free >= 1)
  }

  /** What all steps of both threads keep. */
  predicate Inv(q: Sync, c: Reading, f: Filling) {
    && |q.slots| > 0 && (q.cs == Reader <==> c == Inside)
    && (match c
        case Outside => Rests(q, f)
        case Starting => !q.needStart && f == Asleep && !q.canStart && Begins(q)
        case _ => Runs(q, c, f))
  }

  lemma {:induction false} InitKeeps(q: Sync, c: Reading, f: Filling)
    requires Inv(q, c, f) && CanRead(q, c, Init)
    ensures (var r := Read(q, c, Init); Inv(r.0, r.1, f))
  {
    hide InSlots;
  }

  lemma {:induction false} StartKeeps(q: Sync, c: Reading, f: Filling)
    requires Inv(q, c, f) && CanRead(q, c, Start)
    ensures (var r := Read(q, c, Start); Inv(r.0, r.1, f))
  {
    hide InSlots;
  }

  lemma {:induction false} GoKeeps(q: Sync, c: Reading, f: Filling)
    requires Inv(q, c, f) && CanRead(q, c, Go)
    ensures (var r := Read(q, c, Go); Inv(r.0, r.1, f))
  {
  }

  lemma {:induction false} UnlockKeeps(q: Sync, c: Reading, f: Filling)
    requires Inv(q, c, f) && CanRead(q, c, Unlock)
    ensures (var r := Read(q, c, Unlock); Inv(r.0, r.1, f))
  {
    hide InSlots;
  }

  lemma {:induction false} FreeKeeps(q: Sync, c: Reading, f: Filling)
    requires Inv(q, c, f) && CanRead(q, c, Free)
    ensures (var r := Read(q, c, Free); Inv(r.0, r.1, f))
  {
    FewerInSlots(q.slots, q.numProcessed - 1, q.numProcessed, if f.AtFilled? then Made(f) + 1 else Made(f));
    hide InSlots;
  }

  lemma {:induction false} TakeKeeps(q: Sync, c: Reading, f: Filling)
    requires Inv(q, c, f) && CanRead(q, c, Take)
    ensures (var r := Read(q, c, Take); Inv(r.0, r.1, f))
  {
    hide InSlots;
  }

  lemma {:induction false} LockKeeps(q: Sync, c: Reading, f: Filling)
    requires Inv(q, c, f) && CanRead(q, c, Lock)
    ensures (var r := Read(q, c, Lock); Inv(r.0, r.1, f))
  {
    hide InSlots;
  }

  lemma {:induction false} LeaveKeeps(q: Sync, c: Reading, f: Filling)
    requires Inv(q, c, f) && CanRead(q, c, Leave)
    ensures (var r := Read(q, c, Leave); Inv(r.0, r.1, f))
  {
    hide InSlots;
  }

  lemma {:induction false} ReturnKeeps(q: Sync, c: Reading, f: Filling)
    requires Inv(q, c, f) && CanRead(q, c, Return)
    ensures (var r := Read(q, c, Return); Inv(r.0, r.1, f))
  {
    hide InSlots;
  }

  lemma {:induction false} StopKeeps(q: Sync, c: Reading, f: Filling)
    requires Inv(q, c, f) && CanRead(q, c, Stop)
    ensures (var r := Read(q, c, Stop); Inv(r.0, r.1, f))
  {
    hide InSlots;
  }

  lemma {:induction false} SetStopKeeps(q: Sync, c: Reading, f: Filling)
    requires Inv(q, c, f) && CanRead(q, c, SetStop)
    ensures (var r := Read(q, c, SetStop); Inv(r.0, r.1, f))
  {
    hide InSlots;
  }

  lemma {:induction false} FreeStopKeeps(q: Sync, c: Reading, f: Filling)
    requires Inv(q, c, f) && CanRead(q, c, FreeStop)
    ensures (var r := Read(q, c, FreeStop); Inv(r.0, r.1, f))
  {
    FewerInSlots(q.slots, q.numProcessed - 1, q.numProcessed, if f.AtFilled? then Made(f) + 1 else Made(f));
    hide InSlots;
  }

  lemma {:induction false} StoppedKeeps(q: Sync, c: Reading, f: Filling)
    requires Inv(q, c, f) && CanRead(q, c, Stopped)
    ensures (var r := Read(q, c, Stopped); Inv(r.0, r.1, f))
  {
    hide InSlots;
  }

  lemma {:induction false} ReadKeeps(q: Sync, c: Reading, f: Filling, a: ReadStep)
    requires Inv(q, c, f) && CanRead(q, c, a)
    ensures (var r := Read(q, c, a); Inv(r.0, r.1, f))
  {
    hide *;
    match a
    case Init => InitKeeps(q, c, f);
    case Start => StartKeeps(q, c, f);
    case Go => GoKeeps(q, c, f);
    case Unlock => UnlockKeeps(q, c, f);
    case Free => FreeKeeps(q, c, f);
    case Take => TakeKeeps(q, c, f);
    case Lock => LockKeeps(q, c, f);
    case Leave => LeaveKeeps(q, c, f);
    case Return => ReturnKeeps(q, c, f);
    case Stop => StopKeeps(q, c, f);
    case SetStop => SetStopKeeps(q, c, f);
    case FreeStop => FreeStopKeeps(q, c, f);
    case Stopped => StoppedKeeps(q, c, f);
  }

  lemma {:induction false} FewerInSlots(slots: seq<int>, lo: int, lo': int, hi: int)
    requires lo <= lo'
    ensures InSlots(slots, lo, hi) ==> InSlots(slots, lo', hi)
  {
  }

  /** A slot that is written holds no block that is made and not given back. */
  lemma {:induction false} SlotsDiffer(i: int, j: int, n: int)
    requires 0 < n && j < i < j + n
    ensures i % n != j % n
  {
    var q, r, d := j / n, j % n, i - j;
    assert j == n * q + r;
    if r + d < n {
      assert i == q * n + (r + d);
      Arith.DivModUnique(i, n, q, r + d);
    } else {
      assert i == (q + 1) * n + (r + d - n);
      Arith.DivModUnique(i, n, q + 1, r + d - n);
    }
  }

  lemma {:induction false} WrittenSlots(slots: seq<int>, lo: int, i: nat)
    requires InSlots(slots, lo, i) && i - lo < |slots|
    ensures InSlots(slots[i % |slots| := i], lo, i + 1)
  {
    forall j: int | lo <= j < i + 1 && 0 <= j
      ensures slots[i % |slots| := i][j % |slots|] == j
    {
      if j < i {
        SlotsDiffer(i, j, |slots|);
      }
    }
  }

  lemma {:induction false} WakeKeeps(q: Sync, c: Reading, f: Filling)
    requires Inv(q, c, f) && CanFill(q, f, Wake)
    ensures (var r := DoFill(q, f, Wake); Inv(r.0, c, r.1))
  {
    hide InSlots;
  }

  lemma {:induction false} TakeFreeKeeps(q: Sync, c: Reading, f: Filling)
    requires Inv(q, c, f) && CanFill(q, f, TakeFree)
    ensures (var r := DoFill(q, f, TakeFree); Inv(r.0, c, r.1))
  {
    hide InSlots;
  }

  lemma {:induction false} CheckKeeps(q: Sync, c: Reading, f: Filling)
    requires Inv(q, c, f) && CanFill(q, f, Check)
    ensures (var r := DoFill(q, f, Check); Inv(r.0, c, r.1))
  {
    hide InSlots;
  }

  lemma {:induction false} FilledKeeps(q: Sync, c: Reading, f: Filling)
    requires Inv(q, c, f) && CanFill(q, f, Fill)
    ensures (var r := DoFill(q, f, Fill); Inv(r.0, c, r.1))
  {
    FillingRuns(q, c, f);
    WrittenSlots(q.slots, Taken(q, c) - Has(c), f.index);
    FilledRuns(q, q.(slots := q.slots[f.index % |q.slots| := f.index]), c, f.index);
    hide InSlots, Runs, Rests, Begins;
  }

  lemma {:induction false} FillingRuns(q: Sync, c: Reading, f: Filling)
    requires Inv(q, c, f) && f.AtFill?
    ensures c != Outside && c != Starting && Runs(q, c, f)
    ensures InSlots(q.slots, Taken(q, c) - Has(c), f.index) && f.index - (Taken(q, c) - Has(c)) < |q.slots|
  {
    hide InSlots;
  }

  lemma {:induction false} FilledRuns(q: Sync, q': Sync, c: Reading, i: nat)
    requires Runs(q, c, AtFill(i)) && q' == q.(slots := q'.slots) && |q'.slots| == |q.slots|
    requires InSlots(q'.slots, Taken(q', c) - Has(c), i + 1)
    ensures Runs(q', c, AtFilled(i))
  {
    hide InSlots;
  }

  lemma {:induction false} ReleaseKeeps(q: Sync, c: Reading, f: Filling)
    requires Inv(q, c, f) && CanFill(q, f, Release)
    ensures (var r := DoFill(q, f, Release); Inv(r.0, c, r.1))
  {
    hide InSlots;
  }

  lemma {:induction false} SetStoppedKeeps(q: Sync, c: Reading, f: Filling)
    requires Inv(q, c, f) && CanFill(q, f, SetStopped)
    ensures (var r := DoFill(q, f, SetStopped); Inv(r.0, c, r.1))
  {
    hide InSlots;
  }

  lemma {:induction false} FillKeeps(q: Sync, c: Reading, f: Filling, a: FillStep)
    requires Inv(q, c, f) && CanFill(q, f, a)
    ensures (var r := DoFill(q, f, a); Inv(r.0, c, r.1))
  {
    hide *;
    match a
    case Wake => WakeKeeps(q, c, f);
    case TakeFree => TakeFreeKeeps(q, c, f);
    case Check => CheckKeeps(q, c, f);
    case Fill => FilledKeeps(q, c, f);
    case Release => ReleaseKeeps(q, c, f);
    case SetStopped => SetStoppedKeeps(q, c, f);
  }

  // ---------- what the invariant says of one ring ----------

  /** The block that is filled is none that the reader has or may still take. */
  lemma {:induction false} NotOverwritten(q: Sync, c: Reading, f: Filling, j: int)
    requires Inv(q, c, f) && f.AtFill? && Taken(q, c) - Has(c) <= j < Made(f)
    ensures f.index % |q.slots| != j % |q.slots|
  {
    hide InSlots;
    SlotsDiffer(f.index, j, |q.slots|);
  }

  /** Blocks are taken in order: the slot that the reader looks at has the next block. */
  lemma {:induction false} InOrder(q: Sync, c: Reading, f: Filling)
    requires Inv(q, c, f) && (c == Inside || c == Aside)
    ensures q.numProcessed >= 1 && |q.slots| > 0 && q.slots[(q.numProcessed - 1) % |q.slots|] == q.numProcessed - 1
  {
    var j := q.numProcessed - 1;
    assert InSlots(q.slots, j, Made(f)) || InSlots(q.slots, j, Made(f) + 1);
  }

  /** No semaphore is released beyond the count it was made with. */
  lemma {:induction false} ReleaseFits(q: Sync, c: Reading, f: Filling)
    requires Inv(q, c, f)
    ensures c == Freeing || c == StopFreeing ==> q.free < |q.slots|
    ensures f.AtFilled? ==> q.filled < |q.slots|
  {
    hide InSlots;
  }

  /** A thread that waits to be stopped is not forgotten: the filling thread is on its way. */
  lemma {:induction false} StopIsSeen(q: Sync, c: Reading, f: Filling)
    requires Inv(q, c, f) && c == StopWaiting && !q.wasStopped
    ensures f != Asleep && (f.AtFree? ==> q.free > 0)
  {
    hide InSlots;
  }

  /** A reader that waits for a block finds the filling thread at work, with a block to fill. */
  lemma {:induction false} FillIsComing(q: Sync, c: Reading, f: Filling)
    requires Inv(q, c, f) && c == Waiting && q.filled == 0
    ensures f != AtStopped && (f == Asleep ==> q.canStart) && (f.AtFree? ==> q.free > 0)
  {
    hide InSlots;
  }

  lemma {:induction false} HolderIs(q: Sync, c: Reading, f: Filling)
    requires Inv(q, c, f)
    ensures q.cs == Reader <==> c == Inside
    ensures |q.slots| > 0
  {
    hide Runs, Rests, Begins;
  }

  /** Read steps do not touch what the mover has, nor the slots. */
  lemma {:induction false} ReadHolder(q: Sync, c: Reading, a: ReadStep)
    requires CanRead(q, c, a) && (q.cs == Reader <==> c == Inside)
    ensures (var r := Read(q, c, a);
      && (r.0.cs == Mover <==> q.cs == Mover) && r.0.slots == q.slots
      && (r.0.inited == q.inited || a == Init || a == Stopped)
      && (r.1 == Outside ==> a == Init || a == Stopped))
  {
    match a
    case Init =>
    case Start =>
    case Go =>
    case Unlock =>
    case Free =>
    case Take =>
    case Lock =>
    case Leave =>
    case Return =>
    case Stop =>
    case SetStop =>
    case FreeStop =>
    case Stopped =>
  }
}
