/** What no thread is kept from: how far each can go in its block, and that LZ can read on, stop and
    start again from every reachable state. */
module MtFreedom {
  import opened MtSync
  import opened MtPipeline
  import opened MtRuns
  import opened MtProgress
  import opened Sums

  // ---------- inside a block ----------

  lemma {:induction false} InsideAlong(q: Sync, c: Reading, f: Filling, xs: seq<nat>, off: nat)
    requires Along(q, c, f, xs, off) && c == Inside
    ensures 1 <= q.numProcessed <= |xs| && off <= xs[q.numProcessed - 1]
  {
  }

  lemma {:induction false} AtMostAt(xs: seq<nat>, b: nat, k: nat)
    requires AtMost(xs, b) && k < |xs|
    ensures xs[k] <= b
  {
  }

  lemma {:induction false} RingAlong(s: State)
    requires Threads(s) && Positions(s)
    ensures s.lz == Inside ==> Along(s.btSync, s.lz, s.bt, s.bs, s.lzOff)
    ensures s.btReads == Inside ==> Along(s.hashSync, s.btReads, s.hash, s.hs, s.hashOff)
    ensures AtMost(s.hs, HASH_BLOCK) && AtMost(s.bs, BT_BLOCK) && s.btOff <= BT_BLOCK
  {
    hide Threads, Along, Link, AtMost;
  }

  lemma {:induction false} LzInside(s: State)
    requires Threads(s) && Positions(s) && s.lz == Inside
    ensures 1 <= s.btSync.numProcessed <= |s.bs| && s.lzOff <= s.bs[s.btSync.numProcessed - 1] <= 0x1_0000
  {
    hide *;
    RingAlong(s);
    InsideAlong(s.btSync, s.lz, s.bt, s.bs, s.lzOff);
    AtMostAt(s.bs, BT_BLOCK, s.btSync.numProcessed - 1);
    BlockSizes();
  }

  lemma {:induction false} BlockSizes()
    ensures BT_BLOCK == 0x1_0000 && HASH_BLOCK == 0x2_0000
  {
  }

  lemma {:induction false} LzMay(s: State, n: nat)
    requires s.lz == Inside && 1 <= s.btSync.numProcessed <= |s.bs|
    ensures Can(s, LzGoes(n)) <==> s.lzOff + n <= s.bs[s.btSync.numProcessed - 1]
    ensures Can(s, LzReads(Unlock)) <==> s.lzOff == s.bs[s.btSync.numProcessed - 1]
    ensures Can(s, LzReads(Stop))
  {
  }

  /** LZ has a block: it can take any number of the positions that are left in it, and no more; when
      none is left it can ask for the next block, and it can stop at any time. */
  lemma {:induction false} LzIsFree(s: State)
    requires Reachable(s) && s.lz == Inside
    ensures 1 <= s.btSync.numProcessed <= |s.bs|
    ensures (var left := s.bs[s.btSync.numProcessed - 1] - s.lzOff;
      && 0 <= left <= 0x1_0000
      && (forall n: nat :: Can(s, LzGoes(n)) <==> n <= left)
      && (Can(s, LzReads(Unlock)) <==> left == 0) && Can(s, LzReads(Stop)))
  {
    hide *;
    ReachableKept(s);
    LzInside(s);
    LzMay(s, 0);
    forall n: nat
      ensures Can(s, LzGoes(n)) <==> n <= s.bs[s.btSync.numProcessed - 1] - s.lzOff
    {
      LzMay(s, n);
    }
  }

  lemma {:induction false} BtInside(s: State)
    requires Threads(s) && Positions(s) && s.btReads == Inside
    ensures 1 <= s.hashSync.numProcessed <= |s.hs| && s.hashOff <= s.hs[s.hashSync.numProcessed - 1]
    ensures s.btOff <= 0x1_0000 && |s.btSync.slots| > 0
  {
    hide *;
    RingAlong(s);
    InsideAlong(s.hashSync, s.btReads, s.hash, s.hs, s.hashOff);
    BlockSizes();
    ThreadsParts(s);
  }

  lemma {:induction false} BtMay(s: State, n: nat)
    requires s.btReads == Inside && s.bt.AtFill? && 1 <= s.hashSync.numProcessed <= |s.hs| && |s.btSync.slots| > 0
    ensures Can(s, BtGoes(n)) <==> s.hashOff + n <= s.hs[s.hashSync.numProcessed - 1] && s.btOff + n <= 0x1_0000
    ensures Can(s, BtReads(Unlock)) <==> s.hashOff == s.hs[s.hashSync.numProcessed - 1]
    ensures Can(s, BtFills(Fill))
  {
  }

  /** BT has a hash block and a block to fill: it can take any number of positions that the one has
      and the other has room for; it can end its block, and take the next hash block when this one
      has no more. */
  lemma {:induction false} BtIsFree(s: State)
    requires Reachable(s) && s.btReads == Inside && s.bt.AtFill?
    ensures 1 <= s.hashSync.numProcessed <= |s.hs|
    ensures (var left, room := s.hs[s.hashSync.numProcessed - 1] - s.hashOff, 0x1_0000 - s.btOff;
      && 0 <= left && 0 <= room
      && (forall n: nat :: Can(s, BtGoes(n)) <==> n <= left && n <= room)
      && (Can(s, BtReads(Unlock)) <==> left == 0) && Can(s, BtFills(Fill)))
  {
    hide *;
    ReachableKept(s);
    BtInside(s);
    BtMay(s, 0);
    forall n: nat
      ensures Can(s, BtGoes(n)) <==> n <= s.hs[s.hashSync.numProcessed - 1] - s.hashOff && n <= 0x1_0000 - s.btOff
    {
      BtMay(s, n);
    }
  }

  lemma {:induction false} HashMay(s: State, n: nat)
    requires |s.hashSync.slots| > 0
    ensures s.hash.AtFill? ==> (Can(s, HashFills(Fill, n)) <==> n <= 0x1_FFFE)
    ensures s.hash.AtFree? && s.move == Still ==>
              Can(s, HashMoves) && (Can(s, HashFills(TakeFree, 0)) <==> s.hashSync.free > 0)
  {
  }

  /** HASH can put up to kMtHashBlockSize - 2 positions into a block, and move the window whenever it
      asks for one. */
  lemma {:induction false} HashIsFree(s: State)
    requires Reachable(s)
    ensures s.hash.AtFill? ==> forall n: nat :: Can(s, HashFills(Fill, n)) <==> n <= 0x1_FFFE
    ensures s.hash.AtFree? && s.move == Still ==>
              Can(s, HashMoves) && (Can(s, HashFills(TakeFree, 0)) <==> s.hashSync.free > 0)
  {
    hide *;
    ReachableKept(s);
    ThreadsParts(s);
    HashMay(s, 0);
    if s.hash.AtFill? {
      forall n: nat
        ensures Can(s, HashFills(Fill, n)) <==> n <= 0x1_FFFE
      {
        HashMay(s, n);
      }
    }
  }

  // ---------- from block to block ----------

  /** Which block LZ has, or waits for. */
  function BlockOf(s: State): int {
    if s.lz == Freeing then s.btSync.numProcessed + 1 else s.btSync.numProcessed
  }

  predicate Asks(s: State) { s.lz == Starting || s.lz == Freeing || s.lz == Waiting || s.lz == Locking }

  predicate Stops(s: State) { s.lz == StopSetting || s.lz == StopFreeing || s.lz == StopWaiting }

  lemma {:induction false} LzAsksOn(s: State, r: ReadStep)
    requires LzCan(s, r) && Asks(s) && (s.lz == Starting ==> s.btSync.numProcessed == 1)
    ensures (var t := Do(s, LzReads(r)); (Asks(t) || t.lz == Inside) && BlockOf(t) == BlockOf(s) && t.lz != Starting)
  {
  }

  lemma {:induction false} LzStopsOn(s: State, r: ReadStep)
    requires LzCan(s, r) && Stops(s)
    ensures (var t := Do(s, LzReads(r)); Stops(t) || t.lz == Outside)
  {
  }

  lemma {:induction false} NotAside(s: State, r: ReadStep)
    requires LzCan(s, r)
    ensures s.lz != Aside
  {
  }

  lemma {:induction false} OthersStep(s: State, a: Action)
    requires Can(s, a) && !a.LzReads? && !a.InitMt?
    ensures Do(s, a).lz == s.lz && Do(s, a).btSync.numProcessed == s.btSync.numProcessed
  {
    hide BtCanFill, BtCanRead, Read;
  }

  lemma {:induction false} StepAsks(s: State, a: Action)
    requires Forward(s, a) && Waits(s) && (s.lz == Starting ==> s.btSync.numProcessed == 1)
    ensures (var t := Do(s, a);
      && (Asks(s) ==> (Asks(t) || t.lz == Inside) && BlockOf(t) == BlockOf(s))
      && (Stops(s) ==> Stops(t) || t.lz == Outside)
      && (t.lz == Starting ==> t.btSync.numProcessed == 1))
  {
    hide Do, LzCan;
    match a {
      case LzReads(r) =>
        if Asks(s) {
          LzAsksOn(s, r);
        } else {
          NotAside(s, r);
          LzStopsOn(s, r);
        }
      case _ => OthersStep(s, a);
    }
    hide Can;
  }

  /** Where LZ asks for a block its wait ends with that one, and where it stops it ends outside. */
  lemma {:induction false} WaitFor(s: State, run: seq<Action>)
    requires WaitsOn(s, run) && IsRun(s, run) && (s.lz == Starting ==> s.btSync.numProcessed == 1)
    ensures (var t := After(s, run);
      && (Asks(s) ==> (Asks(t) || t.lz == Inside) && BlockOf(t) == BlockOf(s))
      && (Stops(s) ==> Stops(t) || t.lz == Outside))
    decreases |run|
  {
    hide Do, Can, Forward;
    if run != [] && Waits(s) {
      StepAsks(s, run[0]);
      if Waits(Do(s, run[0])) {
        WaitFor(Do(s, run[0]), run[1..]);
      } else {
        assert run[1..] == [];
      }
    }
  }

  lemma {:induction false} RunsJoin(s: State, a: seq<Action>, b: seq<Action>)
    requires IsRun(s, a) && IsRun(After(s, a), b)
    ensures IsRun(s, a + b) && After(s, a + b) == After(After(s, a), b)
    decreases |a|
  {
    hide Do, Can;
    if a == [] {
      assert a + b == b;
    } else {
      RunsJoin(Do(s, a[0]), a[1..], b);
      assert (a + b)[0] == a[0] && (a + b)[1..] == a[1..] + b;
    }
  }

  lemma {:induction false} RunOfOne(s: State, a: Action)
    requires Can(s, a)
    ensures IsRun(s, [a]) && After(s, [a]) == Do(s, a)
  {
    hide Do, Can;
    assert IsRun(Do(s, a), []) && [a][1..] == [];
  }

  lemma {:induction false} StartsAtOne(s: State)
    requires Threads(s)
    ensures s.lz == Starting ==> s.btSync.numProcessed == 1
  {
    hide InSlots, Runs, Locks, Startable, BtInStep;
  }

  /** From a state in which it waits LZ gets the block it asks for, or gets outside. */
  lemma {:induction false} Served(s: State) returns (run: seq<Action>)
    requires Threads(s) && Positions(s) && Waits(s)
    ensures IsRun(s, run) && Threads(After(s, run)) && Positions(After(s, run))
    ensures Asks(s) ==> After(s, run).lz == Inside && After(s, run).btSync.numProcessed == BlockOf(s)
    ensures Stops(s) ==> After(s, run).lz == Outside
  {
    hide Threads, Positions, Do, Can, Forward;
    StartsAtOne(s);
    run := EndOfWait(s);
    RunKept(s, run);
    WaitFor(s, run);
  }

  lemma {:induction false} LastPositions(s: State)
    requires Threads(s) && Positions(s) && s.lz == Inside
    ensures 1 <= s.btSync.numProcessed <= |s.bs| && s.lzOff <= s.bs[s.btSync.numProcessed - 1]
    ensures (var a := LzGoes(s.bs[s.btSync.numProcessed - 1] - s.lzOff);
      && Can(s, a) && Do(s, a).lz == Inside && Can(Do(s, a), LzReads(Unlock))
      && (var t := Do(Do(s, a), LzReads(Unlock)); t.lz == Freeing && t.btSync.numProcessed == s.btSync.numProcessed))
  {
    RingAlong(s);
    InsideAlong(s.btSync, s.lz, s.bt, s.bs, s.lzOff);
    hide Threads, Positions, Along;
  }

  /** From a block to the next one. */
  lemma {:induction false} NextBlock(s: State) returns (run: seq<Action>)
    requires Threads(s) && Positions(s) && s.lz == Inside
    ensures IsRun(s, run) && Threads(After(s, run)) && Positions(After(s, run))
    ensures After(s, run).lz == Inside && After(s, run).btSync.numProcessed == s.btSync.numProcessed + 1
  {
    LastPositions(s);
    hide *;
    var a := LzGoes(s.bs[s.btSync.numProcessed - 1] - s.lzOff);
    var t := Do(s, a);
    var u := Do(t, LzReads(Unlock));
    RunOfOne(s, a);
    RunKept(s, [a]);
    RunOfOne(t, LzReads(Unlock));
    RunKept(t, [LzReads(Unlock)]);
    AsksWaits(u);
    var rest := Served(u);
    RunsJoin(t, [LzReads(Unlock)], rest);
    RunsJoin(s, [a], [LzReads(Unlock)] + rest);
    run := [a] + ([LzReads(Unlock)] + rest);
  }

  lemma {:induction false} AsksWaits(s: State)
    ensures Asks(s) || Stops(s) ==> Waits(s)
    ensures s.lz == Freeing ==> Asks(s) && BlockOf(s) == s.btSync.numProcessed + 1
    ensures s.lz == Starting ==> Asks(s) && BlockOf(s) == s.btSync.numProcessed
    ensures s.lz == StopSetting ==> Stops(s)
    ensures s.lz == Outside || s.lz == Inside || s.lz == Aside || Asks(s) || Stops(s)
  {
  }

  lemma {:induction false} StopOpen(s: State)
    requires s.lz == Inside
    ensures Can(s, LzReads(Stop)) && Do(s, LzReads(Stop)).lz == StopSetting
  {
  }

  lemma {:induction false} StopFromBlock(s: State) returns (run: seq<Action>)
    requires Threads(s) && Positions(s) && s.lz == Inside
    ensures IsRun(s, run) && Threads(After(s, run)) && Positions(After(s, run)) && After(s, run).lz == Outside
  {
    hide *;
    StopOpen(s);
    RunOfOne(s, LzReads(Stop));
    RunKept(s, [LzReads(Stop)]);
    var t := Do(s, LzReads(Stop));
    AsksWaits(t);
    var rest := Served(t);
    RunsJoin(s, [LzReads(Stop)], rest);
    run := [LzReads(Stop)] + rest;
  }

  /** From anywhere LZ can get outside. */
  lemma {:induction false} GetOut(s: State) returns (run: seq<Action>)
    requires Threads(s) && Positions(s)
    ensures IsRun(s, run) && Threads(After(s, run)) && Positions(After(s, run)) && After(s, run).lz == Outside
  {
    hide *;
    ThreadsParts(s);
    AsksWaits(s);
    if s.lz == Outside {
      run := [];
      NoRun(s);
    } else if s.lz == Inside {
      run := StopFromBlock(s);
    } else {
      run := Served(s);
      if Asks(s) {
        var rest := StopFromBlock(After(s, run));
        RunsJoin(s, run, rest);
        run := run + rest;
      }
    }
  }

  lemma {:induction false} NoRun(s: State)
    ensures IsRun(s, []) && After(s, []) == s
  {
  }

  lemma {:induction false} StartOpen(s: State)
    requires Threads(s) && s.lz == Outside
    ensures Can(s, InitMt) && Can(Do(s, InitMt), LzReads(Start))
    ensures (var t := Do(Do(s, InitMt), LzReads(Start)); t.lz == Starting && t.btSync.numProcessed == 1)
  {
    hide InSlots;
  }

  /** From outside to the first block. */
  lemma {:induction false} FirstBlock(s: State) returns (run: seq<Action>)
    requires Threads(s) && Positions(s) && s.lz == Outside
    ensures IsRun(s, run) && Threads(After(s, run)) && Positions(After(s, run))
    ensures After(s, run).lz == Inside && After(s, run).btSync.numProcessed == 1
  {
    hide *;
    StartOpen(s);
    RunOfOne(s, InitMt);
    RunKept(s, [InitMt]);
    var t := Do(s, InitMt);
    RunOfOne(t, LzReads(Start));
    RunKept(t, [LzReads(Start)]);
    var u := Do(t, LzReads(Start));
    AsksWaits(u);
    var rest := Served(u);
    RunsJoin(t, [LzReads(Start)], rest);
    RunsJoin(s, [InitMt], [LzReads(Start)] + rest);
    run := [InitMt] + ([LzReads(Start)] + rest);
  }

  lemma {:induction false} BlockAfterBlock(s: State, k: nat) returns (run: seq<Action>)
    requires Threads(s) && Positions(s) && s.lz == Outside && k > 0
    ensures IsRun(s, run) && Threads(After(s, run)) && Positions(After(s, run))
    ensures After(s, run).lz == Inside && After(s, run).btSync.numProcessed == k
    decreases k
  {
    hide *;
    if k == 1 {
      run := FirstBlock(s);
    } else {
      run := BlockAfterBlock(s, k - 1);
      var rest := NextBlock(After(s, run));
      RunsJoin(s, run, rest);
      run := run + rest;
    }
  }

  // ---------- every block, from everywhere ----------

  /** From every reachable state LZ can stop, start again, and get as many blocks as it wants. */
  lemma {:induction false} EveryBlockComes(s: State, k: nat)
    requires Reachable(s) && k > 0
    ensures exists run: seq<Action> ::
              && IsRun(s, run) && After(s, run).lz == Inside && After(s, run).btSync.numProcessed == k
              && LooksAt(After(s, run).btSync, 16, k - 1)
  {
    hide *;
    ReachableKept(s);
    var out := GetOut(s);
    var rest := BlockAfterBlock(After(s, out), k);
    RunsJoin(s, out, rest);
    Further(s, out + rest);
    BlocksInOrder(After(s, out + rest));
    ThreadsParts(After(s, out + rest));
  }

  /** And from a block it can go on to the next one without a stop. */
  lemma {:induction false} NextBlockComes(s: State)
    requires Reachable(s) && s.lz == Inside
    ensures exists run: seq<Action> ::
              && IsRun(s, run) && After(s, run).lz == Inside
              && After(s, run).btSync.numProcessed == s.btSync.numProcessed + 1
  {
    hide *;
    ReachableKept(s);
    var run := NextBlock(s);
  }

  lemma {:induction false} Further(s: State, run: seq<Action>)
    requires Reachable(s) && IsRun(s, run)
    ensures Reachable(After(s, run))
  {
    hide First, Can, Do;
    var before :| IsRun(First(), before) && After(First(), before) == s;
    RunsJoin(First(), before, run);
  }
}
