/** A binary-tree match finder (LzFind.c) over data that is all in memory: bt2, or the bt3 of
    the Deflate encoder. */
module LzFind {
  import opened Machine
  import opened LzTree
  import opened LzSon
  import opened LzSearch
  import opened LzForest
  import opened LzMatches
  import opened LzPlain
  import opened LzWindow

  class MatchFinder {
    const w: nat
    const n: nat
    const matchMaxLen: nat
    const cutValue: Word
    const crc: seq<Word>
    const hash: array<Word>
    const son: array<Word>
    var data: seq<Byte>
    var pos: Word
    var cur: nat
    var cyclicBufferPos: nat
    ghost var base: int
    ghost var trees: seq<Tree>
    ghost var complete: bool

    function P(): Setup
      reads this
    {
      Setup(data, w, n, matchMaxLen, cutValue, crc)
    }

    /** The fields as a value. */
    ghost function Snap(): State
      reads this, hash, son
    {
      State(hash[..], son[..], pos, cur, cyclicBufferPos, base, trees, complete)
    }

    ghost predicate Created()
      reads this
    {
      Fine(P()) && hash != son && hash.Length == BUCKETS && son.Length == 2 * w
    }

    ghost predicate Valid()
      reads this, hash, son
    {
      Created() && Inv(P(), Snap())
    }

    /** MatchFinder_Create: nothing is set in the arrays (LzFind.c:376-494). */
    constructor (historySize: nat, numHashBytes: nat, maxLen: nat, cut: Word, table: seq<Word>)
      requires 1 <= historySize < 0xFFFF_FFFF && 2 <= numHashBytes <= 3 && |table| == 0x100
      ensures Created() && fresh(hash) && fresh(son) && data == []
      ensures w == historySize + 1 && n == numHashBytes && matchMaxLen == maxLen && cutValue == cut && crc == table
    {
      w, n, matchMaxLen, cutValue, crc := historySize + 1, numHashBytes, maxLen, cut, table;
      hash := new Word[BUCKETS];
      son := new Word[2 * (historySize + 1)];
      data, pos, cur, cyclicBufferPos := [], 0, 0, 0;
      base, trees, complete := 0, [], true;
    }

    /** MatchFinder_Init: whatever the arrays hold, all trees are empty (LzFind.c:539-597). */
    method Init(input: seq<Byte>)
      requires Created()
      modifies this, hash
      ensures Valid() && data == input && cur == 0 && trees == NoTrees()
    {
      var i := 0;
      while i < hash.Length
        invariant 0 <= i <= hash.Length && Created()
        invariant forall k | 0 <= k < i :: hash[k] == 0
        modifies hash
      {
        hash[i] := 0;
        i := i + 1;
      }
      data, pos, cur, cyclicBufferPos := input, 1, 0, 1;
      base, trees, complete := -1, NoTrees(), true;
      InitInv(P(), Snap());
    }

    /** MatchFinder_CheckLimits (LzFind.c:831-873): references are reduced where the position has
        wrapped, and the cyclic array begins again. */
    method CheckLimits()
      requires 2 <= w < 0x1_0000_0000 && hash != son
      modifies this`pos, this`base, this`cyclicBufferPos, hash, son
      ensures cyclicBufferPos == if old(cyclicBufferPos) == w then 0 else old(cyclicBufferPos)
      ensures (var sub := 0x1_0000_0000 - w;
        if old(pos) == 0 && cur + n <= |data|
        then pos == w && base == old(base) + sub && hash[..] == Reduced(old(hash[..]), sub)
             && son[..] == Reduced(old(son[..]), sub)
        else pos == old(pos) && base == old(base) && hash[..] == old(hash[..]) && son[..] == old(son[..]))
    {
      hide *;
      if pos == 0 {
        if |data| - cur >= n {
          var subValue := 0x1_0000_0000 - w;
          pos := w;
          base := base + subValue;
          Normalize(subValue, hash);
          Normalize(subValue, son);
        }
      }
      if cyclicBufferPos == w {
        cyclicBufferPos := 0;
      }
    }

    /** MOVE_POS with MatchFinder_CheckLimits. */
    method MovePos()
      requires Created() && cur < |data|
      modifies this, hash, son
      ensures data == old(data) && cur == old(cur) + 1 && Created()
      ensures Snap() == Moved(P(), old(Snap()))
    {
      hide *;
      ghost var s, p := Snap(), P();
      FieldsIs();
      CreatedParts();
      MovedIsState(p, s);
      cyclicBufferPos := cyclicBufferPos + 1;
      cur := cur + 1;
      pos := if pos == 0xFFFF_FFFF then 0 else pos + 1;
      trees := Trimmed(trees, Start(p, cur));
      CheckLimits();
      FieldsIs();
      CreatedStays(p);
    }

    /** The matches at the current position, each longer than those before it; then the
        position moves on (LzFind.c:1114-1168). */
    method GetMatches() returns (d: seq<Match>)
      requires Valid() && cur < |data|
      modifies this, hash, son
      ensures Valid() && data == old(data)
      ensures Snap() == Next(P(), old(Snap()))
      ensures RealHits(P(), old(cur), Reported(P(), old(Snap())))
      ensures d == MatchesOf(Reported(P(), old(Snap())), old(cur))
      ensures w - 1 <= Turns(cutValue) && Active(P(), old(cur)) ==> BestHits(P(), old(cur), Reported(P(), old(Snap())))
      ensures TrueMatches(data, old(cur), d, w - 1, n, matchMaxLen, cutValue)
      ensures old(cur) + n > |data| || n > matchMaxLen ==> d == []
      ensures cutValue == 0 || cutValue >= w - 1 ==> AllMatched(data, old(cur), d, w - 1, n, matchMaxLen)
    {
      hide *;
      ghost var s, p := Snap(), P();
      FieldsIs();
      ValidParts();
      InvParts(p, s);
      ReportedReal(p, s);
      ReportsTrue(p, s);
      if p.cut == 0 || p.cut >= p.w - 1 {
        ReportsAll(p, s);
      }
      if Active(p, cur) && p.w - 1 <= Turns(p.cut) {
        LargeCutBest(p, s);
      }
      var lenLimit := Limit(P(), cur);
      ActiveIs(p, cur);
      if lenLimit < n {
        NothingReported(p, s);
        NoMatches(cur);
        d := [];
      } else {
        SearchAt(p, s);
        ReportedIs(p, s);
        var hv := HashAt(P(), cur);
        var curMatch := hash[hv];
        hash[hv] := pos;
        d := GetMatchesSpec1(data, lenLimit, curMatch, pos, cur, son, cyclicBufferPos, w, cutValue, n - 1, base,
          trees[hv]);
        complete := complete && Steps(data, trees[hv], cur, lenLimit) <= Turns(cutValue);
        trees := trees[hv := Grown(p, trees[hv], cur, lenLimit)];
        FieldsIs();
        assert hash[..] == s.hash[hv := s.pos];
        assert P() == p;
        assert Snap() == AfterSearch(p, s);
      }
      assert P() == p;
      CreatedStays(p);
      MovePos();
      FieldsIs();
      assert P() == p;
      NextIs(p, s);
      ValidIntro();
    }

    /** The same positions enter the trees, and nothing is reported (LzFind.c:1121-1130, 1515-1535). */
    method Skip(num0: nat)
      requires Valid() && 1 <= num0 && cur + num0 <= |data|
      modifies this, hash, son
      ensures Valid() && data == old(data)
      ensures Snap() == Run(P(), old(Snap()), num0)
    {
      hide *;
      FieldsIs();
      ValidParts();
      ghost var p, goal := P(), Run(P(), Snap(), num0);
      var num := num0;
      while num > 0
        invariant num <= num0 && Valid() && data == old(data) && P() == p && p.t == data && cur + num <= |data|
        invariant Inv(p, Snap()) && Snap().cur == cur && Run(p, Snap(), num) == goal
      {
        FieldsIs();
        RunStep(p, Snap(), num);
        SkipOne();
        FieldsIs();
        ValidParts();
        num := num - 1;
      }
      RunNone(p, Snap());
    }

    /** One round of the loop of Bt2_MatchFinder_Skip (LzFind.c:1515-1525). */
    method SkipOne()
      requires Valid() && cur < |data|
      modifies this, hash, son
      ensures Valid() && data == old(data) && cur == old(cur) + 1
      ensures Snap() == Next(P(), old(Snap())) && P() == old(P())
    {
      hide *;
      ghost var s, p := Snap(), P();
      FieldsIs();
      ValidParts();
      InvParts(p, s);
      var lenLimit := Limit(P(), cur);
      ActiveIs(p, cur);
      if lenLimit >= n {
        SearchAt(p, s);
        var hv := HashAt(P(), cur);
        var curMatch := hash[hv];
        hash[hv] := pos;
        SkipMatchesSpec(data, lenLimit, curMatch, pos, cur, son, cyclicBufferPos, w, cutValue, base, trees[hv]);
        complete := complete && Steps(data, trees[hv], cur, lenLimit) <= Turns(cutValue);
        trees := trees[hv := Grown(p, trees[hv], cur, lenLimit)];
        FieldsIs();
        assert hash[..] == s.hash[hv := s.pos];
        assert P() == p;
        assert Snap() == AfterSearch(p, s);
      }
      assert P() == p;
      CreatedStays(p);
      MovePos();
      FieldsIs();
      assert P() == p;
      NextIs(p, s);
      ValidIntro();
    }

    lemma {:induction false} FieldsIs()
      ensures P() == Setup(data, w, n, matchMaxLen, cutValue, crc)
      ensures Snap() == State(hash[..], son[..], pos, cur, cyclicBufferPos, base, trees, complete)
    {
    }

    lemma {:induction false} CreatedParts()
      requires Created()
      ensures Fine(P()) && 2 <= w < 0x1_0000_0000 && 2 <= n
      ensures hash != son && hash.Length == BUCKETS && son.Length == 2 * w
    {
    }

    lemma {:induction false} ValidParts()
      requires Valid()
      ensures Created() && Inv(P(), Snap()) && Fine(P()) && 2 <= w < 0x1_0000_0000 && 2 <= n
      ensures hash != son && hash.Length == BUCKETS && son.Length == 2 * w
    {
      hide Inv;
    }

    lemma {:induction false} ValidIntro()
      requires Created() && Inv(P(), Snap())
      ensures Valid()
    {
      hide Inv;
    }

    lemma {:induction false} CreatedStays(p: Setup)
      requires Fine(p) && p == P() && hash != son && hash.Length == BUCKETS && son.Length == 2 * w
      ensures Created()
    {
    }
  }

  /** With all trees empty there is nothing to represent. */
  lemma {:induction false} InitInv(p: Setup, s: State)
    requires Fine(p) && |s.hash| == BUCKETS == |s.trees| && |s.son| == 2 * p.w
    requires forall h: nat | h < BUCKETS :: s.hash[h] == 0 && s.trees[h] == Empty
    requires s.pos == 1 && s.cur == 0 && s.cyc == 1 && s.base == -1 && s.complete
    ensures Inv(p, s)
  {
    PlaceFirst(p.w);
    StartFirst(p);
    if Active(p, 0) {
      forall h: nat | h < BUCKETS
        ensures Bucket(p, s.son, s.base, 0, 0, Limit(p, 0), h, s.hash[h], s.trees[h])
      {
        EmptyBucket(p, s.son, h);
      }
      hide *;
      PlantedIntro(p, s, 0, 0, Limit(p, 0));
      NothingCovers(p, s.trees);
      LiveIntro(p, s);
    }
    InvIntro(p, s);
  }

  lemma {:induction false} PlaceFirst(w: nat)
    requires 2 <= w
    ensures Place(0, w) == 1
  {
  }

  lemma {:induction false} StartFirst(p: Setup)
    requires Fine(p)
    ensures Start(p, 0) == 0 && Based(p, 1, 0, -1) && 2 <= p.w
  {
  }

  lemma {:induction false} NothingCovers(p: Setup, trees: seq<Tree>)
    requires Fine(p) && |trees| == BUCKETS && Active(p, 0)
    ensures Covers(p, trees, 0, 0, Limit(p, 0))
  {
    hide Fine, Has, Limit;
  }

  lemma {:induction false} InvIntro(p: Setup, s: State)
    requires Fine(p) && s.cur <= |p.t| && s.cyc == Place(s.cur, p.w) && 0 <= s.pos < 0x1_0000_0000
    requires |s.hash| == BUCKETS && |s.son| == 2 * p.w && |s.trees| == BUCKETS && (Active(p, s.cur) ==> Live(p, s))
    ensures Inv(p, s)
  {
    hide Live, Place, Fine, Active;
  }

  lemma {:induction false} EmptyBucket(p: Setup, son: seq<int>, h: nat)
    requires Fine(p) && |son| == 2 * p.w
    ensures Bucket(p, son, -1, 0, 0, Limit(p, 0), h, 0, Empty)
  {
  }

  lemma {:induction false} ActiveIs(p: Setup, c: nat)
    requires Fine(p) && c <= |p.t|
    ensures Active(p, c) <==> Limit(p, c) >= p.n
  {
  }

  lemma {:induction false} MovedIsState(p: Setup, s: State)
    requires 2 <= p.w < 0x1_0000_0000 && 0 <= s.pos < 0x1_0000_0000
    ensures (var sub := 0x1_0000_0000 - p.w;
      var cyc, trees := if s.cyc + 1 == p.w then 0 else s.cyc + 1, Trimmed(s.trees, Start(p, s.cur + 1));
      Moved(p, s) ==
        if s.pos == 0xFFFF_FFFF && s.cur + 1 + p.n <= |p.t| then
          State(Reduced(s.hash, sub), Reduced(s.son, sub), p.w, s.cur + 1, cyc, s.base + sub, trees, s.complete)
        else
          State(s.hash, s.son, if s.pos == 0xFFFF_FFFF then 0 else s.pos + 1, s.cur + 1, cyc, s.base, trees,
            s.complete))
  {
    hide Trimmed, Reduced, Start;
  }

  /** What the search at s.cur may rely on, and what it leaves. */
  lemma {:induction false} SearchAt(p: Setup, s: State)
    requires Inv(p, s) && Active(p, s.cur)
    ensures Live(p, s) && Fine(p) && s.cur + p.n <= |p.t| && |s.hash| == BUCKETS == |s.trees| && |s.son| == 2 * p.w
      && p.w > 0
    ensures s.cyc == Place(s.cur, p.w) && s.pos + s.base == s.cur && HashAt(p, s.cur) < BUCKETS
      && p.n <= Limit(p, s.cur)
    ensures (var h, len := HashAt(p, s.cur), Limit(p, s.cur);
      && Searchable(p.t, s.son, p.w, s.base, s.cur, len, s.hash[h], s.trees[h])
      && s.cur + len <= |p.t| && Sound(p.t, s.trees[h], len)
      && AfterSearch(p, s) ==
          State(s.hash[h := s.pos], Searched(p.t, s.son, p.w, s.base, s.cur, len, s.trees[h], p.cut),
                s.pos, s.cur, s.cyc, s.base, s.trees[h := Grown(p, s.trees[h], s.cur, len)],
                s.complete && Steps(p.t, s.trees[h], s.cur, len) <= Turns(p.cut)))
  {
    InvParts(p, s);
    LiveParts(p, s);
    BucketAt(p, s, HashAt(p, s.cur));
    hide Inv, Live, Limit, Searchable, Searched, Sound, Grown, Steps, Turns, HashAt, Active, Place;
  }

  /** MatchFinder_Normalize3, each item by SASUB_32 (LzFind.c:764, 795-827). */
  method Normalize(subValue: Word, items: array<Word>)
    modifies items
    ensures items[..] == Reduced(old(items[..]), subValue)
  {
    var i := 0;
    while i < items.Length
      invariant 0 <= i <= items.Length
      invariant forall k | 0 <= k < i :: items[k] == Reduce(old(items[k]), subValue)
      invariant forall k | i <= k < items.Length :: items[k] == old(items[k])
    {
      var v := items[i];
      if v < subValue {
        v := subValue;
      }
      items[i] := v - subValue;
      i := i + 1;
    }
  }
}
