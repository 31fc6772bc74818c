/** From the sorted order back to the symbols: sums over the used symbols are sums
    over the sorted list. */
module HuffSymbols {
  import opened Machine
  import opened HuffSort
  import opened HuffTree
  import opened HuffRun
  import opened HuffBuild
  import opened Sums

  /** The symbols of the sorted words. */
  ghost function Symbols(ws: seq<Word>): (r: seq<nat>)
    ensures |r| == |ws| && forall k | 0 <= k < |ws| :: r[k] == Sym(ws[k])
  {
    seq(|ws|, k requires 0 <= k < |ws| => Sym(ws[k]))
  }

  ghost function Nats(freqs: seq<Word>): (r: seq<nat>)
    ensures |r| == |freqs| && forall i | 0 <= i < |freqs| :: r[i] == freqs[i]
  {
    seq(|freqs|, i requires 0 <= i < |freqs| => freqs[i] as nat)
  }

  /** s lists distinct places of a sequence of length n. */
  ghost predicate Listing(s: seq<nat>, n: nat) {
    && (forall k | 0 <= k < |s| :: s[k] < n)
    && (forall j, k | 0 <= j < k < |s| :: s[j] != s[k])
  }

  ghost function Picked<T>(g: seq<T>, s: seq<nat>): (r: seq<T>)
    requires Listing(s, |g|)
    ensures |r| == |s| && forall k | 0 <= k < |s| :: r[k] == g[s[k]]
  {
    seq(|s|, k requires 0 <= k < |s| => g[s[k]])
  }

  /** Nothing but the listed places counts. */
  ghost predicate OnlyListed(g: seq<nat>, s: seq<nat>) {
    forall i | 0 <= i < |g| && g[i] > 0 :: i in s
  }

  lemma {:induction false} SumUpdate(g: seq<nat>, i: nat, v: nat)
    requires i < |g|
    ensures Sum(g[i := v]) == Sum(g) - g[i] + v
  {
    if i == 0 {
      assert g[i := v][1..] == g[1..];
    } else {
      SumUpdate(g[1..], i - 1, v);
      assert g[i := v][1..] == g[1..][i - 1 := v];
    }
  }

  lemma {:induction false} SumNothing(g: seq<nat>)
    requires forall i | 0 <= i < |g| :: g[i] == 0
    ensures Sum(g) == 0
  {
    if g != [] {
      SumNothing(g[1..]);
    }
  }

  lemma {:induction false} SumListed(g: seq<nat>, s: seq<nat>)
    requires Listing(s, |g|) && OnlyListed(g, s)
    ensures Sum(g) == Sum(Picked(g, s))
    decreases |s|
  {
    if s == [] {
      SumNothing(g);
    } else {
      var m := |s| - 1;
      var x, t := s[m], s[..m];
      var g' := g[x := 0];
      ListingPrefix(g, s);
      SumUpdate(g, x, 0);
      SumListed(g', t);
      var r := Picked(g, s);
      assert Picked(g', t) == r[..m];
      SumAppend(r[..m], [r[m]]);
      assert r == r[..m] + [r[m]] && Sum([r[m]]) == r[m];
    }
  }

  lemma {:induction false} ListingPrefix(g: seq<nat>, s: seq<nat>)
    requires Listing(s, |g|) && OnlyListed(g, s) && s != []
    ensures s[|s| - 1] < |g| && Listing(s[..|s| - 1], |g|)
    ensures OnlyListed(g[s[|s| - 1] := 0], s[..|s| - 1])
    ensures forall k | 0 <= k < |s| - 1 :: s[k] != s[|s| - 1]
  {
    var m := |s| - 1;
    forall i | 0 <= i < |g| && g[s[m] := 0][i] > 0
      ensures i in s[..m]
    {
      var k :| 0 <= k < |s| && s[k] == i;
      assert s[..m][k] == i;
    }
  }

  /** Sorted symbols list the used ones. */
  lemma {:induction false} SortedListing(freqs: seq<Word>, ws: seq<Word>)
    requires SortedSymbols(freqs, ws)
    ensures Listing(Symbols(ws), |freqs|) && OnlyListed(Nats(freqs), Symbols(ws))
    ensures forall i | 0 <= i < |freqs| :: i in Symbols(ws) <==> freqs[i] > 0
    ensures Picked(Nats(freqs), Symbols(ws)) == Weights(ws)
  {
    var s := Symbols(ws);
    forall j, k | 0 <= j < k < |s|
      ensures s[j] != s[k]
    {
      assert ws[j] < ws[k];
      assert ws[j] == Freq(ws[j]) * SYMBOLS + Sym(ws[j]) && ws[k] == Freq(ws[k]) * SYMBOLS + Sym(ws[k]);
    }
    hide Sym, Freq;
    forall i | 0 <= i < |freqs|
      ensures i in s <==> freqs[i] > 0
    {
      if freqs[i] > 0 {
        var k :| 0 <= k < |ws| && Sym(ws[k]) == i;
        assert s[k] == i;
      }
    }
  }

  lemma {:induction false} TotalIsSum(freqs: seq<Word>)
    ensures Total(freqs) == Sum(Nats(freqs))
  {
    if freqs != [] {
      TotalIsSum(freqs[1..]);
      assert Nats(freqs)[1..] == Nats(freqs[1..]);
    }
  }

  /** The leaves weigh as much as the alphabet. */
  lemma {:induction false} SortedTotal(freqs: seq<Word>, ws: seq<Word>)
    requires SortedSymbols(freqs, ws)
    ensures Sum(Weights(ws)) == Total(freqs)
  {
    hide *;
    SortedListing(freqs, ws);
    SumListed(Nats(freqs), Symbols(ws));
    TotalIsSum(freqs);
  }

  ghost function Marks(freqs: seq<Word>): (r: seq<nat>)
    ensures |r| == |freqs| && forall i | 0 <= i < |freqs| :: r[i] == if freqs[i] > 0 then 1 else 0
  {
    seq(|freqs|, i requires 0 <= i < |freqs| => if freqs[i] > 0 then 1 else 0)
  }

  lemma {:induction false} UsedIsSum(freqs: seq<Word>)
    ensures UsedCount(freqs) == Sum(Marks(freqs))
  {
    if freqs != [] {
      UsedIsSum(freqs[1..]);
      assert Marks(freqs)[1..] == Marks(freqs[1..]);
    }
  }

  lemma {:induction false} SumOnes(g: seq<nat>)
    requires forall i | 0 <= i < |g| :: g[i] == 1
    ensures Sum(g) == |g|
  {
    if g != [] {
      SumOnes(g[1..]);
    }
  }

  /** The list has all the used symbols and no others. */
  lemma {:induction false} SortedSize(freqs: seq<Word>, ws: seq<Word>)
    requires SortedSymbols(freqs, ws)
    ensures |ws| == UsedCount(freqs)
  {
    SortedListing(freqs, ws);
    hide SortedSymbols, Sum, UsedCount, Sym, Freq;
    UsedIsSum(freqs);
    SumListed(Marks(freqs), Symbols(ws));
    SumOnes(Picked(Marks(freqs), Symbols(ws)));
  }

  // ---------- costs ----------

  ghost function Products(w: seq<nat>, l: seq<nat>): (r: seq<nat>)
    requires |w| == |l|
    ensures |r| == |w| && forall i | 0 <= i < |w| :: r[i] == w[i] * l[i]
  {
    seq(|w|, i requires 0 <= i < |w| => w[i] * l[i])
  }

  lemma {:induction false} CostIsSum(w: seq<nat>, l: seq<nat>)
    requires |w| == |l|
    ensures Cost(w, l) == Sum(Products(w, l))
  {
    if w != [] {
      CostIsSum(w[1..], l[1..]);
      assert Products(w, l)[1..] == Products(w[1..], l[1..]);
    }
  }

  /** The cost of lengths given to symbols is their cost in the sorted order. */
  lemma {:induction false} SortedCost(freqs: seq<Word>, ws: seq<Word>, ls: seq<nat>)
    requires SortedSymbols(freqs, ws) && |ls| == |freqs|
    ensures Listing(Symbols(ws), |ls|)
    ensures Cost(Nats(freqs), ls) == Cost(Weights(ws), Picked(ls, Symbols(ws)))
  {
    var f, s := Nats(freqs), Symbols(ws);
    SortedListing(freqs, ws);
    hide SortedSymbols, Cost, Sum, Sym, Freq;
    CostIsSum(f, ls);
    CostIsSum(Weights(ws), Picked(ls, s));
    var g := Products(f, ls);
    assert OnlyListed(g, s) by {
      UnusedFree(f, ls, s);
    }
    SumListed(g, s);
    PickedProducts(f, ls, s);
  }

  lemma {:induction false} UnusedFree(f: seq<nat>, ls: seq<nat>, s: seq<nat>)
    requires |f| == |ls| && OnlyListed(f, s)
    ensures OnlyListed(Products(f, ls), s)
  {
    var g := Products(f, ls);
    forall i | 0 <= i < |g| && g[i] > 0
      ensures i in s
    {
      if f[i] == 0 {
        assert false;
      }
    }
  }

  lemma {:induction false} PickedProducts(f: seq<nat>, ls: seq<nat>, s: seq<nat>)
    requires |f| == |ls| && Listing(s, |f|)
    ensures Picked(Products(f, ls), s) == Products(Picked(f, s), Picked(ls, s))
  {
  }

  // ---------- counts ----------

  ghost function Ones(ls: seq<nat>, v: nat): (r: seq<nat>)
    ensures |r| == |ls| && forall i | 0 <= i < |ls| :: r[i] == if ls[i] == v then 1 else 0
  {
    seq(|ls|, i requires 0 <= i < |ls| => if ls[i] == v then 1 else 0)
  }

  lemma {:induction false} CountIsSum(ls: seq<nat>, v: nat)
    ensures CountIn(ls, v) == Sum(Ones(ls, v))
  {
    if ls == [] {
      assert CountIn(ls, v) == 0;
    } else {
      hide CountIn;
      CountIsSum(ls[1..], v);
      CountFront(ls, v);
      assert Ones(ls, v)[1..] == Ones(ls[1..], v);
    }
  }

  /** Lengths other than 0 occur as often as in the sorted order. */
  lemma {:induction false} SortedCount(ls: seq<nat>, s: seq<nat>, v: nat)
    requires Listing(s, |ls|) && OnlyListed(ls, s) && v >= 1
    ensures CountIn(ls, v) == CountIn(Picked(ls, s), v)
  {
    hide CountIn, Sum;
    CountIsSum(ls, v);
    CountIsSum(Picked(ls, s), v);
    assert OnlyListed(Ones(ls, v), s);
    SumListed(Ones(ls, v), s);
    assert Picked(Ones(ls, v), s) == Ones(Picked(ls, s), v);
  }
}
