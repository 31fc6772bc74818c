/** Canonical prefix codes (section 3.2.2 of RFC 1951), and the Kraft inequality for
    every prefix code. */
module HuffCodes {
  import opened Arith
  import opened Counting
  import opened HuffOptimal
  import opened HuffLevels
  import opened Sums

  // ---------- code words as bits ----------

  /** The n low bits of c, the highest first. */
  ghost function Bits(c: nat, n: nat): (r: seq<bool>)
    ensures |r| == n
  {
    if n == 0 then [] else Bits(c / 2, n - 1) + [c % 2 == 1]
  }

  lemma {:induction false} BitsInjective(c: nat, d: nat, n: nat)
    requires c < Pow2(n) && d < Pow2(n) && Bits(c, n) == Bits(d, n)
    ensures c == d
  {
    if n > 0 {
      var s, t := Bits(c / 2, n - 1), Bits(d / 2, n - 1);
      assert (s + [c % 2 == 1])[..n - 1] == s && (t + [d % 2 == 1])[..n - 1] == t;
      assert (s + [c % 2 == 1])[n - 1] == (t + [d % 2 == 1])[n - 1];
      BitsInjective(c / 2, d / 2, n - 1);
    }
  }

  /** The first bits of a code word are the code shifted right. */
  lemma {:induction false} BitsPrefix(c: nat, n: nat, k: nat)
    ensures Bits(c, n + k)[..n] == Bits(c / Pow2(k), n)
    decreases k
  {
    if k > 0 {
      BitsPrefix(c / 2, n, k - 1);
      var s := Bits(c / 2, n + k - 1);
      assert (s + [c % 2 == 1])[..n] == s[..n];
      HalfDiv(c, Pow2(k - 1));
    } else {
      assert c / 1 == c;
    }
  }

  // ---------- canonical codes ----------

  /** The first code of length v, from the number of codes of each length. */
  ghost function FirstCode(c: seq<nat>, v: nat): nat
    requires v <= |c|
  {
    if v == 0 then 0 else 2 * (FirstCode(c, v - 1) + c[v - 1])
  }

  /** c counts the lengths, but not those of symbols that have no code. */
  ghost predicate Histogram(ls: seq<nat>, c: seq<nat>) {
    && |c| > 0 && c[0] == 0
    && forall v | 1 <= v < |c| :: c[v] == Count(ls, v, |ls|)
  }

  /** The code of symbol i: codes of one length rise with the symbol. */
  ghost function Canonical(ls: seq<nat>, c: seq<nat>, i: nat): nat
    requires i < |ls| && ls[i] < |c|
  {
    FirstCode(c, ls[i]) + Count(ls, ls[i], i)
  }

  lemma {:induction false} FirstScaled(c: seq<nat>, v: nat, top: nat)
    requires v <= top && v <= |c|
    ensures FirstCode(c, v) * Pow2(top - v) == Share(c, v, top)
  {
    if v > 0 {
      FirstScaled(c, v - 1, top);
      hide Pow2, FirstCode;
      FirstNext(c, v - 1);
      Pow2Next(top - v);
      Scale(FirstCode(c, v - 1), c[v - 1], Pow2(top - v));
      ShareNext(c, v - 1, top);
    }
  }

  lemma {:induction false} FirstNext(c: seq<nat>, v: nat)
    requires v < |c|
    ensures FirstCode(c, v + 1) == 2 * (FirstCode(c, v) + c[v])
  {
  }

  lemma {:induction false} Scale(f: nat, k: nat, x: nat)
    ensures (2 * (f + k)) * x == f * (2 * x) + k * (2 * x)
  {
    assert (2 * (f + k)) * x == 2 * (f * x + k * x);
    assert f * (2 * x) == 2 * (f * x) && k * (2 * x) == 2 * (k * x);
  }

  lemma {:induction false} ShareMonotone(c: seq<nat>, v: nat, w: nat, top: nat)
    requires v <= w <= |c| && w <= top + 1
    ensures Share(c, v, top) <= Share(c, w, top)
    decreases w
  {
    if v < w {
      ShareMonotone(c, v, w - 1, top);
    }
  }

  /** A code and the next one, scaled, lie within the share of their length. */
  lemma {:induction false} CodeInterval(ls: seq<nat>, c: seq<nat>, i: nat, top: nat)
    requires Histogram(ls, c) && i < |ls| && 1 <= ls[i] <= top < |c|
    ensures Share(c, ls[i], top) <= Canonical(ls, c, i) * Pow2(top - ls[i])
    ensures (Canonical(ls, c, i) + 1) * Pow2(top - ls[i]) <= Share(c, ls[i] + 1, top)
  {
    hide Pow2, Share, FirstCode, Count;
    var v := ls[i];
    FirstScaled(c, v, top);
    CountMonotone(ls, v, i + 1, |ls|);
    CountSelf(ls, i);
    ShareNext(c, v, top);
    Interval(FirstCode(c, v), Count(ls, v, i), c[v], Pow2(top - v));
  }

  lemma {:induction false} CountSelf(ls: seq<nat>, i: nat)
    requires i < |ls|
    ensures Count(ls, ls[i], i + 1) == Count(ls, ls[i], i) + 1
  {
  }

  lemma {:induction false} Interval(f: nat, r: nat, k: nat, x: nat)
    requires r + 1 <= k
    ensures f * x <= (f + r) * x && (f + r + 1) * x <= f * x + k * x
  {
    MulNonNegative(r, x);
    MulDistributes(x, f, r);
    MulDistributes(x, f, r + 1);
    MulMonotone(x, r + 1, k);
  }

  /** Codes fit their lengths when the lengths satisfy the Kraft inequality. */
  lemma {:induction false} CodeFits(ls: seq<nat>, c: seq<nat>, i: nat, top: nat)
    requires Histogram(ls, c) && i < |ls| && 1 <= ls[i] <= top < |c|
    requires Share(c, top + 1, top) <= Pow2(top)
    ensures Canonical(ls, c, i) < Pow2(ls[i])
  {
    hide Pow2, Share, Canonical, Histogram;
    var v := ls[i];
    CodeInterval(ls, c, i, top);
    ShareMonotone(c, v + 1, top + 1, top);
    Pow2Sum(v, top - v);
    NextFits(Canonical(ls, c, i), Pow2(v), Pow2(top - v));
  }

  lemma {:induction false} NextFits(code: nat, y: nat, x: nat)
    requires (code + 1) * x <= y * x && x >= 1
    ensures code < y
  {
    if code >= y {
      MulMonotone(x, y + 1, code + 1);
      MulDistributes(x, y, 1);
      assert false;
    }
  }

  lemma {:induction false} ShiftedFits(b: nat, m: nat, n: nat)
    requires b < Pow2(n) && m <= n
    ensures b / Pow2(n - m) < Pow2(m)
  {
    Pow2Sum(m, n - m);
    hide Pow2;
    DivLess(b, Pow2(n - m), Pow2(m));
  }

  lemma {:induction false} DivLess(b: nat, x: nat, y: nat)
    requires x >= 1 && b < y * x
    ensures b / x < y
  {
    var q := b / x;
    assert b == x * q + b % x;
    if q >= y {
      MulMonotone(x, y, q);
      assert false;
    }
  }

  lemma {:induction false} DivAtLeast(b: nat, x: nat, y: nat)
    requires x >= 1 && y * x <= b
    ensures b / x >= y
  {
    var q := b / x;
    assert b == x * q + b % x;
    if q < y {
      MulMonotone(x, q + 1, y);
      MulDistributes(x, q, 1);
      assert false;
    }
  }

  /** Codes of a greater length start after all those of a smaller one. */
  lemma {:induction false} CodesApart(ls: seq<nat>, c: seq<nat>, i: nat, j: nat, top: nat)
    requires Histogram(ls, c) && i < |ls| && j < |ls|
    requires 1 <= ls[i] < ls[j] <= top < |c|
    ensures Canonical(ls, c, i) < Canonical(ls, c, j) / Pow2(ls[j] - ls[i])
  {
    hide *;
    var a, b := Canonical(ls, c, i), Canonical(ls, c, j);
    var m, n := ls[i], ls[j];
    CodeInterval(ls, c, i, top);
    CodeInterval(ls, c, j, top);
    ShareMonotone(c, m + 1, n, top);
    Pow2Sum(n - m, top - n);
    var x, y := Pow2(n - m), Pow2(top - n);
    assert (a + 1) * (x * y) <= b * y;
    Unscale(a + 1, x, y, b);
    DivAtLeast(b, x, a + 1);
  }

  lemma {:induction false} Unscale(a: nat, x: nat, y: nat, b: nat)
    requires y >= 1 && a * (x * y) <= b * y
    ensures a * x <= b
  {
    assert a * (x * y) == y * (a * x);
    if a * x > b {
      MulMonotone(y, b + 1, a * x);
      MulDistributes(y, b, 1);
      assert false;
    }
  }

  /** No code word is the beginning of another. */
  lemma {:induction false} CanonicalPrefixFree(ls: seq<nat>, c: seq<nat>, i: nat, j: nat, top: nat)
    requires Histogram(ls, c) && i < |ls| && j < |ls| && i != j
    requires 1 <= ls[i] <= top < |c| && 1 <= ls[j] <= top
    requires Share(c, top + 1, top) <= Pow2(top)
    ensures !(Bits(Canonical(ls, c, i), ls[i]) <= Bits(Canonical(ls, c, j), ls[j]))
  {
    hide *;
    var a, b := Canonical(ls, c, i), Canonical(ls, c, j);
    var m, n := ls[i], ls[j];
    if Bits(a, m) <= Bits(b, n) {
      CodeFits(ls, c, i, top);
      CodeFits(ls, c, j, top);
      BitsPrefix(b, m, n - m);
      ShiftedFits(b, m, n);
      BitsInjective(a, b / Pow2(n - m), m);
      if m < n {
        CodesApart(ls, c, i, j, top);
        assert false;
      } else {
        NoShift(b);
        SameLength(ls, c, i, j);
        assert false;
      }
    }
  }

  lemma {:induction false} NoShift(b: nat)
    ensures b / Pow2(0) == b
  {
    assert Pow2(0) == 1;
  }

  /** Codes of one length differ. */
  lemma {:induction false} SameLength(ls: seq<nat>, c: seq<nat>, i: nat, j: nat)
    requires i < |ls| && j < |ls| && i != j && ls[i] == ls[j] < |c|
    ensures Canonical(ls, c, i) != Canonical(ls, c, j)
  {
    hide Count, FirstCode;
    var x, y := if i < j then i else j, if i < j then j else i;
    CountSelf(ls, x);
    CountMonotone(ls, ls[x], x + 1, y);
  }

  // ---------- where the words are ----------

  /** The places on level top that the words of the first n symbols take, of lengths 1 to v - 1. */
  ghost function Places(ls: seq<nat>, n: nat, v: nat, top: nat): nat
    requires n <= |ls| && v <= top + 1
  {
    if n == 0 then 0
    else Places(ls, n - 1, v, top) + (if 1 <= ls[n - 1] < v then Pow2(top - ls[n - 1]) else 0)
  }

  lemma {:induction false} PlacesNext(ls: seq<nat>, n: nat, v: nat, top: nat)
    requires n <= |ls| && 1 <= v <= top
    ensures Places(ls, n, v + 1, top) == Places(ls, n, v, top) + Count(ls, v, n) * Pow2(top - v)
    decreases n
  {
    hide *;
    if n == 0 {
      PlacesZero(ls, v, top);
    } else {
      PlacesNext(ls, n - 1, v, top);
      PlacesOne(ls, n, v, top);
      PlacesOne(ls, n, v + 1, top);
      CountStep(ls, v, n);
      MulDistributes(Pow2(top - v), Count(ls, v, n - 1), 1);
    }
  }

  lemma {:induction false} PlacesOne(ls: seq<nat>, n: nat, v: nat, top: nat)
    requires 0 < n <= |ls| && v <= top + 1
    ensures Places(ls, n, v, top) ==
            Places(ls, n - 1, v, top) + (if 1 <= ls[n - 1] < v then Pow2(top - ls[n - 1]) else 0)
  {
  }

  lemma {:induction false} PlacesZero(ls: seq<nat>, v: nat, top: nat)
    requires 1 <= v <= top
    ensures Places(ls, 0, v + 1, top) == Places(ls, 0, v, top) + Count(ls, v, 0) * Pow2(top - v)
  {
    assert 0 * Pow2(top - v) == 0;
  }

  lemma {:induction false} PlacesNone(ls: seq<nat>, n: nat, v: nat, top: nat)
    requires n <= |ls| && v <= 1 && v <= top + 1
    ensures Places(ls, n, v, top) == 0
    decreases n
  {
    if n > 0 {
      PlacesNone(ls, n - 1, v, top);
    }
  }

  lemma {:induction false} PlacesShare(ls: seq<nat>, c: seq<nat>, v: nat, top: nat)
    requires Histogram(ls, c) && v <= |c| && v <= top + 1
    ensures Share(c, v, top) == Places(ls, |ls|, v, top)
  {
    hide Pow2, Count, Places, Share;
    if v == 0 {
      NoneShort(c, 0, top);
      PlacesNone(ls, |ls|, 0, top);
    } else {
      PlacesShare(ls, c, v - 1, top);
      ShareNext(c, v - 1, top);
      if v == 1 {
        PlacesNone(ls, |ls|, 1, top);
        PlacesNone(ls, |ls|, 0, top);
        assert 0 * Pow2(top) == 0;
      } else {
        PlacesNext(ls, |ls|, v - 1, top);
      }
    }
  }

  /** The places of the words of the first n symbols that are shorter than that of symbol i, or as
      long and of an earlier symbol. */
  ghost function PlacesBefore(ls: seq<nat>, i: nat, n: nat, top: nat): nat
    requires n <= |ls| && i < |ls| && ls[i] <= top
  {
    if n == 0 then 0
    else
      PlacesBefore(ls, i, n - 1, top)
      + (if ls[n - 1] >= 1 && (ls[n - 1] < ls[i] || (ls[n - 1] == ls[i] && n - 1 < i)) then Pow2(top - ls[n - 1])
         else 0)
  }

  lemma {:induction false} PlacesBeforeIs(ls: seq<nat>, i: nat, n: nat, top: nat)
    requires n <= |ls| && i < |ls| && 1 <= ls[i] <= top
    ensures PlacesBefore(ls, i, n, top) ==
            Places(ls, n, ls[i], top) + Count(ls, ls[i], if n < i then n else i) * Pow2(top - ls[i])
    decreases n
  {
    hide *;
    var v := ls[i];
    if n == 0 {
      PlacesStart(ls, i, top);
    } else {
      PlacesBeforeIs(ls, i, n - 1, top);
      PlacesStep(ls, i, n, top);
      CountStep(ls, v, n);
      MulDistributes(Pow2(top - v), Count(ls, v, n - 1), 1);
    }
  }

  lemma {:induction false} PlacesStart(ls: seq<nat>, i: nat, top: nat)
    requires i < |ls| && 1 <= ls[i] <= top
    ensures PlacesBefore(ls, i, 0, top) == 0 == Places(ls, 0, ls[i], top)
    ensures Count(ls, ls[i], 0) * Pow2(top - ls[i]) == 0
  {
    assert 0 * Pow2(top - ls[i]) == 0;
  }

  lemma {:induction false} CountStep(ls: seq<nat>, v: nat, n: nat)
    requires 0 < n <= |ls|
    ensures Count(ls, v, n) == Count(ls, v, n - 1) + (if ls[n - 1] == v then 1 else 0)
  {
  }

  lemma {:induction false} PlacesStep(ls: seq<nat>, i: nat, n: nat, top: nat)
    requires 0 < n <= |ls| && i < |ls| && 1 <= ls[i] <= top
    ensures (var v, w := ls[i], ls[n - 1];
      && Places(ls, n, v, top) == Places(ls, n - 1, v, top) + (if 1 <= w < v then Pow2(top - w) else 0)
      && PlacesBefore(ls, i, n, top) == PlacesBefore(ls, i, n - 1, top)
           + (if 1 <= w < v || (w == v && n - 1 < i) then Pow2(top - w) else 0))
  {
    hide Pow2;
  }

  /** A canonical word begins where the words before it end. */
  lemma {:induction false} CanonicalPlace(ls: seq<nat>, c: seq<nat>, i: nat, top: nat)
    requires Histogram(ls, c) && i < |ls| && 1 <= ls[i] <= top < |c|
    ensures Canonical(ls, c, i) * Pow2(top - ls[i]) == PlacesBefore(ls, i, |ls|, top)
  {
    hide Pow2, Count, Places, Share, PlacesBefore, FirstCode, Histogram;
    PlacesBeforeIs(ls, i, |ls|, top);
    PlacesShare(ls, c, ls[i], top);
    FirstScaled(c, ls[i], top);
    MulDistributes(Pow2(top - ls[i]), FirstCode(c, ls[i]), Count(ls, ls[i], i));
  }

  // ---------- every prefix code satisfies the Kraft inequality ----------

  /** No word is the beginning of another one. */
  ghost predicate PrefixFree(ws: seq<seq<bool>>) {
    forall i, j | 0 <= i < |ws| && 0 <= j < |ws| && i != j :: !(ws[i] <= ws[j])
  }

  ghost function LengthsOf(ws: seq<seq<bool>>): (r: seq<nat>)
    ensures |r| == |ws| && forall i | 0 <= i < |ws| :: r[i] == |ws[i]|
  {
    seq(|ws|, i requires 0 <= i < |ws| => |ws[i]|)
  }

  /** What follows the first bit b, of the words that begin with b. */
  ghost function Tails(ws: seq<seq<bool>>, b: bool): seq<seq<bool>> {
    if ws == [] then []
    else if ws[0] != [] && ws[0][0] == b then [ws[0][1..]] + Tails(ws[1..], b)
    else Tails(ws[1..], b)
  }

  /** Where a tail comes from; later tails come from later words. */
  lemma {:induction false} TailFrom(ws: seq<seq<bool>>, b: bool, i: nat, j: nat) returns (i': nat, j': nat)
    requires i < j < |Tails(ws, b)|
    ensures i' < j' < |ws| && ws[i'] == [b] + Tails(ws, b)[i] && ws[j'] == [b] + Tails(ws, b)[j]
  {
    if ws[0] != [] && ws[0][0] == b {
      if i == 0 {
        i' := 0;
        j' := OneTail(ws[1..], b, j - 1);
        j' := j' + 1;
        assert ws[0] == [b] + ws[0][1..];
      } else {
        i', j' := TailFrom(ws[1..], b, i - 1, j - 1);
        i', j' := i' + 1, j' + 1;
      }
    } else {
      i', j' := TailFrom(ws[1..], b, i, j);
      i', j' := i' + 1, j' + 1;
    }
  }

  lemma {:induction false} OneTail(ws: seq<seq<bool>>, b: bool, i: nat) returns (i': nat)
    requires i < |Tails(ws, b)|
    ensures i' < |ws| && ws[i'] == [b] + Tails(ws, b)[i]
  {
    if ws[0] != [] && ws[0][0] == b {
      if i == 0 {
        i' := 0;
        assert ws[0] == [b] + ws[0][1..];
      } else {
        i' := OneTail(ws[1..], b, i - 1);
        i' := i' + 1;
      }
    } else {
      i' := OneTail(ws[1..], b, i);
      i' := i' + 1;
    }
  }

  lemma {:induction false} OneMoreBit(b: bool, s: seq<bool>, t: seq<bool>)
    ensures s <= t ==> [b] + s <= [b] + t
  {
  }

  lemma {:induction false} TailsPrefixFree(ws: seq<seq<bool>>, b: bool)
    requires PrefixFree(ws)
    ensures PrefixFree(Tails(ws, b))
  {
    var t := Tails(ws, b);
    hide Tails;
    forall i, j | 0 <= i < |t| && 0 <= j < |t| && i != j
      ensures !(t[i] <= t[j])
    {
      var x, y := TailFrom(ws, b, if i < j then i else j, if i < j then j else i);
      OneMoreBit(b, t[i], t[j]);
    }
  }

  lemma {:induction false} TailsBound(ws: seq<seq<bool>>, b: bool, top: nat)
    requires top >= 1 && AtMost(LengthsOf(ws), top)
    ensures AtMost(LengthsOf(Tails(ws, b)), top - 1)
  {
    var t := Tails(ws, b);
    forall i | 0 <= i < |t|
      ensures LengthsOf(t)[i] <= top - 1
    {
      var x := OneTail(ws, b, i);
      assert LengthsOf(ws)[x] <= top;
    }
  }

  /** Without the empty word the sum splits by the first bit. */
  lemma {:induction false} KraftSplit(ws: seq<seq<bool>>, top: nat)
    requires top >= 1 && AtMost(LengthsOf(ws), top) && forall i | 0 <= i < |ws| :: ws[i] != []
    ensures AtMost(LengthsOf(Tails(ws, false)), top - 1) && AtMost(LengthsOf(Tails(ws, true)), top - 1)
    ensures Kraft(LengthsOf(ws), top) ==
              Kraft(LengthsOf(Tails(ws, false)), top - 1) + Kraft(LengthsOf(Tails(ws, true)), top - 1)
  {
    hide *;
    TailsBound(ws, false, top);
    TailsBound(ws, true, top);
    if ws == [] {
      NoTails(top);
    } else {
      var b := ws[0][0];
      TailsHead(ws, b);
      KraftHead(ws, top);
      KraftSplit(ws[1..], top);
      KraftHead(Tails(ws, b), top - 1);
    }
  }

  lemma {:induction false} NoTails(top: nat)
    requires top >= 1
    ensures Tails([], false) == [] && Tails([], true) == [] && LengthsOf([]) == [] && AtMost([], top)
    ensures Kraft([], top) == 0 == Kraft([], top - 1)
  {
  }

  lemma {:induction false} TailsHead(ws: seq<seq<bool>>, b: bool)
    requires ws != [] && ws[0] != [] && ws[0][0] == b
    ensures Tails(ws, b) != [] && Tails(ws, b)[0] == ws[0][1..] && Tails(ws, b)[1..] == Tails(ws[1..], b)
    ensures Tails(ws, !b) == Tails(ws[1..], !b)
  {
  }

  lemma {:induction false} KraftHead(ws: seq<seq<bool>>, top: nat)
    requires ws != [] && AtMost(LengthsOf(ws), top)
    ensures AtMost(LengthsOf(ws[1..]), top) && |ws[0]| <= top
    ensures Kraft(LengthsOf(ws), top) == Pow2(top - |ws[0]|) + Kraft(LengthsOf(ws[1..]), top)
  {
    KraftTail(LengthsOf(ws), top);
    assert LengthsOf(ws)[1..] == LengthsOf(ws[1..]);
  }

  /** The empty word is the beginning of every word. */
  lemma {:induction false} EmptyWord(ws: seq<seq<bool>>, i: nat)
    requires PrefixFree(ws) && i < |ws| && ws[i] == []
    ensures |ws| == 1
  {
    if |ws| > 1 {
      NotBegins(ws, i, if i == 0 then 1 else 0);
      assert false;
    }
  }

  lemma {:induction false} NotBegins(ws: seq<seq<bool>>, i: nat, j: nat)
    requires PrefixFree(ws) && i < |ws| && j < |ws| && i != j
    ensures ws[i] != []
  {
    assert !(ws[i] <= ws[j]);
  }

  lemma {:induction false} KraftInequality(ws: seq<seq<bool>>, top: nat)
    requires PrefixFree(ws) && AtMost(LengthsOf(ws), top)
    ensures Kraft(LengthsOf(ws), top) <= Pow2(top)
    decreases top
  {
    if i :| 0 <= i < |ws| && ws[i] == [] {
      EmptyWord(ws, i);
      KraftHead(ws, top);
    } else if ws != [] {
      assert LengthsOf(ws)[0] <= top && |ws[0]| > 0;
      hide PrefixFree, AtMost, Tails, Kraft;
      KraftSplit(ws, top);
      TailsPrefixFree(ws, false);
      TailsPrefixFree(ws, true);
      KraftInequality(Tails(ws, false), top - 1);
      KraftInequality(Tails(ws, true), top - 1);
    }
  }
}
