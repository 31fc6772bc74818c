/** HeapSort (Sort.h:11). Its body is not part of this model: the callers only use
    that it sorts, and the insertion sort below stands in for it. */
module Sort {
  import opened Machine

  ghost predicate Ascending(s: seq<int>) {
    forall i, j | 0 <= i < j < |s| :: s[i] <= s[j]
  }

  function Insert(x: Word, s: seq<Word>): (r: seq<Word>)
    ensures multiset(r) == multiset(s) + multiset{x}
  {
    if s == [] then [x]
    else if x <= s[0] then [x] + s
    else
      assert s == [s[0]] + s[1..];
      [s[0]] + Insert(x, s[1..])
  }

  lemma {:induction false} InsertedIn(x: Word, s: seq<Word>, i: nat)
    requires i < |Insert(x, s)|
    ensures Insert(x, s)[i] == x || Insert(x, s)[i] in s
  {
    hide Insert;
    var r := Insert(x, s);
    assert r[i] in multiset(r);
  }

  lemma {:induction false} Prepended(y: Word, t: seq<Word>)
    requires Ascending(t) && forall i | 0 <= i < |t| :: y <= t[i]
    ensures Ascending([y] + t)
  {
  }

  lemma {:induction false} InsertCases(x: Word, s: seq<Word>)
    requires s != []
    ensures Insert(x, s) == if x <= s[0] then [x] + s else [s[0]] + Insert(x, s[1..])
  {
  }

  lemma {:induction false} TailAscending(s: seq<Word>)
    requires Ascending(s) && s != []
    ensures Ascending(s[1..]) && forall y | y in s :: s[0] <= y
  {
  }

  lemma {:induction false} InsertAscending(x: Word, s: seq<Word>)
    requires Ascending(s)
    ensures Ascending(Insert(x, s))
  {
    if s != [] {
      hide Insert, Ascending;
      InsertCases(x, s);
      TailAscending(s);
      if x <= s[0] {
        Prepended(x, s);
      } else {
        var t := Insert(x, s[1..]);
        InsertAscending(x, s[1..]);
        forall i | 0 <= i < |t|
          ensures s[0] <= t[i]
        {
          InsertedIn(x, s[1..], i);
        }
        Prepended(s[0], t);
      }
    }
  }

  function Sorted(s: seq<Word>): (r: seq<Word>)
    ensures Ascending(r)
    ensures multiset(r) == multiset(s)
  {
    if s == [] then [] else
      assert s == [s[0]] + s[1..];
      InsertAscending(s[0], Sorted(s[1..]));
      Insert(s[0], Sorted(s[1..]))
  }

  /** Sorts the size words that start at p[lo]. */
  method HeapSort(p: array<Word>, lo: nat, size: nat)
    requires lo + size <= p.Length
    modifies p
    ensures Ascending(p[lo..lo + size])
    ensures multiset(p[lo..lo + size]) == multiset(old(p[lo..lo + size]))
    ensures forall k | 0 <= k < p.Length && !(lo <= k < lo + size) :: p[k] == old(p[k])
  {
    hide Ascending, Sorted;
    var s := Sorted(p[lo..lo + size]);
    MultisetSize(s, p[lo..lo + size]);
    Store(p, lo, s);
  }

  method Store(p: array<Word>, lo: nat, s: seq<Word>)
    requires lo + |s| <= p.Length
    modifies p
    ensures p[lo..lo + |s|] == s
    ensures forall k | 0 <= k < p.Length && !(lo <= k < lo + |s|) :: p[k] == old(p[k])
  {
    for i := 0 to |s|
      invariant forall k | 0 <= k < p.Length && !(lo <= k < lo + |s|) :: p[k] == old(p[k])
      invariant p[lo..lo + i] == s[..i]
    {
      p[lo + i] := s[i];
    }
  }

  lemma {:induction false} MultisetSize(s: seq<Word>, t: seq<Word>)
    requires multiset(s) == multiset(t)
    ensures |s| == |t|
  {
    assert |multiset(s)| == |multiset(t)|;
  }

  /** What a sort of distinct values leaves: distinct values from the same set. */
  lemma {:induction false} DistinctAfterSort(s: seq<int>, t: seq<int>)
    requires multiset(s) == multiset(t)
    requires forall i, j | 0 <= i < j < |s| :: s[i] != s[j]
    ensures |t| == |s|
    ensures forall i, j | 0 <= i < j < |t| :: t[i] != t[j]
    ensures forall i | 0 <= i < |t| :: t[i] in s
  {
    assert |multiset(s)| == |multiset(t)|;
    forall i, j | 0 <= i < j < |t|
      ensures t[i] != t[j]
    {
      if t[i] == t[j] {
        assert t == t[..j] + t[j..];
        assert t[i] in t[..j] && t[i] in t[j..];
        assert multiset(t)[t[i]] >= 2;
        CountOfDistinct(s, t[i]);
        assert false;
      }
    }
    forall i | 0 <= i < |t|
      ensures t[i] in s
    {
      assert t[i] in multiset(t);
    }
  }

  lemma {:induction false} CountOfDistinct(s: seq<int>, v: int)
    requires forall i, j | 0 <= i < j < |s| :: s[i] != s[j]
    ensures multiset(s)[v] <= 1
  {
    if s != [] {
      assert s == s[..|s| - 1] + [s[|s| - 1]];
      CountOfDistinct(s[..|s| - 1], v);
      if v == s[|s| - 1] {
        assert v !in s[..|s| - 1];
      }
    }
  }
}
