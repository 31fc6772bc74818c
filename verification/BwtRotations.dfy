/** Cyclic rotations of a data block and their order: the specification that the
    block sorter of BwtSort.c is proved against. */
module Rotations {
  import opened Arith
  import opened Machine

  /** Byte k of the rotation that starts at position p, read cyclically. */
  function At(d: seq<Byte>, p: nat, k: nat): Byte
    requires |d| > 0
  {
    d[(p + k) % |d|]
  }

  /** The rotation itself, as a string. */
  function Rotation(d: seq<Byte>, p: nat): (r: seq<Byte>)
    requires p < |d|
    ensures |r| == |d|
  {
    d[p..] + d[..p]
  }

  /** Lexicographic order on strings of one length. */
  ghost predicate LexLess(s: seq<Byte>, t: seq<Byte>)
    requires |s| == |t|
  {
    exists k :: 0 <= k < |s| && s[..k] == t[..k] && s[k] < t[k]
  }

  /** The rotations at a and b have the same first h bytes. */
  ghost predicate Agree(d: seq<Byte>, a: nat, b: nat, h: nat)
    requires |d| > 0
  {
    forall k: nat | k < h :: At(d, a, k) == At(d, b, k)
  }

  /** The rotation at a comes strictly before the one at b. */
  ghost predicate Before(d: seq<Byte>, a: nat, b: nat)
    requires |d| > 0
  {
    exists k: nat :: Agree(d, a, b, k) && At(d, a, k) < At(d, b, k)
  }

  /** The position h bytes further on, computed as the sorter does it. */
  function Ahead(n: nat, p: nat, h: nat): (r: nat)
    requires p < n && h < n
    ensures r < n
  {
    if p + h >= n then p + h - n else p + h
  }

  lemma {:induction false} AtAhead(d: seq<Byte>, p: nat, h: nat, k: nat)
    requires p < |d| && h < |d|
    ensures At(d, Ahead(|d|, p, h), k) == At(d, p, h + k)
  {
    if p + h >= |d| {
      ModDrop(p + h + k - |d|, |d|);
    }
  }

  /** Doubling, order: equal on h bytes and ordered from there on. */
  lemma {:induction false} BeforeFromAhead(d: seq<Byte>, a: nat, b: nat, h: nat)
    requires a < |d| && b < |d| && h < |d|
    requires Agree(d, a, b, h)
    requires Before(d, Ahead(|d|, a, h), Ahead(|d|, b, h))
    ensures Before(d, a, b)
  {
    var a', b' := Ahead(|d|, a, h), Ahead(|d|, b, h);
    var k: nat :| Agree(d, a', b', k) && At(d, a', k) < At(d, b', k);
    AtAhead(d, a, h, k);
    AtAhead(d, b, h, k);
    forall j: nat | j < h + k
      ensures At(d, a, j) == At(d, b, j)
    {
      if j >= h {
        AtAhead(d, a, h, j - h);
        AtAhead(d, b, h, j - h);
      }
    }
    assert Agree(d, a, b, h + k);
  }

  /** Doubling, equality: equal on h bytes, twice over. */
  lemma {:induction false} AgreeFromAhead(d: seq<Byte>, a: nat, b: nat, h: nat)
    requires a < |d| && b < |d| && h < |d|
    requires Agree(d, a, b, h)
    requires Agree(d, Ahead(|d|, a, h), Ahead(|d|, b, h), h)
    ensures Agree(d, a, b, 2 * h)
  {
    forall j: nat | j < 2 * h
      ensures At(d, a, j) == At(d, b, j)
    {
      if j >= h {
        AtAhead(d, a, h, j - h);
        AtAhead(d, b, h, j - h);
      }
    }
  }

  lemma {:induction false} RotationAt(d: seq<Byte>, p: nat, k: nat)
    requires p < |d| && k < |d|
    ensures Rotation(d, p)[k] == At(d, p, k)
  {
    if p + k >= |d| {
      DivModUnique(p + k, |d|, 1, p + k - |d|);
    } else {
      DivModUnique(p + k, |d|, 0, p + k);
    }
  }

  lemma {:induction false} AtPeriodic(d: seq<Byte>, p: nat, k: nat)
    requires |d| > 0 && k >= |d|
    ensures At(d, p, k) == At(d, p, k - |d|)
  {
    ModDrop(p + (k - |d|), |d|);
  }

  /** Rotations that differ at all differ within one turn. */
  lemma {:induction false} DifferWithinTurn(d: seq<Byte>, a: nat, b: nat, k: nat)
    requires a < |d| && b < |d|
    requires Agree(d, a, b, k) && At(d, a, k) < At(d, b, k)
    ensures k < |d|
  {
    if k >= |d| {
      AtPeriodic(d, a, k);
      AtPeriodic(d, b, k);
      assert false;
    }
  }

  /** Before is the lexicographic order of the rotations. */
  lemma {:induction false} BeforeIsLexLess(d: seq<Byte>, a: nat, b: nat)
    requires a < |d| && b < |d|
    requires Before(d, a, b)
    ensures LexLess(Rotation(d, a), Rotation(d, b))
  {
    var k: nat :| Agree(d, a, b, k) && At(d, a, k) < At(d, b, k);
    DifferWithinTurn(d, a, b, k);
    var s, t := Rotation(d, a), Rotation(d, b);
    forall j | 0 <= j < k
      ensures s[j] == t[j]
    {
      RotationAt(d, a, j);
      RotationAt(d, b, j);
    }
    RotationAt(d, a, k);
    RotationAt(d, b, k);
    assert s[..k] == t[..k];
  }

  /** Agreement on a whole turn makes the rotations equal. */
  lemma {:induction false} AgreeIsEqual(d: seq<Byte>, a: nat, b: nat, h: nat)
    requires a < |d| && b < |d| && h >= |d|
    requires Agree(d, a, b, h)
    ensures Rotation(d, a) == Rotation(d, b)
  {
    var s, t := Rotation(d, a), Rotation(d, b);
    forall j | 0 <= j < |d|
      ensures s[j] == t[j]
    {
      RotationAt(d, a, j);
      RotationAt(d, b, j);
    }
  }
}
