/** Comparing strings of one length, as a match finder does: by their first difference. */
module LzText {
  import opened Machine

  /** How many bytes agree, from the start. */
  function Lcp(u: seq<Byte>, v: seq<Byte>): (r: nat)
    requires |u| == |v|
    ensures r <= |u| && forall i | 0 <= i < r :: u[i] == v[i]
    ensures r < |u| ==> u[r] != v[r]
  {
    if u == [] || u[0] != v[0] then 0 else 1 + Lcp(u[1..], v[1..])
  }

  ghost predicate Agree(u: seq<Byte>, v: seq<Byte>, k: nat)
    requires |u| == |v| && k <= |u|
  {
    forall i | 0 <= i < k :: u[i] == v[i]
  }

  lemma {:induction false} LcpIs(u: seq<Byte>, v: seq<Byte>, k: nat)
    requires |u| == |v| && k <= |u| && Agree(u, v, k) && (k < |u| ==> u[k] != v[k])
    ensures Lcp(u, v) == k
  {
  }

  lemma {:induction false} LcpAtLeast(u: seq<Byte>, v: seq<Byte>, k: nat)
    requires |u| == |v| && k <= |u|
    ensures Lcp(u, v) >= k <==> Agree(u, v, k)
  {
  }

  lemma {:induction false} LcpSymmetric(u: seq<Byte>, v: seq<Byte>)
    requires |u| == |v|
    ensures Lcp(u, v) == Lcp(v, u)
  {
    LcpIs(v, u, Lcp(u, v));
  }

  lemma {:induction false} LcpShorter(u: seq<Byte>, v: seq<Byte>, n: nat)
    requires |u| == |v| && n <= |u|
    ensures Lcp(u[..n], v[..n]) == if Lcp(u, v) < n then Lcp(u, v) else n
  {
    LcpIs(u[..n], v[..n], if Lcp(u, v) < n then Lcp(u, v) else n);
  }

  /** u is not greater than v. */
  ghost predicate NotAbove(u: seq<Byte>, v: seq<Byte>)
    requires |u| == |v|
  {
    var r := Lcp(u, v);
    r < |u| ==> u[r] < v[r]
  }

  lemma {:induction false} Total(u: seq<Byte>, v: seq<Byte>)
    requires |u| == |v|
    ensures NotAbove(u, v) || NotAbove(v, u)
    ensures NotAbove(u, u)
  {
    LcpSymmetric(u, v);
    LcpIs(u, u, |u|);
  }

  lemma {:induction false} NotAboveShorter(u: seq<Byte>, v: seq<Byte>, n: nat)
    requires |u| == |v| && n <= |u| && NotAbove(u, v)
    ensures NotAbove(u[..n], v[..n])
  {
    LcpShorter(u, v, n);
  }

  lemma {:induction false} Transitive(u: seq<Byte>, v: seq<Byte>, w: seq<Byte>)
    requires |u| == |v| == |w| && NotAbove(u, v) && NotAbove(v, w)
    ensures NotAbove(u, w)
  {
    var i, j := Lcp(u, v), Lcp(v, w);
    var k := if i < j then i else j;
    LcpIs(u, w, k);
  }

  /** What lies between two that agree on k bytes agrees with them on k bytes. */
  lemma {:induction false} Sandwich(u: seq<Byte>, v: seq<Byte>, w: seq<Byte>, k: nat)
    requires |u| == |v| == |w| && k <= |u| && NotAbove(u, v) && NotAbove(v, w) && Agree(u, w, k)
    ensures Agree(u, v, k) && Agree(v, w, k)
  {
    var i := Lcp(u, v);
    if i < k {
      LcpIs(v, w, i);
      assert false;
    }
  }

  /** On one side of w, what is further away agrees with it no longer. */
  lemma {:induction false} Further(u: seq<Byte>, v: seq<Byte>, w: seq<Byte>)
    requires |u| == |v| == |w|
    requires (NotAbove(u, v) && NotAbove(v, w)) || (NotAbove(w, v) && NotAbove(v, u))
    ensures Lcp(u, w) <= Lcp(v, w)
  {
    var k := Lcp(u, w);
    if NotAbove(u, v) && NotAbove(v, w) {
      Sandwich(u, v, w, k);
    } else {
      LcpSymmetric(u, w);
      Sandwich(w, v, u, k);
    }
    LcpAtLeast(v, w, k);
  }
}
