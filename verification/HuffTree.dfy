/** Huffman trees without arrays: the two-queue merge, the levels it gives, and what
    these levels cost. */
module HuffTree {
  import opened Sums

  /** Items not merged yet: leaves by rising weight, and nodes in order of creation. */
  datatype Queue = Queue(leaves: seq<nat>, nodes: seq<nat>)

  function Size(q: Queue): nat { |q.leaves| + |q.nodes| }

  /** Whether the next item is a node, when i leaves and j nodes are gone: only a
      node strictly lighter than the leaf is taken before it. */
  predicate TakesNode(q: Queue, i: nat, j: nat) {
    j < |q.nodes| && (i < |q.leaves| ==> q.nodes[j] < q.leaves[i])
  }

  /** How many of the two items merged next are nodes. */
  function NodesTaken(q: Queue): (c: nat)
    requires Size(q) >= 2
    ensures c <= 2 && c <= |q.nodes| && 2 - c <= |q.leaves|
  {
    if TakesNode(q, 0, 0) then
      if TakesNode(q, 0, 1) then 2 else 1
    else
      if TakesNode(q, 1, 0) then 1 else 0
  }

  /** The weight of the node that the two next items make. */
  ghost function Merged(q: Queue): nat
    requires Size(q) >= 2
  {
    Sum(q.leaves[..2 - NodesTaken(q)]) + Sum(q.nodes[..NodesTaken(q)])
  }

  /** The queue after one merge. */
  ghost function Step(q: Queue): (r: Queue)
    requires Size(q) >= 2
    ensures Size(r) == Size(q) - 1 && r.nodes != []
  {
    Queue(q.leaves[2 - NodesTaken(q)..], q.nodes[NodesTaken(q)..] + [Merged(q)])
  }

  lemma {:induction false} StepShape(q: Queue)
    requires Size(q) >= 2
    ensures Step(q).leaves == q.leaves[2 - NodesTaken(q)..]
    ensures Step(q).nodes == q.nodes[NodesTaken(q)..] + [Merged(q)]
  {
  }

  ghost function WeightOf(q: Queue): nat { Sum(q.leaves) + Sum(q.nodes) }

  /** Merging neither adds nor loses weight. */
  lemma {:induction false} StepWeight(q: Queue)
    requires Size(q) >= 2
    ensures WeightOf(Step(q)) == WeightOf(q) >= Merged(q)
  {
    var c := NodesTaken(q);
    StepShape(q);
    SumSplit(q.leaves, 2 - c);
    SumSplit(q.nodes, c);
    SumAppend(q.nodes[c..], [Merged(q)]);
    assert Sum([Merged(q)]) == Merged(q);
  }

  /** Levels of the items of a queue in the tree that merging it builds. */
  datatype Levels = Levels(leaves: seq<nat>, nodes: seq<nat>)

  function Repeat(v: nat, k: nat): (r: seq<nat>)
    ensures |r| == k && forall i | 0 <= i < k :: r[i] == v
  {
    seq(k, i => v)
  }

  /** Undoes a merge of c nodes and 2 - c leaves: they hang below the last node. */
  ghost function Unmerge(r: Levels, c: nat): (l: Levels)
    requires r.nodes != [] && c <= 2
    ensures |l.leaves| == 2 - c + |r.leaves| && |l.nodes| == c + |r.nodes| - 1
  {
    var k := |r.nodes| - 1;
    Levels(Repeat(r.nodes[k] + 1, 2 - c) + r.leaves, Repeat(r.nodes[k] + 1, c) + r.nodes[..k])
  }

  ghost function LevelsOf(q: Queue): (r: Levels)
    requires Size(q) >= 1
    ensures |r.leaves| == |q.leaves| && |r.nodes| == |q.nodes|
    decreases Size(q)
  {
    if Size(q) == 1 then
      Levels(Repeat(0, |q.leaves|), Repeat(0, |q.nodes|))
    else
      Unmerge(LevelsOf(Step(q)), NodesTaken(q))
  }

  ghost function Cost(w: seq<nat>, l: seq<nat>): (r: nat)
    requires |w| == |l|
  {
    if w == [] then 0 else w[0] * l[0] + Cost(w[1..], l[1..])
  }

  /** The weight of all the nodes still to be made. */
  ghost function MergeCost(q: Queue): nat
    requires Size(q) >= 1
    decreases Size(q)
  {
    if Size(q) == 1 then 0 else Merged(q) + MergeCost(Step(q))
  }

  lemma {:induction false} CostAppend(w: seq<nat>, l: seq<nat>, w': seq<nat>, l': seq<nat>)
    requires |w| == |l| && |w'| == |l'|
    ensures Cost(w + w', l + l') == Cost(w, l) + Cost(w', l')
  {
    if w == [] {
      assert w + w' == w' && l + l' == l';
    } else {
      assert (w + w')[1..] == w[1..] + w' && (l + l')[1..] == l[1..] + l';
      CostAppend(w[1..], l[1..], w', l');
    }
  }

  lemma {:induction false} CostRepeat(w: seq<nat>, v: nat)
    ensures Cost(w, Repeat(v, |w|)) == v * Sum(w)
  {
    if w != [] {
      CostRepeat(w[1..], v);
      assert Repeat(v, |w|)[1..] == Repeat(v, |w| - 1);
    }
  }

  /** One step of the definition: the merged items are one below the new node. */
  lemma {:induction false} LevelsStep(q: Queue) returns (c: nat, ll: seq<nat>, ln: seq<nat>, m: nat)
    requires Size(q) >= 2
    ensures c <= 2 && 2 - c + |ll| == |q.leaves| && c + |ln| == |q.nodes| && c == NodesTaken(q)
    ensures LevelsOf(Step(q)) == Levels(ll, ln + [m])
    ensures LevelsOf(q) == Levels(Repeat(m + 1, 2 - c) + ll, Repeat(m + 1, c) + ln)
    ensures Size(Step(q)) == Size(q) - 1
    ensures Step(q).leaves == q.leaves[2 - c..] && Step(q).nodes == q.nodes[c..] + [Merged(q)]
  {
    hide Merged, NodesTaken, Repeat, Unmerge, LevelsOf;
    var r := LevelsOf(Step(q));
    LevelsUnmerge(q);
    c := NodesTaken(q);
    ll, ln, m := UnmergeParts(r, c);
  }

  lemma {:induction false} LevelsUnmerge(q: Queue)
    requires Size(q) >= 2
    ensures LevelsOf(Step(q)).nodes != [] && LevelsOf(q) == Unmerge(LevelsOf(Step(q)), NodesTaken(q))
  {
    hide Merged, NodesTaken, Repeat, Unmerge, Step;
  }

  lemma {:induction false} UnmergeParts(r: Levels, c: nat) returns (ll: seq<nat>, ln: seq<nat>, m: nat)
    requires r.nodes != [] && c <= 2
    ensures r == Levels(ll, ln + [m])
    ensures Unmerge(r, c) == Levels(Repeat(m + 1, 2 - c) + ll, Repeat(m + 1, c) + ln)
  {
    hide Repeat;
    var k := |r.nodes| - 1;
    ll, ln, m := r.leaves, r.nodes[..k], r.nodes[k];
    assert r.nodes == ln + [m];
  }

  /** The levels of the tree cost exactly the weight of its inner nodes. */
  lemma {:induction false} LevelsCost(q: Queue)
    requires Size(q) >= 1
    ensures Cost(q.leaves, LevelsOf(q).leaves) + Cost(q.nodes, LevelsOf(q).nodes) == MergeCost(q)
    decreases Size(q)
  {
    hide LevelsOf, Cost, Sum, Repeat, Step, NodesTaken;
    if Size(q) == 1 {
      LevelsCostOne(q);
    } else {
      var c, ll, ln, m := LevelsStep(q);
      LevelsCost(Step(q));
      StepCost(q.leaves, q.nodes, c, Merged(q), ll, ln, m);
    }
  }

  lemma {:induction false} LevelsCostOne(q: Queue)
    requires Size(q) == 1
    ensures Cost(q.leaves, LevelsOf(q).leaves) + Cost(q.nodes, LevelsOf(q).nodes) == 0
  {
    CostRepeat(q.leaves, 0);
    CostRepeat(q.nodes, 0);
  }

  /** One merge: the c first nodes and 2 - c first leaves, one level below the new node. */
  lemma {:induction false} StepCost(leaves: seq<nat>, nodes: seq<nat>, c: nat, s: nat, ll: seq<nat>, ln: seq<nat>,
                                    m: nat)
    requires c <= 2 && 2 - c + |ll| == |leaves| && c + |ln| == |nodes|
    requires Sum(leaves[..2 - c]) + Sum(nodes[..c]) == s
    ensures Cost(leaves, Repeat(m + 1, 2 - c) + ll) + Cost(nodes, Repeat(m + 1, c) + ln)
         == Cost(leaves[2 - c..], ll) + Cost(nodes[c..] + [s], ln + [m]) + s
  {
    HeadCost(leaves, 2 - c, ll, m + 1);
    HeadCost(nodes, c, ln, m + 1);
    CostAppend(nodes[c..], ln, [s], [m]);
    assert Cost([s], [m]) == s * m;
    Distribute(m, Sum(leaves[..2 - c]), Sum(nodes[..c]), s);
  }

  lemma {:induction false} HeadCost(w: seq<nat>, c: nat, l: seq<nat>, v: nat)
    requires c + |l| == |w|
    ensures Cost(w, Repeat(v, c) + l) == v * Sum(w[..c]) + Cost(w[c..], l)
  {
    CostAppend(w[..c], Repeat(v, c), w[c..], l);
    CostRepeat(w[..c], v);
    assert w == w[..c] + w[c..];
  }

  lemma {:induction false} Distribute(m: nat, a: nat, b: nat, s: nat)
    requires a + b == s
    ensures (m + 1) * a + (m + 1) * b == m * s + s
  {
    assert m * s == m * a + m * b;
  }

  ghost predicate Falling(s: seq<nat>) {
    forall i, j | 0 <= i < j < |s| :: s[i] >= s[j]
  }

  /** Levels never rise along the leaves, nor along the nodes, and the last node is
      at most one level above the deepest item. */
  ghost predicate Shaped(l: Levels) {
    && Falling(l.leaves) && Falling(l.nodes)
    && (l.nodes != [] ==> AtMost(l.leaves, l.nodes[|l.nodes| - 1] + 1) && AtMost(l.nodes, l.nodes[|l.nodes| - 1] + 1))
  }

  lemma {:induction false} LevelsFall(q: Queue)
    requires Size(q) >= 1
    ensures Shaped(LevelsOf(q))
    decreases Size(q)
  {
    hide LevelsOf, Step, Merged, NodesTaken, Shaped, Repeat;
    if Size(q) == 1 {
      ShapedOne(LevelsOf(q));
    } else {
      var c, ll, ln, m := LevelsStep(q);
      LevelsFall(Step(q));
      ShapedStep(ll, ln, m, 2 - c, c);
    }
  }

  lemma {:induction false} ShapedOne(l: Levels)
    requires |l.leaves| + |l.nodes| == 1
    ensures Shaped(l)
  {
  }

  lemma {:induction false} ShapedStep(ll: seq<nat>, ln: seq<nat>, m: nat, a: nat, c: nat)
    requires Shaped(Levels(ll, ln + [m]))
    ensures Shaped(Levels(Repeat(m + 1, a) + ll, Repeat(m + 1, c) + ln))
  {
    hide Falling, AtMost;
    assert (ln + [m])[|ln|] == m;
    FallPrefix(ln, m);
    FallStep(ll, m, a);
    FallStep(ln, m, c);
    if c + |ln| > 0 {
      FallLast(ll, ln, m, a, c);
    }
  }

  lemma {:induction false} FallPrefix(ln: seq<nat>, m: nat)
    requires Falling(ln + [m]) && AtMost(ln + [m], m + 1)
    ensures Falling(ln) && AtMost(ln, m + 1) && forall i | 0 <= i < |ln| :: ln[i] >= m
  {
    assert forall i | 0 <= i < |ln| :: ln[i] == (ln + [m])[i];
    assert (ln + [m])[|ln|] == m;
  }

  lemma {:induction false} FallStep(l: seq<nat>, m: nat, a: nat)
    requires Falling(l) && AtMost(l, m + 1)
    ensures Falling(Repeat(m + 1, a) + l) && AtMost(Repeat(m + 1, a) + l, m + 1)
  {
  }

  lemma {:induction false} FallLast(ll: seq<nat>, ln: seq<nat>, m: nat, a: nat, c: nat)
    requires AtMost(Repeat(m + 1, a) + ll, m + 1) && AtMost(Repeat(m + 1, c) + ln, m + 1)
    requires c + |ln| > 0 && forall i | 0 <= i < |ln| :: ln[i] >= m
    ensures var v := (Repeat(m + 1, c) + ln)[c + |ln| - 1];
      AtMost(Repeat(m + 1, a) + ll, v + 1) && AtMost(Repeat(m + 1, c) + ln, v + 1)
  {
    var v := (Repeat(m + 1, c) + ln)[c + |ln| - 1];
    assert v >= m by {
      if ln != [] {
        assert v == ln[|ln| - 1];
      }
    }
  }
}
