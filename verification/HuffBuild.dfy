/** The second part of Huffman_Generate: the tree, built in the array that holds the
    sorted symbols (HuffEnc.c:166-255). */
module HuffBuild {
  import opened Arith
  import opened Bitwise
  import opened Machine
  import opened HuffSort
  import opened HuffTree
  import opened HuffRun
  import opened Sums

  // ---------- the three fields of a word ----------

  /** LOAD_PARENT: the upper half, whatever was below it. */
  function Parent(w: Word): nat { w / 0x1_0000 }

  /** STORE_PARENT: the symbol stays, the rest of the frequency does not. */
  function StoreParent(w: Word, v: nat): (r: Word)
    requires v < 0x1_0000
    ensures Sym(r) == Sym(w) && Parent(r) == v
  {
    w % 0x1_0000 + v * 0x1_0000
  }

  /** w & FREQ_MASK. */
  function FreqField(w: Word): (r: Word)
    ensures Freq(r) == Freq(w) && Sym(r) == 0
  {
    MaskedWord(w);
    And(w, Shl(0x3F_FFFF, 10))
  }

  /** A frequency in its place in a word. */
  function FieldOf(total: nat): (r: Word)
    requires total <= 0x3F_FFFF
    ensures Sym(r) == 0 && Freq(r) == total
  {
    total * SYMBOLS
  }

  /** The words with one of them replaced. */
  function Put(ps: seq<Word>, j: nat, w: Word): (r: seq<Word>)
    requires j < |ps|
    ensures |r| == |ps| && r[j] == w && forall i | 0 <= i < |ps| && i != j :: r[i] == ps[i]
  {
    ps[j := w]
  }

  /** STORE_PARENT, in place. */
  method SetParent(p: array<Word>, j: nat, v: nat)
    requires j < p.Length && v < 0x1_0000
    modifies p
    ensures p[..] == Put(old(p[..]), j, StoreParent(old(p[j]), v))
  {
    p[j] := StoreParent(p[j], v);
  }

  /** Gives word j the frequency of a sum, beside its symbol. */
  method SetSum(p: array<Word>, j: nat, sum: Word)
    requires j < p.Length && Sym(sum) == 0
    modifies p
    ensures Sym(p[j]) == Sym(old(p[j])) && Freq(p[j]) == Freq(sum)
    ensures p[..] == Put(old(p[..]), j, p[j])
  {
    hide And, Or, Shl;
    MaskedWord(p[j]);
    PackedWord(Sym(p[j]), Freq(sum));
    FieldIsShifted(sum);
    p[j] := Or(And(p[j], SYMBOLS - 1), sum);
  }

  lemma {:induction false} FieldIsShifted(sum: Word)
    requires Sym(sum) == 0
    ensures sum == Shl(Freq(sum), 10) == Freq(sum) * SYMBOLS
  {
    WordPowers();
  }

  // ---------- weights ----------

  ghost function Weights(ws: seq<Word>): (r: seq<nat>)
    ensures |r| == |ws| && forall k | 0 <= k < |ws| :: r[k] == Freq(ws[k])
  {
    seq(|ws|, k requires 0 <= k < |ws| => Freq(ws[k]))
  }

  ghost function QueueOf(ws: seq<Word>): (q: Queue)
    ensures q.nodes == [] && Size(q) == |ws| && q.leaves == Weights(ws)
  {
    Queue(Weights(ws), [])
  }

  lemma {:induction false} RunWeight(q: Queue, k: nat)
    requires k < Size(q)
    ensures WeightOf(Run(q, k)) == WeightOf(q)
  {
    hide WeightOf, Step;
    if k > 0 {
      RunWeight(q, k - 1);
      StepWeight(Run(q, k - 1));
    }
  }

  lemma {:induction false} MergedIs(q: Queue)
    requires Size(q) >= 2
    ensures NodesTaken(q) == 0 ==> Merged(q) == q.leaves[0] + q.leaves[1]
    ensures NodesTaken(q) == 1 ==> Merged(q) == q.leaves[0] + q.nodes[0]
    ensures NodesTaken(q) == 2 ==> Merged(q) == q.nodes[0] + q.nodes[1]
  {
    ShortSum(q.leaves[..2 - NodesTaken(q)]);
    ShortSum(q.nodes[..NodesTaken(q)]);
    hide Sum, NodesTaken;
  }

  // ---------- the array during the loop ----------

  /** Node v is the parent of node j. */
  ghost predicate HasParent(q: Queue, j: nat, v: nat)
    requires q.nodes == []
  {
    v + 1 < Size(q) && Gone(q, v) <= j < Gone(q, v + 1)
  }

  /** After k merges: the symbols are where they were, and the nodes that have a
      parent name it. */
  ghost predicate Linked(ws: seq<Word>, ps: seq<Word>, k: nat) {
    && k < |ws| <= |ps|
    && (forall j | 0 <= j < |ws| :: Sym(ps[j]) == Sym(ws[j]))
    && (forall j | 0 <= j < Gone(QueueOf(ws), k) :: HasParent(QueueOf(ws), j, Parent(ps[j])))
  }

  /** The nodes that have none hold their weight (the first one in fb only), and
      the leaves that are left hold their word. */
  ghost predicate Waiting(ws: seq<Word>, ps: seq<Word>, k: nat, b: nat, pi: nat, fb: Word) {
    && k < |ws| <= |ps| && b < k && b == Gone(QueueOf(ws), k) && pi == 2 * k - b
    && var nodes := Run(QueueOf(ws), k).nodes;
    && Sym(fb) == Sym(ws[b]) && Freq(fb) == nodes[0]
    && (forall j | b < j < k :: Freq(ps[j]) == nodes[j - b])
    && (forall j | pi <= j < |ws| :: ps[j] == ws[j])
  }

  ghost predicate Building(ws: seq<Word>, ps: seq<Word>, k: nat, b: nat, pi: nat, fb: Word, f: Word) {
    && Linked(ws, ps, k) && Waiting(ws, ps, k, b, pi, fb)
    && pi < |ws| && f == FreqField(ws[pi])
  }

  /** Node k - 1 took the last leaf. */
  ghost predicate LeavesEnd(q: Queue, k: nat) {
    0 < k < Size(q) && Run(q, k).leaves == [] && Run(q, k - 1).leaves != []
  }

  /** All the leaves are gone, and were not before. */
  ghost predicate Built(ws: seq<Word>, ps: seq<Word>, k: nat, b: nat) {
    && Linked(ws, ps, k) && b == Gone(QueueOf(ws), k) && LeavesEnd(QueueOf(ws), k)
  }

  /** What the loop reads off its variables. */
  lemma {:induction false} Read(ws: seq<Word>, ps: seq<Word>, k: nat, b: nat, pi: nat, fb: Word,
                                f: Word) returns (r: Queue)
    requires Building(ws, ps, k, b, pi, fb, f) && Sum(Weights(ws)) <= 0x3F_FFFF
    ensures r == Run(QueueOf(ws), k) && Size(r) == |ws| - k
    ensures b < k < pi < |ws| <= |ps| && |r.nodes| == k - b && |r.leaves| == |ws| - pi
    ensures k + 1 < |ws|
    ensures f == FreqField(ws[pi]) && Freq(f) == r.leaves[0] && Freq(fb) == r.nodes[0]
    ensures pi + 1 < |ws| ==> Freq(ws[pi + 1]) == r.leaves[1]
    ensures b + 1 < k ==> Freq(ps[b + 1]) == r.nodes[1]
    ensures forall j | pi <= j < |ws| :: ps[j] == ws[j]
    ensures forall j | 0 <= j < |ws| :: Sym(ps[j]) == Sym(ws[j])
    ensures Merged(r) <= 0x3F_FFFF
  {
    hide Run, Merged, WeightOf, Gone;
    var q := QueueOf(ws);
    r := Run(q, k);
    ReadRun(ws, k);
    RunWeight(q, k);
    WholeWeight(ws);
    StepWeight(r);
  }

  /** Words compare with a frequency as their frequencies do. */
  lemma {:induction false} CompareFields(fb: Word, f: Word)
    requires Sym(f) == 0
    ensures fb < f <==> Freq(fb) < Freq(f)
    ensures Freq(f) <= 0x3F_FFFF && f == FieldOf(Freq(f))
  {
  }

  lemma {:induction false} AddFields(s: Word, fb: Word, total: nat)
    requires Sym(s) == 0 && Freq(s) + Freq(fb) == total <= 0x3F_FFFF
    ensures s + fb < 0x1_0000_0000 && FreqField(s + fb) == FieldOf(total)
  {
    assert s == Freq(s) * SYMBOLS && fb == Freq(fb) * SYMBOLS + Sym(fb);
    assert s + fb == total * SYMBOLS + Sym(fb);
  }

  lemma {:induction false} ReadRun(ws: seq<Word>, k: nat)
    requires k < |ws|
    ensures Run(QueueOf(ws), k).leaves == Weights(ws)[2 * k - Gone(QueueOf(ws), k)..]
    ensures |Run(QueueOf(ws), k).nodes| == k - Gone(QueueOf(ws), k)
    ensures 0 <= Gone(QueueOf(ws), k) <= k
    ensures 2 * k - Gone(QueueOf(ws), k) <= |ws|
  {
    hide Run, Weights;
    RunShape(QueueOf(ws), k);
  }

  lemma {:induction false} WholeWeight(ws: seq<Word>)
    ensures WeightOf(QueueOf(ws)) == Sum(Weights(ws))
  {
  }

  /** How the array changes when node k takes c nodes. */
  ghost predicate Moved(ws: seq<Word>, ps: seq<Word>, ps': seq<Word>, k: nat, b: nat, c: nat) {
    && b + c <= k < |ws| <= |ps| == |ps'|
    && (forall j | 0 <= j < |ws| && j != k && !(b <= j < b + c) :: ps'[j] == ps[j])
    && (forall j | b <= j < b + c :: Sym(ps'[j]) == Sym(ps[j]) && Parent(ps'[j]) == k)
    && Sym(ps'[k]) == Sym(ps[k])
  }

  lemma {:induction false} LinkedStep(ws: seq<Word>, ps: seq<Word>, ps': seq<Word>, k: nat, b: nat, c: nat)
    requires Linked(ws, ps, k) && k + 1 < |ws| && b == Gone(QueueOf(ws), k) && c == NodesTaken(Run(QueueOf(ws), k))
    requires Moved(ws, ps, ps', k, b, c)
    ensures Linked(ws, ps', k + 1) && Gone(QueueOf(ws), k + 1) == b + c
  {
    hide Run, Weights, Gone, NodesTaken, Sym, Parent;
    GoneStep(QueueOf(ws), k);
  }

  /** The next state, when leaves are left. */
  lemma {:induction false} Advance(ws: seq<Word>, ps: seq<Word>, ps': seq<Word>, k: nat, b: nat, pi: nat, fb: Word,
                                   f: Word,
                                   c: nat, fb': Word, f': Word)
    requires Building(ws, ps, k, b, pi, fb, f) && k + 1 < |ws| && c == NodesTaken(Run(QueueOf(ws), k))
    requires Moved(ws, ps, ps', k, b, c) && Freq(ps'[k]) == Merged(Run(QueueOf(ws), k))
    requires fb' == if c == 0 then fb else ps'[b + c]
    requires pi + 2 - c < |ws| && f' == FreqField(ws[pi + 2 - c])
    ensures Building(ws, ps', k + 1, b + c, pi + 2 - c, fb', f')
  {
    LinkedStep(ws, ps, ps', k, b, c);
    RunStep(QueueOf(ws), k);
    StepShape(Run(QueueOf(ws), k));
    ReadRun(ws, k);
    hide Run, Weights, Gone, NodesTaken, Linked, Sym, Freq, Parent, Step, Merged;
    WaitingStep(ws, ps, ps', k, b, pi, fb, c, fb');
  }

  lemma {:induction false} WaitingStep(ws: seq<Word>, ps: seq<Word>, ps': seq<Word>, k: nat, b: nat, pi: nat, fb: Word,
                                       c: nat, fb': Word)
    requires Waiting(ws, ps, k, b, pi, fb) && k + 1 < |ws| && Moved(ws, ps, ps', k, b, c) && c <= 2
    requires k < pi && Gone(QueueOf(ws), k + 1) == b + c && |Run(QueueOf(ws), k).nodes| == k - b
    requires Linked(ws, ps', k + 1)
    requires Run(QueueOf(ws), k + 1).nodes == Run(QueueOf(ws), k).nodes[c..] + [Freq(ps'[k])]
    requires fb' == if c == 0 then fb else ps'[b + c]
    ensures Waiting(ws, ps', k + 1, b + c, pi + 2 - c, fb')
  {
    hide Run, Weights, Gone, Sym, Freq, Parent, HasParent;
    var nodes, nodes' := Run(QueueOf(ws), k).nodes, Run(QueueOf(ws), k + 1).nodes;
    assert nodes'[k - b - c] == Freq(ps'[k]);
    assert forall i | 0 <= i < k - b - c :: nodes'[i] == nodes[c..][i];
  }

  lemma {:induction false} Finish(ws: seq<Word>, ps: seq<Word>, ps': seq<Word>, k: nat, b: nat, pi: nat, fb: Word,
                                  f: Word, c: nat)
    requires Building(ws, ps, k, b, pi, fb, f) && k + 1 < |ws| && c == NodesTaken(Run(QueueOf(ws), k))
    requires Moved(ws, ps, ps', k, b, c) && pi + 2 - c == |ws|
    ensures Built(ws, ps', k + 1, b + c)
  {
    hide Run, Weights, Gone, NodesTaken, Linked, Sym, Freq, Parent;
    LinkedStep(ws, ps, ps', k, b, c);
    ReadRun(ws, k);
    ReadRun(ws, k + 1);
  }

  // ---------- one turn of the loop ----------

  /** The first child of node k is taken, and there may be two candidates for the second. */
  ghost predicate FirstTaken(ws: seq<Word>, r: Queue, ps: seq<Word>, ps1: seq<Word>, k: nat, b0: nat, pi0: nat,
                             fb0: Word,
                             b: nat, pi: nat, fb: Word, f: Word, sum: Word) {
    && b0 <= b <= b0 + 1 && pi + b == pi0 + 1 + b0 && k < pi0 <= pi < |ws| && b < k
    && Moved(ws, ps, ps1, k, b0, b - b0)
    && |r.leaves| == |ws| - pi0 && |r.nodes| == k - b0 && Size(r) >= 2
    && f == FreqField(ws[pi]) && Freq(f) == r.leaves[pi - pi0]
    && Freq(fb) == r.nodes[b - b0] && fb == (if b == b0 then fb0 else ps1[b])
    && Sym(sum) == 0 && Freq(sum) == (if b > b0 then r.nodes[0] else r.leaves[0])
    && (b > b0 <==> TakesNode(r, 0, 0))
    && (forall j | pi <= j < |ws| :: ps1[j] == ws[j])
  }

  /** The second child is a node. */
  lemma {:induction false} SecondNode(ws: seq<Word>, r: Queue, ps: seq<Word>, ps1: seq<Word>, k: nat, b0: nat,
                                      pi0: nat, fb0: Word,
                                      b: nat, pi: nat, fb: Word, f: Word, sum: Word)
    requires FirstTaken(ws, r, ps, ps1, k, b0, pi0, fb0, b, pi, fb, f, sum) && Merged(r) <= 0x3F_FFFF
    ensures fb < f ==> NodesTaken(r) == b + 1 - b0
    ensures fb < f ==> sum + fb < 0x1_0000_0000 && FreqField(sum + fb) == FieldOf(Merged(r))
    ensures fb >= f ==> NodesTaken(r) == b - b0
    ensures fb >= f && pi + 1 < |ws| ==> sum + f == FieldOf(Merged(r))
  {
    CompareFields(fb, f);
    CompareFields(f, sum);
    MergedIs(r);
    hide Merged, Moved, FreqField, Freq, Sym;
    if fb < f {
      AddFields(sum, fb, Merged(r));
    }
  }

  /** Both writes of a second child that is a node. */
  lemma {:induction false} SecondNodeMoved(ws: seq<Word>, ps: seq<Word>, ps1: seq<Word>, ps2: seq<Word>, k: nat,
                                           b0: nat, b: nat, w: Word)
    requires b0 <= b < k < 0x1_0000 && Moved(ws, ps, ps1, k, b0, b - b0) && Sym(w) == Sym(ps1[k])
    requires ps2 == Put(Put(ps1, b, StoreParent(ps1[b], k)), k, w)
    ensures Moved(ws, ps, ps2, k, b0, b + 1 - b0) && ps2[k] == w
  {
  }

  lemma {:induction false} SecondLeafMoved(ws: seq<Word>, ps: seq<Word>, ps1: seq<Word>, k: nat, b0: nat, c: nat,
                                           w: Word)
    requires Moved(ws, ps, ps1, k, b0, c) && Sym(w) == Sym(ps1[k])
    ensures Moved(ws, ps, Put(ps1, k, w), k, b0, c)
  {
  }

  /** The state after a second child that is a node. */
  lemma {:induction false} AfterSecondNode(ws: seq<Word>, r: Queue, ps: seq<Word>, ps1: seq<Word>, k: nat,
                                           b0: nat, pi0: nat, fb0: Word, f0: Word, b: nat, pi: nat, fb: Word,
                                           f: Word, sum: Word,
                                           ps2: seq<Word>)
    requires Building(ws, ps, k, b0, pi0, fb0, f0) && r == Run(QueueOf(ws), k)
    requires FirstTaken(ws, r, ps, ps1, k, b0, pi0, fb0, b, pi, fb, f, sum) && Merged(r) <= 0x3F_FFFF && fb < f
    requires b < k < |ps1| == |ps2| && k < 0x1_0000 && Sym(ps2[k]) == Sym(ps1[k]) && Freq(ps2[k]) == Merged(r)
    requires ps2 == Put(Put(ps1, b, StoreParent(ps1[b], k)), k, ps2[k])
    ensures Building(ws, ps2, k + 1, b + 1, pi, ps2[b + 1], f)
  {
    hide *;
    SecondNode(ws, r, ps, ps1, k, b0, pi0, fb0, b, pi, fb, f, sum);
    FirstFacts(ws, r, ps, ps1, k, b0, pi0, fb0, b, pi, fb, f, sum);
    SecondNodeMoved(ws, ps, ps1, ps2, k, b0, b, ps2[k]);
    Advance(ws, ps, ps2, k, b0, pi0, fb0, f0, b + 1 - b0, ps2[b + 1], f);
  }

  /** The state after a second child that is a leaf, but not the last one. */
  lemma {:induction false} AfterSecondLeaf(ws: seq<Word>, r: Queue, ps: seq<Word>, ps1: seq<Word>, k: nat,
                                           b0: nat, pi0: nat, fb0: Word, f0: Word, b: nat, pi: nat, fb: Word,
                                           f: Word, sum: Word,
                                           ps2: seq<Word>)
    requires Building(ws, ps, k, b0, pi0, fb0, f0) && r == Run(QueueOf(ws), k)
    requires FirstTaken(ws, r, ps, ps1, k, b0, pi0, fb0, b, pi, fb, f, sum) && Merged(r) <= 0x3F_FFFF && fb >= f
    requires k < |ps1| == |ps2| && Sym(ps2[k]) == Sym(ps1[k]) && Freq(ps2[k]) == Merged(r)
    requires ps2 == Put(ps1, k, ps2[k]) && pi + 1 < |ws|
    ensures Building(ws, ps2, k + 1, b, pi + 1, fb, FreqField(ws[pi + 1]))
  {
    hide *;
    SecondNode(ws, r, ps, ps1, k, b0, pi0, fb0, b, pi, fb, f, sum);
    FirstFacts(ws, r, ps, ps1, k, b0, pi0, fb0, b, pi, fb, f, sum);
    SecondLeafMoved(ws, ps, ps1, k, b0, b - b0, ps2[k]);
    Advance(ws, ps, ps2, k, b0, pi0, fb0, f0, b - b0, fb, FreqField(ws[pi + 1]));
  }

  /** The state after a second child that is the last leaf. */
  lemma {:induction false} AfterLastLeaf(ws: seq<Word>, r: Queue, ps: seq<Word>, ps1: seq<Word>, k: nat,
                                         b0: nat, pi0: nat, fb0: Word, f0: Word, b: nat, pi: nat, fb: Word, f: Word,
                                         sum: Word)
    requires Building(ws, ps, k, b0, pi0, fb0, f0) && r == Run(QueueOf(ws), k)
    requires FirstTaken(ws, r, ps, ps1, k, b0, pi0, fb0, b, pi, fb, f, sum) && Merged(r) <= 0x3F_FFFF && fb >= f
    requires pi + 1 == |ws|
    ensures Built(ws, ps1, k + 1, b)
  {
    hide *;
    SecondNode(ws, r, ps, ps1, k, b0, pi0, fb0, b, pi, fb, f, sum);
    FirstFacts(ws, r, ps, ps1, k, b0, pi0, fb0, b, pi, fb, f, sum);
    Finish(ws, ps, ps1, k, b0, pi0, fb0, f0, b - b0);
  }

  lemma {:induction false} FirstFacts(ws: seq<Word>, r: Queue, ps: seq<Word>, ps1: seq<Word>, k: nat, b0: nat,
                                      pi0: nat, fb0: Word,
                                      b: nat, pi: nat, fb: Word, f: Word, sum: Word)
    requires FirstTaken(ws, r, ps, ps1, k, b0, pi0, fb0, b, pi, fb, f, sum)
    ensures b0 <= b <= b0 + 1 && pi + b == pi0 + 1 + b0 && k < pi < |ws| && b < k && k + 1 < |ws|
    ensures Moved(ws, ps, ps1, k, b0, b - b0) && |ws| <= |ps| == |ps1|
    ensures fb == (if b == b0 then fb0 else ps1[b]) && f == FreqField(ws[pi])
    ensures forall j | pi <= j < |ws| :: ps1[j] == ws[j]
  {
  }

  /** The second child is a node (HuffEnc.c:236-245). */
  method TakeNode(p: array<Word>, num: nat, e: nat, b1: nat, pi1: nat, fb1: Word, f1: Word, sum1: Word,
                     ghost ws: seq<Word>, ghost r: Queue, ghost ps: seq<Word>, ghost b0: nat, ghost pi0: nat,
                     ghost fb0: Word, ghost f0: Word)
    returns (b: nat, pi: nat, fb: Word, f: Word, done: bool)
    requires |ws| == num && e < 0x1_0000 && Size(r) >= 2 && Merged(r) <= 0x3F_FFFF
    requires Building(ws, ps, e, b0, pi0, fb0, f0) && r == Run(QueueOf(ws), e)
    requires FirstTaken(ws, r, ps, p[..], e, b0, pi0, fb0, b1, pi1, fb1, f1, sum1)
    requires fb1 < f1
    modifies p
    ensures done ==> Built(ws, p[..], e + 1, b)
    ensures !done ==> Building(ws, p[..], e + 1, b, pi, fb, f)
  {
    hide *;
    ghost var ps1 := p[..];
    FirstFacts(ws, r, ps, ps1, e, b0, pi0, fb0, b1, pi1, fb1, f1, sum1);
    SecondNode(ws, r, ps, ps1, e, b0, pi0, fb0, b1, pi1, fb1, f1, sum1);
    b, pi, fb, f, done := b1, pi1, fb1, f1, false;
    var sum := sum1;
    sum := FreqField(sum + fb);
    SetParent(p, b, e);
    b := b + 1;
    SetSum(p, e, sum);
    fb := p[b];
    AfterSecondNode(ws, r, ps, ps1, e, b0, pi0, fb0, f0, b1, pi, fb1, f, sum1, p[..]);
  }

  /** The second child is a leaf (HuffEnc.c:246-253). */
  method TakeLeaf(p: array<Word>, num: nat, e: nat, b1: nat, pi1: nat, fb1: Word, f1: Word, sum1: Word,
                     ghost ws: seq<Word>, ghost r: Queue, ghost ps: seq<Word>, ghost b0: nat, ghost pi0: nat,
                     ghost fb0: Word, ghost f0: Word)
    returns (b: nat, pi: nat, fb: Word, f: Word, done: bool)
    requires |ws| == num && e < 0x1_0000 && Size(r) >= 2 && Merged(r) <= 0x3F_FFFF
    requires Building(ws, ps, e, b0, pi0, fb0, f0) && r == Run(QueueOf(ws), e)
    requires FirstTaken(ws, r, ps, p[..], e, b0, pi0, fb0, b1, pi1, fb1, f1, sum1)
    requires fb1 >= f1
    modifies p
    ensures done ==> Built(ws, p[..], e + 1, b)
    ensures !done ==> Building(ws, p[..], e + 1, b, pi, fb, f)
  {
    hide *;
    ghost var ps1 := p[..];
    FirstFacts(ws, r, ps, ps1, e, b0, pi0, fb0, b1, pi1, fb1, f1, sum1);
    SecondNode(ws, r, ps, ps1, e, b0, pi0, fb0, b1, pi1, fb1, f1, sum1);
    b, pi, fb, f, done := b1, pi1, fb1, f1, false;
    var sum := sum1;
    pi := pi + 1;
    if pi == num {
      AfterLastLeaf(ws, r, ps, ps1, e, b0, pi0, fb0, f0, b, pi1, fb, f1, sum1);
      done := true;
    } else {
      sum := sum + f;
      f := FreqField(p[pi]);
      SetSum(p, e, sum);
      AfterSecondLeaf(ws, r, ps, ps1, e, b0, pi0, fb0, f0, b, pi1, fb, f1, sum1, p[..]);
    }
  }

  method SecondChild(p: array<Word>, num: nat, e: nat, b1: nat, pi1: nat, fb1: Word, f1: Word, sum1: Word,
                     ghost ws: seq<Word>, ghost r: Queue, ghost ps: seq<Word>, ghost b0: nat, ghost pi0: nat,
                     ghost fb0: Word, ghost f0: Word)
    returns (b: nat, pi: nat, fb: Word, f: Word, done: bool)
    requires |ws| == num && e < 0x1_0000 && Size(r) >= 2 && Merged(r) <= 0x3F_FFFF
    requires Building(ws, ps, e, b0, pi0, fb0, f0) && r == Run(QueueOf(ws), e)
    requires FirstTaken(ws, r, ps, p[..], e, b0, pi0, fb0, b1, pi1, fb1, f1, sum1)
    modifies p
    ensures done ==> Built(ws, p[..], e + 1, b)
    ensures !done ==> Building(ws, p[..], e + 1, b, pi, fb, f)
  {
    hide *;
    if fb1 < f1 {
      b, pi, fb, f, done := TakeNode(p, num, e, b1, pi1, fb1, f1, sum1, ws, r, ps, b0, pi0, fb0, f0);
    } else {
      b, pi, fb, f, done := TakeLeaf(p, num, e, b1, pi1, fb1, f1, sum1, ws, r, ps, b0, pi0, fb0, f0);
    }
  }

  /** The first child is a node. */
  lemma {:induction false} FirstNode(ws: seq<Word>, r: Queue, ps: seq<Word>, ps1: seq<Word>, k: nat, b: nat,
                                     pi: nat, fb: Word, f: Word)
    requires Building(ws, ps, k, b, pi, fb, f) && Sum(Weights(ws)) <= 0x3F_FFFF && r == Run(QueueOf(ws), k)
    requires b < k < 0x1_0000 && k < |ws| <= |ps| && ps1 == Put(ps, b, StoreParent(ps[b], k)) && fb < f
    ensures Size(r) >= 2 && Moved(ws, ps, ps1, k, b, 1) && Merged(r) <= 0x3F_FFFF
    ensures b + 1 < k ==> FirstTaken(ws, r, ps, ps1, k, b, pi, fb, b + 1, pi, ps1[b + 1], f, FreqField(fb))
    ensures b + 1 == k ==> NodesTaken(r) == 1 && FreqField(fb) + f == FieldOf(Merged(r))
    ensures k < pi < |ws| && forall j | pi <= j < |ws| :: ps1[j] == ws[j]
  {
    hide Building, Weights, Run, Merged;
    var _ := Read(ws, ps, k, b, pi, fb, f);
    CompareFields(fb, f);
    CompareFields(fb, FreqField(fb));
    MergedIs(r);
  }

  /** Node k - 1 is the only candidate: the second child is a leaf. */
  lemma {:induction false} OnlyNode(ws: seq<Word>, r: Queue, ps: seq<Word>, ps1: seq<Word>, k: nat, b: nat, pi: nat,
                                    fb: Word, f: Word,
                                    ps2: seq<Word>)
    requires Building(ws, ps, k, b, pi, fb, f) && Sum(Weights(ws)) <= 0x3F_FFFF && r == Run(QueueOf(ws), k)
    requires b + 1 == k < 0x1_0000 && k < |ws| <= |ps| && ps1 == Put(ps, b, StoreParent(ps[b], k)) && fb < f
    requires Size(r) >= 2 && |ps1| == |ps2| && Sym(ps2[k]) == Sym(ps1[k]) && ps2 == Put(ps1, k, ps2[k])
    requires pi + 1 < |ws| && Freq(ps2[k]) == Merged(r)
    ensures Building(ws, ps2, k + 1, k, pi + 1, ps2[k], FreqField(ws[pi + 1]))
  {
    hide *;
    FirstNode(ws, r, ps, ps1, k, b, pi, fb, f);
    SecondLeafMoved(ws, ps, ps1, k, b, 1, ps2[k]);
    Advance(ws, ps, ps2, k, b, pi, fb, f, 1, ps2[k], FreqField(ws[pi + 1]));
  }

  lemma {:induction false} OnlyNodeLast(ws: seq<Word>, r: Queue, ps: seq<Word>, ps1: seq<Word>, k: nat, b: nat,
                                        pi: nat, fb: Word, f: Word)
    requires Building(ws, ps, k, b, pi, fb, f) && Sum(Weights(ws)) <= 0x3F_FFFF && r == Run(QueueOf(ws), k)
    requires b + 1 == k < 0x1_0000 && k < |ws| <= |ps| && ps1 == Put(ps, b, StoreParent(ps[b], k)) && fb < f
    requires pi + 1 == |ws|
    ensures Built(ws, ps1, k + 1, k)
  {
    hide *;
    FirstNode(ws, r, ps, ps1, k, b, pi, fb, f);
    Finish(ws, ps, ps1, k, b, pi, fb, f, 1);
  }

  /** The last leaf and then a node. */
  lemma {:induction false} LeafThenNode(r: Queue, node: nat, leaf: nat)
    requires |r.leaves| == 1 && r.nodes != [] && r.nodes[0] == node >= leaf == r.leaves[0]
    ensures NodesTaken(r) == 1
  {
  }

  lemma {:induction false} NodeMoved(ws: seq<Word>, ps: seq<Word>, k: nat, b: nat)
    requires b < k < 0x1_0000 && k < |ws| <= |ps|
    ensures Moved(ws, ps, Put(ps, b, StoreParent(ps[b], k)), k, b, 1)
  {
  }

  /** The first child is a leaf. */
  lemma {:induction false} FirstLeaf(ws: seq<Word>, r: Queue, ps: seq<Word>, k: nat, b: nat, pi: nat, fb: Word, f: Word)
    requires Building(ws, ps, k, b, pi, fb, f) && Sum(Weights(ws)) <= 0x3F_FFFF && r == Run(QueueOf(ws), k)
    requires fb >= f && b < k < 0x1_0000 && k < |ws| <= |ps|
    ensures Size(r) >= 2 && Merged(r) <= 0x3F_FFFF
    ensures pi + 1 < |ws| ==> FirstTaken(ws, r, ps, ps, k, b, pi, fb, b, pi + 1, fb, FreqField(ws[pi + 1]), f)
    ensures pi + 1 == |ws| ==> Built(ws, Put(ps, b, StoreParent(ps[b], k)), k + 1, b + 1)
    ensures pi < |ws| && forall j | pi <= j < |ws| :: ps[j] == ws[j]
  {
    hide Building, Weights, Run, Merged, Built;
    var _ := Read(ws, ps, k, b, pi, fb, f);
    CompareFields(fb, f);
    if pi + 1 == |ws| {
      hide FreqField, Freq, Sym;
      LeafThenNode(r, Freq(fb), Freq(f));
      NodeMoved(ws, ps, k, b);
      Finish(ws, ps, Put(ps, b, StoreParent(ps[b], k)), k, b, pi, fb, f, 1);
    }
  }

  /** The second child is a leaf, because the first was the last node (HuffEnc.c:209-219). */
  method LeafSecond(p: array<Word>, num: nat, e: nat, pi0: nat, fb1: Word, f0: Word, sum0: Word,
                    ghost ws: seq<Word>, ghost r: Queue, ghost ps: seq<Word>, ghost fb0: Word)
    returns (pi: nat, fb: Word, f: Word, done: bool)
    requires |ws| == num && Sum(Weights(ws)) <= 0x3F_FFFF && 0 < e < num <= |ps| && e < 0x1_0000
    requires Building(ws, ps, e, e - 1, pi0, fb0, f0) && r == Run(QueueOf(ws), e) && fb0 < f0
    requires p[..] == Put(ps, e - 1, StoreParent(ps[e - 1], e)) && fb1 == p[..][e] && sum0 == FreqField(fb0)
    modifies p
    ensures done ==> Built(ws, p[..], e + 1, e)
    ensures !done ==> Building(ws, p[..], e + 1, e, pi, fb, f)
  {
    hide *;
    ghost var ps1 := p[..];
    FirstNode(ws, r, ps, ps1, e, e - 1, pi0, fb0, f0);
    pi, fb, f, done := pi0 + 1, fb1, f0, false;
    var sum := sum0;
    if pi == num {
      OnlyNodeLast(ws, r, ps, ps1, e, e - 1, pi0, fb0, f0);
      done := true;
    } else {
      sum := sum + f;
      SetSum(p, e, sum);
      fb := p[e];
      f := FreqField(p[pi]);
      OnlyNode(ws, r, ps, ps1, e, e - 1, pi0, fb0, f0, p[..]);
    }
  }

  /** The first child is a node (HuffEnc.c:202-220). */
  method NodeFirst(p: array<Word>, num: nat, e: nat, b0: nat, pi0: nat, fb0: Word, f0: Word, ghost ws: seq<Word>)
    returns (b: nat, pi: nat, fb: Word, f: Word, done: bool)
    requires |ws| == num && e < 0x1_0000 && Sum(Weights(ws)) <= 0x3F_FFFF
    requires Building(ws, p[..], e, b0, pi0, fb0, f0)
    requires fb0 < f0
    modifies p
    ensures done ==> Built(ws, p[..], e + 1, b)
    ensures !done ==> Building(ws, p[..], e + 1, b, pi, fb, f)
  {
    hide *;
    ghost var ps := p[..];
    ghost var r := Read(ws, ps, e, b0, pi0, fb0, f0);
    b, pi, fb, f, done := b0, pi0, fb0, f0, true;
    var sum;
    sum := FreqField(fb);
    SetParent(p, b, e);
    ghost var ps1 := p[..];
    FirstNode(ws, r, ps, ps1, e, b0, pi0, fb0, f0);
    b := b + 1;
    fb := p[b];
    if b == e {
      pi, fb, f, done := LeafSecond(p, num, e, pi, fb, f, sum, ws, r, ps, fb0);
    } else {
      b, pi, fb, f, done := SecondChild(p, num, e, b, pi, fb, f, sum, ws, r, ps, b0, pi0, fb0, f0);
    }
  }

  /** The first child is a leaf (HuffEnc.c:221-231). */
  method LeafFirst(p: array<Word>, num: nat, e: nat, b0: nat, pi0: nat, fb0: Word, f0: Word, ghost ws: seq<Word>)
    returns (b: nat, pi: nat, fb: Word, f: Word, done: bool)
    requires |ws| == num && e < 0x1_0000 && Sum(Weights(ws)) <= 0x3F_FFFF
    requires Building(ws, p[..], e, b0, pi0, fb0, f0)
    requires fb0 >= f0
    modifies p
    ensures done ==> Built(ws, p[..], e + 1, b)
    ensures !done ==> Building(ws, p[..], e + 1, b, pi, fb, f)
  {
    hide *;
    ghost var ps := p[..];
    ghost var r := Read(ws, ps, e, b0, pi0, fb0, f0);
    b, pi, fb, f, done := b0, pi0, fb0, f0, true;
    var sum;
    FirstLeaf(ws, r, ps, e, b0, pi0, fb0, f0);
    pi := pi + 1;
    if pi == num {
      SetParent(p, b, e);
      b := b + 1;
    } else {
      sum := f;
      f := FreqField(p[pi]);
      b, pi, fb, f, done := SecondChild(p, num, e, b, pi, fb, f, sum, ws, r, ps, b0, pi0, fb0, f0);
    }
  }

  /** One turn of the loop: makes node e, and says whether the leaves are gone. */
  method MakeNode(p: array<Word>, num: nat, e: nat, b0: nat, pi0: nat, fb0: Word, f0: Word, ghost ws: seq<Word>)
    returns (b: nat, pi: nat, fb: Word, f: Word, done: bool)
    requires |ws| == num && e < 0x1_0000 && Sum(Weights(ws)) <= 0x3F_FFFF
    requires Building(ws, p[..], e, b0, pi0, fb0, f0)
    modifies p
    ensures done ==> Built(ws, p[..], e + 1, b)
    ensures !done ==> Building(ws, p[..], e + 1, b, pi, fb, f)
  {
    hide *;
    if fb0 < f0 {
      b, pi, fb, f, done := NodeFirst(p, num, e, b0, pi0, fb0, f0, ws);
    } else {
      b, pi, fb, f, done := LeafFirst(p, num, e, b0, pi0, fb0, f0, ws);
    }
  }

  /** Node 0 always has two leaves. */
  lemma {:induction false} FirstNodeIs(q: Queue)
    requires q.nodes == [] && |q.leaves| >= 3
    ensures Merged(q) == q.leaves[0] + q.leaves[1] <= WeightOf(q)
    ensures Run(q, 1).nodes == [Merged(q)] && Gone(q, 1) == 0
  {
    assert NodesTaken(q) == 0;
    hide NodesTaken, Run, Merged, WeightOf, Step, Gone;
    RunZero(q);
    MergedIs(q);
    StepWeight(q);
    RunStep(q, 0);
    StepShape(q);
    GoneOne(q);
    assert q.nodes[0..] + [Merged(q)] == [Merged(q)];
  }

  lemma {:induction false} FirstBuilding(ws: seq<Word>, ps: seq<Word>, fb: Word)
    requires 3 <= |ws| <= |ps| && ps[..|ws|] == ws && Gone(QueueOf(ws), 1) == 0
    requires Sym(fb) == Sym(ws[0]) && Run(QueueOf(ws), 1).nodes == [Freq(fb)]
    ensures Building(ws, ps, 1, 0, 2, fb, FreqField(ws[2]))
  {
    hide Freq, Sym, FreqField, Run, Gone, Weights;
    assert forall j | 0 <= j < |ws| :: ps[j] == ps[..|ws|][j];
  }

  lemma {:induction false} FirstMerge(ws: seq<Word>, ps: seq<Word>, fb: Word)
    requires 3 <= |ws| <= |ps| && ps[..|ws|] == ws && Sum(Weights(ws)) <= 0x3F_FFFF
    ensures ws[0] + FreqField(ws[1]) < 0x1_0000_0000
    ensures fb == ws[0] + FreqField(ws[1]) ==> Building(ws, ps, 1, 0, 2, fb, FreqField(ws[2]))
  {
    hide *;
    var q := QueueOf(ws);
    FirstNodeIs(q);
    WholeWeight(ws);
    AddFirst(ws[0], ws[1], Merged(q));
    if fb == ws[0] + FreqField(ws[1]) {
      FirstBuilding(ws, ps, fb);
    }
  }

  lemma {:induction false} GoneOne(q: Queue)
    requires q.nodes == [] && Size(q) >= 2
    ensures Gone(q, 1) == 0
  {
    hide Run;
    RunShape(q, 1);
  }

  lemma {:induction false} AddFirst(w0: Word, w1: Word, total: nat)
    requires Freq(w0) + Freq(w1) == total <= 0x3F_FFFF
    ensures w0 + FreqField(w1) < 0x1_0000_0000
    ensures Freq(w0 + FreqField(w1)) == total && Sym(w0 + FreqField(w1)) == Sym(w0)
  {
  }

  /** The loop (HuffEnc.c:172-255): merges until no leaf is left, and returns the
      first node that has no parent. */
  method BuildTree(p: array<Word>, num: nat, ghost ws: seq<Word>) returns (b: nat, ghost k: nat)
    requires 3 <= num <= p.Length && num <= SYMBOLS && p[..num] == ws && Sum(Weights(ws)) <= 0x3F_FFFF
    modifies p
    ensures Built(ws, p[..], k, b)
  {
    ghost var ps := p[..];
    assert ps[..num] == p[..num] && num <= 0x400;
    assert ws[0] == p[0] && ws[1] == p[1] && ws[2] == p[2];
    hide *;
    FirstMerge(ws, ps, if ws[0] + FreqField(ws[1]) < 0x1_0000_0000 then ws[0] + FreqField(ws[1]) else 0);
    var fb: Word := FreqField(p[1]) + p[0];
    var f: Word := FreqField(p[2]);
    var pi := 2;
    var e := 0;
    b := 0;
    var done := false;
    while !done
      invariant done ==> Built(ws, p[..], e + 1, b)
      invariant !done ==> Building(ws, p[..], e + 1, b, pi, fb, f)
      decreases !done, num - e
    {
      e := e + 1;
      BuildingBound(ws, p[..], e, b, pi, fb, f);
      b, pi, fb, f, done := MakeNode(p, num, e, b, pi, fb, f, ws);
    }
    k := e + 1;
  }

  lemma {:induction false} BuildingBound(ws: seq<Word>, ps: seq<Word>, k: nat, b: nat, pi: nat, fb: Word, f: Word)
    requires Building(ws, ps, k, b, pi, fb, f)
    ensures k < |ws|
  {
    hide Waiting;
  }
}
