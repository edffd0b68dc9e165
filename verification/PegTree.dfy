/**
  Pattern trees as lptree.c stores them: one array of nodes in prefix order, where a node with
  two siblings knows the distance to its second one. finalfix turns left-associative sequences
  and choices into right-associative ones, in place.
 */
module PegTree {
  import opened Common
  import opened PegSemantics
  import opened PegAnalysis
  import opened PegMachine
  import opened PegCompiler

  datatype Node =
    | NChar(c: Byte) | NSet(cs: Charset) | NAny | NTrue | NFalse
    | NRep | NSeq(ps: nat) | NChoice(ps: nat) | NNot | NAnd | NBehind(n: nat)
    | NBuffer  // a node-sized piece of the bitmap of a set

  /** bytes2slots(CHARSETSIZE): 32 bytes in nodes of 8 bytes. */
  const CHARSET_SLOTS := 4

  function Encode(p: Pattern): (nodes: seq<Node>)
    ensures |nodes| > 0
  {
    match p
    case Char(c) => [NChar(c)]
    case Set(cs) => [NSet(cs)] + seq(CHARSET_SLOTS, _ => NBuffer)
    case Any => [NAny]
    case True => [NTrue]
    case False => [NFalse]
    case Rep(body) => [NRep] + Encode(body)
    case Seq(first, second) => [NSeq(|Encode(first)| + 1)] + Encode(first) + Encode(second)
    case Choice(first, second) => [NChoice(|Encode(first)| + 1)] + Encode(first) + Encode(second)
    case Not(body) => [NNot] + Encode(body)
    case And(body) => [NAnd] + Encode(body)
    case Behind(n, body) => [NBehind(n)] + Encode(body)
  }

  predicate IsBinary(p: Pattern) {
    p.Seq? || p.Choice?
  }

  predicate SameOperator(p: Pattern, q: Pattern) {
    (p.Seq? && q.Seq?) || (p.Choice? && q.Choice?)
  }

  function Op(p: Pattern, first: Pattern, second: Pattern): Pattern
    requires IsBinary(p)
  {
    if p.Seq? then Seq(first, second) else Choice(first, second)
  }

  /** The tree correctassociativity makes: Op (Op t11 t12) t2 => Op t11 (Op t12 t2), as often as it can. */
  function Rotate(p: Pattern): (r: Pattern)
    requires IsBinary(p)
    ensures SameOperator(p, r) && !SameOperator(r, r.first)
    ensures |Encode(r)| == |Encode(p)|
    decreases p.first
  {
    if SameOperator(p, p.first) then
      var q := Op(p, p.first.first, Op(p, p.first.second, p.second));
      assert |Encode(q)| == |Encode(p)| by {
        BinarySize(p);
        BinarySize(p.first);
        BinarySize(q);
        BinarySize(q.second);
      }
      Rotate(q)
    else p
  }

  /** The tree finalfix makes. */
  function FinalFix(p: Pattern): (r: Pattern)
    ensures |Encode(r)| == |Encode(p)|
    decreases |Encode(p)|
  {
    match p
    case Seq(_, _) => var q := Rotate(p); Seq(FinalFix(q.first), FinalFix(q.second))
    case Choice(_, _) => var q := Rotate(p); Choice(FinalFix(q.first), FinalFix(q.second))
    case Rep(body) => Rep(FinalFix(body))
    case Not(body) => Not(FinalFix(body))
    case And(body) => And(FinalFix(body))
    case Behind(n, body) => Behind(n, FinalFix(body))
    case _ => p
  }

  // ----- rotation keeps the meaning -----

  ghost predicate SameMeaning(p: Pattern, q: Pattern) {
    forall s: Subject, i: nat :: i <= |s| ==> Match(p, s, i) == Match(q, s, i)
  }

  /** The analyses say the same of both. */
  ghost predicate SameAnalysis(p: Pattern, q: Pattern) {
    && CheckAux(p, Nullable) == CheckAux(q, Nullable)
    && CheckAux(p, NoFail) == CheckAux(q, NoFail)
    && FixedLen(p) == FixedLen(q)
    && WellFormed(p) == WellFormed(q)
  }

  /** Everything the compiler and the matcher see of a pattern is the same for both. */
  ghost predicate Alike(p: Pattern, q: Pattern) {
    SameMeaning(p, q) && SameAnalysis(p, q)
  }

  lemma FixedLenBinary(p: Pattern)
    requires IsBinary(p)
    ensures var a, b := FixedLen(p.first), FixedLen(p.second);
            FixedLen(p) == if p.Seq? then (if a < 0 || b < 0 then -1 else a + b)
                           else if a >= 0 && a == b then a else -1
  {
    if p.Seq? && FixedLen(p.first) >= 0 {
      FixedLenShift(p.second, FixedLen(p.first));
    }
  }

  lemma CheckAuxBinary(p: Pattern, pred: Property)
    requires IsBinary(p)
    ensures CheckAux(p, pred) == if p.Seq? then CheckAux(p.first, pred) && CheckAux(p.second, pred)
                                 else CheckAux(p.first, pred) || CheckAux(p.second, pred)
  {
  }

  lemma RotateOnceCheckAux(p: Pattern, pred: Property)
    requires IsBinary(p) && SameOperator(p, p.first)
    ensures CheckAux(Op(p, p.first.first, Op(p, p.first.second, p.second)), pred) == CheckAux(p, pred)
  {
    var r := Op(p, p.first.second, p.second);
    CheckAuxBinary(p, pred);
    CheckAuxBinary(p.first, pred);
    CheckAuxBinary(r, pred);
    CheckAuxBinary(Op(p, p.first.first, r), pred);
  }

  lemma RotateOnceAlike(p: Pattern)
    requires IsBinary(p) && SameOperator(p, p.first)
    ensures Alike(p, Op(p, p.first.first, Op(p, p.first.second, p.second)))
  {
    var a, b, c := p.first.first, p.first.second, p.second;
    var r := Op(p, b, c);
    var q := Op(p, a, r);
    forall s: Subject, i: nat | i <= |s| ensures Match(p, s, i) == Match(q, s, i) {
      if p.Seq? {
        assert Match(p.first, s, i) ==
               if Match(a, s, i).Some? then Match(b, s, Match(a, s, i).value) else None;
      } else {
        assert Match(p.first, s, i) == if Match(a, s, i).Some? then Match(a, s, i) else Match(b, s, i);
      }
    }
    assert SameAnalysis(p, q) by {
      FixedLenBinary(p);
      FixedLenBinary(p.first);
      FixedLenBinary(q);
      FixedLenBinary(r);
      RotateOnceCheckAux(p, Nullable);
      RotateOnceCheckAux(p, NoFail);
      assert WellFormed(p) == (WellFormed(p.first) && WellFormed(c));
      assert WellFormed(q) == (WellFormed(a) && WellFormed(r));
    }
  }

  lemma {:induction false} RotateAlike(p: Pattern)
    requires IsBinary(p)
    ensures Alike(p, Rotate(p))
    decreases p.first
  {
    if SameOperator(p, p.first) {
      RotateOnceAlike(p);
      RotateAlike(Op(p, p.first.first, Op(p, p.first.second, p.second)));
    }
  }

  /** Replacing the parts of a pattern by patterns like them gives a pattern like it. */
  lemma BinaryAlike(p: Pattern, q: Pattern)
    requires SameOperator(p, q) && Alike(p.first, q.first) && Alike(p.second, q.second)
    ensures Alike(p, q)
  {
    forall s: Subject, i: nat | i <= |s| ensures Match(p, s, i) == Match(q, s, i) {
      assert Match(p.first, s, i) == Match(q.first, s, i);
      assert Match(p.second, s, i) == Match(q.second, s, i);
    }
    assert SameAnalysis(p, q) by {
      FixedLenBinary(p);
      FixedLenBinary(q);
      assert WellFormed(p) == (WellFormed(p.first) && WellFormed(p.second));
      assert WellFormed(q) == (WellFormed(q.first) && WellFormed(q.second));
    }
  }

  lemma {:induction false} RepAlike(p: Pattern, q: Pattern, s: Subject, i: nat)
    requires p.Rep? && q.Rep? && Alike(p.body, q.body) && i <= |s|
    ensures Match(p, s, i) == Match(q, s, i)
    decreases |s| - i
  {
    var r := Match(p.body, s, i);
    assert r == Match(q.body, s, i);
    if r.Some? && r.value > i {
      RepAlike(p, q, s, r.value);
    }
  }

  lemma UnaryAlike(p: Pattern, q: Pattern)
    requires (p.Rep? && q.Rep?) || (p.Not? && q.Not?) || (p.And? && q.And?) ||
             (p.Behind? && q.Behind? && p.n == q.n)
    requires Alike(p.body, q.body)
    ensures Alike(p, q)
  {
    forall s: Subject, i: nat | i <= |s| ensures Match(p, s, i) == Match(q, s, i) {
      assert Match(p.body, s, i) == Match(q.body, s, i);
      if p.Rep? {
        RepAlike(p, q, s, i);
      }
    }
    assert SameAnalysis(p, q) by {
      assert WellFormed(p) == (WellFormed(p.body) && (p.Rep? ==> !CheckAux(p.body, Nullable)) &&
                               (p.Behind? ==> FixedLen(p.body) == p.n && p.n <= MAX_BEHIND));
      assert WellFormed(q) == (WellFormed(q.body) && (q.Rep? ==> !CheckAux(q.body, Nullable)) &&
                               (q.Behind? ==> FixedLen(q.body) == q.n && q.n <= MAX_BEHIND));
    }
  }

  lemma AlikeTrans(p: Pattern, q: Pattern, r: Pattern)
    requires Alike(p, q) && Alike(q, r)
    ensures Alike(p, r)
  {
  }

  /** finalfix changes neither the meaning of a pattern nor what the analyses say of it. */
  lemma {:induction false} FinalFixAlike(p: Pattern)
    ensures Alike(p, FinalFix(p))
    decreases |Encode(p)|
  {
    match p
    case Rep(body) => FinalFixAlike(body); UnaryAlike(p, FinalFix(p));
    case Not(body) => FinalFixAlike(body); UnaryAlike(p, FinalFix(p));
    case And(body) => FinalFixAlike(body); UnaryAlike(p, FinalFix(p));
    case Behind(_, body) => FinalFixAlike(body); UnaryAlike(p, FinalFix(p));
    case Seq(_, _) => BinaryFixAlike(p);
    case Choice(_, _) => BinaryFixAlike(p);
    case _ =>
  }

  lemma BinaryFixAlike(p: Pattern)
    requires IsBinary(p)
    ensures Alike(p, FinalFix(p))
    decreases |Encode(p)|, 0
  {
    var q := Rotate(p);
    RotateAlike(p);
    BinarySize(q);
    FinalFixAlike(q.first);
    FinalFixAlike(q.second);
    BinaryAlike(q, FinalFix(p));
    AlikeTrans(p, q, FinalFix(p));
  }

  lemma BinarySize(p: Pattern)
    requires IsBinary(p)
    ensures |Encode(p)| == 1 + |Encode(p.first)| + |Encode(p.second)|
  {
  }

  /** In the fixed tree no sequence starts with a sequence and no choice with a choice. */
  predicate RightAssociative(p: Pattern) {
    match p
    case Seq(first, second) => !first.Seq? && RightAssociative(first) && RightAssociative(second)
    case Choice(first, second) => !first.Choice? && RightAssociative(first) && RightAssociative(second)
    case Rep(body) => RightAssociative(body)
    case Not(body) => RightAssociative(body)
    case And(body) => RightAssociative(body)
    case Behind(_, body) => RightAssociative(body)
    case _ => true
  }

  lemma {:induction false} FinalFixRightAssociative(p: Pattern)
    ensures RightAssociative(FinalFix(p))
    decreases |Encode(p)|
  {
    match p
    case Rep(body) => FinalFixRightAssociative(body);
    case Not(body) => FinalFixRightAssociative(body);
    case And(body) => FinalFixRightAssociative(body);
    case Behind(_, body) => FinalFixRightAssociative(body);
    case Seq(_, _) =>
      var q := Rotate(p);
      BinarySize(q);
      FinalFixRightAssociative(q.first);
      FinalFixRightAssociative(q.second);
    case Choice(_, _) =>
      var q := Rotate(p);
      BinarySize(q);
      FinalFixRightAssociative(q.first);
      FinalFixRightAssociative(q.second);
    case _ =>
  }

  // ----- in place -----

  /** The nodes of `p` stand in the array from index `t` on. */
  ghost predicate TreeAt(a: array<Node>, t: nat, p: Pattern)
    reads a
  {
    t + |Encode(p)| <= a.Length && a[t..t + |Encode(p)|] == Encode(p)
  }

  function OpNode(p: Pattern, ps: nat): Node
    requires IsBinary(p)
  {
    if p.Seq? then NSeq(ps) else NChoice(ps)
  }

  function WithPs(node: Node, ps: nat): Node
    requires node.NSeq? || node.NChoice?
  {
    if node.NSeq? then NSeq(ps) else NChoice(ps)
  }

  /** memmove of `n` nodes one place to the left. */
  method MoveLeft(a: array<Node>, from: nat, n: nat)
    requires 0 < from && from + n <= a.Length
    modifies a
    ensures a[..] == old(a[..])[..from - 1] + old(a[..])[from..from + n] + old(a[..])[from + n - 1..]
  {
    for k := 0 to n
      invariant forall j :: 0 <= j < a.Length ==>
        a[j] == if from - 1 <= j < from - 1 + k then old(a[j + 1]) else old(a[j])
    {
      a[from - 1 + k] := a[from + k];
    }
  }

  /** The nodes of a tree with two siblings. */
  lemma EncodeBinary(p: Pattern)
    requires IsBinary(p)
    ensures Encode(p) == [OpNode(p, |Encode(p.first)| + 1)] + Encode(p.first) + Encode(p.second)
  {
  }

  /** Moving the nodes `a` one place to the left over the node before them. */
  lemma ShiftNodes(x: Node, y: Node, a: seq<Node>, rest: seq<Node>, x': Node, y': Node)
    ensures var nodes := [x, y] + a + rest;
            (nodes[..1] + nodes[2..2 + |a|] + nodes[1 + |a|..])[0 := x'][|a| + 1 := y'] == [x'] + a + [y'] + rest
  {
    var nodes := [x, y] + a + rest;
    assert nodes[2..2 + |a|] == a;
    assert nodes[2 + |a|..] == rest;
    assert nodes[1 + |a|..][1..] == rest;
    var moved := nodes[..1] + nodes[2..2 + |a|] + nodes[1 + |a|..];
    assert moved == [x] + a + [nodes[1 + |a|]] + rest;
    assert moved[0 := x'] == [x'] + a + [nodes[1 + |a|]] + rest;
  }

  /** What one turn of the loop of correctassociativity does to the nodes of a tree. */
  lemma RotateNodes(p: Pattern, nodes: seq<Node>)
    requires IsBinary(p) && SameOperator(p, p.first) && nodes == Encode(p)
    ensures var n11 := |Encode(p.first.first)|;
            var n12 := |Encode(p.first.second)|;
            && n11 + 2 < |nodes|
            && nodes[0] == OpNode(p, n11 + n12 + 2) && nodes[1] == OpNode(p, n11 + 1)
            && (nodes[..1] + nodes[2..2 + n11] + nodes[1 + n11..])[0 := OpNode(p, n11 + 1)][n11 + 1 := OpNode(p, n12 + 1)]
               == Encode(Op(p, p.first.first, Op(p, p.first.second, p.second)))
  {
    hide Encode;
    var a, b, c := Encode(p.first.first), Encode(p.first.second), Encode(p.second);
    var x, y := OpNode(p, |a| + |b| + 2), OpNode(p, |a| + 1);
    var inner := Op(p, p.first.second, p.second);
    var x', y' := OpNode(p, |a| + 1), OpNode(p, |b| + 1);
    EncodeBinary(p);
    EncodeBinary(p.first);
    EncodeBinary(inner);
    EncodeBinary(Op(p, p.first.first, inner));
    assert [x] + ([y] + a + b) + c == [x, y] + a + (b + c);
    assert [x'] + a + ([y'] + b + c) == [x'] + a + [y'] + (b + c);
    ShiftNodes(x, y, a, b + c, x', y');
  }

  /** The first two nodes tell whether there is a rotation to do. */
  lemma OperatorNodes(p: Pattern)
    requires IsBinary(p)
    ensures |Encode(p)| >= 3
    ensures Encode(p)[0] == OpNode(p, |Encode(p.first)| + 1) && Encode(p)[1] == Encode(p.first)[0]
    ensures SameOperator(p, p.first) <==>
            (Encode(p)[0].NSeq? && Encode(p)[1].NSeq?) || (Encode(p)[0].NChoice? && Encode(p)[1].NChoice?)
  {
  }

  method CorrectAssociativity(a: array<Node>, t: nat, ghost p: Pattern)
    requires IsBinary(p) && TreeAt(a, t, p)
    modifies a
    ensures a[..] == old(a[..])[..t] + Encode(Rotate(p)) + old(a[..])[t + |Encode(p)|..]
  {
    hide Encode;
    ghost var q := p;
    ghost var end := t + |Encode(p)|;
    OperatorNodes(q);
    assert a[..] == a[..][..t] + Encode(q) + a[..][end..];
    while (a[t].NSeq? && a[t + 1].NSeq?) || (a[t].NChoice? && a[t + 1].NChoice?)
      invariant IsBinary(q) && Rotate(q) == Rotate(p) && |Encode(q)| == |Encode(p)|
      invariant a[..] == old(a[..])[..t] + Encode(q) + old(a[..])[end..]
      decreases q.first
    {
      OperatorNodes(q);
      ghost var pre, post := old(a[..])[..t], old(a[..])[end..];
      assert a[..][t..end] == Encode(q);
      assert a[t] == Encode(q)[0] && a[t + 1] == Encode(q)[1];
      RotateNodes(q, Encode(q));
      var n1size := a[t].ps - 1;
      var n11size := a[t + 1].ps - 1;
      var n12size := n1size - n11size - 1;
      RotateOnce(a, t, n11size, n12size, q, pre, post);
      q := Op(q, q.first.first, Op(q, q.first.second, q.second));
      OperatorNodes(q);
      assert a[t] == Encode(q)[0] && a[t + 1] == Encode(q)[1];
    }
    OperatorNodes(q);
    assert a[t] == Encode(q)[0] && a[t + 1] == Encode(q)[1];
  }

  /** The moves in the part of the array before, inside and after a tree. */
  lemma MoveInside(pre: seq<Node>, nodes: seq<Node>, post: seq<Node>, n: nat, x: Node, y: Node)
    requires n + 2 < |nodes|
    ensures var all, t := pre + nodes + post, |pre|;
            (all[..t + 1] + all[t + 2..t + 2 + n] + all[t + 1 + n..])[t := x][t + n + 1 := y] ==
            pre + (nodes[..1] + nodes[2..2 + n] + nodes[1 + n..])[0 := x][n + 1 := y] + post
  {
    var all, t := pre + nodes + post, |pre|;
    var moved := nodes[..1] + nodes[2..2 + n] + nodes[1 + n..];
    assert all[..t + 1] == pre + nodes[..1];
    assert all[t + 2..t + 2 + n] == nodes[2..2 + n];
    assert all[t + 1 + n..] == nodes[1 + n..] + post;
    assert all[..t + 1] + all[t + 2..t + 2 + n] + all[t + 1 + n..] == pre + moved + post;
    assert (pre + moved + post)[t := x][t + n + 1 := y] == pre + moved[0 := x][n + 1 := y] + post;
  }

  method RotateOnce(a: array<Node>, t: nat, n11size: nat, n12size: nat, ghost q: Pattern,
                    ghost pre: seq<Node>, ghost post: seq<Node>)
    requires IsBinary(q) && SameOperator(q, q.first) && t == |pre|
    requires n11size == |Encode(q.first.first)| && n12size == |Encode(q.first.second)|
    requires a[..] == pre + Encode(q) + post
    modifies a
    ensures a[..] == pre + Encode(Op(q, q.first.first, Op(q, q.first.second, q.second))) + post
  {
    hide Encode;
    ghost var nodes, all := Encode(q), a[..];
    RotateNodes(q, nodes);
    assert a[t] == all[t] == nodes[0];
    MoveLeft(a, t + 2, n11size);
    ghost var moved := all[..t + 1] + all[t + 2..t + 2 + n11size] + all[t + 1 + n11size..];
    assert a[..] == moved;
    assert a[t] == moved[t] == nodes[0];
    var node := a[t];
    a[t] := WithPs(node, n11size + 1);
    assert a[..] == moved[t := WithPs(node, n11size + 1)];
    a[t + n11size + 1] := WithPs(node, n12size + 1);
    MoveInside(pre, nodes, post, n11size, OpNode(q, n11size + 1), OpNode(q, n12size + 1));
  }

  lemma Embedded(all: seq<Node>, pre: seq<Node>, nodes: seq<Node>, post: seq<Node>)
    requires all == pre + nodes + post
    ensures all[..|pre|] == pre && all[|pre|..|pre| + |nodes|] == nodes && all[|pre| + |nodes|..] == post
  {
  }

  lemma Regroup(pre: seq<Node>, x: Node, first: seq<Node>, second: seq<Node>, post: seq<Node>)
    ensures pre + ([x] + first + second) + post == (pre + [x]) + first + (second + post)
    ensures pre + ([x] + first + second) + post == (pre + [x] + first) + second + post
    ensures pre + ([x] + first) + post == (pre + [x]) + first + post
  {
  }

  /** finalfix, for trees without calls. */
  method FinalFixInPlace(a: array<Node>, t: nat, ghost p: Pattern)
    requires TreeAt(a, t, p)
    modifies a
    ensures a[..] == old(a[..])[..t] + Encode(FinalFix(p)) + old(a[..])[t + |Encode(p)|..]
    decreases |Encode(p)|, 1
  {
    assert a[t] == Encode(p)[0];
    if a[t].NSeq? || a[t].NChoice? {
      FinalFixBinary(a, t, p);
    } else if a[t].NRep? || a[t].NNot? || a[t].NAnd? || a[t].NBehind? {
      FinalFixUnary(a, t, p);
    } else {
      assert FinalFix(p) == p;
    }
  }

  method FinalFixUnary(a: array<Node>, t: nat, ghost p: Pattern)
    requires TreeAt(a, t, p) && (p.Rep? || p.Not? || p.And? || p.Behind?)
    modifies a
    ensures a[..] == old(a[..])[..t] + Encode(FinalFix(p)) + old(a[..])[t + |Encode(p)|..]
    decreases |Encode(p)|, 0
  {
    assert a[t] == Encode(p)[0];
    ghost var x := a[t];
    ghost var pre, body, post := a[..t], Encode(p.body), a[t + |Encode(p)|..];
    assert Encode(p) == [x] + body;
    assert a[..] == pre + ([x] + body) + post;
    Regroup(pre, x, body, [], post);
    Embedded(a[..], pre + [x], body, post);
    FinalFixInPlace(a, t + 1, p.body);
    ghost var fixed := Encode(FinalFix(p.body));
    Regroup(pre, x, fixed, [], post);
    assert Encode(FinalFix(p)) == [x] + fixed;
  }

  lemma FinalFixBinaryTree(p: Pattern)
    requires IsBinary(p)
    ensures FinalFix(p) == Op(p, FinalFix(Rotate(p).first), FinalFix(Rotate(p).second))
  {
    hide Rotate, Encode;
  }

  method FinalFixBinary(a: array<Node>, t: nat, ghost p: Pattern)
    requires IsBinary(p) && TreeAt(a, t, p)
    modifies a
    ensures a[..] == old(a[..])[..t] + Encode(FinalFix(p)) + old(a[..])[t + |Encode(p)|..]
    decreases |Encode(p)|, 0, 1
  {
    hide Encode, Rotate, FinalFix;
    ghost var pre, post := a[..t], a[t + |Encode(p)|..];
    CorrectAssociativity(a, t, p);
    ghost var q := Rotate(p);
    FixSiblings(a, t, q, pre, post);
    FinalFixBinaryTree(p);
    EncodeBinary(FinalFix(p));
  }

  method FixSiblings(a: array<Node>, t: nat, ghost q: Pattern, ghost pre: seq<Node>, ghost post: seq<Node>)
    requires IsBinary(q) && t == |pre| && a[..] == pre + Encode(q) + post
    modifies a
    ensures a[..] == pre + ([OpNode(q, |Encode(q.first)| + 1)] + Encode(FinalFix(q.first)) +
                            Encode(FinalFix(q.second))) + post
    decreases |Encode(q)|, 0, 0
  {
    hide Encode, FinalFix;
    ghost var first, second := Encode(q.first), Encode(q.second);
    ghost var x := OpNode(q, |first| + 1);
    EncodeBinary(q);
    Regroup(pre, x, first, second, post);
    Embedded(a[..], pre + [x], first, second + post);
    assert a[t] == a[..][t] == x;
    var sib2 := t + a[t].ps;
    FinalFixInPlace(a, t + 1, q.first);
    ghost var first' := Encode(FinalFix(q.first));
    Regroup(pre, x, first', second, post);
    Embedded(a[..], pre + [x] + first', second, post);
    FinalFixInPlace(a, sib2, q.second);
    Regroup(pre, x, first', Encode(FinalFix(q.second)), post);
  }

  /** The nodes of one tree are not the beginning of those of another. */
  lemma {:induction false} EncodeUnique(p: Pattern, q: Pattern, x: seq<Node>, y: seq<Node>)
    requires Encode(p) + x == Encode(q) + y
    ensures p == q && x == y
    decreases p
  {
    assert (Encode(p) + x)[0] == Encode(p)[0] && (Encode(q) + y)[0] == Encode(q)[0];
    match p {
      case Seq(p1, p2) => BinaryUnique(p, q, x, y);
      case Choice(p1, p2) => BinaryUnique(p, q, x, y);
      case Rep(b) => UnaryUnique(Encode(b), Encode(q.body), [NRep], x, y); EncodeUnique(b, q.body, x, y);
      case Not(b) => UnaryUnique(Encode(b), Encode(q.body), [NNot], x, y); EncodeUnique(b, q.body, x, y);
      case And(b) => UnaryUnique(Encode(b), Encode(q.body), [NAnd], x, y); EncodeUnique(b, q.body, x, y);
      case Behind(n, b) => UnaryUnique(Encode(b), Encode(q.body), [NBehind(n)], x, y); EncodeUnique(b, q.body, x, y);
      case _ =>
        assert p == q;
        TailUnique(Encode(p), x, y);
    }
  }

  lemma TailUnique(head: seq<Node>, x: seq<Node>, y: seq<Node>)
    requires head + x == head + y
    ensures x == y
  {
    assert (head + x)[|head|..] == x && (head + y)[|head|..] == y;
  }

  lemma UnaryUnique(a: seq<Node>, b: seq<Node>, head: seq<Node>, x: seq<Node>, y: seq<Node>)
    requires head + a + x == head + b + y
    ensures a + x == b + y
  {
    assert (head + a + x)[|head|..] == a + x && (head + b + y)[|head|..] == b + y;
  }

  lemma {:induction false} BinaryUnique(p: Pattern, q: Pattern, x: seq<Node>, y: seq<Node>)
    requires IsBinary(p) && SameOperator(p, q) && Encode(p) + x == Encode(q) + y
    ensures p == q && x == y
    decreases p, 0
  {
    hide Encode;
    EncodeBinary(p);
    EncodeBinary(q);
    var a, b := [OpNode(p, |Encode(p.first)| + 1)], [OpNode(q, |Encode(q.first)| + 1)];
    assert (Encode(p) + x)[0] == a[0] && (Encode(q) + y)[0] == b[0];
    assert Encode(p) + x == a + Encode(p.first) + (Encode(p.second) + x);
    assert Encode(q) + y == b + Encode(q.first) + (Encode(q.second) + y);
    UnaryUnique(Encode(p.first), Encode(q.first), a, Encode(p.second) + x, Encode(q.second) + y);
    EncodeUnique(p.first, q.first, Encode(p.second) + x, Encode(q.second) + y);
    EncodeUnique(p.second, q.second, x, y);
  }

  /** The pattern that the array holds: there is only one. */
  lemma TreeUnique(a: array<Node>, p: Pattern, q: Pattern)
    requires a[..] == Encode(p) && TreeAt(a, 0, q)
    ensures p == q
  {
    var n := |Encode(q)|;
    assert Encode(p) + [] == a[..] == Encode(q) + a[n..];
    EncodeUnique(p, q, [], a[n..]);
  }

  /**
    prepcompile: fix the tree, then compile the fixed tree. The array holds the fixed tree, and
    the code implements the pattern as it was before.
   */
  method PrepCompile(tree: array<Node>, p: Pattern) returns (code: Code)
    requires tree[..] == Encode(p) && WellFormed(p)
    modifies tree
    ensures tree[..] == Encode(FinalFix(p))
    ensures Implements(code, p)
    // whatever pattern is read from the array is the one compiled, and the code implements it
    ensures forall q :: TreeAt(tree, 0, q) ==> q == FinalFix(p) && Implements(code, q)
  {
    FinalFixInPlace(tree, 0, p);
    FinalFixAlike(p);
    forall q | TreeAt(tree, 0, q) ensures q == FinalFix(p) {
      TreeUnique(tree, FinalFix(p), q);
    }
    code := Compile(FinalFix(p));
    forall s: Subject, i: nat | i <= |s| ensures Reaches(code, s, Start(i), Done(Match(p, s, i))) {
      assert Match(p, s, i) == Match(FinalFix(p), s, i);
    }
  }
}
