/**
  Chains of jumps in code. finaltarget follows such a chain to its end; here it is shown that
  in generated code every chain has an end, although loops jump backwards.
 */
module PegJumps {
  import opened PegSemantics
  import opened PegAnalysis
  import opened PegMachine
  import opened PegCodegen
  import opened PegSimulation

  predicate IsJump(code: Code, pc: int) {
    0 <= pc < |code| && code[pc].IJmp?
  }

  /** The chain of jumps from `pc` has at most `n` jumps. */
  predicate Ends(code: Code, pc: int, n: nat)
    decreases n
  {
    !IsJump(code, pc) || (n > 0 && Ends(code, code[pc].target, n - 1))
  }

  ghost predicate HasEnd(code: Code, pc: int) {
    exists n: nat :: Ends(code, pc, n)
  }

  ghost predicate JumpsEnd(code: Code) {
    forall pc: int :: HasEnd(code, pc)
  }

  /** The end of a chain of at most `n` jumps. */
  function EndOf(code: Code, pc: int, n: nat): int
    requires Ends(code, pc, n)
    decreases n
  {
    if IsJump(code, pc) then EndOf(code, code[pc].target, n - 1) else pc
  }

  lemma {:induction false} EndOfUnique(code: Code, pc: int, m: nat, n: nat)
    requires Ends(code, pc, m) && Ends(code, pc, n)
    ensures EndOf(code, pc, m) == EndOf(code, pc, n)
    decreases m
  {
    if IsJump(code, pc) {
      EndOfUnique(code, code[pc].target, m - 1, n - 1);
    }
  }

  /** finaltarget: where the chain of jumps from `pc` ends. */
  ghost function Final(code: Code, pc: int): int
    requires JumpsEnd(code)
  {
    assert HasEnd(code, pc);
    var n: nat :| Ends(code, pc, n);
    EndOf(code, pc, n)
  }

  lemma FinalUnfold(code: Code, pc: int)
    requires JumpsEnd(code)
    ensures Final(code, pc) == if IsJump(code, pc) then Final(code, code[pc].target) else pc
  {
    assert HasEnd(code, pc);
    var n: nat :| Ends(code, pc, n) && Final(code, pc) == EndOf(code, pc, n);
    if IsJump(code, pc) {
      var t := code[pc].target;
      assert HasEnd(code, t);
      var m: nat :| Ends(code, t, m) && Final(code, t) == EndOf(code, t, m);
      assert Ends(code, t, n - 1) && EndOf(code, pc, n) == EndOf(code, t, n - 1);
      EndOfUnique(code, t, m, n - 1);
    }
  }

  /** The end of a chain is not a jump; ends are their own ends; addresses stay addresses. */
  lemma FinalIsEnd(code: Code, pc: int)
    requires JumpsEnd(code)
    ensures !IsJump(code, Final(code, pc))
    ensures Final(code, Final(code, pc)) == Final(code, pc)
    ensures pc >= 0 ==> Final(code, pc) >= 0
    ensures pc < 0 ==> Final(code, pc) == pc
  {
    assert HasEnd(code, pc);
    var n: nat :| Ends(code, pc, n) && Final(code, pc) == EndOf(code, pc, n);
    EndOfIsEnd(code, pc, n);
    FinalUnfold(code, Final(code, pc));
    FinalUnfold(code, pc);
  }

  lemma {:induction false} EndOfIsEnd(code: Code, pc: int, n: nat)
    requires Ends(code, pc, n)
    ensures !IsJump(code, EndOf(code, pc, n))
    ensures pc >= 0 ==> EndOf(code, pc, n) >= 0
    decreases n
  {
    if IsJump(code, pc) {
      EndOfIsEnd(code, code[pc].target, n - 1);
    }
  }

  // ----- generated code -----

  predicate HasLabel(inst: Instruction) {
    inst.ITestAny? || inst.ITestChar? || inst.ITestSet? || inst.IChoice? || inst.IJmp? ||
    inst.ICommit? || inst.IPartialCommit? || inst.IBackCommit?
  }

  /** A jump goes forward, or back to an instruction that is no jump or jumps beyond the first. */
  predicate JumpShape(code: Code, k: nat)
    requires k < |code|
  {
    code[k].IJmp? ==>
      var t := code[k].target;
      t > k || (t < k && (code[t].IJmp? ==> code[t].target > k))
  }

  /** In the addresses from `lo` to `hi`: labels stay inside and jumps have the shape above. */
  predicate JumpsIn(code: Code, lo: nat, hi: nat) {
    && lo <= hi <= |code|
    && forall k :: lo <= k < hi ==>
         (HasLabel(code[k]) ==> lo <= code[k].target <= hi) && JumpShape(code, k)
  }

  lemma JumpsInInst(code: Code, pc: nat, inst: Instruction, lo: nat, hi: nat)
    requires InstAt(code, pc, inst) && lo <= pc && pc + Size(inst) <= hi <= |code|
    requires HasLabel(inst) ==> lo <= inst.target <= hi
    requires inst.IJmp? ==> inst.target > pc || (inst.target < pc && (code[inst.target].IJmp? ==> code[inst.target].target > pc))
    ensures forall k :: pc <= k < pc + Size(inst) ==>
              (HasLabel(code[k]) ==> lo <= code[k].target <= hi) && JumpShape(code, k)
  {
  }

  lemma JumpsInTest(code: Code, base: nat, f: First, target: nat, lo: nat, hi: nat)
    requires CodeAt(code, base, CodeTest(f, target))
    requires lo <= base && base + TestSize(f) <= target <= hi <= |code|
    ensures forall k :: base <= k < base + TestSize(f) ==>
              (HasLabel(code[k]) ==> lo <= code[k].target <= hi) && JumpShape(code, k)
  {
    if !f.acceptsEmpty {
      CodeAtEmit(code, base, TestInstruction(f.cs, target));
      JumpsInInst(code, base, TestInstruction(f.cs, target), lo, hi);
    }
  }

  /** The code generated for a pattern keeps its labels inside and its jumps well shaped. */
  lemma {:induction false} GenJumps(p: Pattern, opt: bool, tt: Test, fl: Charset, base: nat, code: Code)
    requires CodeAt(code, base, Gen(p, opt, tt, fl, base))
    ensures JumpsIn(code, base, base + |Gen(p, opt, tt, fl, base)|)
    decreases p
  {
    hide CodeAt, JumpsIn, Gen;
    match p
    case Choice(_, _) => ChoiceJumps(p, opt, tt, fl, base, code);
    case Rep(_) => RepJumps(p, opt, tt, fl, base, code);
    case Behind(n, body) =>
      GenBehind(p, opt, tt, fl, base);
      var mid := base + (if n > 0 then 1 else 0);
      BehindLayout(code, base, n, Gen(body, false, NoTest, FullSet, mid));
      GenJumps(body, false, NoTest, FullSet, mid, code);
      BehindJumps(code, base, n, mid, base + |Gen(p, opt, tt, fl, base)|);
    case Not(_) => NotJumps(p, opt, tt, fl, base, code);
    case And(_) => AndJumps(p, opt, tt, fl, base, code);
    case Seq(p1, p2) =>
      GenSeq(p, opt, tt, fl, base);
      var code1 := Gen(p1, false, tt, SeqFollow(p1, p2, fl), base);
      var code2 := Gen(p2, opt, SeqTest(p1, tt), fl, base + |code1|);
      CodeAtSplit(code, base, code1, code2);
      GenJumps(p1, false, tt, SeqFollow(p1, p2, fl), base, code);
      GenJumps(p2, opt, SeqTest(p1, tt), fl, base + |code1|, code);
      SeqJumps(code, base, base + |code1|, base + |code1| + |code2|);
    case _ => LeafJumps(p, opt, tt, fl, base, code);
  }

  lemma SeqJumps(code: Code, lo: nat, mid: nat, hi: nat)
    requires JumpsIn(code, lo, mid) && JumpsIn(code, mid, hi)
    ensures JumpsIn(code, lo, hi)
  {
  }

  lemma LeafJumps(p: Pattern, opt: bool, tt: Test, fl: Charset, base: nat, code: Code)
    requires IsCharPattern(p) || p.True? || p.False?
    requires CodeAt(code, base, Gen(p, opt, tt, fl, base))
    ensures JumpsIn(code, base, base + |Gen(p, opt, tt, fl, base)|)
  {
    var g := Gen(p, opt, tt, fl, base);
    if !p.True? {
      assert g == Emit(g[0]) && !HasLabel(g[0]);
      CodeAtEmit(code, base, g[0]);
    }
  }

  lemma BehindJumps(code: Code, base: nat, n: nat, mid: nat, hi: nat)
    requires mid == base + (if n > 0 then 1 else 0)
    requires n > 0 ==> InstAt(code, base, IBehind(n))
    requires JumpsIn(code, mid, hi)
    ensures JumpsIn(code, base, hi)
  {
  }

  lemma ChoiceJumps(p: Pattern, opt: bool, tt: Test, fl: Charset, base: nat, code: Code)
    requires p.Choice? && CodeAt(code, base, Gen(p, opt, tt, fl, base))
    ensures JumpsIn(code, base, base + |Gen(p, opt, tt, fl, base)|)
    decreases p, 1
  {
    hide CodeAt, JumpsIn, Gen;
    if TestDecides(p.first, p.second, fl) {
      DecidedChoiceJumps(p, opt, tt, fl, base, code);
    } else if opt && p.second.True? {
      ReuseChoiceJumps(p, tt, fl, base, code);
    } else {
      UndecidedChoiceJumps(p, opt, tt, fl, base, code);
    }
  }

  lemma DecidedChoiceJumps(p: Pattern, opt: bool, tt: Test, fl: Charset, base: nat, code: Code)
    requires p.Choice? && TestDecides(p.first, p.second, fl)
    requires CodeAt(code, base, Gen(p, opt, tt, fl, base))
    ensures JumpsIn(code, base, base + |Gen(p, opt, tt, fl, base)|)
    decreases p, 0
  {
    hide TestChoiceShape, CodeAt, JumpsIn, Gen, InstAt, TestDecides, GetFirst, TestOf, TestInstruction;
    var p1, p2 := p.first, p.second;
    var f := First(false, GetFirst(p1, FullSet).cs);
    var mid := base + TestSize(f);
    var code1 := Gen(p1, false, TestOf(f), fl, mid);
    var l1 := mid + |code1| + (if p2.True? then 0 else 2);
    var code2 := Gen(p2, opt, NoTest, fl, l1);
    GenTestChoice(p, opt, tt, fl, base);
    TestChoiceLayout(code, f, base, p2.True?, code1, code2);
    GenJumps(p1, false, TestOf(f), fl, mid, code);
    GenJumps(p2, opt, NoTest, fl, l1, code);
    TestChoiceJumps(code, f, base, mid + |code1|, l1, l1 + |code2|);
  }

  lemma UndecidedChoiceJumps(p: Pattern, opt: bool, tt: Test, fl: Charset, base: nat, code: Code)
    requires p.Choice? && !TestDecides(p.first, p.second, fl) && !(opt && p.second.True?)
    requires CodeAt(code, base, Gen(p, opt, tt, fl, base))
    ensures JumpsIn(code, base, base + |Gen(p, opt, tt, fl, base)|)
    decreases p, 0
  {
    hide StackChoiceShape, CodeAt, JumpsIn, Gen, InstAt, TestDecides, GetFirst, TestOf, TestInstruction;
    var p1, p2 := p.first, p.second;
    var f := GetFirst(p1, FullSet);
    var mid := base + TestSize(f);
    var code1 := Gen(p1, p2.True?, TestOf(f), FullSet, mid + 2);
    var l1 := mid + 2 + |code1| + 2;
    var code2 := Gen(p2, opt, NoTest, fl, l1);
    GenStackChoice(p, opt, tt, fl, base);
    StackChoiceLayout(code, f, base, code1, code2);
    GenJumps(p1, p2.True?, TestOf(f), FullSet, mid + 2, code);
    GenJumps(p2, opt, NoTest, fl, l1, code);
    StackChoiceJumps(code, f, base, l1, l1 + |code2|);
  }

  lemma TestChoiceJumps(code: Code, f: First, base: nat, end1: nat, l1: nat, hi: nat)
    requires CodeAt(code, base, CodeTest(f, l1))
    requires JumpsIn(code, base + TestSize(f), end1) && JumpsIn(code, l1, hi)
    requires end1 == l1 || (l1 == end1 + 2 && InstAt(code, end1, IJmp(hi)))
    ensures JumpsIn(code, base, hi)
  {
    JumpsInTest(code, base, f, l1, base, hi);
    if end1 != l1 {
      JumpsInInst(code, end1, IJmp(hi), base, hi);
    }
  }

  lemma ReuseChoiceJumps(p: Pattern, tt: Test, fl: Charset, base: nat, code: Code)
    requires p.Choice? && p.second.True? && !TestDecides(p.first, p.second, fl)
    requires CodeAt(code, base, Gen(p, true, tt, fl, base))
    ensures JumpsIn(code, base, base + |Gen(p, true, tt, fl, base)|)
    decreases p, 0
  {
    hide CodeAt, Gen;
    GenReuseChoice(p, tt, fl, base);
    ReuseChoiceLayout(code, base, Gen(p.first, true, NoTest, FullSet, base + 2));
    GenJumps(p.first, true, NoTest, FullSet, base + 2, code);
  }

  lemma StackChoiceJumps(code: Code, f: First, base: nat, l1: nat, hi: nat)
    requires CodeAt(code, base, CodeTest(f, l1)) && base + TestSize(f) + 4 <= l1 <= hi
    requires InstAt(code, base + TestSize(f), IChoice(l1)) && InstAt(code, l1 - 2, ICommit(hi))
    requires JumpsIn(code, base + TestSize(f) + 2, l1 - 2) && JumpsIn(code, l1, hi)
    ensures JumpsIn(code, base, hi)
  {
    JumpsInTest(code, base, f, l1, base, hi);
    JumpsInInst(code, base + TestSize(f), IChoice(l1), base, hi);
    JumpsInInst(code, l1 - 2, ICommit(hi), base, hi);
  }

  lemma RepJumps(p: Pattern, opt: bool, tt: Test, fl: Charset, base: nat, code: Code)
    requires p.Rep? && CodeAt(code, base, Gen(p, opt, tt, fl, base))
    ensures JumpsIn(code, base, base + |Gen(p, opt, tt, fl, base)|)
    decreases p, 1
  {
    hide CodeAt, Gen;
    if IsCharPattern(p.body) {
      GenSpan(p, opt, tt, fl, base);
      CodeAtEmit(code, base, ISpan(ToCharset(p.body)));
    } else {
      LoopJumps(p, opt, tt, fl, base, code);
    }
  }

  lemma LoopJumps(p: Pattern, opt: bool, tt: Test, fl: Charset, base: nat, code: Code)
    requires p.Rep? && !IsCharPattern(p.body) && CodeAt(code, base, Gen(p, opt, tt, fl, base))
    ensures JumpsIn(code, base, base + |Gen(p, opt, tt, fl, base)|)
    decreases p, 0, 1
  {
    hide CodeAt, JumpsIn, Gen, InstAt, GetFirst, TestOf, TestInstruction, TestRepShape, StackRepShape;
    if TestLeaves(p.body, fl) {
      TestLoopJumps(p, opt, tt, fl, base, code);
    } else {
      var f := GetFirst(p.body, FullSet);
      var l1 := base + TestSize(f) + 2;
      var code1 := Gen(p.body, false, NoTest, FullSet, l1);
      GenStackRep(p, opt, tt, fl, base);
      StackRepLayout(code, f, base, opt, code1);
      GenJumps(p.body, false, NoTest, FullSet, l1, code);
      StackRepJumps(code, f, base, opt, l1 + |code1| + 2);
    }
  }

  lemma TestLoopJumps(p: Pattern, opt: bool, tt: Test, fl: Charset, base: nat, code: Code)
    requires p.Rep? && !IsCharPattern(p.body) && TestLeaves(p.body, fl)
    requires CodeAt(code, base, Gen(p, opt, tt, fl, base))
    ensures JumpsIn(code, base, base + |Gen(p, opt, tt, fl, base)|)
    decreases p, 0, 0
  {
    hide CodeAt, JumpsIn, Gen, InstAt, TestLeaves, GetFirst, TestOf, TestInstruction, TestRepShape;
    var f := First(false, GetFirst(p.body, FullSet).cs);
    var mid := base + TestSize(f);
    var code1 := Gen(p.body, false, TestOf(f), FullSet, mid);
    GenTestRep(p, opt, tt, fl, base);
    TestRepLayout(code, f, base, code1);
    GenJumps(p.body, false, TestOf(f), FullSet, mid, code);
    TestRepJumps(code, f, base, mid + |code1| + 2);
  }

  lemma TestRepJumps(code: Code, f: First, base: nat, l2: nat)
    requires !f.acceptsEmpty && CodeAt(code, base, CodeTest(f, l2))
    requires base + TestSize(f) + 2 <= l2 && JumpsIn(code, base + TestSize(f), l2 - 2)
    requires InstAt(code, l2 - 2, IJmp(base))
    ensures JumpsIn(code, base, l2)
  {
    CodeAtEmit(code, base, TestInstruction(f.cs, l2));
    JumpsInTest(code, base, f, l2, base, l2);
    JumpsInInst(code, l2 - 2, IJmp(base), base, l2);
  }

  lemma StackRepJumps(code: Code, f: First, base: nat, opt: bool, l2: nat)
    requires CodeAt(code, base, CodeTest(f, l2)) && base + TestSize(f) + 4 <= l2
    requires var l1 := base + TestSize(f) + 2;
             && InstAt(code, l1 - 2, if opt then IPartialCommit(l1) else IChoice(l2))
             && JumpsIn(code, l1, l2 - 2) && InstAt(code, l2 - 2, IPartialCommit(l1))
    ensures JumpsIn(code, base, l2)
  {
    var l1 := base + TestSize(f) + 2;
    JumpsInTest(code, base, f, l2, base, l2);
    JumpsInInst(code, l1 - 2, if opt then IPartialCommit(l1) else IChoice(l2), base, l2);
    JumpsInInst(code, l2 - 2, IPartialCommit(l1), base, l2);
  }

  lemma NotJumps(p: Pattern, opt: bool, tt: Test, fl: Charset, base: nat, code: Code)
    requires p.Not? && CodeAt(code, base, Gen(p, opt, tt, fl, base))
    ensures JumpsIn(code, base, base + |Gen(p, opt, tt, fl, base)|)
    decreases p, 0
  {
    hide CodeAt, JumpsIn, Gen, InstAt, HeadFail, GetFirst, TestOf, TestInstruction, TestNotShape, StackNotShape;
    GenNot(p, opt, tt, fl, base);
    var f := GetFirst(p.body, FullSet);
    var mid := base + TestSize(f);
    if HeadFail(p.body) {
      TestNotLayout(code, f, base);
      TestNotJumps(code, f, base);
    } else {
      var code1 := Gen(p.body, false, NoTest, FullSet, mid + 2);
      StackNotLayout(code, f, base, code1);
      GenJumps(p.body, false, NoTest, FullSet, mid + 2, code);
      StackNotJumps(code, f, base, mid + 2 + |code1| + 1);
    }
  }

  lemma TestNotJumps(code: Code, f: First, base: nat)
    requires CodeAt(code, base, CodeTest(f, base + TestSize(f) + 1))
    requires InstAt(code, base + TestSize(f), IFail)
    ensures JumpsIn(code, base, base + TestSize(f) + 1)
  {
    JumpsInTest(code, base, f, base + TestSize(f) + 1, base, base + TestSize(f) + 1);
  }

  lemma StackNotJumps(code: Code, f: First, base: nat, l1: nat)
    requires CodeAt(code, base, CodeTest(f, l1)) && base + TestSize(f) + 3 <= l1
    requires InstAt(code, base + TestSize(f), IChoice(l1)) && InstAt(code, l1 - 1, IFailTwice)
    requires JumpsIn(code, base + TestSize(f) + 2, l1 - 1)
    ensures JumpsIn(code, base, l1)
  {
    JumpsInTest(code, base, f, l1, base, l1);
    JumpsInInst(code, base + TestSize(f), IChoice(l1), base, l1);
  }

  lemma AndJumps(p: Pattern, opt: bool, tt: Test, fl: Charset, base: nat, code: Code)
    requires p.And? && CodeAt(code, base, Gen(p, opt, tt, fl, base))
    ensures JumpsIn(code, base, base + |Gen(p, opt, tt, fl, base)|)
    decreases p, 0
  {
    hide FixedLen, FixedAndShape, StackAndShape, CodeAt, JumpsIn, Gen, InstAt;
    GenAnd(p, opt, tt, fl, base);
    var n := FixedLen(p.body);
    if 0 <= n <= MAX_BEHIND {
      var code1 := Gen(p.body, false, tt, FullSet, base);
      FixedAndLayout(code, base, n, code1);
      GenJumps(p.body, false, tt, FullSet, base, code);
      FixedAndJumps(code, base, n, base + |code1|);
    } else {
      var code1 := Gen(p.body, false, tt, FullSet, base + 2);
      StackAndLayout(code, base, code1);
      GenJumps(p.body, false, tt, FullSet, base + 2, code);
      StackAndJumps(code, base, base + 2 + |code1| + 2);
    }
  }

  lemma FixedAndJumps(code: Code, base: nat, n: nat, end1: nat)
    requires JumpsIn(code, base, end1)
    requires n > 0 ==> InstAt(code, end1, IBehind(n))
    ensures JumpsIn(code, base, end1 + (if n > 0 then 1 else 0))
  {
  }

  lemma StackAndJumps(code: Code, base: nat, l1: nat)
    requires base + 4 <= l1 && JumpsIn(code, base + 2, l1 - 2)
    requires InstAt(code, base, IChoice(l1)) && InstAt(code, l1 - 2, IBackCommit(l1 + 1))
    requires InstAt(code, l1, IFail)
    ensures JumpsIn(code, base, l1 + 1)
  {
    JumpsInInst(code, base, IChoice(l1), base, l1 + 1);
    JumpsInInst(code, l1 - 2, IBackCommit(l1 + 1), base, l1 + 1);
  }

  // ----- whole code -----

  predicate LabelsInside(code: Code) {
    forall k :: 0 <= k < |code| && HasLabel(code[k]) ==> code[k].target < |code|
  }

  /** Jumps of that shape cannot run in a circle. */
  lemma {:induction false} ShapedJumpsEnd(code: Code, pc: int)
    requires JumpsIn(code, 0, |code|)
    ensures HasEnd(code, pc)
    decreases |code| - pc
  {
    if IsJump(code, pc) {
      assert JumpShape(code, pc);
      var t := code[pc].target;
      if t > pc {
        ShapedJumpsEnd(code, t);
        var n: nat :| Ends(code, t, n);
        assert Ends(code, pc, n + 1);
      } else if IsJump(code, t) {
        var u := code[t].target;
        ShapedJumpsEnd(code, u);
        var n: nat :| Ends(code, u, n);
        assert Ends(code, t, n + 1);
        assert Ends(code, pc, n + 2);
      } else {
        assert Ends(code, t, 0);
        assert Ends(code, pc, 1);
      }
    } else {
      assert Ends(code, pc, 0);
    }
  }

  /** In the code of a whole pattern labels stay inside and every chain of jumps has an end. */
  lemma GeneratedJumpsEnd(p: Pattern)
    ensures JumpsEnd(GenAll(p)) && LabelsInside(GenAll(p))
  {
    hide Gen;
    var g := Gen(p, false, NoTest, FullSet, 0);
    var code := GenAll(p);
    assert CodeAt(code, 0, g + Emit(IEnd));
    CodeAtSplit(code, 0, g, Emit(IEnd));
    CodeAtEmit(code, |g|, IEnd);
    GenJumps(p, false, NoTest, FullSet, 0, code);
    assert |code| == |g| + 1;
    forall pc: int ensures HasEnd(code, pc) {
      ShapedJumpsEnd(code, pc);
    }
  }
}
