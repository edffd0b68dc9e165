/**
  compile and match in the form of the C code: a compiler that appends words to a growing code
  array and patches labels in place, the peephole pass over that array, and the interpreter loop.
 */
module PegCompiler {
  import opened Common
  import opened PegSemantics
  import opened PegAnalysis
  import opened PegMachine
  import opened PegCodegen
  import opened PegSimulation
  import opened PegJumps
  import opened PegPeephole

  const NO_INST := -1

  /** What codechar and codecharset learn by looking at the instruction at `tt`. */
  function TestAt(code: Code, tt: int): (r: Test)
    requires tt < |code|
    ensures tt < 0 ==> r == NoTest
  {
    if tt < 0 then NoTest
    else match code[tt]
         case ITestChar(c, _) => TestChar(c)
         case ITestSet(cs, _) => TestSet(cs)
         case _ => NoTest
  }

  /** Appending code does not change what is known of an earlier test. */
  lemma TestAtPrefix(a: Code, b: Code, tt: int)
    requires tt < |a|
    ensures TestAt(a + b, tt) == TestAt(a, tt)
  {
  }

  function WithTarget(inst: Instruction, target: nat): (r: Instruction)
    requires HasLabel(inst)
    ensures HasLabel(r) && r.target == target && Size(r) == Size(inst)
  {
    inst.(target := target)
  }

  /** Patching the label of an instruction replaces that instruction and nothing else. */
  lemma Patch(a: Code, inst: Instruction, b: Code, target: nat)
    requires HasLabel(inst)
    ensures (a + Emit(inst) + b)[|a|] == inst
    ensures (a + Emit(inst) + b)[|a| := WithTarget(inst, target)] == a + Emit(WithTarget(inst, target)) + b
  {
    var x := WithTarget(inst, target);
    var l, r := (a + Emit(inst) + b)[|a| := x], a + Emit(x) + b;
    assert |l| == |r|;
    forall k | 0 <= k < |l| ensures l[k] == r[k] {
      if |a| < k < |a| + Size(inst) {
        assert Emit(inst)[k - |a|] == Data == Emit(x)[k - |a|];
      }
    }
  }

  // Grouping of concatenations, for the stretches of code that are patched.

  lemma Group3(a: Code, b: Code, c: Code)
    ensures a + b + c == a + (b + c)
  {
  }

  lemma Group4(a: Code, b: Code, c: Code, d: Code)
    ensures a + b + c + d == a + (b + c + d)
    ensures a + b + c + d == (a + b) + (c + d)
  {
  }

  lemma Group5(a: Code, b: Code, c: Code, d: Code, e: Code)
    ensures a + b + c + d + e == a + (b + c + d + e)
  {
  }

  lemma Group6(a: Code, b: Code, c: Code, d: Code, e: Code, f: Code)
    ensures a + b + c + d + e + f == a + (b + c + d + e + f)
  {
  }

  lemma StackChoiceText(pre: Code, f: First, code1: Code, code2: Code)
    ensures var l1 := |pre| + TestSize(f) + 2 + |code1| + 2;
            pre + CodeTest(f, l1) + Emit(IChoice(l1)) + code1 + Emit(ICommit(l1 + |code2|)) + code2 ==
            pre + StackChoiceShape(f, |pre|, code1, code2)
  {
    hide CodeTest, Emit, TestInstruction;
    var l1 := |pre| + TestSize(f) + 2 + |code1| + 2;
    Group6(pre, CodeTest(f, l1), Emit(IChoice(l1)), code1, Emit(ICommit(l1 + |code2|)), code2);
  }

  lemma StackRepText(pre: Code, f: First, opt: bool, code1: Code)
    ensures var l1 := |pre| + TestSize(f) + 2;
            var l2 := l1 + |code1| + 2;
            pre + CodeTest(f, l2) + (Emit(if opt then IPartialCommit(l1) else IChoice(l2)) +
            (code1 + Emit(IPartialCommit(l1)))) == pre + StackRepShape(f, |pre|, opt, code1)
  {
    hide CodeTest, Emit, TestInstruction;
    var l1 := |pre| + TestSize(f) + 2;
    var l2 := l1 + |code1| + 2;
    var enter, loop := Emit(if opt then IPartialCommit(l1) else IChoice(l2)), Emit(IPartialCommit(l1));
    Group4(pre, CodeTest(f, l2), enter, code1 + loop);
    Group4(pre + CodeTest(f, l2), enter, code1, loop);
    Group5(pre, CodeTest(f, l2), enter, code1, loop);
  }

  /** The state of the compiler: the code array, as far as it is filled. */
  class CompileState {
    var code: Code

    constructor ()
      ensures code == []
    {
      code := [];
    }

    /** addinstruction / addoffsetinst / addcharset: append an instruction with its data words. */
    method AddInstruction(inst: Instruction) returns (i: nat)
      modifies this
      ensures i == |old(code)|
      ensures code == old(code) + Emit(inst)
    {
      i := |code|;
      code := code + Emit(inst);
    }

    /** jumptothere: patch `instruction` to jump to `target`. */
    method JumpToThere(instruction: int, target: nat)
      requires instruction < |code|
      requires instruction >= 0 ==> HasLabel(code[instruction])
      modifies this
      ensures code == if instruction < 0 then old(code)
                      else old(code)[instruction := WithTarget(old(code[instruction]), target)]
    {
      if instruction >= 0 {
        code := code[instruction := WithTarget(code[instruction], target)];
      }
    }

    /** codetestset: append the test for `f`, still without a target. */
    method CodeTestSet(f: First) returns (test: int)
      modifies this
      ensures code == old(code) + CodeTest(f, 0)
      ensures test == if f.acceptsEmpty then NO_INST else |old(code)|
      ensures test < |code| && TestAt(code, test) == TestOf(f)
      ensures test >= 0 ==> code[test] == TestInstruction(f.cs, 0)
    {
      if f.acceptsEmpty {
        test := NO_INST;
      } else {
        test := AddInstruction(TestInstruction(f.cs, 0));
      }
    }

    /** Give the test appended after `pre` its target. */
    method PatchTest(test: int, ghost pre: Code, f: First, ghost post: Code, target: nat)
      requires code == pre + CodeTest(f, 0) + post
      requires test == if f.acceptsEmpty then NO_INST else |pre|
      modifies this
      ensures code == pre + CodeTest(f, target) + post
    {
      if !f.acceptsEmpty {
        ghost var inst := TestInstruction(f.cs, 0);
        Patch(pre, inst, post, target);
        assert WithTarget(inst, target) == TestInstruction(f.cs, target);
      }
      JumpToThere(test, target);
    }

    /** Give the instruction appended after `pre` its target. */
    method PatchInst(instruction: nat, ghost pre: Code, inst: Instruction, ghost post: Code, target: nat)
      requires code == pre + Emit(inst) + post && instruction == |pre| && HasLabel(inst)
      modifies this
      ensures code == pre + Emit(WithTarget(inst, target)) + post
    {
      Patch(pre, inst, post, target);
      JumpToThere(instruction, target);
    }

    method Codegen(p: Pattern, opt: bool, tt: int, fl: Charset)
      requires tt < |code|
      modifies this
      ensures code == old(code) + Gen(p, opt, TestAt(old(code), tt), fl, |old(code)|)
      decreases p, 1
    {
      hide Gen;
      ghost var pre := code;
      ghost var test := TestAt(pre, tt);
      match p
      case True =>
        GenLeaf(p, opt, test, fl, |pre|);
      case Choice(_, _) => CodeChoice(p, opt, tt, fl);
      case Rep(_) => CodeRep(p, opt, tt, fl);
      case Behind(n, body) => CodeBehind(p, opt, tt, fl);
      case Not(_) => CodeNot(p, opt, tt, fl);
      case And(_) => CodeAnd(p, opt, tt, fl);
      case Seq(p1, p2) =>
        GenSeq(p, opt, test, fl, |pre|);
        // codeseq1
        Codegen(p1, false, tt, SeqFollow(p1, p2, fl));
        TestAtPrefix(pre, code[|pre|..], tt);
        assert code == pre + code[|pre|..];
        var tt2 := if FixedLen(p1) != 0 then NO_INST else tt;
        Codegen(p2, opt, tt2, fl);
      case _ =>
        GenLeaf(p, opt, test, fl, |pre|);
        var inst := LeafInstruction(p, TestAt(code, tt));
        var _ := AddInstruction(inst);
    }

    method CodeChoice(p: Pattern, opt: bool, tt: int, fl: Charset)
      requires p.Choice? && tt < |code|
      modifies this
      ensures code == old(code) + Gen(p, opt, TestAt(old(code), tt), fl, |old(code)|)
      decreases p, 0
    {
      hide Gen, TestDecides, GetFirst, TestInstruction, CodeTest, Emit;
      var p1, p2 := p.first, p.second;
      ghost var pre := code;
      var f1 := GetFirst(p1, FullSet);
      if TestDecides(p1, p2, fl) {
        CodeTestChoice(p, opt, tt, fl);
      } else if opt && p2.True? {
        var pc := AddInstruction(IPartialCommit(0));
        assert code == pre + Emit(IPartialCommit(0)) + [];
        PatchInst(pc, pre, IPartialCommit(0), [], |code|);
        Codegen(p1, true, NO_INST, FullSet);
        GenReuseChoice(p, TestAt(pre, tt), fl, |pre|);
        Group3(pre, Emit(IPartialCommit(|pre| + 2)), Gen(p1, true, NoTest, FullSet, |pre| + 2));
      } else {
        CodeStackChoice(p, opt, tt, fl);
      }
    }

    /** The first form of codechoice: one test decides. */
    method CodeTestChoice(p: Pattern, opt: bool, tt: int, fl: Charset)
      requires p.Choice? && TestDecides(p.first, p.second, fl) && tt < |code|
      modifies this
      ensures code == old(code) + Gen(p, opt, TestAt(old(code), tt), fl, |old(code)|)
      decreases p, 0, 0
    {
      hide TestAt, Gen, TestDecides, GetFirst, TestInstruction, CodeTest, Emit;
      var p1, p2 := p.first, p.second;
      ghost var pre := code;
      var f := First(false, GetFirst(p1, FullSet).cs);
      var test := CodeTestSet(f);
      Codegen(p1, false, test, fl);
      ghost var code1 := Gen(p1, false, TestOf(f), fl, |pre| + TestSize(f));
      var jmp := NO_INST;
      if !p2.True? {
        jmp := AddInstruction(IJmp(0));
      }
      ghost var jmpCode := if p2.True? then [] else Emit(IJmp(0));
      var l1 := |code|;
      assert code == pre + CodeTest(f, 0) + code1 + jmpCode;
      Group4(pre, CodeTest(f, 0), code1, jmpCode);
      PatchTest(test, pre, f, code1 + jmpCode, l1);
      Codegen(p2, opt, NO_INST, fl);
      ghost var code2 := Gen(p2, opt, NoTest, fl, l1);
      Group4(pre, CodeTest(f, l1), code1, jmpCode);
      ghost var before := pre + CodeTest(f, l1) + code1;
      assert code == before + jmpCode + code2;
      ghost var l2 := |code|;
      if !p2.True? {
        PatchInst(jmp, before, IJmp(0), code2, |code|);
      }
      GenTestChoice(p, opt, TestAt(pre, tt), fl, |pre|);
      Group5(pre, CodeTest(f, l1), code1, if p2.True? then [] else Emit(IJmp(l2)), code2);
    }

    /** The last form of codechoice: the second alternative waits on the stack. */
    method CodeStackChoice(p: Pattern, opt: bool, tt: int, fl: Charset)
      requires p.Choice? && !TestDecides(p.first, p.second, fl) && !(opt && p.second.True?)
      requires tt < |code|
      modifies this
      ensures code == old(code) + Gen(p, opt, TestAt(old(code), tt), fl, |old(code)|)
      decreases p, 0, 0
    {
      hide StackChoiceShape, TestAt, Gen, TestDecides, GetFirst, TestInstruction, CodeTest, Emit;
      var p1, p2 := p.first, p.second;
      ghost var pre := code;
      var f := GetFirst(p1, FullSet);
      var test := CodeTestSet(f);
      TestAtPrefix(code, Emit(IChoice(0)), test);
      var pchoice := AddInstruction(IChoice(0));
      Codegen(p1, p2.True?, test, FullSet);
      ghost var code1 := Gen(p1, p2.True?, TestOf(f), FullSet, |pre| + TestSize(f) + 2);
      var pcommit := CloseFirst(test, pchoice, pre, f, code1);
      var l1 := |code|;
      ghost var before := pre + CodeTest(f, l1) + Emit(IChoice(l1)) + code1;
      Codegen(p2, opt, NO_INST, fl);
      ghost var code2 := Gen(p2, opt, NoTest, fl, l1);
      PatchInst(pcommit, before, ICommit(0), code2, |code|);
      GenStackChoice(p, opt, TestAt(pre, tt), fl, |pre|);
      StackChoiceText(pre, f, code1, code2);
    }

    /** commit L2; L1: with the test and the choice before p1 patched to L1 */
    method CloseFirst(test: int, pchoice: nat, ghost pre: Code, f: First, ghost code1: Code) returns (pcommit: nat)
      requires code == pre + CodeTest(f, 0) + Emit(IChoice(0)) + code1
      requires test == if f.acceptsEmpty then NO_INST else |pre|
      requires pchoice == |pre| + TestSize(f)
      modifies this
      ensures pcommit == |old(code)|
      ensures code == pre + CodeTest(f, |code|) + Emit(IChoice(|code|)) + code1 + Emit(ICommit(0))
    {
      hide CodeTest, Emit, TestInstruction;
      pcommit := AddInstruction(ICommit(0));
      var l1 := |code|;
      ghost var commit := Emit(ICommit(0));
      Group4(pre + CodeTest(f, 0), Emit(IChoice(0)), code1, commit);
      PatchInst(pchoice, pre + CodeTest(f, 0), IChoice(0), code1 + commit, l1);
      Group4(pre, CodeTest(f, 0), Emit(IChoice(l1)), code1 + commit);
      PatchTest(test, pre, f, Emit(IChoice(l1)) + (code1 + commit), l1);
      Group4(pre, CodeTest(f, l1), Emit(IChoice(l1)), code1 + commit);
      Group4(pre + CodeTest(f, l1), Emit(IChoice(l1)), code1, commit);
    }

    method CodeRep(p: Pattern, opt: bool, tt: int, fl: Charset)
      requires p.Rep? && tt < |code|
      modifies this
      ensures code == old(code) + Gen(p, opt, TestAt(old(code), tt), fl, |old(code)|)
      decreases p, 0
    {
      hide TestAt, Gen, TestLeaves, GetFirst, TestInstruction, CodeTest, Emit;
      var body := p.body;
      ghost var pre := code;
      if IsCharPattern(body) {
        GenSpan(p, opt, TestAt(pre, tt), fl, |pre|);
        var _ := AddInstruction(ISpan(ToCharset(body)));
      } else if TestLeaves(body, fl) {
        var f := First(false, GetFirst(body, FullSet).cs);
        var test := CodeTestSet(f);
        Codegen(body, false, test, FullSet);
        ghost var code1 := Gen(body, false, TestOf(f), FullSet, |pre| + TestSize(f));
        var jmp := AddInstruction(IJmp(0));
        var l2 := |code|;
        assert code == pre + CodeTest(f, 0) + (code1 + Emit(IJmp(0)));
        PatchTest(test, pre, f, code1 + Emit(IJmp(0)), l2);
        assert code == (pre + CodeTest(f, l2) + code1) + Emit(IJmp(0)) + [];
        PatchInst(jmp, pre + CodeTest(f, l2) + code1, IJmp(0), [], test);
        GenTestRep(p, opt, TestAt(pre, tt), fl, |pre|);
        assert code == pre + TestRepShape(f, |pre|, code1);
      } else {
        CodeStackRep(p, opt, tt, fl);
      }
    }

    /** The last form of coderep: the loop is left through an entry on the stack. */
    method CodeStackRep(p: Pattern, opt: bool, tt: int, fl: Charset)
      requires p.Rep? && !IsCharPattern(p.body) && !TestLeaves(p.body, fl) && tt < |code|
      modifies this
      ensures code == old(code) + Gen(p, opt, TestAt(old(code), tt), fl, |old(code)|)
      decreases p, 0, 0
    {
      hide TestAt, StackRepShape, Gen, TestLeaves, GetFirst, TestInstruction, CodeTest, Emit;
      ghost var pre := code;
      var f := GetFirst(p.body, FullSet);
      var test := CodeTestSet(f);
      var pchoice := NO_INST;
      if opt {
        var pc := AddInstruction(IPartialCommit(0));
        assert code == (pre + CodeTest(f, 0)) + Emit(IPartialCommit(0)) + [];
        PatchInst(pc, pre + CodeTest(f, 0), IPartialCommit(0), [], |code|);
      } else {
        pchoice := AddInstruction(IChoice(0));
      }
      var l1 := |code|;
      ghost var enter := if opt then IPartialCommit(l1) else IChoice(0);
      assert code == pre + CodeTest(f, 0) + Emit(enter);
      Codegen(p.body, false, NO_INST, FullSet);
      ghost var code1 := Gen(p.body, false, NoTest, FullSet, l1);
      CloseLoop(test, pchoice, pre, f, opt, l1, code1);
      GenStackRep(p, opt, TestAt(pre, tt), fl, |pre|);
    }

    /** partialcommit L1; L2: with the test and the choice before the loop patched to L2 */
    method CloseLoop(test: int, pchoice: int, ghost pre: Code, f: First, opt: bool, l1: nat, ghost code1: Code)
      requires l1 == |pre| + TestSize(f) + 2
      requires code == pre + CodeTest(f, 0) + Emit(if opt then IPartialCommit(l1) else IChoice(0)) + code1
      requires test == if f.acceptsEmpty then NO_INST else |pre|
      requires pchoice == if opt then NO_INST else |pre| + TestSize(f)
      modifies this
      ensures code == pre + StackRepShape(f, |pre|, opt, code1)
    {
      hide CodeTest, Emit, TestInstruction, StackRepShape;
      ghost var enter := if opt then IPartialCommit(l1) else IChoice(0);
      var commit := AddInstruction(IPartialCommit(0));
      assert code == old(code) + Emit(IPartialCommit(0)) + [];
      PatchInst(commit, old(code), IPartialCommit(0), [], l1);
      var l2 := |code|;
      ghost var loop := Emit(IPartialCommit(l1));
      assert code == old(code) + loop;
      Group4(pre + CodeTest(f, 0), Emit(enter), code1, loop);
      if !opt {
        PatchInst(pchoice, pre + CodeTest(f, 0), IChoice(0), code1 + loop, l2);
      }
      ghost var enter2 := if opt then IPartialCommit(l1) else IChoice(l2);
      Group4(pre, CodeTest(f, 0), Emit(enter2), code1 + loop);
      PatchTest(test, pre, f, Emit(enter2) + (code1 + loop), l2);
      StackRepText(pre, f, opt, code1);
    }

    method CodeBehind(p: Pattern, opt: bool, tt: int, fl: Charset)
      requires p.Behind? && tt < |code|
      modifies this
      ensures code == old(code) + Gen(p, opt, TestAt(old(code), tt), fl, |old(code)|)
      decreases p, 0
    {
      hide Gen;
      ghost var pre := code;
      if p.n > 0 {
        var _ := AddInstruction(IBehind(p.n));
      }
      Codegen(p.body, false, NO_INST, FullSet);
      GenBehind(p, opt, TestAt(pre, tt), fl, |pre|);
      assert code == pre + BehindShape(p.n, Gen(p.body, false, NoTest, FullSet, |pre| + (if p.n > 0 then 1 else 0)));
    }

    method CodeNot(p: Pattern, opt: bool, tt: int, fl: Charset)
      requires p.Not? && tt < |code|
      modifies this
      ensures code == old(code) + Gen(p, opt, TestAt(old(code), tt), fl, |old(code)|)
      decreases p, 0
    {
      hide Gen, GetFirst, HeadFail, TestInstruction, CodeTest, Emit, TestAt, StackNotShape;
      ghost var pre := code;
      var f := GetFirst(p.body, FullSet);
      var test := CodeTestSet(f);
      GenNot(p, opt, TestAt(pre, tt), fl, |pre|);
      if HeadFail(p.body) {
        var _ := AddInstruction(IFail);
        PatchTest(test, pre, f, Emit(IFail), |code|);
        Group3(pre, CodeTest(f, |code|), Emit(IFail));
      } else {
        var pchoice := AddInstruction(IChoice(0));
        Codegen(p.body, false, NO_INST, FullSet);
        ghost var code1 := Gen(p.body, false, NoTest, FullSet, |pre| + TestSize(f) + 2);
        var _ := AddInstruction(IFailTwice);
        var l1 := |code|;
        ghost var twice := Emit(IFailTwice);
        assert code == pre + CodeTest(f, 0) + Emit(IChoice(0)) + code1 + twice;
        CloseNot(test, pchoice, pre, f, code1);
      }
    }

    /** L1: with the test and the choice before p patched to L1 */
    method CloseNot(test: int, pchoice: nat, ghost pre: Code, f: First, ghost code1: Code)
      requires code == pre + CodeTest(f, 0) + Emit(IChoice(0)) + code1 + Emit(IFailTwice)
      requires test == if f.acceptsEmpty then NO_INST else |pre|
      requires pchoice == |pre| + TestSize(f)
      modifies this
      ensures code == pre + StackNotShape(f, |pre|, code1)
    {
      hide CodeTest, Emit, TestInstruction;
      var l1 := |code|;
      ghost var twice := Emit(IFailTwice);
      Group4(pre + CodeTest(f, 0), Emit(IChoice(0)), code1, twice);
      PatchInst(pchoice, pre + CodeTest(f, 0), IChoice(0), code1 + twice, l1);
      Group4(pre, CodeTest(f, 0), Emit(IChoice(l1)), code1 + twice);
      PatchTest(test, pre, f, Emit(IChoice(l1)) + (code1 + twice), l1);
      Group3(Emit(IChoice(l1)), code1, twice);
      Group3(pre, CodeTest(f, l1), Emit(IChoice(l1)) + code1 + twice);
      Group4(CodeTest(f, l1), Emit(IChoice(l1)), code1, twice);
    }

    method CodeAnd(p: Pattern, opt: bool, tt: int, fl: Charset)
      requires p.And? && tt < |code|
      modifies this
      ensures code == old(code) + Gen(p, opt, TestAt(old(code), tt), fl, |old(code)|)
      decreases p, 0
    {
      hide Gen, FixedLen, Emit;
      ghost var pre := code;
      ghost var test := TestAt(pre, tt);
      var n := FixedLen(p.body);
      GenAnd(p, opt, test, fl, |pre|);
      if 0 <= n <= MAX_BEHIND {
        Codegen(p.body, false, tt, FullSet);
        if n > 0 {
          var _ := AddInstruction(IBehind(n));
        }
        assert code == pre + FixedAndShape(n, Gen(p.body, false, test, FullSet, |pre|));
      } else {
        CodeStackAnd(p, opt, tt, fl);
      }
    }

    method CodeStackAnd(p: Pattern, opt: bool, tt: int, fl: Charset)
      requires p.And? && tt < |code| && !(0 <= FixedLen(p.body) <= MAX_BEHIND)
      modifies this
      ensures code == old(code) + Gen(p, opt, TestAt(old(code), tt), fl, |old(code)|)
      decreases p, 0, 0
    {
      hide TestAt, Gen, FixedLen, Emit, StackAndShape;
      ghost var pre := code;
      ghost var test := TestAt(pre, tt);
      var pchoice := AddInstruction(IChoice(0));
      TestAtPrefix(pre, Emit(IChoice(0)), tt);
      Codegen(p.body, false, tt, FullSet);
      ghost var code1 := Gen(p.body, false, test, FullSet, |pre| + 2);
      CloseAnd(pchoice, pre, code1);
      GenAnd(p, opt, test, fl, |pre|);
    }

    /** backcommit L2; L1: fail; L2: with the choice before p patched to L1 */
    method CloseAnd(pchoice: nat, ghost pre: Code, ghost code1: Code)
      requires code == pre + Emit(IChoice(0)) + code1 && pchoice == |pre|
      modifies this
      ensures code == pre + StackAndShape(|pre|, code1)
    {
      hide Emit;
      var pcommit := AddInstruction(IBackCommit(0));
      var l1 := |code|;
      ghost var commit := Emit(IBackCommit(0));
      Group4(pre, Emit(IChoice(0)), code1, commit);
      PatchInst(pchoice, pre, IChoice(0), code1 + commit, l1);
      var _ := AddInstruction(IFail);
      ghost var before := pre + Emit(IChoice(l1)) + code1;
      Group4(pre, Emit(IChoice(l1)), code1, commit);
      PatchInst(pcommit, before, IBackCommit(0), Emit(IFail), |code|);
      Group5(pre, Emit(IChoice(l1)), code1, Emit(IBackCommit(l1 + 1)), Emit(IFail));
    }

    // ----- peephole -----

    /** finaltarget: follow a chain of jumps to its end. */
    method FinalTarget(i: nat) returns (t: nat)
      requires i < |code| && JumpsEnd(code) && LabelsInside(code)
      ensures t == Final(code, i) && t < |code| && !code[t].IJmp?
    {
      t := i;
      assert HasEnd(code, i);
      ghost var n: nat :| Ends(code, i, n);
      while code[t].IJmp?
        invariant t < |code| && Ends(code, t, n) && Final(code, t) == Final(code, i)
        decreases n
      {
        FinalUnfold(code, t);
        t, n := code[t].target, n - 1;
      }
      FinalUnfold(code, t);
    }

    /** Put `word` at address `i`; the code keeps its results. */
    method Rewrite(i: nat, word: Instruction)
      requires i < |code| && JumpsEnd(code) && LabelsInside(code) && WordRefines(code, i, word)
      requires HasLabel(word) ==> word.target < |code|
      modifies this
      requires code[i].Data? ==> !NoFallThrough(word)
      ensures code == old(code)[i := word]
      ensures JumpsEnd(code) && LabelsInside(code) && SameResults(old(code), code)
      ensures forall k: nat :: k < |code| && k != i && Optimised(old(code), k) ==> Optimised(code, k)
    {
      RewriteRefines(code, i, word);
      forall k: nat | k < |code| && k != i && Optimised(code, k) ensures Optimised(code[i := word], k) {
        OptimisedKept(code, i, word, k);
      }
      code := code[i := word];
    }

    /**
      The peephole pass. The code keeps its length and its results; afterwards no label leads to a
      jump, and no jump leads to an instruction that could stand in its place.
     */
    method Peephole()
      requires JumpsEnd(code) && LabelsInside(code) && Blocks(code)
      modifies this
      ensures |code| == |old(code)| && SameResults(old(code), code)
      ensures forall k: nat :: k < |code| ==> Optimised(code, k)
    {
      hide SameResults, JumpsEnd, LabelsInside;
      var i := 0;
      SameResultsRefl(code);
      assert code[0..] == code;
      while i < |code|
        invariant 0 <= i <= |code| == |old(code)|
        invariant JumpsEnd(code) && LabelsInside(code) && SameResults(old(code), code)
        invariant Blocks(code[i..])
        invariant forall k: nat :: k < i ==> Optimised(code, k)
        decreases |code| - i
      {
        ghost var before := code;
        OptimiseAt(i);
        SameResultsTrans(old(code), before, code);
        BlocksStep(code, i);
        i := i + Size(code[i]);
      }
    }

    /** One round of the loop of peephole. */
    method OptimiseAt(i: nat)
      requires JumpsEnd(code) && LabelsInside(code)
      requires i < |code| && Blocks(code[i..])
      requires forall k: nat :: k < i ==> Optimised(code, k)
      modifies this
      ensures |code| == |old(code)| && JumpsEnd(code) && LabelsInside(code)
      ensures SameResults(old(code), code)
      ensures Blocks(code[i..])
      ensures forall k: nat :: k <= i ==> Optimised(code, k)
    {
      hide SameResults, Blocks, JumpsEnd;
      SameResultsRefl(code);
      var inst := code[i];
      if inst.IJmp? {
        var ft := FinalTarget(i);
        FinalUnfold(code, i);
        FinalIsEnd(code, i);
        if code[ft].IFail? || code[ft].IFailTwice? || code[ft].IEnd? {
          BecomeShort(i, ft);
        } else if code[ft].ICommit? || code[ft].IPartialCommit? || code[ft].IBackCommit? {
          BecomeLong(i, ft);
        } else {
          Relabel(i, ft);
        }
      } else if HasLabel(inst) {
        var ft := FinalTarget(inst.target);
        FinalIsEnd(code, inst.target);
        Relabel(i, ft);
      }
    }

    /** An instruction gets the end of its label's chain as its label. */
    method Relabel(i: nat, ft: nat)
      requires JumpsEnd(code) && LabelsInside(code)
      requires i < |code| && HasLabel(code[i]) && Blocks(code[i..])
      requires ft < |code| && ft == Final(code, ft) == Final(code, code[i].target) && !code[ft].IJmp?
      requires code[i].IJmp? ==> ft == Final(code, i) && !NoFallThrough(code[ft])
      requires forall k: nat :: k < i ==> Optimised(code, k)
      modifies this
      ensures |code| == |old(code)| && JumpsEnd(code) && LabelsInside(code)
      ensures SameResults(old(code), code)
      ensures Blocks(code[i..])
      ensures forall k: nat :: k <= i ==> Optimised(code, k)
    {
      hide SameResults, Blocks, JumpsEnd;
      BlocksReplace(code, i, WithTarget(code[i], ft));
      Rewrite(i, WithTarget(code[i], ft));
    }

    /** A jump to a one-word instruction becomes that instruction; its offset word becomes a no-op. */
    method BecomeShort(i: nat, ft: nat)
      requires JumpsEnd(code) && LabelsInside(code)
      requires i < |code| && code[i].IJmp? && Blocks(code[i..])
      requires ft == Final(code, i) && ft < |code| && NoFallThrough(code[ft]) && !HasLabel(code[ft])
      requires forall k: nat :: k < i ==> Optimised(code, k)
      modifies this
      ensures |code| == |old(code)| && JumpsEnd(code) && LabelsInside(code)
      ensures SameResults(old(code), code)
      ensures Blocks(code[i..])
      ensures forall k: nat :: k <= i ==> Optimised(code, k)
    {
      BlocksShorten(code, i, code[ft]);
      ghost var c0 := code;
      Rewrite(i, code[ft]);
      ghost var c1 := code;
      Rewrite(i + 1, IAny);
      SameResultsTrans(c0, c1, code);
    }

    /** A jump to an instruction that jumps itself becomes that instruction, with its final label. */
    method BecomeLong(i: nat, ft: nat)
      requires JumpsEnd(code) && LabelsInside(code)
      requires i < |code| && code[i].IJmp? && Blocks(code[i..])
      requires ft == Final(code, i) && ft < |code| && NoFallThrough(code[ft]) && HasLabel(code[ft])
      requires forall k: nat :: k < i ==> Optimised(code, k)
      modifies this
      ensures |code| == |old(code)| && JumpsEnd(code) && LabelsInside(code)
      ensures SameResults(old(code), code)
      ensures Blocks(code[i..])
      ensures forall k: nat :: k <= i ==> Optimised(code, k)
    {
      hide SameResults, Blocks, JumpsEnd;
      var fft := FinalTarget(code[ft].target);
      FinalIsEnd(code, code[ft].target);
      var word := WithTarget(code[ft], fft);
      BlocksReplace(code, i, word);
      Rewrite(i, word);
    }
  }

  // ----- what the peephole pass keeps -----

  ghost predicate SameResults(code: Code, code': Code) {
    forall s, i, r :: Reaches(code, s, Start(i), Done(r)) ==> Reaches(code', s, Start(i), Done(r))
  }

  lemma SameResultsRefl(code: Code)
    ensures SameResults(code, code)
  {
  }

  lemma SameResultsTrans(a: Code, b: Code, c: Code)
    requires SameResults(a, b) && SameResults(b, c)
    ensures SameResults(a, c)
  {
  }

  lemma RewriteRefines(code: Code, i: nat, word: Instruction)
    requires i < |code| && JumpsEnd(code) && LabelsInside(code) && WordRefines(code, i, word)
    requires HasLabel(word) ==> word.target < |code|
    ensures JumpsEnd(code[i := word]) && LabelsInside(code[i := word])
    ensures SameResults(code, code[i := word])
  {
    var code' := code[i := word];
    forall k: nat | k < |code| ensures WordRefines(code, k, code'[k]) {
    }
    RefinedJumpsEnd(code, code');
    forall s, i, r | Reaches(code, s, Start(i), Done(r)) ensures Reaches(code', s, Start(i), Done(r)) {
      RefinedResult(code, code', s, i, r);
    }
  }

  /** No label leads to a jump, and no jump to an instruction that could replace it. */
  predicate Optimised(code: Code, k: nat)
    requires k < |code|
  {
    HasLabel(code[k]) ==>
      && code[k].target < |code|
      && !code[code[k].target].IJmp?
      && (code[k].IJmp? ==> !NoFallThrough(code[code[k].target]))
  }

  /** A rewriting elsewhere leaves an optimised instruction optimised. */
  lemma OptimisedKept(code: Code, i: nat, word: Instruction, k: nat)
    requires i < |code| && k < |code| && k != i && JumpsEnd(code)
    requires Optimised(code, k) && WordRefines(code, i, word)
    requires code[i].Data? ==> !NoFallThrough(word)
    ensures Optimised(code[i := word], k)
  {
  }

  /** The code is a row of instructions, each with its data words. */
  predicate Blocks(g: Code)
    decreases |g|
  {
    g == [] ||
    (&& Size(g[0]) <= |g|
     && (forall k :: 0 < k < Size(g[0]) ==> g[k] == Data)
     && Blocks(g[Size(g[0])..]))
  }

  lemma {:induction false} BlocksConcat(a: Code, b: Code)
    requires Blocks(a) && Blocks(b)
    ensures Blocks(a + b)
    decreases |a|
  {
    hide Blocks, Size;
    if a == [] {
      assert a + b == b;
    } else {
      BlocksSplit(a);
      var n := Size(a[0]);
      assert (a + b)[0] == a[0] && (a + b)[n..] == a[n..] + b;
      assert forall k :: 0 < k < n ==> (a + b)[k] == a[k];
      BlocksConcat(a[n..], b);
      BlocksJoin(a + b);
    }
  }

  lemma BlocksSplit(code: Code)
    requires code != [] && Blocks(code)
    ensures 0 < Size(code[0]) <= |code| && Blocks(code[Size(code[0])..])
    ensures forall k :: 0 < k < Size(code[0]) ==> code[k] == Data
  {
  }

  lemma BlocksJoin(code: Code)
    requires code != [] && 0 < Size(code[0]) <= |code| && Blocks(code[Size(code[0])..])
    requires forall k :: 0 < k < Size(code[0]) ==> code[k] == Data
    ensures Blocks(code)
  {
  }

  lemma BlocksEmit(inst: Instruction)
    ensures Blocks(Emit(inst))
  {
    assert Emit(inst)[Size(inst)..] == [];
  }

  /** The data words of the first instruction, and the row that comes after it. */
  lemma BlocksStep(code: Code, i: nat)
    requires i < |code| && Blocks(code[i..])
    ensures i + Size(code[i]) <= |code| && Blocks(code[i + Size(code[i])..])
    ensures forall k :: i < k < i + Size(code[i]) ==> code[k] == Data
  {
    var g := code[i..];
    assert g[Size(g[0])..] == code[i + Size(code[i])..];
    forall k | i < k < i + Size(code[i]) ensures code[k] == Data {
      assert code[k] == g[k - i];
    }
  }

  lemma BlocksReplace(code: Code, i: nat, word: Instruction)
    requires i < |code| && Blocks(code[i..]) && Size(word) == Size(code[i])
    ensures Blocks(code[i := word][i..])
  {
    BlocksStep(code, i);
    var g := code[i := word][i..];
    assert g[Size(word)..] == code[i + Size(word)..];
  }

  lemma BlocksShorten(code: Code, i: nat, word: Instruction)
    requires i < |code| && Blocks(code[i..]) && Size(code[i]) == 2 && Size(word) == 1
    ensures i + 1 < |code| && code[i + 1] == Data
    ensures Blocks(code[i := word][i + 1 := IAny][i..])
  {
    BlocksStep(code, i);
    var g := code[i := word][i + 1 := IAny][i..];
    assert g[1..][1..] == code[i + 2..];
    assert Blocks(g[1..]);
  }

  /** Generated code is a row of instructions. */
  lemma {:induction false} GenBlocks(p: Pattern, opt: bool, tt: Test, fl: Charset, base: nat)
    ensures Blocks(Gen(p, opt, tt, fl, base))
    decreases p
  {
    hide Blocks, Emit, GetFirst, CodeTest, Gen;
    match p
    case Choice(_, _) => ChoiceBlocks(p, opt, tt, fl, base);
    case Rep(body) => RepBlocks(p, opt, tt, fl, base);
    case Behind(n, body) =>
      var code1 := Gen(body, false, NoTest, FullSet, base + (if n > 0 then 1 else 0));
      GenBehind(p, opt, tt, fl, base);
      GenBlocks(body, false, NoTest, FullSet, base + (if n > 0 then 1 else 0));
      BehindBlocks(n, code1);
    case Not(_) => NotBlocks(p, opt, tt, fl, base);
    case And(_) => AndBlocks(p, opt, tt, fl, base);
    case Seq(p1, p2) =>
      var code1 := Gen(p1, false, tt, SeqFollow(p1, p2, fl), base);
      GenSeq(p, opt, tt, fl, base);
      GenBlocks(p1, false, tt, SeqFollow(p1, p2, fl), base);
      GenBlocks(p2, opt, SeqTest(p1, tt), fl, base + |code1|);
      BlocksConcat(code1, Gen(p2, opt, SeqTest(p1, tt), fl, base + |code1|));
    case _ => LeafBlocks(p, opt, tt, fl, base);
  }

  lemma ChoiceBlocks(p: Pattern, opt: bool, tt: Test, fl: Charset, base: nat)
    requires p.Choice?
    ensures Blocks(Gen(p, opt, tt, fl, base))
    decreases p, 0
  {
    hide Blocks, Emit, GetFirst, CodeTest, Gen, TestDecides, TestOf;
    var p1, p2 := p.first, p.second;
    var f1 := GetFirst(p1, FullSet);
    if TestDecides(p1, p2, fl) {
      var f := First(false, f1.cs);
      var code1 := Gen(p1, false, TestOf(f), fl, base + TestSize(f));
      var l1 := base + TestSize(f) + |code1| + (if p2.True? then 0 else 2);
      GenTestChoice(p, opt, tt, fl, base);
      GenBlocks(p1, false, TestOf(f), fl, base + TestSize(f));
      GenBlocks(p2, opt, NoTest, fl, l1);
      TestChoiceBlocks(f, base, p2.True?, code1, Gen(p2, opt, NoTest, fl, l1));
    } else if opt && p2.True? {
      GenReuseChoice(p, tt, fl, base);
      GenBlocks(p1, true, NoTest, FullSet, base + 2);
      BlocksEmit(IPartialCommit(base + 2));
      BlocksConcat(Emit(IPartialCommit(base + 2)), Gen(p1, true, NoTest, FullSet, base + 2));
    } else {
      var code1 := Gen(p1, p2.True?, TestOf(f1), FullSet, base + TestSize(f1) + 2);
      var l1 := base + TestSize(f1) + 2 + |code1| + 2;
      GenStackChoice(p, opt, tt, fl, base);
      GenBlocks(p1, p2.True?, TestOf(f1), FullSet, base + TestSize(f1) + 2);
      GenBlocks(p2, opt, NoTest, fl, l1);
      StackChoiceBlocks(f1, base, code1, Gen(p2, opt, NoTest, fl, l1));
    }
  }

  lemma NotBlocks(p: Pattern, opt: bool, tt: Test, fl: Charset, base: nat)
    requires p.Not?
    ensures Blocks(Gen(p, opt, tt, fl, base))
    decreases p, 0
  {
    hide Blocks, Emit, GetFirst, CodeTest, Gen, HeadFail;
    GenNot(p, opt, tt, fl, base);
    var f := GetFirst(p.body, FullSet);
    if HeadFail(p.body) {
      TestBlocks(f, base + TestSize(f) + 1);
      BlocksEmit(IFail);
      BlocksConcat(CodeTest(f, base + TestSize(f) + 1), Emit(IFail));
    } else {
      GenBlocks(p.body, false, NoTest, FullSet, base + TestSize(f) + 2);
      StackNotBlocks(f, base, Gen(p.body, false, NoTest, FullSet, base + TestSize(f) + 2));
    }
  }

  lemma AndBlocks(p: Pattern, opt: bool, tt: Test, fl: Charset, base: nat)
    requires p.And?
    ensures Blocks(Gen(p, opt, tt, fl, base))
    decreases p, 0
  {
    hide Blocks, Emit, FixedLen, Gen;
    GenAnd(p, opt, tt, fl, base);
    var n := FixedLen(p.body);
    if 0 <= n <= MAX_BEHIND {
      GenBlocks(p.body, false, tt, FullSet, base);
      FixedAndBlocks(n, Gen(p.body, false, tt, FullSet, base));
    } else {
      GenBlocks(p.body, false, tt, FullSet, base + 2);
      StackAndBlocks(base, Gen(p.body, false, tt, FullSet, base + 2));
    }
  }

  lemma RepBlocks(p: Pattern, opt: bool, tt: Test, fl: Charset, base: nat)
    requires p.Rep?
    ensures Blocks(Gen(p, opt, tt, fl, base))
    decreases p, 0
  {
    hide Blocks, Emit, GetFirst, CodeTest, Gen;
    var f := GetFirst(p.body, FullSet);
    if IsCharPattern(p.body) {
      GenSpan(p, opt, tt, fl, base);
      BlocksEmit(ISpan(ToCharset(p.body)));
    } else if TestLeaves(p.body, fl) {
      var t := First(false, f.cs);
      GenTestRep(p, opt, tt, fl, base);
      GenBlocks(p.body, false, TestOf(t), FullSet, base + TestSize(t));
      TestRepBlocks(t, base, Gen(p.body, false, TestOf(t), FullSet, base + TestSize(t)));
    } else {
      GenStackRep(p, opt, tt, fl, base);
      GenBlocks(p.body, false, NoTest, FullSet, base + TestSize(f) + 2);
      StackRepBlocks(f, base, opt, Gen(p.body, false, NoTest, FullSet, base + TestSize(f) + 2));
    }
  }

  lemma LeafBlocks(p: Pattern, opt: bool, tt: Test, fl: Charset, base: nat)
    requires IsCharPattern(p) || p.True? || p.False?
    ensures Blocks(Gen(p, opt, tt, fl, base))
  {
    GenLeaf(p, opt, tt, fl, base);
    if !p.True? {
      BlocksEmit(LeafInstruction(p, tt));
    }
  }

  lemma TestBlocks(f: First, target: nat)
    ensures Blocks(CodeTest(f, target))
  {
    if !f.acceptsEmpty {
      BlocksEmit(TestInstruction(f.cs, target));
    }
  }

  lemma TestChoiceBlocks(f: First, base: nat, emptyp2: bool, code1: Code, code2: Code)
    requires Blocks(code1) && Blocks(code2)
    ensures Blocks(TestChoiceShape(f, base, emptyp2, code1, code2))
  {
    hide Blocks, Emit, CodeTest;
    var l1 := base + TestSize(f) + |code1| + (if emptyp2 then 0 else 2);
    var jmp := if emptyp2 then [] else Emit(IJmp(l1 + |code2|));
    TestBlocks(f, l1);
    BlocksEmit(IJmp(l1 + |code2|));
    BlocksConcat(CodeTest(f, l1), code1);
    if emptyp2 {
      assert CodeTest(f, l1) + code1 + jmp == CodeTest(f, l1) + code1;
    } else {
      BlocksConcat(CodeTest(f, l1) + code1, jmp);
    }
    BlocksConcat(CodeTest(f, l1) + code1 + jmp, code2);
  }

  lemma StackChoiceBlocks(f: First, base: nat, code1: Code, code2: Code)
    requires Blocks(code1) && Blocks(code2)
    ensures Blocks(StackChoiceShape(f, base, code1, code2))
  {
    hide Blocks, Emit, CodeTest;
    var l1 := base + TestSize(f) + 2 + |code1| + 2;
    var test, choice, commit := CodeTest(f, l1), Emit(IChoice(l1)), Emit(ICommit(l1 + |code2|));
    TestBlocks(f, l1);
    BlocksEmit(IChoice(l1));
    BlocksEmit(ICommit(l1 + |code2|));
    BlocksConcat(test, choice);
    BlocksConcat(test + choice, code1);
    BlocksConcat(test + choice + code1, commit);
    BlocksConcat(test + choice + code1 + commit, code2);
  }

  lemma TestRepBlocks(f: First, base: nat, code1: Code)
    requires Blocks(code1)
    ensures Blocks(TestRepShape(f, base, code1))
  {
    hide Blocks, Emit, CodeTest;
    var test := CodeTest(f, base + TestSize(f) + |code1| + 2);
    TestBlocks(f, base + TestSize(f) + |code1| + 2);
    BlocksEmit(IJmp(base));
    BlocksConcat(test, code1);
    BlocksConcat(test + code1, Emit(IJmp(base)));
  }

  lemma StackRepBlocks(f: First, base: nat, opt: bool, code1: Code)
    requires Blocks(code1)
    ensures Blocks(StackRepShape(f, base, opt, code1))
  {
    hide Blocks, Emit, CodeTest;
    var l1 := base + TestSize(f) + 2;
    var l2 := l1 + |code1| + 2;
    var test, enter := CodeTest(f, l2), if opt then IPartialCommit(l1) else IChoice(l2);
    TestBlocks(f, l2);
    BlocksEmit(enter);
    BlocksEmit(IPartialCommit(l1));
    BlocksConcat(test, Emit(enter));
    BlocksConcat(test + Emit(enter), code1);
    BlocksConcat(test + Emit(enter) + code1, Emit(IPartialCommit(l1)));
  }

  lemma StackNotBlocks(f: First, base: nat, code1: Code)
    requires Blocks(code1)
    ensures Blocks(StackNotShape(f, base, code1))
  {
    hide Blocks, Emit, CodeTest;
    var l1 := base + TestSize(f) + 2 + |code1| + 1;
    var test, choice := CodeTest(f, l1), Emit(IChoice(l1));
    TestBlocks(f, l1);
    BlocksEmit(IChoice(l1));
    BlocksEmit(IFailTwice);
    BlocksConcat(test, choice);
    BlocksConcat(test + choice, code1);
    BlocksConcat(test + choice + code1, Emit(IFailTwice));
  }

  lemma FixedAndBlocks(n: nat, code1: Code)
    requires Blocks(code1)
    ensures Blocks(FixedAndShape(n, code1))
  {
    hide Emit;
    BlocksEmit(IBehind(n));
    BlocksConcat(code1, if n > 0 then Emit(IBehind(n)) else []);
  }

  lemma StackAndBlocks(base: nat, code1: Code)
    requires Blocks(code1)
    ensures Blocks(StackAndShape(base, code1))
  {
    hide Blocks, Emit;
    var l1 := base + 2 + |code1| + 2;
    var choice, commit := Emit(IChoice(l1)), Emit(IBackCommit(l1 + 1));
    BlocksEmit(IChoice(l1));
    BlocksEmit(IBackCommit(l1 + 1));
    BlocksEmit(IFail);
    BlocksConcat(choice, code1);
    BlocksConcat(choice + code1, commit);
    BlocksConcat(choice + code1 + commit, Emit(IFail));
  }

  lemma BehindBlocks(n: nat, code1: Code)
    requires Blocks(code1)
    ensures Blocks(BehindShape(n, code1))
  {
    hide Emit;
    BlocksEmit(IBehind(n));
    BlocksConcat(if n > 0 then Emit(IBehind(n)) else [], code1);
  }

  // ----- compile and match -----

  /** The code halts on every subject, from every position, with the result the pattern has. */
  ghost predicate Implements(code: Code, p: Pattern) {
    forall s: Subject, i: nat :: i <= |s| ==> Reaches(code, s, Start(i), Done(Match(p, s, i)))
  }

  method Compile(p: Pattern) returns (code: Code)
    requires WellFormed(p)
    ensures Implements(code, p)
    ensures forall k: nat :: k < |code| ==> Optimised(code, k)
  {
    var c := new CompileState();
    c.Codegen(p, false, NO_INST, FullSet);
    var _ := c.AddInstruction(IEnd);
    assert c.code == GenAll(p) by {
      assert [] + Gen(p, false, NoTest, FullSet, 0) == Gen(p, false, NoTest, FullSet, 0);
    }
    GeneratedJumpsEnd(p);
    GenBlocks(p, false, NoTest, FullSet, 0);
    BlocksEmit(IEnd);
    BlocksConcat(Gen(p, false, NoTest, FullSet, 0), Emit(IEnd));
    c.Peephole();
    code := c.code;
    forall s: Subject, i: nat | i <= |s| ensures Reaches(code, s, Start(i), Done(Match(p, s, i))) {
      CodeIsCorrect(p, s, i);
    }
  }

  /** match: the interpreter loop. It halts if some number of machine steps halts. */
  method RunMatch(code: Code, s: Subject, start: nat, ghost n: nat) returns (r: Option<nat>)
    requires Steps(code, s, Start(start), n).Done?
    ensures Steps(code, s, Start(start), n) == Done(r)
  {
    ghost var left := n;
    var p: int, i: nat, stack: Stack := 0, start, Entry(start, GIVE_UP, Empty);
    ghost var goal := Steps(code, s, Start(start), n);
    while true
      invariant Steps(code, s, Run(p, i, stack), left) == goal
      decreases left
    {
      assert left > 0;
      ghost var next := Step(code, s, Run(p, i, stack));
      if next.Stuck? {
        StuckStays(code, s, left - 1);
      }
      var failed := false;
      if p == GIVE_UP {
        DoneStays(code, s, Done(None), left - 1);
        return None;
      }
      match code[p] {
      case IEnd =>
        DoneStays(code, s, Done(Some(i)), left - 1);
        return Some(i);
      case IAny =>
        if i < |s| { p, i := p + 1, i + 1; } else { failed := true; }
      case IChar(c) =>
        if i < |s| && s[i] == c { p, i := p + 1, i + 1; } else { failed := true; }
      case ISet(cs) =>
        if i < |s| && s[i] in cs { p, i := p + CHARSET_INST_SIZE, i + 1; } else { failed := true; }
      case ITestAny(target) =>
        if i < |s| { p := p + 2; } else { p := target; }
      case ITestChar(c, target) =>
        if i < |s| && s[i] == c { p := p + 2; } else { p := target; }
      case ITestSet(cs, target) =>
        if i < |s| && s[i] in cs { p := p + 1 + CHARSET_INST_SIZE; } else { p := target; }
      case IBehind(n) =>
        if n > i { failed := true; } else { p, i := p + 1, i - n; }
      case ISpan(cs) =>
        i := RunSpan(cs, s, i);
        p := p + CHARSET_INST_SIZE;
      case IJmp(target) => p := target;
      case IChoice(target) =>
        stack := Entry(i, target, stack);
        p := p + 2;
      case ICommit(target) =>
        stack := stack.below;
        p := target;
      case IPartialCommit(target) =>
        stack := Entry(i, stack.pc, stack.below);
        p := target;
      case IBackCommit(target) =>
        i, stack := stack.pos, stack.below;
        p := target;
      case IFailTwice =>
        stack := stack.below;
        failed := true;
      case IFail => failed := true;
      case Data => assert false;
      }
      if failed {
        p, i, stack := stack.pc, stack.pos, stack.below;
      }
      left := left - 1;
    }
  }

  method RunSpan(cs: Charset, s: Subject, i: nat) returns (j: nat)
    requires i <= |s|
    ensures j == Span(cs, s, i)
  {
    j := i;
    while j < |s| && s[j] in cs
      invariant i <= j <= |s| && Span(cs, s, i) == Span(cs, s, j)
    {
      j := j + 1;
    }
  }

  /** Compiling a pattern and running the code gives what the pattern means. */
  method CompileAndMatch(p: Pattern, s: Subject, i: nat) returns (r: Option<nat>)
    requires WellFormed(p) && i <= |s|
    ensures r == Match(p, s, i)
  {
    var code := Compile(p);
    assert Reaches(code, s, Start(i), Done(Match(p, s, i)));
    ghost var n: nat :| Steps(code, s, Start(i), n) == Done(Match(p, s, i));
    r := RunMatch(code, s, i, n);
  }

  /** codechar, codecharset and the other one-instruction cases of codegen. */
  function LeafInstruction(p: Pattern, tt: Test): Instruction
    requires IsCharPattern(p) || p.False?
  {
    match p
    case Char(c) => if tt == TestChar(c) then IAny else IChar(c)
    case Set(cs) =>
      (match KindOf(cs)
       case EmptyKind => IFail
       case SingleKind(c) => if tt == TestChar(c) then IAny else IChar(c)
       case FullKind => IAny
       case SetKind => if tt == TestSet(cs) then IAny else ISet(cs))
    case Any => IAny
    case False => IFail
  }

  lemma GenLeaf(p: Pattern, opt: bool, tt: Test, fl: Charset, base: nat)
    requires IsCharPattern(p) || p.True? || p.False?
    ensures Gen(p, opt, tt, fl, base) == if p.True? then [] else Emit(LeafInstruction(p, tt))
  {
    hide GetFirst, HeadFail, CheckAux, FixedLenX;
  }
}
