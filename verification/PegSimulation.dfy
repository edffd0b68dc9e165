/**
  The generated code does on the machine what the pattern means: from every position and with
  every stack below it. The peephole pass is treated elsewhere.
 */
module PegSimulation {
  import opened Common
  import opened PegSemantics
  import opened PegAnalysis
  import opened PegMachine
  import opened PegCodegen

  /** The words `g` stand at address `base` of `code`. */
  predicate CodeAt(code: Code, base: nat, g: Code) {
    base + |g| <= |code| && code[base..base + |g|] == g
  }

  lemma CodeAtSplit(code: Code, base: nat, a: Code, b: Code)
    requires CodeAt(code, base, a + b)
    ensures CodeAt(code, base, a) && CodeAt(code, base + |a|, b)
  {
    assert a == (a + b)[..|a|] == code[base..base + |a + b|][..|a|];
    assert b == (a + b)[|a|..] == code[base..base + |a + b|][|a|..];
  }

  /** Instruction `inst` stands at address `pc`, with its data words. */
  predicate InstAt(code: Code, pc: nat, inst: Instruction) {
    && pc + Size(inst) <= |code|
    && code[pc] == inst
    && forall k :: pc < k < pc + Size(inst) ==> code[k] == Data
  }

  lemma CodeAtEmit(code: Code, base: nat, inst: Instruction)
    requires CodeAt(code, base, Emit(inst))
    ensures InstAt(code, base, inst)
  {
    forall k | 0 <= k < Size(inst) ensures code[base + k] == Emit(inst)[k] {
      assert code[base + k] == code[base..base + Size(inst)][k];
    }
    forall k | base < k < base + Size(inst) ensures code[k] == Data {
      assert code[base + (k - base)] == Emit(inst)[k - base];
    }
  }

  /** The guarding test, seen at the same position, has succeeded. */
  predicate TestHolds(tt: Test, s: Subject, i: nat) {
    match tt
    case NoTest => true
    case TestChar(c) => i < |s| && s[i] == c
    case TestSet(cs) => i < |s| && s[i] in cs
  }

  /**
    What code ending at address `end` makes of a pattern with result `r`, started with `stack`.

    A failure backtracks with the stack untouched. After a success the machine stands at the end
    of the code with the stack it had, except that
    - with a follow set, it may already have failed if the next character cannot follow;
    - inside an optional pattern (`opt`), it may have moved the position saved by the top entry,
      or may already have left through that entry with the position reached.
   */
  ghost predicate Outcome(code: Code, s: Subject, from: State, end: nat, r: Option<nat>,
                          opt: bool, fl: Charset, stack: Stack)
  {
    match r
    case None => Reaches(code, s, from, Fail(stack))
    case Some(j) =>
      if opt then
        && stack.Entry?
        && (|| Reaches(code, s, from, Run(stack.pc, j, stack.below))
            || exists x: nat :: Reaches(code, s, from, Run(end, j, Entry(x, stack.pc, stack.below))))
      else
        || Reaches(code, s, from, Run(end, j, stack))
        || (j < |s| && s[j] !in fl && Reaches(code, s, from, Fail(stack)))
  }

  lemma OutcomeFrom(code: Code, s: Subject, a: State, b: State, end: nat, r: Option<nat>,
                    opt: bool, fl: Charset, stack: Stack)
    requires Reaches(code, s, a, b) && Outcome(code, s, b, end, r, opt, fl, stack)
    ensures Outcome(code, s, a, end, r, opt, fl, stack)
  {
    if r.None? {
      ReachesTrans(code, s, a, b, Fail(stack));
    } else if opt {
      if Reaches(code, s, b, Run(stack.pc, r.value, stack.below)) {
        ReachesTrans(code, s, a, b, Run(stack.pc, r.value, stack.below));
      } else {
        var x: nat :| Reaches(code, s, b, Run(end, r.value, Entry(x, stack.pc, stack.below)));
        ReachesTrans(code, s, a, b, Run(end, r.value, Entry(x, stack.pc, stack.below)));
      }
    } else if Reaches(code, s, b, Run(end, r.value, stack)) {
      ReachesTrans(code, s, a, b, Run(end, r.value, stack));
    } else {
      ReachesTrans(code, s, a, b, Fail(stack));
    }
  }

  /** Reaching the end with the stack as it was is a good outcome whatever `opt` and `fl` are. */
  lemma OutcomeExact(code: Code, s: Subject, from: State, end: nat, j: nat,
                     opt: bool, fl: Charset, stack: Stack)
    requires Reaches(code, s, from, Run(end, j, stack))
    requires opt ==> stack.Entry?
    ensures Outcome(code, s, from, end, Some(j), opt, fl, stack)
  {
    if opt {
      assert stack == Entry(stack.pos, stack.pc, stack.below);
    }
  }

  /** One step to the end, or one step to failure. */
  lemma OutcomeStep(code: Code, s: Subject, from: State, end: nat, r: Option<nat>,
                    opt: bool, fl: Charset, stack: Stack)
    requires opt ==> stack.Entry?
    requires Step(code, s, from) == if r.Some? then Run(end, r.value, stack) else Fail(stack)
    ensures Outcome(code, s, from, end, r, opt, fl, stack)
  {
    ReachesStep(code, s, from);
    if r.Some? {
      OutcomeExact(code, s, from, end, r.value, opt, fl, stack);
    }
  }

  /** A test (or the absence of one) lets the machine go on at position `i`. */
  predicate Passes(f: First, s: Subject, i: nat) {
    f.acceptsEmpty || (i < |s| && s[i] in f.cs)
  }

  /** A test instruction goes on if the next character is in the set, and jumps otherwise. */
  lemma TestSim(code: Code, s: Subject, f: First, target: nat, base: nat, i: nat, stack: Stack)
    requires CodeAt(code, base, CodeTest(f, target))
    ensures Passes(f, s, i) ==>
              Reaches(code, s, Run(base, i, stack), Run(base + TestSize(f), i, stack))
    ensures Passes(f, s, i) ==> TestHolds(TestOf(f), s, i)
    ensures !Passes(f, s, i) ==> Reaches(code, s, Run(base, i, stack), Run(target, i, stack))
  {
    if f.acceptsEmpty {
      ReachesRefl(code, s, Run(base, i, stack));
    } else {
      CodeAtEmit(code, base, TestInstruction(f.cs, target));
      ReachesStep(code, s, Run(base, i, stack));
    }
  }

  /** Code that may be guarded by a test on the character it accepts. */
  lemma CharSim(cs: Charset, g: Code, tt: Test, opt: bool, fl: Charset, base: nat,
                code: Code, s: Subject, i: nat, stack: Stack)
    requires g == CodeCharset(cs, tt) || (exists c :: cs == {c} && g == CodeChar(c, tt))
             || (cs == FullSet && g == Emit(IAny))
    requires CodeAt(code, base, g) && i <= |s|
    requires TestHolds(tt, s, i) && (opt ==> stack.Entry?)
    ensures Outcome(code, s, Run(base, i, stack), base + |g|,
                    if i < |s| && s[i] in cs then Some(i + 1) else None, opt, fl, stack)
  {
    var inst := g[0];
    assert g == Emit(inst);
    CodeAtEmit(code, base, inst);
    OutcomeStep(code, s, Run(base, i, stack), base + |g|,
                if i < |s| && s[i] in cs then Some(i + 1) else None, opt, fl, stack);
  }

  /** A span stops where the repetition of its set stops. */
  lemma {:induction false} SpanIsRep(body: Pattern, s: Subject, i: nat)
    requires IsCharPattern(body) && i <= |s|
    ensures Match(Rep(body), s, i) == Some(Span(ToCharset(body), s, i))
    decreases |s| - i
  {
    if i < |s| && s[i] in ToCharset(body) {
      assert Match(body, s, i) == Some(i + 1);
      SpanIsRep(body, s, i + 1);
    } else {
      assert Match(body, s, i) == None;
    }
  }

  // ----- where the parts of a shape stand -----

  lemma TestChoiceLayout(code: Code, f: First, base: nat, emptyp2: bool, code1: Code, code2: Code)
    requires CodeAt(code, base, TestChoiceShape(f, base, emptyp2, code1, code2))
    ensures var end1 := base + TestSize(f) + |code1|;
            var l1 := end1 + (if emptyp2 then 0 else 2);
            && base + |TestChoiceShape(f, base, emptyp2, code1, code2)| == l1 + |code2|
            && CodeAt(code, base, CodeTest(f, l1))
            && CodeAt(code, base + TestSize(f), code1) && CodeAt(code, l1, code2)
            && (!emptyp2 ==> InstAt(code, end1, IJmp(l1 + |code2|)))
  {
    hide CodeAt, CodeTest, Emit, TestInstruction;
    var end1 := base + TestSize(f) + |code1|;
    var l1 := end1 + (if emptyp2 then 0 else 2);
    var test, jmp := CodeTest(f, l1), if emptyp2 then [] else Emit(IJmp(l1 + |code2|));
    CodeAtSplit(code, base, test + code1 + jmp, code2);
    CodeAtSplit(code, base, test + code1, jmp);
    CodeAtSplit(code, base, test, code1);
    if !emptyp2 {
      CodeAtEmit(code, end1, IJmp(l1 + |code2|));
    }
  }

  lemma ReuseChoiceLayout(code: Code, base: nat, code1: Code)
    requires CodeAt(code, base, ReuseChoiceShape(base, code1))
    ensures |ReuseChoiceShape(base, code1)| == 2 + |code1|
    ensures InstAt(code, base, IPartialCommit(base + 2))
    ensures CodeAt(code, base + 2, code1)
  {
    hide CodeAt, CodeTest, Emit, TestInstruction;
    CodeAtSplit(code, base, Emit(IPartialCommit(base + 2)), code1);
    CodeAtEmit(code, base, IPartialCommit(base + 2));
  }

  lemma StackChoiceLayout(code: Code, f: First, base: nat, code1: Code, code2: Code)
    requires CodeAt(code, base, StackChoiceShape(f, base, code1, code2))
    ensures var mid := base + TestSize(f);
            var l1 := mid + 2 + |code1| + 2;
            && base + |StackChoiceShape(f, base, code1, code2)| == l1 + |code2| <= |code|
            && CodeAt(code, base, CodeTest(f, l1))
            && CodeAt(code, mid + 2, code1) && CodeAt(code, l1, code2)
            && InstAt(code, mid, IChoice(l1)) && InstAt(code, l1 - 2, ICommit(l1 + |code2|))
  {
    hide CodeAt, CodeTest, Emit, TestInstruction;
    var mid := base + TestSize(f);
    var l1 := mid + 2 + |code1| + 2;
    var test, choice, commit := CodeTest(f, l1), Emit(IChoice(l1)), Emit(ICommit(l1 + |code2|));
    CodeAtSplit(code, base, test + choice + code1 + commit, code2);
    CodeAtSplit(code, base, test + choice + code1, commit);
    CodeAtSplit(code, base, test + choice, code1);
    CodeAtSplit(code, base, test, choice);
    CodeAtEmit(code, mid, IChoice(l1));
    CodeAtEmit(code, l1 - 2, ICommit(l1 + |code2|));
  }

  lemma TestRepLayout(code: Code, f: First, base: nat, code1: Code)
    requires CodeAt(code, base, TestRepShape(f, base, code1))
    ensures var l2 := base + TestSize(f) + |code1| + 2;
            && base + |TestRepShape(f, base, code1)| == l2 <= |code|
            && CodeAt(code, base, CodeTest(f, l2)) && CodeAt(code, base + TestSize(f), code1)
            && InstAt(code, l2 - 2, IJmp(base))
  {
    hide CodeAt, CodeTest, Emit, TestInstruction;
    var l2 := base + TestSize(f) + |code1| + 2;
    CodeAtSplit(code, base, CodeTest(f, l2) + code1, Emit(IJmp(base)));
    CodeAtSplit(code, base, CodeTest(f, l2), code1);
    CodeAtEmit(code, l2 - 2, IJmp(base));
  }

  lemma StackRepLayout(code: Code, f: First, base: nat, opt: bool, code1: Code)
    requires CodeAt(code, base, StackRepShape(f, base, opt, code1))
    ensures var l1 := base + TestSize(f) + 2;
            var l2 := l1 + |code1| + 2;
            && base + |StackRepShape(f, base, opt, code1)| == l2 <= |code|
            && CodeAt(code, base, CodeTest(f, l2)) && CodeAt(code, l1, code1)
            && InstAt(code, l1 - 2, if opt then IPartialCommit(l1) else IChoice(l2))
            && InstAt(code, l2 - 2, IPartialCommit(l1))
  {
    hide CodeAt, CodeTest, Emit, TestInstruction;
    var l1 := base + TestSize(f) + 2;
    var l2 := l1 + |code1| + 2;
    var enter := if opt then IPartialCommit(l1) else IChoice(l2);
    var test := CodeTest(f, l2);
    CodeAtSplit(code, base, test + Emit(enter) + code1, Emit(IPartialCommit(l1)));
    CodeAtSplit(code, base, test + Emit(enter), code1);
    CodeAtSplit(code, base, test, Emit(enter));
    CodeAtEmit(code, l1 - 2, enter);
    CodeAtEmit(code, l2 - 2, IPartialCommit(l1));
  }

  lemma TestNotLayout(code: Code, f: First, base: nat)
    requires CodeAt(code, base, TestNotShape(f, base))
    ensures var mid := base + TestSize(f);
            && |TestNotShape(f, base)| == TestSize(f) + 1
            && CodeAt(code, base, CodeTest(f, mid + 1))
            && InstAt(code, mid, IFail)
  {
    hide CodeAt, CodeTest, Emit, TestInstruction;
    var mid := base + TestSize(f);
    CodeAtSplit(code, base, CodeTest(f, mid + 1), Emit(IFail));
    CodeAtEmit(code, mid, IFail);
  }

  lemma StackNotLayout(code: Code, f: First, base: nat, code1: Code)
    requires CodeAt(code, base, StackNotShape(f, base, code1))
    ensures var mid := base + TestSize(f);
            var l1 := mid + 2 + |code1| + 1;
            && base + |StackNotShape(f, base, code1)| == l1 <= |code|
            && CodeAt(code, base, CodeTest(f, l1)) && CodeAt(code, mid + 2, code1)
            && InstAt(code, mid, IChoice(l1)) && InstAt(code, l1 - 1, IFailTwice)
  {
    hide CodeAt, CodeTest, Emit, TestInstruction;
    var mid := base + TestSize(f);
    var l1 := mid + 2 + |code1| + 1;
    var test, choice, twice := CodeTest(f, l1), Emit(IChoice(l1)), Emit(IFailTwice);
    CodeAtSplit(code, base, test + choice + code1, twice);
    CodeAtSplit(code, base, test + choice, code1);
    CodeAtSplit(code, base, test, choice);
    CodeAtEmit(code, mid, IChoice(l1));
    CodeAtEmit(code, l1 - 1, IFailTwice);
  }

  lemma FixedAndLayout(code: Code, base: nat, n: nat, code1: Code)
    requires CodeAt(code, base, FixedAndShape(n, code1))
    ensures |FixedAndShape(n, code1)| == |code1| + (if n > 0 then 1 else 0)
    ensures CodeAt(code, base, code1)
    ensures n > 0 ==> InstAt(code, base + |code1|, IBehind(n))
  {
    hide CodeAt, CodeTest, Emit, TestInstruction;
    CodeAtSplit(code, base, code1, if n > 0 then Emit(IBehind(n)) else []);
    if n > 0 {
      CodeAtEmit(code, base + |code1|, IBehind(n));
    }
  }

  lemma StackAndLayout(code: Code, base: nat, code1: Code)
    requires CodeAt(code, base, StackAndShape(base, code1))
    ensures var l1 := base + 2 + |code1| + 2;
            && base + |StackAndShape(base, code1)| == l1 + 1 <= |code|
            && CodeAt(code, base + 2, code1) && InstAt(code, base, IChoice(l1))
            && InstAt(code, l1 - 2, IBackCommit(l1 + 1)) && InstAt(code, l1, IFail)
  {
    hide CodeAt, CodeTest, Emit, TestInstruction;
    var l1 := base + 2 + |code1| + 2;
    var choice, commit, fail := Emit(IChoice(l1)), Emit(IBackCommit(l1 + 1)), Emit(IFail);
    CodeAtSplit(code, base, choice + code1 + commit, fail);
    CodeAtSplit(code, base, choice + code1, commit);
    CodeAtSplit(code, base, choice, code1);
    CodeAtEmit(code, base, IChoice(l1));
    CodeAtEmit(code, l1 - 2, IBackCommit(l1 + 1));
    CodeAtEmit(code, l1, IFail);
  }

  lemma BehindLayout(code: Code, base: nat, n: nat, code1: Code)
    requires CodeAt(code, base, BehindShape(n, code1))
    ensures |BehindShape(n, code1)| == |code1| + (if n > 0 then 1 else 0)
    ensures CodeAt(code, base + (if n > 0 then 1 else 0), code1)
    ensures n > 0 ==> InstAt(code, base, IBehind(n))
  {
    hide CodeAt, CodeTest, Emit, TestInstruction;
    CodeAtSplit(code, base, if n > 0 then Emit(IBehind(n)) else [], code1);
    if n > 0 {
      CodeAtEmit(code, base, IBehind(n));
    }
  }

  // ----- what a shape does, given what its parts do -----

  /** test -> L1; fail; L1: where the test alone tells whether the body matches. */
  lemma TestNotRun(code: Code, s: Subject, f: First, base: nat, i: nat, stack: Stack,
                     opt: bool, fl: Charset)
    requires CodeAt(code, base, CodeTest(f, base + TestSize(f) + 1)) && !f.acceptsEmpty
    requires InstAt(code, base + TestSize(f), IFail)
    requires opt ==> stack.Entry?
    ensures Outcome(code, s, Run(base, i, stack), base + TestSize(f) + 1,
                    if i < |s| && s[i] in f.cs then None else Some(i), opt, fl, stack)
  {
    var start, mid := Run(base, i, stack), base + TestSize(f);
    TestSim(code, s, f, mid + 1, base, i, stack);
    if i < |s| && s[i] in f.cs {
      ReachesStep(code, s, Run(mid, i, stack));
      ReachesTrans(code, s, start, Run(mid, i, stack), Fail(stack));
    } else {
      OutcomeExact(code, s, start, mid + 1, i, opt, fl, stack);
    }
  }

  /** test -> L1; choice L1; p; failtwice; L1: */
  lemma StackNotRun(code: Code, s: Subject, f: First, base: nat, l1: nat, i: nat, stack: Stack,
                      r: Option<nat>, opt: bool, fl: Charset)
    requires CodeAt(code, base, CodeTest(f, l1))
    requires base + TestSize(f) + 2 < l1 <= |code|
    requires InstAt(code, base + TestSize(f), IChoice(l1)) && InstAt(code, l1 - 1, IFailTwice)
    requires Passes(f, s, i) ==>
               Outcome(code, s, Run(base + TestSize(f) + 2, i, Entry(i, l1, stack)), l1 - 1, r,
                       false, FullSet, Entry(i, l1, stack))
    requires !Passes(f, s, i) ==> r.None?
    requires opt ==> stack.Entry?
    ensures Outcome(code, s, Run(base, i, stack), l1, if r.Some? then None else Some(i), opt, fl, stack)
  {
    var start, mid, inner := Run(base, i, stack), base + TestSize(f), Entry(i, l1, stack);
    TestSim(code, s, f, l1, base, i, stack);
    if Passes(f, s, i) {
      ReachesStep(code, s, Run(mid, i, stack));
      ReachesTrans(code, s, start, Run(mid, i, stack), Run(mid + 2, i, inner));
      if r.Some? {
        ReachesTrans(code, s, start, Run(mid + 2, i, inner), Run(l1 - 1, r.value, inner));
        ReachesStep(code, s, Run(l1 - 1, r.value, inner));
        ReachesTrans(code, s, start, Run(l1 - 1, r.value, inner), Fail(stack));
      } else {
        ReachesTrans(code, s, start, Run(mid + 2, i, inner), Run(l1, i, stack));
      }
    }
    if r.None? {
      OutcomeExact(code, s, start, l1, i, opt, fl, stack);
    }
  }

  /** choice L1; p; backcommit L2; L1: fail; L2: */
  lemma StackAndRun(code: Code, s: Subject, base: nat, l1: nat, i: nat, stack: Stack,
                      r: Option<nat>, opt: bool, fl: Charset)
    requires base + 4 <= l1 < |code|
    requires InstAt(code, base, IChoice(l1)) && InstAt(code, l1 - 2, IBackCommit(l1 + 1)) && InstAt(code, l1, IFail)
    requires Outcome(code, s, Run(base + 2, i, Entry(i, l1, stack)), l1 - 2, r,
                     false, FullSet, Entry(i, l1, stack))
    requires opt ==> stack.Entry?
    ensures Outcome(code, s, Run(base, i, stack), l1 + 1, if r.Some? then Some(i) else None, opt, fl, stack)
  {
    var start, inner := Run(base, i, stack), Entry(i, l1, stack);
    ReachesStep(code, s, start);
    if r.Some? {
      ReachesTrans(code, s, start, Run(base + 2, i, inner), Run(l1 - 2, r.value, inner));
      ReachesStep(code, s, Run(l1 - 2, r.value, inner));
      ReachesTrans(code, s, start, Run(l1 - 2, r.value, inner), Run(l1 + 1, i, stack));
      OutcomeExact(code, s, start, l1 + 1, i, opt, fl, stack);
    } else {
      ReachesTrans(code, s, start, Run(base + 2, i, inner), Run(l1, i, stack));
      ReachesStep(code, s, Run(l1, i, stack));
      ReachesTrans(code, s, start, Run(l1, i, stack), Fail(stack));
    }
  }

  /** Choice decided by one test on the next character: test -> L1; p1; jmp L2; L1: p2; L2: */
  lemma TestChoiceRun(code: Code, s: Subject, f: First, base: nat, end1: nat, l1: nat, l2: nat,
                        i: nat, stack: Stack, r1: Option<nat>, r2: Option<nat>, opt: bool, fl: Charset)
    requires CodeAt(code, base, CodeTest(f, l1)) && !f.acceptsEmpty
    requires end1 == l1 == l2 || InstAt(code, end1, IJmp(l2))
    requires Passes(f, s, i) ==>
               Outcome(code, s, Run(base + TestSize(f), i, stack), end1, r1, false, fl, stack)
    requires !Passes(f, s, i) ==>
               r1.None? && Outcome(code, s, Run(l1, i, stack), l2, r2, opt, fl, stack)
    // a character that passes cannot start p2, unless p2 is empty and the character cannot follow
    requires Passes(f, s, i) && r1.None? && r2.Some? ==> i < |s| && r2.value == i && s[i] !in fl
    requires opt ==> fl == FullSet && stack.Entry?
    ensures Outcome(code, s, Run(base, i, stack), l2, if r1.Some? then r1 else r2, opt, fl, stack)
  {
    var start, mid := Run(base, i, stack), base + TestSize(f);
    TestSim(code, s, f, l1, base, i, stack);
    if Passes(f, s, i) {
      OutcomeFrom(code, s, start, Run(mid, i, stack), end1, r1, false, fl, stack);
      if r1.Some? && Reaches(code, s, start, Run(end1, r1.value, stack)) {
        if end1 != l2 {
          ReachesStep(code, s, Run(end1, r1.value, stack));
          ReachesTrans(code, s, start, Run(end1, r1.value, stack), Run(l2, r1.value, stack));
        }
        OutcomeExact(code, s, start, l2, r1.value, opt, fl, stack);
      }
    } else {
      OutcomeFrom(code, s, start, Run(l1, i, stack), l2, r2, opt, fl, stack);
    }
  }

  /** partialcommit L; L: p1 */
  lemma ReuseChoiceRun(code: Code, s: Subject, base: nat, end: nat, i: nat, stack: Stack, r: Option<nat>)
    requires stack.Entry? && InstAt(code, base, IPartialCommit(base + 2))
    requires Outcome(code, s, Run(base + 2, i, Entry(i, stack.pc, stack.below)), end, r,
                     true, FullSet, Entry(i, stack.pc, stack.below))
    ensures Outcome(code, s, Run(base, i, stack), end, if r.Some? then r else Some(i), true, FullSet, stack)
  {
    var inner := Entry(i, stack.pc, stack.below);
    ReachesStep(code, s, Run(base, i, stack));
    OutcomeFrom(code, s, Run(base, i, stack), Run(base + 2, i, inner), end, r, true, FullSet, inner);
  }

  /** Choice with an entry on the stack: test -> L1; choice L1; p1; commit L2; L1: p2; L2: */
  lemma StackChoiceRun(code: Code, s: Subject, f: First, base: nat, l1: nat, l2: nat,
                         i: nat, stack: Stack, opt1: bool, r1: Option<nat>, r2: Option<nat>,
                         opt: bool, fl: Charset)
    requires CodeAt(code, base, CodeTest(f, l1))
    requires base + TestSize(f) + 4 <= l1 <= l2 <= |code|
    requires InstAt(code, base + TestSize(f), IChoice(l1)) && InstAt(code, l1 - 2, ICommit(l2))
    requires Passes(f, s, i) ==>
               Outcome(code, s, Run(base + TestSize(f) + 2, i, Entry(i, l1, stack)), l1 - 2, r1,
                       opt1, FullSet, Entry(i, l1, stack))
    requires !Passes(f, s, i) ==> r1.None?
    requires opt1 ==> l1 == l2
    requires r1.None? ==> Outcome(code, s, Run(l1, i, stack), l2, r2, opt, fl, stack)
    requires opt ==> stack.Entry?
    ensures Outcome(code, s, Run(base, i, stack), l2, if r1.Some? then r1 else r2, opt, fl, stack)
  {
    var start, mid, inner := Run(base, i, stack), base + TestSize(f), Entry(i, l1, stack);
    TestSim(code, s, f, l1, base, i, stack);
    if Passes(f, s, i) {
      ReachesStep(code, s, Run(mid, i, stack));
      ReachesTrans(code, s, start, Run(mid, i, stack), Run(mid + 2, i, inner));
      OutcomeFrom(code, s, start, Run(mid + 2, i, inner), l1 - 2, r1, opt1, FullSet, inner);
      if r1.Some? {
        var j := r1.value;
        if !opt1 || !Reaches(code, s, start, Run(l1, j, stack)) {
          var x: nat :| Reaches(code, s, start, Run(l1 - 2, j, Entry(x, l1, stack)));
          ReachesStep(code, s, Run(l1 - 2, j, Entry(x, l1, stack)));
          ReachesTrans(code, s, start, Run(l1 - 2, j, Entry(x, l1, stack)), Run(l2, j, stack));
        }
        OutcomeExact(code, s, start, l2, j, opt, fl, stack);
      }
    }
    if r1.None? {
      OutcomeFrom(code, s, start, Run(l1, i, stack), l2, r2, opt, fl, stack);
    }
  }

  /** Repetition left by a test on the next character: L1: test -> L2; p; jmp L1; L2: */
  lemma TestRepRun(code: Code, s: Subject, f: First, base: nat, l2: nat, i: nat, stack: Stack,
                     r: Option<nat>, rest: nat, opt: bool, fl: Charset)
    requires CodeAt(code, base, CodeTest(f, l2)) && !f.acceptsEmpty
    requires base + TestSize(f) + 2 <= l2 <= |code| && InstAt(code, l2 - 2, IJmp(base))
    requires Passes(f, s, i) ==>
               Outcome(code, s, Run(base + TestSize(f), i, stack), l2 - 2, r, false, FullSet, stack)
    requires !Passes(f, s, i) ==> r.None?
    requires r.Some? ==> Outcome(code, s, Run(base, r.value, stack), l2, Some(rest), opt, fl, stack)
    // a body that fails after its test has passed stands before a character that cannot follow
    requires r.None? ==> rest == i && (Passes(f, s, i) ==> i < |s| && s[i] !in fl)
    requires opt ==> fl == FullSet && stack.Entry?
    ensures Outcome(code, s, Run(base, i, stack), l2, Some(rest), opt, fl, stack)
  {
    var start, mid := Run(base, i, stack), base + TestSize(f);
    TestSim(code, s, f, l2, base, i, stack);
    if Passes(f, s, i) {
      OutcomeFrom(code, s, start, Run(mid, i, stack), l2 - 2, r, false, FullSet, stack);
      if r.Some? {
        ReachesStep(code, s, Run(l2 - 2, r.value, stack));
        ReachesTrans(code, s, start, Run(l2 - 2, r.value, stack), Run(base, r.value, stack));
        OutcomeFrom(code, s, start, Run(base, r.value, stack), l2, Some(rest), opt, fl, stack);
      }
    } else {
      OutcomeExact(code, s, start, l2, i, opt, fl, stack);
    }
  }

  /** The test that decides a choice fails only where the first alternative fails. */
  lemma ChoiceFirstFails(p1: Pattern, p2: Pattern, fl: Charset, s: Subject, i: nat)
    requires WellFormed(p1) && i <= |s| && TestDecides(p1, p2, fl)
    requires !(i < |s| && s[i] in GetFirst(p1, FullSet).cs)
    ensures Match(p1, s, i).None?
  {
    if HeadFail(p1) {
      HeadFailSound(p1, s, i);
    } else {
      FirstSound(p1, FullSet, s, i);
    }
  }

  /** A repetition of a body that is not nullable: one round and then the rest, or nothing. */
  lemma RepMatches(p: Pattern, s: Subject, i: nat)
    requires p.Rep? && WellFormed(p) && i <= |s|
    ensures Match(p, s, i).Some?
    ensures var r := Match(p.body, s, i);
            if r.Some? then r.value > i && Match(p, s, i) == Match(p, s, r.value)
            else Match(p, s, i) == Some(i)
  {
    NoFailSound(p, s, i);
    NullableSound(p.body, s, i);
  }

  /** behind n; p */
  lemma BehindRun(code: Code, s: Subject, base: nat, n: nat, end: nat, i: nat, stack: Stack,
                  r: Option<nat>, opt: bool, fl: Charset)
    requires n > 0 ==> InstAt(code, base, IBehind(n))
    requires n <= i ==>
               Outcome(code, s, Run(base + (if n > 0 then 1 else 0), i - n, stack), end, r,
                       false, FullSet, stack)
    requires n > i ==> r.None?
    requires opt ==> stack.Entry?
    ensures Outcome(code, s, Run(base, i, stack), end, r, opt, fl, stack)
  {
    var start := Run(base, i, stack);
    if n > 0 {
      ReachesStep(code, s, start);
    } else {
      ReachesRefl(code, s, start);
    }
    if n <= i {
      OutcomeFrom(code, s, start, Run(base + (if n > 0 then 1 else 0), i - n, stack), end, r, false, FullSet, stack);
      if r.Some? {
        OutcomeExact(code, s, start, end, r.value, opt, fl, stack);
      }
    }
  }

  /** p; behind n, where p consumes exactly n characters */
  lemma FixedAndRun(code: Code, s: Subject, base: nat, n: nat, end1: nat, i: nat, stack: Stack,
                    r: Option<nat>, opt: bool, fl: Charset)
    requires n > 0 ==> InstAt(code, end1, IBehind(n))
    requires Outcome(code, s, Run(base, i, stack), end1, r, false, FullSet, stack)
    requires r.Some? ==> r.value == i + n
    requires opt ==> stack.Entry?
    ensures Outcome(code, s, Run(base, i, stack), end1 + (if n > 0 then 1 else 0),
                    if r.Some? then Some(i) else None, opt, fl, stack)
  {
    var start := Run(base, i, stack);
    if r.Some? {
      if n > 0 {
        ReachesStep(code, s, Run(end1, i + n, stack));
        ReachesTrans(code, s, start, Run(end1, i + n, stack), Run(end1 + 1, i, stack));
      }
      OutcomeExact(code, s, start, end1 + (if n > 0 then 1 else 0), i, opt, fl, stack);
    }
  }

  /** p1; p2 */
  lemma SeqRun(code: Code, s: Subject, base: nat, mid: nat, end: nat, i: nat, stack: Stack,
               r1: Option<nat>, r2: Option<nat>, opt: bool, fl1: Charset, fl: Charset)
    requires Outcome(code, s, Run(base, i, stack), mid, r1, false, fl1, stack)
    requires r1.Some? ==> Outcome(code, s, Run(mid, r1.value, stack), end, r2, opt, fl, stack)
    requires r1.None? ==> r2.None?
    // where p1 may have failed early, p2 fails or is empty before a character that cannot follow
    requires r1.Some? && r1.value < |s| && s[r1.value] !in fl1 && r2.Some? ==>
               r2.value == r1.value && s[r1.value] !in fl
    requires opt ==> fl == FullSet && stack.Entry?
    ensures Outcome(code, s, Run(base, i, stack), end, r2, opt, fl, stack)
  {
    if r1.Some? && Reaches(code, s, Run(base, i, stack), Run(mid, r1.value, stack)) {
      OutcomeFrom(code, s, Run(base, i, stack), Run(mid, r1.value, stack), end, r2, opt, fl, stack);
    }
  }

  /** test -> L2; enter; L1: p; partialcommit L1; L2: where the loop from L1 ends at position j */
  lemma StackRepRun(code: Code, s: Subject, f: First, base: nat, l2: nat, i: nat, stack: Stack,
                    j: nat, opt: bool, fl: Charset)
    requires CodeAt(code, base, CodeTest(f, l2))
    requires base + TestSize(f) < |code|
    requires var l1 := base + TestSize(f) + 2;
            InstAt(code, l1 - 2, if opt then IPartialCommit(l1) else IChoice(l2))
    requires opt ==> stack.Entry?
    requires var inner := if opt then Entry(i, stack.pc, stack.below) else Entry(i, l2, stack);
             if Passes(f, s, i) then
               Reaches(code, s, Run(base + TestSize(f) + 2, i, inner), Run(inner.pc, j, inner.below))
             else j == i
    ensures Outcome(code, s, Run(base, i, stack), l2, Some(j), opt, fl, stack)
  {
    var start, l1 := Run(base, i, stack), base + TestSize(f) + 2;
    TestSim(code, s, f, l2, base, i, stack);
    if Passes(f, s, i) {
      var inner := if opt then Entry(i, stack.pc, stack.below) else Entry(i, l2, stack);
      ReachesStep(code, s, Run(l1 - 2, i, stack));
      ReachesTrans(code, s, start, Run(l1 - 2, i, stack), Run(l1, i, inner));
      ReachesTrans(code, s, start, Run(l1, i, inner), Run(inner.pc, j, inner.below));
    } else {
      OutcomeExact(code, s, start, l2, i, opt, fl, stack);
    }
  }

  // ----- the shape of each kind of pattern -----

  lemma GenSeq(p: Pattern, opt: bool, tt: Test, fl: Charset, base: nat)
    requires p.Seq?
    ensures var code1 := Gen(p.first, false, tt, SeqFollow(p.first, p.second, fl), base);
            Gen(p, opt, tt, fl, base) ==
            code1 + Gen(p.second, opt, SeqTest(p.first, tt), fl, base + |code1|)
  {
    hide GetFirst, HeadFail, CheckAux, FixedLenX, KindOf, Emit, CodeTest, TestInstruction, TestOf, TestSize;
  }

  lemma GenBehind(p: Pattern, opt: bool, tt: Test, fl: Charset, base: nat)
    requires p.Behind?
    ensures Gen(p, opt, tt, fl, base) ==
            BehindShape(p.n, Gen(p.body, false, NoTest, FullSet, base + (if p.n > 0 then 1 else 0)))
  {
    hide GetFirst, HeadFail, CheckAux, FixedLenX, KindOf, Emit, CodeTest, TestInstruction, TestOf, TestSize;
  }

  lemma GenNot(p: Pattern, opt: bool, tt: Test, fl: Charset, base: nat)
    requires p.Not?
    ensures var f := GetFirst(p.body, FullSet);
            Gen(p, opt, tt, fl, base) ==
            if HeadFail(p.body) then TestNotShape(f, base)
            else StackNotShape(f, base, Gen(p.body, false, NoTest, FullSet, base + TestSize(f) + 2))
  {
    hide TestNotShape, StackNotShape, GetFirst, HeadFail, CheckAux, FixedLenX, KindOf, Emit, CodeTest, TestInstruction, TestOf, TestSize;
  }

  lemma GenAnd(p: Pattern, opt: bool, tt: Test, fl: Charset, base: nat)
    requires p.And?
    ensures var n := FixedLen(p.body);
            Gen(p, opt, tt, fl, base) ==
            if 0 <= n <= MAX_BEHIND then FixedAndShape(n, Gen(p.body, false, tt, FullSet, base))
            else StackAndShape(base, Gen(p.body, false, tt, FullSet, base + 2))
  {
    hide FixedAndShape, StackAndShape, GetFirst, HeadFail, CheckAux, FixedLenX, KindOf, Emit, CodeTest, TestInstruction, TestOf, TestSize;
  }

  lemma GenTestChoice(p: Pattern, opt: bool, tt: Test, fl: Charset, base: nat)
    requires p.Choice? && TestDecides(p.first, p.second, fl)
    ensures var f := First(false, GetFirst(p.first, FullSet).cs);
            var code1 := Gen(p.first, false, TestOf(f), fl, base + TestSize(f));
            var l1 := base + TestSize(f) + |code1| + (if p.second.True? then 0 else 2);
            var code2 := Gen(p.second, opt, NoTest, fl, l1);
            && Gen(p, opt, tt, fl, base) == TestChoiceShape(f, base, p.second.True?, code1, code2)
            && (p.second.True? ==> |code2| == 0)
  {
    hide TestChoiceShape, GetFirst, HeadFail, CheckAux, FixedLenX, KindOf, Emit, CodeTest, TestInstruction, TestOf, TestSize;
  }

  lemma GenStackChoice(p: Pattern, opt: bool, tt: Test, fl: Charset, base: nat)
    requires p.Choice? && !TestDecides(p.first, p.second, fl) && !(opt && p.second.True?)
    ensures var f := GetFirst(p.first, FullSet);
            var code1 := Gen(p.first, p.second.True?, TestOf(f), FullSet, base + TestSize(f) + 2);
            var code2 := Gen(p.second, opt, NoTest, fl, base + TestSize(f) + 2 + |code1| + 2);
            && Gen(p, opt, tt, fl, base) == StackChoiceShape(f, base, code1, code2)
            && (p.second.True? ==> |code2| == 0)
  {
    hide StackChoiceShape, GetFirst, HeadFail, CheckAux, FixedLenX, KindOf, Emit, CodeTest, TestInstruction, TestOf, TestSize;
  }

  lemma GenReuseChoice(p: Pattern, tt: Test, fl: Charset, base: nat)
    requires p.Choice? && p.second.True? && !TestDecides(p.first, p.second, fl)
    ensures Gen(p, true, tt, fl, base) ==
            ReuseChoiceShape(base, Gen(p.first, true, NoTest, FullSet, base + 2))
  {
    hide GetFirst, HeadFail, CheckAux, FixedLenX, KindOf, Emit, CodeTest, TestInstruction, TestOf, TestSize;
  }

  lemma GenSpan(p: Pattern, opt: bool, tt: Test, fl: Charset, base: nat)
    requires p.Rep? && IsCharPattern(p.body)
    ensures Gen(p, opt, tt, fl, base) == Emit(ISpan(ToCharset(p.body)))
  {
    hide GetFirst, HeadFail, CheckAux, FixedLenX, KindOf, Emit, CodeTest, TestInstruction, TestOf, TestSize;
  }

  lemma GenTestRep(p: Pattern, opt: bool, tt: Test, fl: Charset, base: nat)
    requires p.Rep? && !IsCharPattern(p.body) && TestLeaves(p.body, fl)
    ensures var f := First(false, GetFirst(p.body, FullSet).cs);
            Gen(p, opt, tt, fl, base) ==
            TestRepShape(f, base, Gen(p.body, false, TestOf(f), FullSet, base + TestSize(f)))
  {
    hide TestRepShape, GetFirst, HeadFail, CheckAux, FixedLenX, KindOf, Emit, CodeTest, TestInstruction, TestOf, TestSize;
  }

  lemma GenStackRep(p: Pattern, opt: bool, tt: Test, fl: Charset, base: nat)
    requires p.Rep? && !IsCharPattern(p.body) && !TestLeaves(p.body, fl)
    ensures var f := GetFirst(p.body, FullSet);
            Gen(p, opt, tt, fl, base) ==
            StackRepShape(f, base, opt, Gen(p.body, false, NoTest, FullSet, base + TestSize(f) + 2))
  {
    hide StackRepShape, GetFirst, HeadFail, CheckAux, FixedLenX, KindOf, Emit, CodeTest, TestInstruction, TestOf, TestSize;
  }

  // ----- the main induction -----

  /** Everything the main induction asks of its inputs. */
  ghost predicate Ready(p: Pattern, opt: bool, tt: Test, fl: Charset, s: Subject, i: nat, stack: Stack)
  {
    && WellFormed(p)
    && i <= |s|
    && TestHolds(tt, s, i)
    && (opt ==> fl == FullSet && stack.Entry?)
  }

  /** The code of a pattern simulates the pattern, from every position and over every stack. */
  lemma {:induction false} Simulation(p: Pattern, opt: bool, tt: Test, fl: Charset, base: nat,
                                      code: Code, s: Subject, i: nat, stack: Stack)
    requires Ready(p, opt, tt, fl, s, i, stack)
    requires CodeAt(code, base, Gen(p, opt, tt, fl, base))
    ensures Outcome(code, s, Run(base, i, stack), base + |Gen(p, opt, tt, fl, base)|,
                    Match(p, s, i), opt, fl, stack)
    decreases p, 2, 0
  {
    hide CodeAt, InstAt, Outcome, Gen, Match;
    match p
    case Choice(_, _) =>
      if TestDecides(p.first, p.second, fl) {
        TestChoiceSim(p, opt, tt, fl, base, code, s, i, stack);
      } else if opt && p.second.True? {
        ReuseChoiceSim(p, tt, base, code, s, i, stack);
      } else {
        StackChoiceSim(p, opt, tt, fl, base, code, s, i, stack);
      }
    case Rep(body) =>
      if IsCharPattern(body) {
        SpanSim(p, opt, tt, fl, base, code, s, i, stack);
      } else if TestLeaves(body, fl) {
        TestRepSim(p, opt, tt, fl, base, code, s, i, stack);
      } else {
        StackRepSim(p, opt, tt, fl, base, code, s, i, stack);
      }
    case Behind(_, _) => BehindSim(p, opt, tt, fl, base, code, s, i, stack);
    case Not(_) => NotSim(p, opt, tt, fl, base, code, s, i, stack);
    case And(_) => AndSim(p, opt, tt, fl, base, code, s, i, stack);
    case Seq(_, _) => SeqSim(p, opt, tt, fl, base, code, s, i, stack);
    case _ => LeafSim(p, opt, tt, fl, base, code, s, i, stack);
  }

  lemma LeafSim(p: Pattern, opt: bool, tt: Test, fl: Charset, base: nat,
                code: Code, s: Subject, i: nat, stack: Stack)
    requires IsCharPattern(p) || p.True? || p.False?
    requires Ready(p, opt, tt, fl, s, i, stack)
    requires CodeAt(code, base, Gen(p, opt, tt, fl, base))
    ensures Outcome(code, s, Run(base, i, stack), base + |Gen(p, opt, tt, fl, base)|,
                    Match(p, s, i), opt, fl, stack)
  {
    var start := Run(base, i, stack);
    if IsCharPattern(p) {
      CharSim(ToCharset(p), Gen(p, opt, tt, fl, base), tt, opt, fl, base, code, s, i, stack);
    } else if p.True? {
      ReachesRefl(code, s, start);
      OutcomeExact(code, s, start, base, i, opt, fl, stack);
    } else {
      CodeAtEmit(code, base, IFail);
      ReachesStep(code, s, start);
    }
  }

  lemma SeqSim(p: Pattern, opt: bool, tt: Test, fl: Charset, base: nat,
               code: Code, s: Subject, i: nat, stack: Stack)
    requires p.Seq? && Ready(p, opt, tt, fl, s, i, stack)
    requires CodeAt(code, base, Gen(p, opt, tt, fl, base))
    ensures Outcome(code, s, Run(base, i, stack), base + |Gen(p, opt, tt, fl, base)|,
                    Match(p, s, i), opt, fl, stack)
    decreases p, 0, 0
  {
    hide CodeAt, InstAt, Outcome, Gen;
    GenSeq(p, opt, tt, fl, base);
    var p1, p2 := p.first, p.second;
    var fl1, tt2 := SeqFollow(p1, p2, fl), SeqTest(p1, tt);
    var code1 := Gen(p1, false, tt, fl1, base);
    var mid := base + |code1|;
    var code2 := Gen(p2, opt, tt2, fl, mid);
    CodeAtSplit(code, base, code1, code2);
    Simulation(p1, false, tt, fl1, base, code, s, i, stack);
    var r1, r := Match(p1, s, i), Match(p, s, i);
    if r1.Some? {
      FixedLenSound(p1, s, i);
      Simulation(p2, opt, tt2, fl, mid, code, s, r1.value, stack);
      FirstSound(p2, fl, s, r1.value);
    }
    SeqRun(code, s, base, mid, mid + |code2|, i, stack, r1, r, opt, fl1, fl);
  }

  lemma BehindSim(p: Pattern, opt: bool, tt: Test, fl: Charset, base: nat,
                  code: Code, s: Subject, i: nat, stack: Stack)
    requires p.Behind? && Ready(p, opt, tt, fl, s, i, stack)
    requires CodeAt(code, base, Gen(p, opt, tt, fl, base))
    ensures Outcome(code, s, Run(base, i, stack), base + |Gen(p, opt, tt, fl, base)|,
                    Match(p, s, i), opt, fl, stack)
    decreases p, 0, 0
  {
    hide CodeAt, InstAt, Outcome, Gen, Emit, CodeTest, TestInstruction, TestOf;
    GenBehind(p, opt, tt, fl, base);
    var mid := base + (if p.n > 0 then 1 else 0);
    var code1 := Gen(p.body, false, NoTest, FullSet, mid);
    BehindLayout(code, base, p.n, code1);
    if p.n <= i {
      Simulation(p.body, false, NoTest, FullSet, mid, code, s, i - p.n, stack);
    }
    BehindRun(code, s, base, p.n, mid + |code1|, i, stack, Match(p, s, i), opt, fl);
  }

  lemma NotSim(p: Pattern, opt: bool, tt: Test, fl: Charset, base: nat,
               code: Code, s: Subject, i: nat, stack: Stack)
    requires p.Not? && Ready(p, opt, tt, fl, s, i, stack)
    requires CodeAt(code, base, Gen(p, opt, tt, fl, base))
    ensures Outcome(code, s, Run(base, i, stack), base + |Gen(p, opt, tt, fl, base)|,
                    Match(p, s, i), opt, fl, stack)
    decreases p, 0, 0
  {
    hide TestNotShape, StackNotShape, CodeAt, InstAt, Outcome, Gen, Emit, CodeTest, TestInstruction, TestOf;
    GenNot(p, opt, tt, fl, base);
    var f := GetFirst(p.body, FullSet);
    var mid := base + TestSize(f);
    if HeadFail(p.body) {
      TestNotLayout(code, f, base);
      HeadFailSound(p.body, s, i);
      TestNotRun(code, s, f, base, i, stack, opt, fl);
    } else {
      var code1 := Gen(p.body, false, NoTest, FullSet, mid + 2);
      var l1 := mid + 2 + |code1| + 1;
      StackNotLayout(code, f, base, code1);
      if Passes(f, s, i) {
        Simulation(p.body, false, NoTest, FullSet, mid + 2, code, s, i, Entry(i, l1, stack));
      } else {
        FirstSound(p.body, FullSet, s, i);
      }
      StackNotRun(code, s, f, base, l1, i, stack, Match(p.body, s, i), opt, fl);
    }
  }

  lemma AndSim(p: Pattern, opt: bool, tt: Test, fl: Charset, base: nat,
               code: Code, s: Subject, i: nat, stack: Stack)
    requires p.And? && Ready(p, opt, tt, fl, s, i, stack)
    requires CodeAt(code, base, Gen(p, opt, tt, fl, base))
    ensures Outcome(code, s, Run(base, i, stack), base + |Gen(p, opt, tt, fl, base)|,
                    Match(p, s, i), opt, fl, stack)
    decreases p, 0, 0
  {
    hide FixedAndShape, StackAndShape, CodeAt, InstAt, Outcome, Gen, Emit, CodeTest, TestInstruction, TestOf;
    GenAnd(p, opt, tt, fl, base);
    var n := FixedLen(p.body);
    if 0 <= n <= MAX_BEHIND {
      var code1 := Gen(p.body, false, tt, FullSet, base);
      FixedAndLayout(code, base, n, code1);
      Simulation(p.body, false, tt, FullSet, base, code, s, i, stack);
      FixedLenSound(p.body, s, i);
      FixedAndRun(code, s, base, n, base + |code1|, i, stack, Match(p.body, s, i), opt, fl);
    } else {
      var code1 := Gen(p.body, false, tt, FullSet, base + 2);
      var l1 := base + 2 + |code1| + 2;
      StackAndLayout(code, base, code1);
      Simulation(p.body, false, tt, FullSet, base + 2, code, s, i, Entry(i, l1, stack));
      StackAndRun(code, s, base, l1, i, stack, Match(p.body, s, i), opt, fl);
    }
  }

  lemma TestChoiceSim(p: Pattern, opt: bool, tt: Test, fl: Charset, base: nat,
                      code: Code, s: Subject, i: nat, stack: Stack)
    requires p.Choice? && TestDecides(p.first, p.second, fl)
    requires Ready(p, opt, tt, fl, s, i, stack)
    requires CodeAt(code, base, Gen(p, opt, tt, fl, base))
    ensures Outcome(code, s, Run(base, i, stack), base + |Gen(p, opt, tt, fl, base)|,
                    Match(p, s, i), opt, fl, stack)
    decreases p, 0, 0
  {
    hide TestChoiceShape, CodeAt, InstAt, Outcome, Gen, Emit, CodeTest, TestInstruction, TestOf;
    GenTestChoice(p, opt, tt, fl, base);
    var p1, p2 := p.first, p.second;
    var f := First(false, GetFirst(p1, FullSet).cs);
    var mid := base + TestSize(f);
    var code1 := Gen(p1, false, TestOf(f), fl, mid);
    var end1 := mid + |code1|;
    var l1 := end1 + (if p2.True? then 0 else 2);
    var code2 := Gen(p2, opt, NoTest, fl, l1);
    TestChoiceLayout(code, f, base, p2.True?, code1, code2);
    TestSim(code, s, f, l1, base, i, stack);
    if Passes(f, s, i) {
      Simulation(p1, false, TestOf(f), fl, mid, code, s, i, stack);
      if HeadFail(p1) {
        HeadFailSound(p1, s, i);
      } else {
        FirstSound(p2, fl, s, i);
      }
    } else {
      ChoiceFirstFails(p1, p2, fl, s, i);
      Simulation(p2, opt, NoTest, fl, l1, code, s, i, stack);
    }
    TestChoiceRun(code, s, f, base, end1, l1, l1 + |code2|, i, stack,
                  Match(p1, s, i), Match(p2, s, i), opt, fl);
  }

  lemma ReuseChoiceSim(p: Pattern, tt: Test, base: nat, code: Code, s: Subject, i: nat, stack: Stack)
    requires p.Choice? && p.second.True? && !TestDecides(p.first, p.second, FullSet)
    requires Ready(p, true, tt, FullSet, s, i, stack)
    requires CodeAt(code, base, Gen(p, true, tt, FullSet, base))
    ensures Outcome(code, s, Run(base, i, stack), base + |Gen(p, true, tt, FullSet, base)|,
                    Match(p, s, i), true, FullSet, stack)
    decreases p, 0, 0
  {
    hide CodeAt, InstAt, Outcome, Gen, Emit, CodeTest, TestInstruction, TestOf;
    GenReuseChoice(p, tt, FullSet, base);
    var code1 := Gen(p.first, true, NoTest, FullSet, base + 2);
    ReuseChoiceLayout(code, base, code1);
    Simulation(p.first, true, NoTest, FullSet, base + 2, code, s, i, Entry(i, stack.pc, stack.below));
    ReuseChoiceRun(code, s, base, base + 2 + |code1|, i, stack, Match(p.first, s, i));
  }

  lemma StackChoiceSim(p: Pattern, opt: bool, tt: Test, fl: Charset, base: nat,
                       code: Code, s: Subject, i: nat, stack: Stack)
    requires p.Choice? && !TestDecides(p.first, p.second, fl) && !(opt && p.second.True?)
    requires Ready(p, opt, tt, fl, s, i, stack)
    requires CodeAt(code, base, Gen(p, opt, tt, fl, base))
    ensures Outcome(code, s, Run(base, i, stack), base + |Gen(p, opt, tt, fl, base)|,
                    Match(p, s, i), opt, fl, stack)
    decreases p, 0, 0
  {
    hide StackChoiceShape, CodeAt, InstAt, Outcome, Gen, Emit, CodeTest, TestInstruction, TestOf;
    GenStackChoice(p, opt, tt, fl, base);
    var p1, p2 := p.first, p.second;
    var f := GetFirst(p1, FullSet);
    var mid := base + TestSize(f);
    var code1 := Gen(p1, p2.True?, TestOf(f), FullSet, mid + 2);
    var l1 := mid + 2 + |code1| + 2;
    var code2 := Gen(p2, opt, NoTest, fl, l1);
    StackChoiceLayout(code, f, base, code1, code2);
    TestSim(code, s, f, l1, base, i, stack);
    if Passes(f, s, i) {
      Simulation(p1, p2.True?, TestOf(f), FullSet, mid + 2, code, s, i, Entry(i, l1, stack));
    } else {
      FirstSound(p1, FullSet, s, i);
    }
    if Match(p1, s, i).None? {
      Simulation(p2, opt, NoTest, fl, l1, code, s, i, stack);
    }
    StackChoiceRun(code, s, f, base, l1, l1 + |code2|, i, stack,
                   p2.True?, Match(p1, s, i), Match(p2, s, i), opt, fl);
  }

  lemma SpanSim(p: Pattern, opt: bool, tt: Test, fl: Charset, base: nat,
                code: Code, s: Subject, i: nat, stack: Stack)
    requires p.Rep? && IsCharPattern(p.body)
    requires Ready(p, opt, tt, fl, s, i, stack)
    requires CodeAt(code, base, Gen(p, opt, tt, fl, base))
    ensures Outcome(code, s, Run(base, i, stack), base + |Gen(p, opt, tt, fl, base)|,
                    Match(p, s, i), opt, fl, stack)
  {
    hide Gen;
    var span := ISpan(ToCharset(p.body));
    GenSpan(p, opt, tt, fl, base);
    CodeAtEmit(code, base, span);
    SpanIsRep(p.body, s, i);
    OutcomeStep(code, s, Run(base, i, stack), base + Size(span), Match(p, s, i), opt, fl, stack);
  }

  lemma TestRepSim(p: Pattern, opt: bool, tt: Test, fl: Charset, base: nat,
                   code: Code, s: Subject, i: nat, stack: Stack)
    requires p.Rep? && !IsCharPattern(p.body) && TestLeaves(p.body, fl)
    requires Ready(p, opt, tt, fl, s, i, stack)
    requires CodeAt(code, base, Gen(p, opt, tt, fl, base))
    ensures Outcome(code, s, Run(base, i, stack), base + |Gen(p, opt, tt, fl, base)|,
                    Match(p, s, i), opt, fl, stack)
    decreases p, 1, 0
  {
    hide TestRepShape, CodeAt, InstAt, Outcome, Gen, Emit, CodeTest, TestInstruction, TestOf;
    GenTestRep(p, opt, tt, fl, base);
    var f := First(false, GetFirst(p.body, FullSet).cs);
    var code1 := Gen(p.body, false, TestOf(f), FullSet, base + TestSize(f));
    TestRepLayout(code, f, base, code1);
    TestRepLoop(p, opt, fl, base, code, s, i, stack);
  }

  /** The loop `L1: test -> L2; p; jmp L1; L2:` by induction on what is left of the subject. */
  lemma TestRepLoop(p: Pattern, opt: bool, fl: Charset, base: nat,
                    code: Code, s: Subject, i: nat, stack: Stack)
    requires p.Rep? && TestLeaves(p.body, fl) && Ready(p, opt, NoTest, fl, s, i, stack)
    requires var f := First(false, GetFirst(p.body, FullSet).cs);
             var mid := base + TestSize(f);
             var l2 := mid + |Gen(p.body, false, TestOf(f), FullSet, mid)| + 2;
             && CodeAt(code, base, CodeTest(f, l2))
             && CodeAt(code, mid, Gen(p.body, false, TestOf(f), FullSet, mid))
             && l2 <= |code| && InstAt(code, l2 - 2, IJmp(base))
    ensures var f := First(false, GetFirst(p.body, FullSet).cs);
            var mid := base + TestSize(f);
            Outcome(code, s, Run(base, i, stack), mid + |Gen(p.body, false, TestOf(f), FullSet, mid)| + 2,
                    Match(p, s, i), opt, fl, stack)
    decreases p, 0, |s| - i
  {
    hide CodeAt, InstAt, Outcome, Gen, Emit, CodeTest, TestInstruction, TestOf;
    var f := First(false, GetFirst(p.body, FullSet).cs);
    var mid := base + TestSize(f);
    var l2 := mid + |Gen(p.body, false, TestOf(f), FullSet, mid)| + 2;
    TestSim(code, s, f, l2, base, i, stack);
    if HeadFail(p.body) {
      HeadFailSound(p.body, s, i);
    }
    if Passes(f, s, i) {
      Simulation(p.body, false, TestOf(f), FullSet, mid, code, s, i, stack);
    } else {
      FirstSound(p.body, FullSet, s, i);
    }
    RepMatches(p, s, i);
    var r := Match(p.body, s, i);
    if r.Some? {
      TestRepLoop(p, opt, fl, base, code, s, r.value, stack);
    }
    if r.None? && i < |s| && s[i] in fl {
      assert s[i] !in f.cs * fl;
    }
    TestRepRun(code, s, f, base, l2, i, stack, r, Match(p, s, i).value, opt, fl);
  }

  lemma StackRepSim(p: Pattern, opt: bool, tt: Test, fl: Charset, base: nat,
                    code: Code, s: Subject, i: nat, stack: Stack)
    requires p.Rep? && !IsCharPattern(p.body) && !TestLeaves(p.body, fl)
    requires Ready(p, opt, tt, fl, s, i, stack)
    requires CodeAt(code, base, Gen(p, opt, tt, fl, base))
    ensures Outcome(code, s, Run(base, i, stack), base + |Gen(p, opt, tt, fl, base)|,
                    Match(p, s, i), opt, fl, stack)
    decreases p, 1, 0
  {
    hide StackRepShape, CodeAt, InstAt, Outcome, Gen, Emit, CodeTest, TestInstruction, TestOf;
    GenStackRep(p, opt, tt, fl, base);
    var f := GetFirst(p.body, FullSet);
    var l1 := base + TestSize(f) + 2;
    var code1 := Gen(p.body, false, NoTest, FullSet, l1);
    var l2 := l1 + |code1| + 2;
    StackRepLayout(code, f, base, opt, code1);
    if Passes(f, s, i) {
      StackRepLoop(p, l1, code, s, i, if opt then Entry(i, stack.pc, stack.below) else Entry(i, l2, stack));
    } else {
      FirstSound(p.body, FullSet, s, i);
      RepMatches(p, s, i);
    }
    StackRepRun(code, s, f, base, l2, i, stack, Match(p, s, i).value, opt, fl);
  }

  /** The loop `L1: p; partialcommit L1` ends through its entry, at the last position reached. */
  lemma StackRepLoop(p: Pattern, l1: nat, code: Code, s: Subject, i: nat, inner: Stack)
    requires p.Rep? && WellFormed(p) && i <= |s|
    requires var code1 := Gen(p.body, false, NoTest, FullSet, l1);
             && CodeAt(code, l1, code1)
             && InstAt(code, l1 + |code1|, IPartialCommit(l1))
    requires inner.Entry? && inner.pos == i
    ensures Match(p, s, i).Some?
    ensures Reaches(code, s, Run(l1, i, inner), Run(inner.pc, Match(p, s, i).value, inner.below))
    decreases p, 0, |s| - i
  {
    hide CodeAt, Gen;
    var end1 := l1 + |Gen(p.body, false, NoTest, FullSet, l1)|;
    Simulation(p.body, false, NoTest, FullSet, l1, code, s, i, inner);
    RepMatches(p, s, i);
    var r := Match(p.body, s, i);
    if r.Some? {
      var moved := Entry(r.value, inner.pc, inner.below);
      ReachesStep(code, s, Run(end1, r.value, inner));
      ReachesTrans(code, s, Run(l1, i, inner), Run(end1, r.value, inner), Run(l1, r.value, moved));
      StackRepLoop(p, l1, code, s, r.value, moved);
      ReachesTrans(code, s, Run(l1, i, inner), Run(l1, r.value, moved),
                   Run(inner.pc, Match(p, s, i).value, inner.below));
    }
  }

  /** The whole code of a pattern halts, with the result the pattern has. */
  lemma CodeIsCorrect(p: Pattern, s: Subject, i: nat)
    requires WellFormed(p) && i <= |s|
    ensures Reaches(GenAll(p), s, Start(i), Done(Match(p, s, i)))
  {
    hide Gen;
    var g := Gen(p, false, NoTest, FullSet, 0);
    var code := GenAll(p);
    var stack := Entry(i, GIVE_UP, Empty);
    assert CodeAt(code, 0, g + Emit(IEnd));
    CodeAtSplit(code, 0, g, Emit(IEnd));
    CodeAtEmit(code, |g|, IEnd);
    Simulation(p, false, NoTest, FullSet, 0, code, s, i, stack);
    var last := if Match(p, s, i).Some? then Run(|g|, Match(p, s, i).value, stack) else Fail(stack);
    ReachesStep(code, s, last);
    ReachesTrans(code, s, Start(i), last, Done(Match(p, s, i)));
  }
}
