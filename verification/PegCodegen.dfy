/**
  The code generator of lpcode.c as functions: the words that codegen appends for a pattern
  when the next free address is `base`. Its parameters are those of the C function: `opt` (the
  code is the last thing inside an optional pattern), `tt` (the test that guards this code) and
  `fl` (the follow set).
 */
module PegCodegen {
  import opened Common
  import opened PegSemantics
  import opened PegAnalysis
  import opened PegMachine

  /** charsettype: the cheapest instruction for a set. */
  datatype CharsetKind = EmptyKind | SingleKind(c: Byte) | FullKind | SetKind

  function KindOf(cs: Charset): (k: CharsetKind)
    ensures k.EmptyKind? <==> cs == {}
    ensures k.SingleKind? ==> cs == {k.c}
    ensures k.FullKind? ==> cs == FullSet
  {
    if cs == {} then EmptyKind
    else if exists b :: b in cs && cs == {b} then
      var c :| c in cs && cs == {c};
      SingleKind(c)
    else if cs == FullSet then FullKind
    else SetKind
  }

  /** What is known of the guarding test: nothing, or that it is ITestChar / ITestSet. */
  datatype Test = NoTest | TestChar(c: Byte) | TestSet(cs: Charset)

  function DataWords(n: nat): (r: Code)
    ensures |r| == n
  {
    seq(n, _ => Data)
  }

  /** An instruction followed by its data words. */
  function Emit(inst: Instruction): (r: Code)
    ensures |r| == Size(inst) && r[0] == inst
  {
    [inst] + DataWords(Size(inst) - 1)
  }

  function CodeChar(c: Byte, tt: Test): Code {
    if tt == TestChar(c) then Emit(IAny) else Emit(IChar(c))
  }

  function CodeCharset(cs: Charset, tt: Test): Code {
    match KindOf(cs)
    case EmptyKind => Emit(IFail)
    case SingleKind(c) => CodeChar(c, tt)
    case FullKind => Emit(IAny)
    case SetKind => if tt == TestSet(cs) then Emit(IAny) else Emit(ISet(cs))
  }

  /** codetestset: the test instruction for `cs`, if any; it jumps to `target` when it fails. */
  function TestInstruction(cs: Charset, target: nat): Instruction {
    match KindOf(cs)
    case EmptyKind => IJmp(target)
    case SingleKind(c) => ITestChar(c, target)
    case FullKind => ITestAny(target)
    case SetKind => ITestSet(cs, target)
  }

  function TestSize(f: First): nat {
    if f.acceptsEmpty then 0 else Size(TestInstruction(f.cs, 0))
  }

  function CodeTest(f: First, target: nat): (r: Code)
    ensures |r| == TestSize(f)
  {
    if f.acceptsEmpty then [] else Emit(TestInstruction(f.cs, target))
  }

  function TestOf(f: First): Test {
    if f.acceptsEmpty then NoTest
    else match KindOf(f.cs)
         case SingleKind(c) => TestChar(c)
         case SetKind => TestSet(f.cs)
         case _ => NoTest
  }

  predicate Disjoint(cs1: Charset, cs2: Charset) {
    cs1 * cs2 == {}
  }

  /** May codechoice decide between the alternatives by one test? */
  predicate TestDecides(p1: Pattern, p2: Pattern, fl: Charset) {
    var f1 := GetFirst(p1, FullSet);
    HeadFail(p1) || (!f1.acceptsEmpty && Disjoint(f1.cs, GetFirst(p2, fl).cs))
  }

  /** May coderep leave the loop by one test? */
  predicate TestLeaves(body: Pattern, fl: Charset) {
    var f := GetFirst(body, FullSet);
    HeadFail(body) || (!f.acceptsEmpty && Disjoint(f.cs, fl))
  }

  // ----- the shapes of the generated code, around the code of the parts -----

  /** test (fail(p1)) -> L1; p1; jmp L2; L1: p2; L2:   (no jump if p2 is empty) */
  function TestChoiceShape(f: First, base: nat, emptyp2: bool, code1: Code, code2: Code): Code {
    var l1 := base + TestSize(f) + |code1| + (if emptyp2 then 0 else 2);
    CodeTest(f, l1) + code1 + (if emptyp2 then [] else Emit(IJmp(l1 + |code2|))) + code2
  }

  /** partialcommit L; L: p1 */
  function ReuseChoiceShape(base: nat, code1: Code): Code {
    Emit(IPartialCommit(base + 2)) + code1
  }

  /** test(first(p1)) -> L1; choice L1; p1; commit L2; L1: p2; L2: */
  function StackChoiceShape(f: First, base: nat, code1: Code, code2: Code): Code {
    var l1 := base + TestSize(f) + 2 + |code1| + 2;
    CodeTest(f, l1) + Emit(IChoice(l1)) + code1 + Emit(ICommit(l1 + |code2|)) + code2
  }

  /** L1: test (fail(p)) -> L2; p; jmp L1; L2: */
  function TestRepShape(f: First, base: nat, code1: Code): Code {
    CodeTest(f, base + TestSize(f) + |code1| + 2) + code1 + Emit(IJmp(base))
  }

  /** test -> L2; choice L2; L1: p; partialcommit L1; L2:   (if opt, partialcommit L1 in place of the choice) */
  function StackRepShape(f: First, base: nat, opt: bool, code1: Code): Code {
    var l1 := base + TestSize(f) + 2;
    var l2 := l1 + |code1| + 2;
    CodeTest(f, l2) + Emit(if opt then IPartialCommit(l1) else IChoice(l2)) +
    code1 + Emit(IPartialCommit(l1))
  }

  /** test (fail(p)) -> L1; fail; L1: */
  function TestNotShape(f: First, base: nat): Code {
    CodeTest(f, base + TestSize(f) + 1) + Emit(IFail)
  }

  /** test(fail(p)) -> L1; choice L1; p; failtwice; L1: */
  function StackNotShape(f: First, base: nat, code1: Code): Code {
    var l1 := base + TestSize(f) + 2 + |code1| + 1;
    CodeTest(f, l1) + Emit(IChoice(l1)) + code1 + Emit(IFailTwice)
  }

  /** p; behind n */
  function FixedAndShape(n: nat, code1: Code): Code {
    code1 + (if n > 0 then Emit(IBehind(n)) else [])
  }

  /** choice L1; p; backcommit L2; L1: fail; L2: */
  function StackAndShape(base: nat, code1: Code): Code {
    var l1 := base + 2 + |code1| + 2;
    Emit(IChoice(l1)) + code1 + Emit(IBackCommit(l1 + 1)) + Emit(IFail)
  }

  /** behind n; p */
  function BehindShape(n: nat, code1: Code): Code {
    (if n > 0 then Emit(IBehind(n)) else []) + code1
  }

  // ----- codegen -----

  /** codeseq1: the follow set of the first half of a sequence. */
  function SeqFollow(p1: Pattern, p2: Pattern, fl: Charset): Charset {
    if NeedFollow(p1) then GetFirst(p2, fl).cs else FullSet
  }

  /** codeseq1: the test that still guards the second half of a sequence. */
  function SeqTest(p1: Pattern, tt: Test): Test {
    if FixedLen(p1) != 0 then NoTest else tt
  }

  function Gen(p: Pattern, opt: bool, tt: Test, fl: Charset, base: nat): Code
    decreases p
  {
    match p
    case Char(c) => CodeChar(c, tt)
    case Any => Emit(IAny)
    case Set(cs) => CodeCharset(cs, tt)
    case True => []
    case False => Emit(IFail)
    case Choice(p1, p2) =>
      var f1 := GetFirst(p1, FullSet);
      if TestDecides(p1, p2, fl) then
        var f := First(false, f1.cs);
        var code1 := Gen(p1, false, TestOf(f), fl, base + TestSize(f));
        var l1 := base + TestSize(f) + |code1| + (if p2.True? then 0 else 2);
        TestChoiceShape(f, base, p2.True?, code1, Gen(p2, opt, NoTest, fl, l1))
      else if opt && p2.True? then
        ReuseChoiceShape(base, Gen(p1, true, NoTest, FullSet, base + 2))
      else
        var code1 := Gen(p1, p2.True?, TestOf(f1), FullSet, base + TestSize(f1) + 2);
        var l1 := base + TestSize(f1) + 2 + |code1| + 2;
        StackChoiceShape(f1, base, code1, Gen(p2, opt, NoTest, fl, l1))
    case Rep(body) =>
      var f := GetFirst(body, FullSet);
      if IsCharPattern(body) then Emit(ISpan(ToCharset(body)))
      else if TestLeaves(body, fl) then
        var t := First(false, f.cs);
        TestRepShape(t, base, Gen(body, false, TestOf(t), FullSet, base + TestSize(t)))
      else
        StackRepShape(f, base, opt, Gen(body, false, NoTest, FullSet, base + TestSize(f) + 2))
    case Behind(n, body) =>
      BehindShape(n, Gen(body, false, NoTest, FullSet, base + (if n > 0 then 1 else 0)))
    case Not(body) =>
      var f := GetFirst(body, FullSet);
      if HeadFail(body) then TestNotShape(f, base)
      else StackNotShape(f, base, Gen(body, false, NoTest, FullSet, base + TestSize(f) + 2))
    case And(body) =>
      var n := FixedLen(body);
      if 0 <= n <= MAX_BEHIND then FixedAndShape(n, Gen(body, false, tt, FullSet, base))
      else StackAndShape(base, Gen(body, false, tt, FullSet, base + 2))
    case Seq(p1, p2) =>
      var code1 := Gen(p1, false, tt, SeqFollow(p1, p2, fl), base);
      code1 + Gen(p2, opt, SeqTest(p1, tt), fl, base + |code1|)
  }

  /** The code of a whole pattern, before the peephole pass. */
  function GenAll(p: Pattern): Code {
    Gen(p, false, NoTest, FullSet, 0) + Emit(IEnd)
  }
}
