/**
  The virtual machine of lpvm.c (without captures and calls): one step of the opcode
  interpreter, and runs of many steps.

  Code is a sequence of words, as in the C array. The first word of an instruction holds
  its opcode, its operands and, for an instruction with a target, the address it jumps to;
  the words after it (offset and charset words in C) are `Data`.
 */
module PegMachine {
  import opened Common
  import opened PegSemantics

  datatype Instruction =
    | IAny
    | IChar(c: Byte)
    | ISet(cs: Charset)
    | ITestAny(target: nat)
    | ITestChar(c: Byte, target: nat)
    | ITestSet(cs: Charset, target: nat)
    | ISpan(cs: Charset)
    | IBehind(n: nat)
    | IEnd
    | IChoice(target: nat)
    | IJmp(target: nat)
    | ICommit(target: nat)
    | IPartialCommit(target: nat)
    | IBackCommit(target: nat)
    | IFailTwice
    | IFail
    | Data

  type Code = seq<Instruction>

  const CHARSET_INST_SIZE := 9

  /** sizei: the number of words of an instruction. */
  function Size(inst: Instruction): nat {
    match inst
    case ISet(_) => CHARSET_INST_SIZE
    case ISpan(_) => CHARSET_INST_SIZE
    case ITestSet(_, _) => CHARSET_INST_SIZE + 1
    case ITestChar(_, _) => 2
    case ITestAny(_) => 2
    case IChoice(_) => 2
    case IJmp(_) => 2
    case ICommit(_) => 2
    case IPartialCommit(_) => 2
    case IBackCommit(_) => 2
    case _ => 1
  }

  /** The backtrack stack, top entry first. The address -1 is the 'giveup' instruction. */
  datatype Stack = Empty | Entry(pos: nat, pc: int, below: Stack)

  const GIVE_UP := -1

  datatype State =
    | Run(pc: int, pos: nat, stack: Stack)
    | Done(result: Option<nat>)
    | Stuck

  /** Backtrack: pop the top entry and go on from there. */
  function Fail(stack: Stack): State {
    if stack.Empty? then Stuck else Run(stack.pc, stack.pos, stack.below)
  }

  /** ISpan: the first position at or after `i` whose character is not in `cs`. */
  function Span(cs: Charset, s: Subject, i: nat): (j: nat)
    requires i <= |s|
    ensures i <= j <= |s|
    ensures forall k :: i <= k < j ==> s[k] in cs
    ensures j < |s| ==> s[j] !in cs
    decreases |s| - i
  {
    if i < |s| && s[i] in cs then Span(cs, s, i + 1) else i
  }

  /** One turn of the interpreter loop on instruction `inst` at address `pc`. */
  function Execute(inst: Instruction, s: Subject, pc: int, i: nat, stack: Stack): State
  {
    match inst
    case IAny => if i < |s| then Run(pc + 1, i + 1, stack) else Fail(stack)
    case IChar(c) => if i < |s| && s[i] == c then Run(pc + 1, i + 1, stack) else Fail(stack)
    case ISet(cs) =>
      if i < |s| && s[i] in cs then Run(pc + CHARSET_INST_SIZE, i + 1, stack) else Fail(stack)
    case ITestAny(target) => Run(if i < |s| then pc + 2 else target, i, stack)
    case ITestChar(c, target) => Run(if i < |s| && s[i] == c then pc + 2 else target, i, stack)
    case ITestSet(cs, target) =>
      Run(if i < |s| && s[i] in cs then pc + CHARSET_INST_SIZE + 1 else target, i, stack)
    case ISpan(cs) =>
      if i <= |s| then Run(pc + CHARSET_INST_SIZE, Span(cs, s, i), stack) else Stuck
    case IBehind(n) => if n <= i then Run(pc + 1, i - n, stack) else Fail(stack)
    case IEnd => if stack.Entry? && stack.below.Empty? then Done(Some(i)) else Stuck
    case IChoice(target) => Run(pc + 2, i, Entry(i, target, stack))
    case IJmp(target) => Run(target, i, stack)
    case ICommit(target) => if stack.Entry? then Run(target, i, stack.below) else Stuck
    case IPartialCommit(target) =>
      if stack.Entry? then Run(target, i, Entry(i, stack.pc, stack.below)) else Stuck
    case IBackCommit(target) => if stack.Entry? then Run(target, stack.pos, stack.below) else Stuck
    case IFailTwice => if stack.Entry? then Fail(stack.below) else Stuck
    case IFail => Fail(stack)
    case Data => Stuck
  }

  function Step(code: Code, s: Subject, st: State): State {
    match st
    case Run(pc, i, stack) =>
      if pc == GIVE_UP then (if stack.Empty? then Done(None) else Stuck)
      else if 0 <= pc < |code| then Execute(code[pc], s, pc, i, stack)
      else Stuck
    case _ => st
  }

  /** The entry state of match: the stack holds one entry, for 'giveup'. */
  function Start(i: nat): State {
    Run(0, i, Entry(i, GIVE_UP, Empty))
  }

  // ----- runs -----

  function Steps(code: Code, s: Subject, st: State, n: nat): State
    decreases n
  {
    if n == 0 then st else Steps(code, s, Step(code, s, st), n - 1)
  }

  ghost predicate Reaches(code: Code, s: Subject, a: State, b: State) {
    exists n: nat :: Steps(code, s, a, n) == b
  }

  lemma {:induction false} StepsAdd(code: Code, s: Subject, st: State, m: nat, n: nat)
    ensures Steps(code, s, Steps(code, s, st, m), n) == Steps(code, s, st, m + n)
    decreases m
  {
    if m > 0 {
      StepsAdd(code, s, Step(code, s, st), m - 1, n);
    }
  }

  lemma ReachesRefl(code: Code, s: Subject, a: State)
    ensures Reaches(code, s, a, a)
  {
    assert Steps(code, s, a, 0) == a;
  }

  lemma ReachesTrans(code: Code, s: Subject, a: State, b: State, c: State)
    requires Reaches(code, s, a, b) && Reaches(code, s, b, c)
    ensures Reaches(code, s, a, c)
  {
    var m: nat :| Steps(code, s, a, m) == b;
    var n: nat :| Steps(code, s, b, n) == c;
    StepsAdd(code, s, a, m, n);
  }

  lemma ReachesStep(code: Code, s: Subject, a: State)
    ensures Reaches(code, s, a, Step(code, s, a))
  {
    assert Steps(code, s, a, 1) == Steps(code, s, Step(code, s, a), 0);
  }

  /** One step and then a run. */
  lemma ReachesFrom(code: Code, s: Subject, a: State, c: State)
    requires Reaches(code, s, Step(code, s, a), c)
    ensures Reaches(code, s, a, c)
  {
    ReachesStep(code, s, a);
    ReachesTrans(code, s, a, Step(code, s, a), c);
  }

  /** The machine is deterministic and halts in at most one way. */
  lemma {:induction false} DoneUnique(code: Code, s: Subject, st: State, m: nat, n: nat)
    requires Steps(code, s, st, m).Done? && Steps(code, s, st, n).Done?
    ensures Steps(code, s, st, m) == Steps(code, s, st, n)
    decreases m + n
  {
    if m > 0 && n > 0 {
      DoneUnique(code, s, Step(code, s, st), m - 1, n - 1);
    } else {
      DoneStays(code, s, st, m);
      DoneStays(code, s, st, n);
    }
  }

  lemma {:induction false} DoneStays(code: Code, s: Subject, st: State, n: nat)
    ensures st.Done? ==> Steps(code, s, st, n) == st
    decreases n
  {
    if n > 0 && st.Done? {
      DoneStays(code, s, st, n - 1);
    }
  }
}
