/**
  The jump optimisations of peephole. One rewriting is related to the code before it by
  `Refines`; code that refines another runs to the same results.
 */
module PegPeephole {
  import opened Common
  import opened PegSemantics
  import opened PegMachine
  import opened PegJumps

  /** Instructions after which the machine never goes on to the next word. */
  predicate NoFallThrough(inst: Instruction) {
    inst.IEnd? || inst.IFail? || inst.IFailTwice? || inst.ICommit? || inst.IPartialCommit? || inst.IBackCommit?
  }

  /** The same instruction, but for a label that leads to the same end. */
  ghost predicate Relabelled(code: Code, a: Instruction, b: Instruction)
    requires JumpsEnd(code)
  {
    if HasLabel(a) then
      HasLabel(b) && b == a.(target := b.target) && Final(code, a.target) == Final(code, b.target)
    else a == b
  }

  ghost predicate WordRefines(code: Code, k: nat, word: Instruction)
    requires JumpsEnd(code) && k < |code|
  {
    match code[k]
    case Data => !word.IJmp?
    case IJmp(_) =>
      var ft := Final(code, k);
      || word == code[k]
      || (word.IJmp? && word.target == ft)
      || (0 <= ft < |code| && NoFallThrough(code[ft]) && Relabelled(code, code[ft], word))
    case _ => Relabelled(code, code[k], word)
  }

  ghost predicate Refines(code: Code, code': Code)
    requires JumpsEnd(code)
  {
    |code'| == |code| && forall k: nat :: k < |code| ==> WordRefines(code, k, code'[k])
  }

  /** Rewriting leaves no circle of jumps. */
  lemma RefinedJumpsEnd(code: Code, code': Code)
    requires JumpsEnd(code) && Refines(code, code')
    ensures JumpsEnd(code')
  {
    forall pc: int ensures HasEnd(code', pc) {
      assert HasEnd(code, pc);
      var n: nat :| Ends(code, pc, n);
      RefinedEnds(code, code', pc, n);
    }
  }

  lemma {:induction false} RefinedEnds(code: Code, code': Code, pc: int, n: nat)
    requires JumpsEnd(code) && Refines(code, code') && Ends(code, pc, n)
    ensures HasEnd(code', pc)
    decreases n
  {
    if !IsJump(code', pc) {
      assert Ends(code', pc, 0);
    } else {
      assert WordRefines(code, pc, code'[pc]);
      assert IsJump(code, pc);
      var t := code'[pc].target;
      if t == code[pc].target {
        RefinedEnds(code, code', t, n - 1);
        var m: nat :| Ends(code', t, m);
        assert Ends(code', pc, m + 1);
      } else {
        FinalIsEnd(code, pc);
        if 0 <= t < |code| {
          assert WordRefines(code, t, code'[t]);
        }
        assert Ends(code', t, 0);
        assert Ends(code', pc, 1);
      }
    }
  }

  // ----- related states -----

  ghost predicate SameStack(code: Code, a: Stack, b: Stack)
    requires JumpsEnd(code)
  {
    match a
    case Empty => b.Empty?
    case Entry(pos, pc, below) =>
      && b.Entry? && b.pos == pos && Final(code, pc) == Final(code, b.pc)
      && SameStack(code, below, b.below)
  }

  ghost predicate Related(code: Code, a: State, b: State)
    requires JumpsEnd(code)
  {
    match a
    case Run(pc, pos, stack) =>
      b.Run? && b.pos == pos && Final(code, pc) == Final(code, b.pc) && SameStack(code, stack, b.stack)
    case _ => a == b
  }

  /** The refined code may stand at `q` when the code stands at the end `pc` of a chain. */
  ghost predicate MayStandFor(code: Code, code': Code, pc: int, q: int)
    requires JumpsEnd(code)
  {
    || (q == pc && !(0 <= pc < |code|))
    || (&& 0 <= pc < |code| && 0 <= q < |code'|
        && (q == pc || NoFallThrough(code[pc]))
        && (code[pc].Data? || Relabelled(code, code[pc], code'[q])))
  }

  /** From any address with the same end, the refined code comes to do the same instruction. */
  lemma {:induction false} Catch(code: Code, code': Code, s: Subject, pc: int, pc': int, n: nat,
                                 i: nat, stack: Stack) returns (q: int)
    requires JumpsEnd(code) && Refines(code, code')
    requires Ends(code, pc', n) && Final(code, pc') == pc && !IsJump(code, pc)
    ensures Reaches(code', s, Run(pc', i, stack), Run(q, i, stack))
    ensures MayStandFor(code, code', pc, q)
    decreases n
  {
    FinalUnfold(code, pc');
    ReachesRefl(code', s, Run(pc', i, stack));
    if !IsJump(code, pc') {
      q := pc';
      if 0 <= pc < |code| {
        assert WordRefines(code, pc, code'[pc]);
      }
    } else {
      assert WordRefines(code, pc', code'[pc']);
      FinalIsEnd(code, pc');
      if code'[pc'] == code[pc'] {
        var t := code[pc'].target;
        q := Catch(code, code', s, pc, t, n - 1, i, stack);
        ReachesFrom(code', s, Run(pc', i, stack), Run(q, i, stack));
      } else if code'[pc'].IJmp? && code'[pc'].target == pc {
        q := pc;
        ReachesStep(code', s, Run(pc', i, stack));
        if 0 <= pc < |code| {
          assert WordRefines(code, pc, code'[pc]);
        }
      } else {
        q := pc';
      }
    }
  }

  /** The same instruction takes related states to related states. */
  lemma SameStep(code: Code, s: Subject, a: Instruction, b: Instruction, pc: int, q: int,
                 i: nat, stack: Stack, stack': Stack)
    requires JumpsEnd(code) && !a.IJmp? && Relabelled(code, a, b) && SameStack(code, stack, stack')
    requires q == pc || NoFallThrough(a)
    ensures Related(code, Execute(a, s, pc, i, stack), Execute(b, s, q, i, stack'))
  {
  }

  lemma {:induction false} StuckStays(code: Code, s: Subject, n: nat)
    ensures Steps(code, s, Stuck, n) == Stuck
    decreases n
  {
    if n > 0 {
      StuckStays(code, s, n - 1);
    }
  }

  /** A run that halts is matched by a run of the refined code with the same result. */
  lemma {:induction false} RefinedRun(code: Code, code': Code, s: Subject, a: State, b: State,
                                      n: nat, r: Option<nat>)
    requires JumpsEnd(code) && Refines(code, code') && Related(code, a, b)
    requires Steps(code, s, a, n) == Done(r)
    ensures Reaches(code', s, b, Done(r))
    decreases n
  {
    match a
    case Done(_) =>
      DoneStays(code, s, a, n);
      ReachesRefl(code', s, b);
    case Stuck => StuckStays(code, s, n);
    case Run(pc, i, stack) =>
      var next := Step(code, s, a);
      FinalUnfold(code, pc);
      if IsJump(code, pc) {
        RefinedRun(code, code', s, next, b, n - 1, r);
      } else {
        assert HasEnd(code, b.pc);
        var m: nat :| Ends(code, b.pc, m);
        var q := Catch(code, code', s, pc, b.pc, m, i, b.stack);
        var c := Run(q, i, b.stack);
        if next.Stuck? {
          StuckStays(code, s, n - 1);
        }
        if 0 <= pc < |code| {
          SameStep(code, s, code[pc], code'[q], pc, q, i, stack, b.stack);
        }
        RefinedRun(code, code', s, next, Step(code', s, c), n - 1, r);
        ReachesFrom(code', s, c, Done(r));
        ReachesTrans(code', s, b, c, Done(r));
      }
  }

  lemma {:induction false} SameStackRefl(code: Code, stack: Stack)
    requires JumpsEnd(code)
    ensures SameStack(code, stack, stack)
  {
    if stack.Entry? {
      SameStackRefl(code, stack.below);
    }
  }

  /** Whatever result the code has, the refined code has the same one. */
  lemma RefinedResult(code: Code, code': Code, s: Subject, i: nat, r: Option<nat>)
    requires JumpsEnd(code) && Refines(code, code')
    requires Reaches(code, s, Start(i), Done(r))
    ensures Reaches(code', s, Start(i), Done(r))
  {
    var n: nat :| Steps(code, s, Start(i), n) == Done(r);
    SameStackRefl(code, Start(i).stack);
    RefinedRun(code, code', s, Start(i), Start(i), n, r);
  }
}
