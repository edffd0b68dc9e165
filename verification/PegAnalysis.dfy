/**
  The static analyses of lpcode.c and their soundness: what each of them promises
  about every subject and every position.
 */
module PegAnalysis {
  import opened Common
  import opened PegSemantics

  // ----- the analyses -----

  datatype Property = Nullable | NoFail

  /** checkaux: does `p` look nullable, or does it look unable to fail? */
  predicate CheckAux(p: Pattern, pred: Property) {
    match p
    case Char(_) => false
    case Set(_) => false
    case Any => false
    case False => false
    case Rep(_) => true
    case True => true
    case Not(_) => pred == Nullable
    case Behind(_, _) => pred == Nullable
    case And(body) => pred == Nullable || CheckAux(body, pred)
    case Seq(first, second) => CheckAux(first, pred) && CheckAux(second, pred)
    case Choice(first, second) => CheckAux(second, pred) || CheckAux(first, pred)
  }

  /** fixedlenx: `len` plus the number of characters `p` consumes, or -1 if that varies. */
  function FixedLenX(p: Pattern, len: nat): (r: int)
    ensures r >= -1
  {
    match p
    case Char(_) => len + 1
    case Set(_) => len + 1
    case Any => len + 1
    case False => len
    case True => len
    case Not(_) => len
    case And(_) => len
    case Behind(_, _) => len
    case Rep(_) => -1
    case Seq(first, second) =>
      var len1 := FixedLenX(first, len);
      if len1 < 0 then -1 else FixedLenX(second, len1)
    case Choice(first, second) =>
      var n1 := FixedLenX(first, len);
      if n1 < 0 then -1
      else if n1 == FixedLenX(second, len) then n1 else -1
  }

  function FixedLen(p: Pattern): (r: int)
  {
    FixedLenX(p, 0)
  }

  /** What getfirst computes: its return value (is the empty string accepted?) and the set. */
  datatype First = First(acceptsEmpty: bool, cs: Charset)

  function GetFirst(p: Pattern, follow: Charset): First
  {
    match p
    case Char(_) => First(false, ToCharset(p))
    case Set(_) => First(false, ToCharset(p))
    case Any => First(false, ToCharset(p))
    case True => First(true, follow)
    case False => First(false, {})
    case Choice(first, second) =>
      var f1 := GetFirst(first, follow);
      var f2 := GetFirst(second, follow);
      First(f1.acceptsEmpty || f2.acceptsEmpty, f1.cs + f2.cs)
    case Seq(first, second) =>
      if !CheckAux(first, Nullable) then GetFirst(first, FullSet)
      else
        var f2 := GetFirst(second, follow);
        var f1 := GetFirst(first, f2.cs);
        First(f1.acceptsEmpty && f2.acceptsEmpty, f1.cs)
    case Rep(body) => First(true, GetFirst(body, follow).cs + follow)
    case And(body) =>
      var f := GetFirst(body, follow);
      First(f.acceptsEmpty, f.cs * follow)
    case Not(body) =>
      if IsCharPattern(body) then First(true, FullSet - ToCharset(body)) else First(true, follow)
    case Behind(_, _) => First(true, follow)
  }

  /** headfail: `p` can fail only because of the next character of the subject. */
  predicate HeadFail(p: Pattern) {
    match p
    case Char(_) => true
    case Set(_) => true
    case Any => true
    case False => true
    case True => false
    case Rep(_) => false
    case Not(_) => false
    case Behind(_, _) => false
    case And(body) => HeadFail(body)
    case Seq(first, second) => CheckAux(second, NoFail) && HeadFail(first)
    case Choice(first, second) => HeadFail(first) && HeadFail(second)
  }

  /** needfollow: can the code for `p` make use of a follow set? */
  predicate NeedFollow(p: Pattern) {
    match p
    case Choice(_, _) => true
    case Rep(_) => true
    case Seq(_, second) => NeedFollow(second)
    case _ => false
  }

  /**
    The trees LPeg lets a program build: lp_star refuses a repetition whose body is
    nullable, lp_behind refuses a body without a fixed length of at most MAX_BEHIND.
   */
  predicate WellFormed(p: Pattern) {
    match p
    case Rep(body) => WellFormed(body) && !CheckAux(body, Nullable)
    case Seq(first, second) => WellFormed(first) && WellFormed(second)
    case Choice(first, second) => WellFormed(first) && WellFormed(second)
    case Not(body) => WellFormed(body)
    case And(body) => WellFormed(body)
    case Behind(n, body) => WellFormed(body) && FixedLen(body) == n && n <= MAX_BEHIND
    case _ => true
  }

  // ----- soundness -----

  /** The accumulator of fixedlenx only shifts the result. */
  lemma {:induction false} FixedLenShift(p: Pattern, len: nat)
    ensures FixedLenX(p, len) == if FixedLen(p) < 0 then -1 else FixedLen(p) + len
  {
    match p
    case Seq(first, second) =>
      FixedLenShift(first, len);
      if FixedLen(first) >= 0 {
        FixedLenShift(second, FixedLenX(first, len));
        FixedLenShift(second, FixedLen(first));
      }
    case Choice(first, second) =>
      FixedLenShift(first, len);
      FixedLenShift(second, len);
    case _ =>
  }

  /** fixedlen(p) == n >= 0 means that every match of `p` consumes exactly n characters. */
  lemma {:induction false} FixedLenSound(p: Pattern, s: Subject, i: nat)
    requires WellFormed(p) && i <= |s|
    ensures FixedLen(p) >= 0 && Match(p, s, i).Some? ==> Match(p, s, i).value == i + FixedLen(p)
    decreases p
  {
    match p
    case Seq(first, second) =>
      FixedLenSound(first, s, i);
      if FixedLen(first) >= 0 {
        FixedLenShift(second, FixedLen(first));
        if Match(first, s, i).Some? {
          FixedLenSound(second, s, Match(first, s, i).value);
        }
      }
    case Choice(first, second) =>
      FixedLenSound(first, s, i);
      FixedLenSound(second, s, i);
    case Behind(n, body) =>
      if n <= i {
        FixedLenSound(body, s, i - n);
      }
    case _ =>
  }

  /** A match never ends before it starts; a pattern that is not nullable consumes something. */
  lemma {:induction false} NullableSound(p: Pattern, s: Subject, i: nat)
    requires WellFormed(p) && i <= |s|
    ensures Match(p, s, i).Some? ==> i <= Match(p, s, i).value
    ensures Match(p, s, i).Some? && Match(p, s, i).value == i ==> CheckAux(p, Nullable)
    decreases p, |s| - i
  {
    match p
    case Rep(body) =>
      NullableSound(body, s, i);
      var r := Match(body, s, i);
      if r.Some? && r.value > i {
        NullableSound(p, s, r.value);
      }
    case Seq(first, second) =>
      NullableSound(first, s, i);
      if Match(first, s, i).Some? {
        NullableSound(second, s, Match(first, s, i).value);
      }
    case Choice(first, second) =>
      NullableSound(first, s, i);
      NullableSound(second, s, i);
    case Behind(n, body) =>
      FixedLenSound(p, s, i);
    case _ =>
  }

  /** nofail(p) means that `p` matches at every position of every subject. */
  lemma {:induction false} NoFailSound(p: Pattern, s: Subject, i: nat)
    requires WellFormed(p) && i <= |s|
    ensures CheckAux(p, NoFail) ==> Match(p, s, i).Some?
    decreases p, |s| - i
  {
    match p
    case Rep(body) =>
      var r := Match(body, s, i);
      if r.Some? && r.value > i {
        NoFailSound(p, s, r.value);
      }
    case Seq(first, second) =>
      NoFailSound(first, s, i);
      if Match(first, s, i).Some? {
        NoFailSound(second, s, Match(first, s, i).value);
      }
    case Choice(first, second) =>
      NoFailSound(first, s, i);
      NoFailSound(second, s, i);
    case And(body) =>
      NoFailSound(body, s, i);
    case _ =>
  }

  /**
    A character outside first(p, follow) leaves `p` only two ways: to fail, or to match the
    empty string in front of a character that cannot follow. Also, when getfirst returns 0,
    `p` fails at the end of the subject.
   */
  lemma {:induction false} FirstSound(p: Pattern, follow: Charset, s: Subject, i: nat)
    requires WellFormed(p) && i <= |s|
    ensures i < |s| && s[i] !in GetFirst(p, follow).cs && Match(p, s, i).Some? ==>
              Match(p, s, i).value == i && s[i] !in follow
    ensures i == |s| && !GetFirst(p, follow).acceptsEmpty ==> Match(p, s, i).None?
    decreases p
  {
    match p
    case Choice(first, second) =>
      FirstSound(first, follow, s, i);
      FirstSound(second, follow, s, i);
    case Seq(first, second) =>
      if CheckAux(first, Nullable) {
        FirstSound(first, GetFirst(second, follow).cs, s, i);
        NullableSound(first, s, i);
        FirstSound(second, follow, s, i);
      } else {
        FirstSound(first, FullSet, s, i);
      }
    case Rep(body) =>
      FirstSound(body, follow, s, i);
    case And(body) =>
      FirstSound(body, follow, s, i);
    case Behind(_, _) =>
      FixedLenSound(p, s, i);
    case _ =>
  }

  /** A character outside first(p) with nothing known of what follows makes `p` fail. */
  lemma FirstSoundFull(p: Pattern, s: Subject, i: nat)
    requires WellFormed(p) && i < |s| && s[i] !in GetFirst(p, FullSet).cs
    ensures Match(p, s, i).None?
  {
    FirstSound(p, FullSet, s, i);
  }

  /** A pattern that cannot fail has a full first set. */
  lemma NoFailFirstFull(p: Pattern)
    requires WellFormed(p) && CheckAux(p, NoFail)
    ensures GetFirst(p, FullSet).cs == FullSet
  {
    forall b: Byte ensures b in GetFirst(p, FullSet).cs {
      NoFailSound(p, [b], 0);
      FirstSound(p, FullSet, [b], 0);
    }
  }

  /**
    headfail(p) means that getfirst returns 0 and that `p` succeeds exactly when there is
    a next character and it is in the first set.
   */
  lemma {:induction false} HeadFailSound(p: Pattern, s: Subject, i: nat)
    requires WellFormed(p) && HeadFail(p) && i <= |s|
    ensures !GetFirst(p, FullSet).acceptsEmpty
    ensures Match(p, s, i).Some? <==> i < |s| && s[i] in GetFirst(p, FullSet).cs
    decreases p
  {
    match p
    case And(body) =>
      HeadFailSound(body, s, i);
      assert GetFirst(p, FullSet).cs == GetFirst(body, FullSet).cs;
    case Seq(first, second) =>
      HeadFailSound(first, s, i);
      NoFailFirstFull(second);
      if Match(first, s, i).Some? {
        NoFailSound(second, s, Match(first, s, i).value);
      }
    case Choice(first, second) =>
      HeadFailSound(first, s, i);
      HeadFailSound(second, s, i);
    case _ =>
  }
}
