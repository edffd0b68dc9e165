/**
  How sharp the analyses of lpcode.c are. For patterns without predicates and look-behind, nullable
  and nofail are decided exactly, and first sets are those of the pattern read as a regular
  expression; fixed lengths are found wherever there is one.
 */
module PegExact {
  import opened Common
  import opened PegSemantics
  import opened PegAnalysis

  /** No not-predicate, and-predicate or look-behind */
  predicate Plain(p: Pattern) {
    match p
    case Not(_) => false
    case And(_) => false
    case Behind(_, _) => false
    case Rep(body) => Plain(body)
    case Seq(first, second) => Plain(first) && Plain(second)
    case Choice(first, second) => Plain(first) && Plain(second)
    case _ => true
  }

  // ----- nullable and nofail -----

  /** A plain pattern is nullable exactly when it matches the empty subject, and so it is nofail. */
  lemma {:induction false} EmptySubjectDecides(p: Pattern)
    requires Plain(p)
    ensures CheckAux(p, Nullable) <==> Match(p, [], 0) == Some(0)
    ensures CheckAux(p, NoFail) <==> Match(p, [], 0) == Some(0)
  {
    match p {
      case Rep(body) => EmptySubjectDecides(body);
      case Seq(first, second) =>
        EmptySubjectDecides(first);
        EmptySubjectDecides(second);
      case Choice(first, second) =>
        EmptySubjectDecides(first);
        EmptySubjectDecides(second);
      case _ =>
    }
  }

  /** So a plain pattern never fails exactly when it does not fail on the empty subject. */
  lemma NeverFailsIff(p: Pattern)
    requires Plain(p) && WellFormed(p)
    ensures CheckAux(p, NoFail) <==> forall s: Subject, i: nat :: i <= |s| ==> Match(p, s, i).Some?
  {
    EmptySubjectDecides(p);
    if CheckAux(p, NoFail) {
      forall s: Subject, i: nat | i <= |s| ensures Match(p, s, i).Some? {
        NoFailSound(p, s, i);
      }
    } else {
      var s: Subject := [];
      assert Match(p, s, 0) == None;
    }
  }

  /** A plain repetition is refused exactly when its body matches the empty subject. */
  lemma StarRefusedIff(body: Pattern)
    requires Plain(body) && WellFormed(body)
    ensures WellFormed(Rep(body)) <==> Match(body, [], 0) == None
  {
    EmptySubjectDecides(body);
  }

  // ----- fixed lengths -----

  /** Every way through the pattern consumes `n` characters. */
  predicate HasLength(p: Pattern, n: nat) {
    match p
    case Char(_) => n == 1
    case Set(_) => n == 1
    case Any => n == 1
    case Rep(_) => false
    case Seq(first, second) => exists k :: 0 <= k <= n && HasLength(first, k) && HasLength(second, n - k)
    case Choice(first, second) => HasLength(first, n) && HasLength(second, n)
    case _ => n == 0
  }

  /** fixedlenx finds the length wherever there is one, and no other number. */
  lemma {:induction false} FixedLenIff(p: Pattern, len: nat, n: nat)
    ensures FixedLenX(p, len) == len + n <==> HasLength(p, n)
    ensures FixedLenX(p, len) < 0 || FixedLenX(p, len) >= len
    decreases p
  {
    match p {
      case Seq(first, second) =>
        FixedLenIff(first, len, 0);
        var len1 := FixedLenX(first, len);
        if len1 >= 0 {
          var k := len1 - len;
          FixedLenIff(first, len, k);
          FixedLenIff(second, len1, 0);
          if n >= k {
            FixedLenIff(second, len1, n - k);
          }
        }
        forall k | 0 <= k <= n && HasLength(first, k) ensures len1 == len + k {
          FixedLenIff(first, len, k);
        }
      case Choice(first, second) =>
        FixedLenIff(first, len, n);
        FixedLenIff(second, len, n);
      case _ =>
    }
  }

  // ----- first sets -----

  /** The word belongs to the pattern, read as a regular expression. */
  ghost predicate In(p: Pattern, w: Subject)
    decreases p, |w|
  {
    match p
    case Char(c) => w == [c]
    case Set(cs) => |w| == 1 && w[0] in cs
    case Any => |w| == 1
    case True => w == []
    case Rep(body) => w == [] || exists k :: 0 < k <= |w| && In(body, w[..k]) && In(p, w[k..])
    case Seq(first, second) => exists k :: 0 <= k <= |w| && In(first, w[..k]) && In(second, w[k..])
    case Choice(first, second) => In(first, w) || In(second, w)
    case _ => false
  }

  /** What a plain pattern matches is a word of it. */
  lemma {:induction false} MatchIsWord(p: Pattern, s: Subject, i: nat)
    requires Plain(p) && i <= |s| && Match(p, s, i).Some?
    ensures i <= Match(p, s, i).value && In(p, s[i..Match(p, s, i).value])
    decreases p, |s| - i
  {
    var j := Match(p, s, i).value;
    match p {
      case Rep(body) =>
        var r := Match(body, s, i);
        if r.Some? && r.value > i {
          MatchIsWord(body, s, i);
          MatchIsWord(p, s, r.value);
          var w, k := s[i..j], r.value - i;
          assert w[..k] == s[i..r.value] && w[k..] == s[r.value..j];
        }
      case Seq(first, second) =>
        var m := Match(first, s, i).value;
        MatchIsWord(first, s, i);
        MatchIsWord(second, s, m);
        var w, k := s[i..j], m - i;
        assert w[..k] == s[i..m] && w[k..] == s[m..j];
      case Choice(first, second) =>
        if Match(first, s, i).Some? {
          MatchIsWord(first, s, i);
        } else {
          MatchIsWord(second, s, i);
        }
      case _ =>
    }
  }

  lemma {:induction false} EmptyWord(p: Pattern)
    requires Plain(p)
    ensures CheckAux(p, Nullable) <==> In(p, [])
  {
    match p {
      case Seq(first, second) =>
        EmptyWord(first);
        EmptyWord(second);
        var w: Subject := [];
        assert w[..0] == [] && w[0..] == [];
        if In(p, []) {
          var k :| 0 <= k <= |w| && In(first, w[..k]) && In(second, w[k..]);
        }
      case Choice(first, second) =>
        EmptyWord(first);
        EmptyWord(second);
      case _ =>
    }
  }

  /** No part that nothing can match */
  predicate Productive(p: Pattern) {
    match p
    case False => false
    case Set(cs) => cs != {}
    case Rep(body) => Productive(body)
    case Seq(first, second) => Productive(first) && Productive(second)
    case Choice(first, second) => Productive(first) && Productive(second)
    case _ => true
  }

  lemma {:induction false} SomeWord(p: Pattern) returns (w: Subject)
    requires Plain(p) && Productive(p)
    ensures In(p, w)
  {
    match p {
      case Char(c) => w := [c];
      case Set(cs) =>
        var c :| c in cs;
        w := [c];
      case Any => w := [0];
      case True => w := [];
      case Rep(_) => w := [];
      case Seq(first, second) =>
        var a := SomeWord(first);
        var b := SomeWord(second);
        w := a + b;
        assert w[..|a|] == a && w[|a|..] == b;
      case Choice(first, second) => w := SomeWord(first);
    }
  }

  /** A word of the pattern starts with the character. */
  ghost predicate Starts(p: Pattern, c: Byte) {
    exists w: Subject :: w != [] && w[0] == c && In(p, w)
  }

  lemma SeqStarts(p: Pattern, c: Byte)
    requires p.Seq? && Plain(p) && Productive(p)
    ensures Starts(p, c) <==> Starts(p.first, c) || (In(p.first, []) && Starts(p.second, c))
  {
    if Starts(p, c) {
      var w: Subject :| w != [] && w[0] == c && In(p, w);
      var k :| 0 <= k <= |w| && In(p.first, w[..k]) && In(p.second, w[k..]);
      if k == 0 {
        assert w[..k] == [] && w[k..] == w;
      } else {
        assert w[..k] != [] && w[..k][0] == c;
      }
    }
    if Starts(p.first, c) {
      var a: Subject :| a != [] && a[0] == c && In(p.first, a);
      var b := SomeWord(p.second);
      var w := a + b;
      assert w[..|a|] == a && w[|a|..] == b;
      assert w != [] && w[0] == c && In(p, w);
    }
    if In(p.first, []) && Starts(p.second, c) {
      var b: Subject :| b != [] && b[0] == c && In(p.second, b);
      assert b[..0] == [] && b[0..] == b;
      assert In(p, b);
    }
  }

  lemma RepStarts(p: Pattern, c: Byte)
    requires p.Rep?
    ensures Starts(p, c) <==> Starts(p.body, c)
  {
    if Starts(p, c) {
      var w: Subject :| w != [] && w[0] == c && In(p, w);
      var k :| 0 < k <= |w| && In(p.body, w[..k]) && In(p, w[k..]);
      assert w[..k] != [] && w[..k][0] == c;
    }
    if Starts(p.body, c) {
      var a: Subject :| a != [] && a[0] == c && In(p.body, a);
      assert a[..|a|] == a && a[|a|..] == [];
      assert In(p, a);
    }
  }

  lemma ChoiceStarts(p: Pattern, c: Byte)
    requires p.Choice?
    ensures Starts(p, c) <==> Starts(p.first, c) || Starts(p.second, c)
  {
    if Starts(p.first, c) {
      var w: Subject :| w != [] && w[0] == c && In(p.first, w);
      assert In(p, w);
    }
    if Starts(p.second, c) {
      var w: Subject :| w != [] && w[0] == c && In(p.second, w);
      assert In(p, w);
    }
  }

  lemma CharStarts(p: Pattern, c: Byte)
    requires IsCharPattern(p)
    ensures Starts(p, c) <==> c in ToCharset(p)
  {
    if c in ToCharset(p) {
      var w: Subject := [c];
      assert w != [] && w[0] == c && In(p, w);
    }
  }

  /**
    The first set of a plain pattern has exactly the characters that its words start with, and those
    that may follow when the empty word is one of them; and exactly then it accepts the empty string.
   */
  lemma {:induction false} FirstExact(p: Pattern, follow: Charset, c: Byte)
    requires Plain(p) && Productive(p)
    ensures c in GetFirst(p, follow).cs <==> Starts(p, c) || (In(p, []) && c in follow)
    ensures GetFirst(p, follow).acceptsEmpty <==> In(p, [])
  {
    hide Starts;
    match p {
      case Char(_) => CharStarts(p, c);
      case Set(_) => CharStarts(p, c);
      case Any => CharStarts(p, c);
      case True => NothingStarts(c);
      case Rep(body) =>
        FirstExact(body, follow, c);
        RepStarts(p, c);
      case Seq(first, second) =>
        SeqStarts(p, c);
        EmptyWord(p);
        EmptyWord(first);
        EmptyWord(second);
        if !CheckAux(first, Nullable) {
          FirstExact(first, FullSet, c);
        } else {
          FirstExact(second, follow, c);
          FirstExact(first, GetFirst(second, follow).cs, c);
        }
      case Choice(first, second) =>
        FirstExact(first, follow, c);
        FirstExact(second, follow, c);
        ChoiceStarts(p, c);
    }
  }

  lemma NothingStarts(c: Byte)
    ensures !Starts(True, c)
  {
  }

  // ----- head-fail -----

  /** Plain, productive, without a choice in front, and starting with a character */
  predicate Direct(p: Pattern) {
    match p
    case Char(_) => true
    case Set(cs) => cs != {}
    case Any => true
    case Seq(first, second) => Direct(first) && Plain(second) && Productive(second)
    case _ => false
  }

  /** At the end of any subject a plain pattern does what it does on the empty one. */
  lemma {:induction false} AtEnd(p: Pattern, s: Subject)
    requires Plain(p)
    ensures Match(p, s, |s|) == if Match(p, [], 0).Some? then Some(|s|) else None
  {
    EmptySubjectDecides(p);
    match p {
      case Rep(body) => AtEnd(body, s);
      case Seq(first, second) =>
        AtEnd(first, s);
        AtEnd(second, s);
        EmptySubjectDecides(first);
      case Choice(first, second) =>
        AtEnd(first, s);
        AtEnd(second, s);
        EmptySubjectDecides(first);
      case _ =>
    }
  }

  lemma {:induction false} DirectTakesOne(p: Pattern, c: Byte)
    requires Direct(p)
    ensures Match(p, [c], 0) == None || Match(p, [c], 0) == Some(1)
    ensures !CheckAux(p, Nullable)
  {
    if p.Seq? {
      DirectTakesOne(p.first, c);
      AtEnd(p.second, [c]);
    }
  }

  /** Such a pattern is head-fail exactly when every single character of its first set is a match. */
  lemma {:induction false} HeadFailIff(p: Pattern)
    requires Direct(p)
    ensures HeadFail(p) <==> forall c :: c in GetFirst(p, FullSet).cs ==> Match(p, [c], 0).Some?
  {
    if p.Seq? {
      HeadFailIff(p.first);
      EmptySubjectDecides(p.second);
      forall c: Byte ensures Match(p, [c], 0).Some? <==> Match(p.first, [c], 0).Some? && CheckAux(p.second, NoFail) {
        DirectTakesOne(p.first, c);
        AtEnd(p.second, [c]);
      }
      DirectTakesOne(p.first, 0);
      var d := SomeFirst(p.first);
      assert d in GetFirst(p, FullSet).cs;
    }
  }

  lemma {:induction false} SomeFirst(p: Pattern) returns (c: Byte)
    requires Direct(p)
    ensures c in GetFirst(p, FullSet).cs
  {
    match p {
      case Char(d) => c := d;
      case Set(cs) => c :| c in cs;
      case Any => c := 0;
      case Seq(first, _) =>
        c := SomeFirst(first);
        DirectTakesOne(first, c);
    }
  }
}
