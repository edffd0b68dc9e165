/**
  Patterns of LPeg without captures, calls and grammars, and the meaning of a
  pattern on a subject. The meaning is the textbook one of parsing expression
  grammars; nothing in it refers to code, first sets or the virtual machine.
 */
module PegSemantics {
  import opened Common

  type Subject = seq<Byte>

  /** A 'Charset' bitmap, seen as the set of the bytes whose bit is on. */
  type Charset = set<Byte>

  const FullSet: Charset := set b: Byte | 0 <= b < 256

  const MAX_BEHIND := 255

  datatype Pattern =
    | Char(c: Byte)
    | Set(cs: Charset)
    | Any
    | True
    | False
    | Rep(body: Pattern)
    | Seq(first: Pattern, second: Pattern)
    | Choice(first: Pattern, second: Pattern)
    | Not(body: Pattern)
    | And(body: Pattern)
    | Behind(n: nat, body: Pattern)

  /** The characters a one-character pattern accepts (tocharset). */
  predicate IsCharPattern(p: Pattern) {
    p.Char? || p.Set? || p.Any?
  }

  function ToCharset(p: Pattern): (cs: Charset)
    requires IsCharPattern(p)
  {
    match p
    case Char(c) => {c}
    case Set(cs) => cs
    case Any => FullSet
  }

  /** The position where `p` stops when started at position `i` of `s`, or None if it fails. */
  function Match(p: Pattern, s: Subject, i: nat): (r: Option<nat>)
    requires i <= |s|
    ensures r.Some? ==> r.value <= |s|
    decreases p, |s| - i
  {
    match p
    case Char(c) => if i < |s| && s[i] == c then Some(i + 1) else None
    case Set(cs) => if i < |s| && s[i] in cs then Some(i + 1) else None
    case Any => if i < |s| then Some(i + 1) else None
    case True => Some(i)
    case False => None
    case Rep(body) =>
      var r := Match(body, s, i);
      if r.Some? && r.value > i then Match(p, s, r.value) else Some(i)
    case Seq(first, second) =>
      var r := Match(first, s, i);
      if r.Some? then Match(second, s, r.value) else None
    case Choice(first, second) =>
      var r := Match(first, s, i);
      if r.Some? then r else Match(second, s, i)
    case Not(body) => if Match(body, s, i).Some? then None else Some(i)
    case And(body) => if Match(body, s, i).Some? then Some(i) else None
    case Behind(n, body) => if n <= i then Match(body, s, i - n) else None
  }
}
