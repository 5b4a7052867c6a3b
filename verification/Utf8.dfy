/** Well-formed UTF-8. */
module Utf8 {
  import opened Wrappers

  /** Section 4 of RFC 3629, read byte by byte: at a character boundary, or with a
      next byte due between two bounds and `more` plain continuation bytes to go. */
  datatype Progress = Boundary | Due(lo: nat, hi: nat, more: nat) | Broken

  function Step(q: Progress, b: Byte): Progress {
    match q
    case Boundary =>
      if b < 0x80 then Boundary
      else if 0xC2 <= b <= 0xDF then Due(0x80, 0xBF, 0)
      else if b == 0xE0 then Due(0xA0, 0xBF, 1)
      else if b == 0xED then Due(0x80, 0x9F, 1)
      else if 0xE1 <= b <= 0xEF then Due(0x80, 0xBF, 1)
      else if b == 0xF0 then Due(0x90, 0xBF, 2)
      else if 0xF1 <= b <= 0xF3 then Due(0x80, 0xBF, 2)
      else if b == 0xF4 then Due(0x80, 0x8F, 2)
      else Broken
    case Due(lo, hi, more) =>
      if !(lo <= b <= hi) then Broken else if more == 0 then Boundary else Due(0x80, 0xBF, more - 1)
    case Broken => Broken
  }

  function Run(q: Progress, s: Text): Progress
    decreases |s|
  {
    if s == [] then q else Run(Step(q, s[0]), s[1..])
  }

  predicate ValidUtf8(s: Text) {
    Run(Boundary, s) == Boundary
  }

  lemma {:induction false} BrokenStays(s: Text)
    ensures Run(Broken, s) == Broken
  {
    if s != [] {
      BrokenStays(s[1..]);
    }
  }

  lemma {:induction false} RunSplits(q: Progress, a: Text, b: Text)
    ensures Run(q, a + b) == Run(Run(q, a), b)
    decreases |a|
  {
    if a == [] {
      assert a + b == b;
    } else {
      assert (a + b)[1..] == a[1..] + b;
      RunSplits(Step(q, a[0]), a[1..], b);
    }
  }

  /** The states a run can be in: bounds stay within continuation bytes. */
  predicate Proper(q: Progress) {
    q.Due? ==> 0x80 <= q.lo
  }

  lemma {:induction false} RunProper(q: Progress, s: Text)
    requires Proper(q)
    ensures Proper(Run(q, s))
    decreases |s|
  {
    if s != [] {
      RunProper(Step(q, s[0]), s[1..]);
    }
  }

  /** In valid text an ASCII byte stands at a boundary. */
  lemma AsciiAtBoundary(q: Progress, s: Text)
    requires Proper(q) && s != [] && s[0] < 0x80 && Run(q, s) == Boundary
    ensures q == Boundary
  {
    BrokenStays(s[1..]);
  }
}
