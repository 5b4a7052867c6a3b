/** strip_jsonc_comments, against a lexical grammar: strings (section 7 of RFC 8259),
    line comments and block comments. */
module JsoncMask {
  import opened Wrappers
  import opened Utf8

  const QUOTE: Byte := 34
  const STAR: Byte := 42
  const SLASH: Byte := 47
  const BACKSLASH: Byte := 92
  const LF: Byte := 10
  const CR: Byte := 13
  const SPACE: Byte := 32

  predicate IsBreak(b: Byte) {
    b == CR || b == LF
  }

  /** A comment's bytes, blanked but for line breaks. */
  function Blank(s: Text): (r: Text)
    ensures |r| == |s|
  {
    seq(|s|, i requires 0 <= i < |s| => if IsBreak(s[i]) then s[i] else SPACE)
  }

  // ------------------------------------------------------------- the grammar

  datatype Token =
    | Char(b: Byte)
    | Str(body: Text)
    | OpenStr(body: Text)
    | Line(body: Text)
    | Block(body: Text)
    | OpenBlock(body: Text)

  function Source(t: Token): Text {
    match t
    case Char(b) => [b]
    case Str(body) => [QUOTE] + body + [QUOTE]
    case OpenStr(body) => [QUOTE] + body
    case Line(body) => [SLASH, SLASH] + body
    case Block(body) => [SLASH, STAR] + body + [STAR, SLASH]
    case OpenBlock(body) => [SLASH, STAR] + body
  }

  function Masked(t: Token): (r: Text)
    ensures |r| == |Source(t)|
  {
    if t.Line? || t.Block? then Blank(Source(t)) else Source(t)
  }

  /** Characters and escapes up to, not including, a closing quote. A text that ends
      the input may stop inside an escape. */
  predicate StringBody(s: Text, open: bool) {
    if s == [] then true
    else if s[0] == BACKSLASH then if |s| == 1 then open else StringBody(s[2..], open)
    else s[0] != QUOTE && StringBody(s[1..], open)
  }

  predicate ClosesAt(s: Text, k: nat) {
    k + 2 <= |s| && s[k] == STAR && s[k + 1] == SLASH
  }

  /** A token may stand before `rest`. */
  ghost predicate Fits(t: Token, rest: Text) {
    match t
    case Char(b) => b != QUOTE && (b == SLASH && rest != [] ==> rest[0] != SLASH && rest[0] != STAR)
    case Str(body) => StringBody(body, false)
    case OpenStr(body) => rest == [] && StringBody(body, true)
    case Line(body) => (forall i :: 0 <= i < |body| ==> !IsBreak(body[i])) && (rest != [] ==> IsBreak(rest[0]))
    case Block(body) => forall k: nat :: k < |body| ==> !ClosesAt(body + [STAR, SLASH], k)
    case OpenBlock(body) => rest == [] && forall k: nat :: !ClosesAt(body, k)
  }

  /** toks is a reading of s by the grammar. */
  ghost predicate Lexes(toks: seq<Token>, s: Text) {
    if toks == [] then s == []
    else
      var src := Source(toks[0]);
      src <= s && Fits(toks[0], s[|src|..]) && Lexes(toks[1..], s[|src|..])
  }

  function Render(toks: seq<Token>): Text {
    if toks == [] then [] else Masked(toks[0]) + Render(toks[1..])
  }

  // ------------------------------------------------------------ the Rust loop

  /** Length up to the first line break, or to the end. */
  function LineLength(s: Text): (n: nat)
    ensures n <= |s| && (n < |s| ==> IsBreak(s[n]))
    ensures forall i :: 0 <= i < n ==> !IsBreak(s[i])
  {
    if s == [] || IsBreak(s[0]) then 0 else 1 + LineLength(s[1..])
  }

  /** Where the first block end begins. */
  function FindClose(s: Text): (r: Option<nat>)
    ensures r.Some? ==> ClosesAt(s, r.value) && forall k: nat :: k < r.value ==> !ClosesAt(s, k)
    ensures r.None? ==> forall k: nat :: !ClosesAt(s, k)
  {
    if ClosesAt(s, 0) then Some(0)
    else if s == [] then None
    else
      var r := FindClose(s[1..]);
      if r.None? then (assert forall k: nat :: k > 0 && ClosesAt(s, k) ==> ClosesAt(s[1..], k - 1); None)
      else (assert forall k: nat :: k > 0 && ClosesAt(s, k) ==> ClosesAt(s[1..], k - 1); Some(r.value + 1))
  }

  /** The end of the comment that starts s, if one does; None for an unterminated
      block. */
  datatype Scan = NoComment | Comment(n: nat) | Unterminated

  function ScanSlash(s: Text): (r: Scan)
    ensures r.Comment? ==> 2 <= r.n <= |s|
    ensures s == [] || s[0] != SLASH ==> r.NoComment?
  {
    if |s| < 2 || s[0] != SLASH then NoComment
    else if s[1] == SLASH then Comment(2 + LineLength(s[2..]))
    else if s[1] == STAR then
      var close := FindClose(s[2..]);
      if close.None? then Unterminated else Comment(close.value + 4)
    else NoComment
  }

  /** One round of the loop: how far it moves, whether it blanks what it passes, and
      the new string state. */
  datatype Round = Stop | Move(n: nat, blank: bool, inString: bool, escaped: bool)

  function OneRound(s: Text, inString: bool, escaped: bool): (r: Round)
    requires s != []
    ensures r.Move? ==> 1 <= r.n <= |s|
  {
    if inString then Move(1, false, escaped || s[0] != QUOTE, !escaped && s[0] == BACKSLASH)
    else if s[0] == QUOTE then Move(1, false, true, escaped)
    else
      match ScanSlash(s)
      case NoComment => Move(1, false, false, escaped)
      case Comment(n) => Move(n, true, false, escaped)
      case Unterminated => Stop
  }

  /** What the loop makes of the input from its offset on. */
  function Mask(s: Text, inString: bool, escaped: bool): (r: Text)
    ensures |r| == |s|
    decreases |s|
  {
    if s == [] then []
    else
      var r := OneRound(s, inString, escaped);
      if r.Stop? then s
      else (if r.blank then Blank(s[..r.n]) else s[..r.n]) + Mask(s[r.n..], r.inString, r.escaped)
  }

  lemma MaskRound(s: Text, inString: bool, escaped: bool)
    requires s != []
    ensures var r := OneRound(s, inString, escaped);
            && (r.Stop? ==> Mask(s, inString, escaped) == s)
            && (r.Move? ==>
                  Mask(s, inString, escaped)
                  == (if r.blank then Blank(s[..r.n]) else s[..r.n]) + Mask(s[r.n..], r.inString, r.escaped))
  {
  }

  /** strip_jsonc_comments on bytes. */
  method Strip(input: Text) returns (output: Text)
    ensures output == Mask(input, false, false)
  {
    hide Mask, Blank, ScanSlash;
    var out := new Byte[|input|](i requires 0 <= i < |input| => input[i]);
    var offset := 0;
    var inString, escaped := false, false;
    assert out[..] == input;
    while offset < |input|
      invariant Done(input, out[..], offset, inString, escaped)
    {
      var s := input[offset..];
      ghost var was := out[..];
      ghost var wasIn, wasEscaped := inString, escaped;
      ghost var r := OneRound(s, inString, escaped);
      var byte := input[offset];
      var n := 1;
      if inString {
        if escaped {
          escaped := false;
        } else if byte == BACKSLASH {
          escaped := true;
        } else if byte == QUOTE {
          inString := false;
        }
      } else if byte == QUOTE {
        inString := true;
      } else if byte == SLASH {
        var scan := ScanSlash(s);
        if scan.Unterminated? {
          break;
        }
        if scan.Comment? {
          n := scan.n;
          BlankOut(out, offset, offset + n);
        }
      }
      assert r == Move(n, r.blank, inString, escaped);
      RoundDone(input, was, out[..], offset, wasIn, wasEscaped, r);
      offset := offset + n;
    }
    Finished(input, out[..], offset, inString, escaped);
    output := out[..];
  }

  /** The loop has dealt with the input up to offset. */
  ghost predicate Done(input: Text, out: Text, offset: nat, inString: bool, escaped: bool) {
    && offset <= |input| == |out| && out[offset..] == input[offset..]
    && Mask(input, false, false) == out[..offset] + Mask(input[offset..], inString, escaped)
  }

  lemma RoundDone(input: Text, was: Text, out: Text, offset: nat, inString: bool, escaped: bool, r: Round)
    requires offset < |input| && Done(input, was, offset, inString, escaped)
    requires r == OneRound(input[offset..], inString, escaped) && r.Move?
    requires out == if r.blank then was[..offset] + Blank(was[offset..offset + r.n]) + was[offset + r.n..] else was
    ensures Done(input, out, offset + r.n, r.inString, r.escaped)
  {
    hide Mask, Blank, OneRound;
    var s := input[offset..];
    MaskRound(s, inString, escaped);
    assert s[..r.n] == was[offset..][..r.n] == was[offset..offset + r.n];
    assert input[offset + r.n..] == s[r.n..] == was[offset..][r.n..] == was[offset + r.n..];
    var piece := if r.blank then Blank(s[..r.n]) else s[..r.n];
    assert out == was[..offset] + piece + was[offset + r.n..];
    Regroup(was[..offset], piece, Mask(s[r.n..], r.inString, r.escaped));
  }

  lemma Regroup(a: Text, b: Text, c: Text)
    ensures a + (b + c) == a + b + c
  {
  }

  lemma Finished(input: Text, out: Text, offset: nat, inString: bool, escaped: bool)
    requires Done(input, out, offset, inString, escaped)
    requires offset == |input| || OneRound(input[offset..], inString, escaped).Stop?
    ensures out == Mask(input, false, false)
  {
    if offset < |input| {
      MaskRound(input[offset..], inString, escaped);
    }
    hide Mask;
    assert out == out[..offset] + out[offset..];
  }

  method BlankOut(out: array<Byte>, from: nat, to: nat)
    requires from <= to <= out.Length
    modifies out
    ensures out[..] == old(out[..from]) + Blank(old(out[from..to])) + old(out[to..])
  {
    ghost var was := out[..];
    for i := from to to
      invariant out[..from] == was[..from] && out[i..] == was[i..]
      invariant out[from..i] == Blank(was[from..i])
    {
      if !IsBreak(out[i]) {
        out[i] := SPACE;
      }
    }
    assert out[..] == out[..from] + out[from..to] + out[to..];
  }

  // --------------------------------------------------- the loop is the grammar

  lemma OneByte(s: Text, tail: Text, inString: bool)
    requires s != [] && tail == s[1..]
    requires inString ==> s[0] != QUOTE && s[0] != BACKSLASH
    requires !inString ==> s[0] != QUOTE && ScanSlash(s).NoComment?
    ensures Mask(s, inString, false) == [s[0]] + Mask(tail, inString, false)
  {
    MaskRound(s, inString, false);
    hide Mask, ScanSlash;
    assert s[..1] == [s[0]];
  }

  /** What a string's body and the rest of the input become. */
  function AfterBody(open: bool, tail: Text): Text {
    if open || tail == [] then [] else [QUOTE] + Mask(tail[1..], false, false)
  }

  lemma EscapeKept(s: Text)
    requires |s| > 1 && s[0] == BACKSLASH
    ensures Mask(s, true, false) == [s[0], s[1]] + Mask(s[2..], true, false)
  {
    hide Mask;
    MaskRound(s, true, false);
    MaskRound(s[1..], true, true);
    assert s[1..][..1] == [s[1]] && s[1..][1..] == s[2..] && s[..1] == [s[0]];
  }

  /** Inside a string every byte of the body is kept. */
  lemma {:induction false} StringKept(body: Text, open: bool, tail: Text)
    requires StringBody(body, open) && (open ==> tail == []) && (!open ==> tail != [] && tail[0] == QUOTE)
    ensures Mask(body + tail, true, false) == body + AfterBody(open, tail)
    decreases |body|
  {
    hide Mask, ScanSlash, AfterBody;
    if body == [] {
      assert body + tail == tail;
      QuoteCloses(open, tail);
    } else if body == [BACKSLASH] {
      LoneEscape(tail);
    } else {
      var k := if body[0] == BACKSLASH then 2 else 1;
      StringKept(body[k..], open, tail);
      BodyStep(body, k, tail);
      assert body == body[..k] + body[k..];
      Regroup(body[..k], body[k..], AfterBody(open, tail));
    }
  }

  lemma QuoteCloses(open: bool, tail: Text)
    requires (open ==> tail == []) && (!open ==> tail != [] && tail[0] == QUOTE)
    ensures Mask(tail, true, false) == AfterBody(open, tail)
  {
    if !open {
      MaskRound(tail, true, false);
      assert tail[..1] == [QUOTE];
    }
  }

  lemma LoneEscape(tail: Text)
    requires tail == []
    ensures Mask([BACKSLASH] + tail, true, false) == [BACKSLASH] + AfterBody(true, tail)
  {
    assert [BACKSLASH] + tail == [BACKSLASH];
    MaskRound([BACKSLASH], true, false);
  }

  /** One character or one escape of a body. */
  lemma BodyStep(body: Text, k: nat, tail: Text)
    requires 0 < k <= |body| && body[0] != QUOTE
    requires k == if body[0] == BACKSLASH then 2 else 1
    ensures Mask(body + tail, true, false) == body[..k] + Mask(body[k..] + tail, true, false)
  {
    hide Mask, ScanSlash;
    var s := body + tail;
    assert s[k..] == body[k..] + tail && s[..k] == body[..k];
    if k == 2 {
      EscapeKept(s);
    } else {
      OneByte(s, s[1..], true);
    }
  }

  lemma {:induction false} LineLengthIs(body: Text, rest: Text)
    requires (forall i :: 0 <= i < |body| ==> !IsBreak(body[i])) && (rest != [] ==> IsBreak(rest[0]))
    ensures LineLength(body + rest) == |body|
    decreases |body|
  {
    if body == [] {
      assert body + rest == rest;
    } else {
      assert (body + rest)[1..] == body[1..] + rest;
      LineLengthIs(body[1..], rest);
    }
  }

  lemma LineScanned(t: Token, rest: Text)
    requires t.Line? && Fits(t, rest)
    ensures ScanSlash(Source(t) + rest) == Comment(|Source(t)|)
  {
    LineLengthIs(t.body, rest);
    assert (Source(t) + rest)[2..] == t.body + rest;
  }

  lemma BlockScanned(t: Token, rest: Text)
    requires t.Block? && Fits(t, rest)
    ensures ScanSlash(Source(t) + rest) == Comment(|Source(t)|)
  {
    var s := Source(t) + rest;
    var inner := s[2..];
    assert inner == t.body + [STAR, SLASH] + rest;
    assert ClosesAt(inner, |t.body|);
    forall k: nat | k < |t.body| ensures !ClosesAt(inner, k) {
      assert !ClosesAt(t.body + [STAR, SLASH], k);
    }
  }

  lemma QuoteOpens(s: Text)
    requires s != [] && s[0] == QUOTE
    ensures Mask(s, false, false) == [QUOTE] + Mask(s[1..], true, false)
  {
    MaskRound(s, false, false);
    hide Mask;
    assert s[..1] == [QUOTE];
  }

  lemma ClosedMasked(body: Text, rest: Text)
    requires StringBody(body, false)
    ensures Mask([QUOTE] + body + [QUOTE] + rest, false, false) == [QUOTE] + body + [QUOTE] + Mask(rest, false, false)
  {
    hide Mask, StringBody;
    var s, tail := [QUOTE] + body + [QUOTE] + rest, [QUOTE] + rest;
    QuoteOpens(s);
    assert s[1..] == body + tail && tail[1..] == rest;
    StringKept(body, false, tail);
    Regroup([QUOTE], body, [QUOTE] + Mask(rest, false, false));
  }

  lemma OpenMasked(body: Text)
    requires StringBody(body, true)
    ensures Mask([QUOTE] + body, false, false) == [QUOTE] + body
  {
    hide Mask, StringBody;
    var s := [QUOTE] + body;
    QuoteOpens(s);
    assert s[1..] == body + [];
    StringKept(body, true, []);
  }

  lemma CommentMasked(t: Token, rest: Text)
    requires Fits(t, rest) && (t.Line? || t.Block? || t.OpenBlock?)
    ensures Mask(Source(t) + rest, false, false) == Masked(t) + Mask(rest, false, false)
  {
    var s := Source(t) + rest;
    if t.Line? {
      LineScanned(t, rest);
    } else if t.Block? {
      BlockScanned(t, rest);
    } else {
      assert s[2..] == t.body;
    }
    MaskRound(s, false, false);
    hide Mask, Fits, ScanSlash;
    assert s[|Source(t)|..] == rest && s[..|Source(t)|] == Source(t);
    assert Mask([], false, false) == [];
  }

  lemma TokenMasked(t: Token, rest: Text)
    requires Fits(t, rest)
    ensures Mask(Source(t) + rest, false, false) == Masked(t) + Mask(rest, false, false)
  {
    hide Mask;
    if t.Str? {
      ClosedMasked(t.body, rest);
    } else if t.OpenStr? {
      OpenMasked(t.body);
      assert Source(t) + rest == Source(t);
    } else if !t.Char? {
      CommentMasked(t, rest);
    } else {
      assert ([t.b] + rest)[1..] == rest;
      OneByte([t.b] + rest, rest, false);
    }
  }

  /** However the grammar reads the input, masking renders that reading: comments
      blanked, everything else as it was. */
  lemma {:induction false} MaskIsLexical(toks: seq<Token>, s: Text)
    requires Lexes(toks, s)
    ensures Mask(s, false, false) == Render(toks)
    decreases |toks|
  {
    if toks != [] {
      hide Mask, Fits, Masked, Source;
      var n := |Source(toks[0])|;
      assert s == Source(toks[0]) + s[n..];
      TokenMasked(toks[0], s[n..]);
      MaskIsLexical(toks[1..], s[n..]);
    }
  }

  /** The body of the string that starts s, and whether the input ends in it. */
  ghost predicate StringEnds(s: Text, n: nat) {
    n <= |s| && if n < |s| then s[n] == QUOTE && StringBody(s[..n], false) else StringBody(s, true)
  }

  lemma {:induction false} SplitString(s: Text)
    ensures exists n: nat :: StringEnds(s, n)
  {
    if s == [] || s[0] == QUOTE {
      assert StringEnds(s, 0);
    } else if s[0] == BACKSLASH && |s| == 1 {
      assert StringEnds(s, 1);
    } else {
      var k := if s[0] == BACKSLASH then 2 else 1;
      SplitString(s[k..]);
      var m: nat :| StringEnds(s[k..], m);
      assert s[..m + k][k..] == s[k..][..m];
      assert StringEnds(s, m + k);
    }
  }

  /** Token t starts s, and rest follows. */
  ghost predicate Starts(s: Text, t: Token, rest: Text) {
    s == Source(t) + rest && Fits(t, rest)
  }

  lemma FirstString(s: Text)
    requires s != [] && s[0] == QUOTE
    ensures exists t, rest :: Starts(s, t, rest)
  {
    hide StringBody;
    SplitString(s[1..]);
    var n: nat :| StringEnds(s[1..], n);
    if n < |s| - 1 {
      assert s == [QUOTE] + s[1..][..n] + [QUOTE] + s[n + 2..];
      assert Starts(s, Str(s[1..][..n]), s[n + 2..]);
    } else {
      assert Starts(s, OpenStr(s[1..]), []);
    }
  }

  lemma FirstLine(s: Text)
    requires |s| > 1 && s[0] == SLASH && s[1] == SLASH
    ensures exists t, rest :: Starts(s, t, rest)
  {
    var inner := s[2..];
    var n := LineLength(inner);
    assert s == [SLASH, SLASH] + inner[..n] + inner[n..];
    assert Starts(s, Line(inner[..n]), inner[n..]);
  }

  lemma ClosedBlock(inner: Text, n: nat)
    requires ClosesAt(inner, n) && forall k: nat :: k < n ==> !ClosesAt(inner, k)
    ensures Starts([SLASH, STAR] + inner, Block(inner[..n]), inner[n + 2..])
  {
    var body := inner[..n];
    assert inner == body + [STAR, SLASH] + inner[n + 2..];
    forall k: nat | k < n ensures !ClosesAt(body + [STAR, SLASH], k) {
      assert !ClosesAt(inner, k);
    }
  }

  lemma FirstBlock(s: Text)
    requires |s| > 1 && s[0] == SLASH && s[1] == STAR
    ensures exists t, rest :: Starts(s, t, rest)
  {
    var inner := s[2..];
    assert s == [SLASH, STAR] + inner;
    var close := FindClose(inner);
    if close.None? {
      assert Starts(s, OpenBlock(inner), []);
    } else {
      hide FindClose, Starts;
      ClosedBlock(inner, close.value);
    }
  }

  /** Some token starts s. */
  lemma FirstToken(s: Text)
    requires s != []
    ensures exists t, rest :: Starts(s, t, rest)
  {
    if s[0] == QUOTE {
      FirstString(s);
    } else if s[0] == SLASH && |s| > 1 && s[1] == SLASH {
      FirstLine(s);
    } else if s[0] == SLASH && |s| > 1 && s[1] == STAR {
      FirstBlock(s);
    } else {
      assert Starts(s, Char(s[0]), s[1..]);
    }
  }

  /** The grammar reads every input. */
  lemma {:induction false} EveryInputLexes(s: Text)
    ensures exists toks :: Lexes(toks, s)
    decreases |s|
  {
    if s == [] {
      assert Lexes([], s);
    } else {
      FirstToken(s);
      var t, rest :| Starts(s, t, rest);
      hide Fits;
      assert |Source(t)| > 0 && s[|Source(t)|..] == rest;
      EveryInputLexes(rest);
      var more :| Lexes(more, rest);
      var toks := [t] + more;
      assert toks[1..] == more && Lexes(toks, s);
    }
  }

  // -------------------------------------------------------------- consequences

  /** Every byte is kept or becomes a space, and line breaks stay line breaks. */
  lemma {:induction false} BreaksKept(s: Text, inString: bool, escaped: bool, i: nat)
    requires i < |s|
    ensures var m := Mask(s, inString, escaped);
            m[i] == s[i] || (m[i] == SPACE && !IsBreak(s[i]))
    ensures IsBreak(Mask(s, inString, escaped)[i]) <==> IsBreak(s[i])
    decreases |s|
  {
    var r := OneRound(s, inString, escaped);
    MaskRound(s, inString, escaped);
    hide Mask, OneRound;
    if r.Move? && i >= r.n {
      BreaksKept(s[r.n..], r.inString, r.escaped, i - r.n);
    }
  }

  function Offset(toks: seq<Token>, k: nat): nat
    requires k <= |toks|
  {
    if k == 0 then 0 else |Source(toks[0])| + Offset(toks[1..], k - 1)
  }

  lemma {:induction false} TokenAt(toks: seq<Token>, s: Text, k: nat)
    requires Lexes(toks, s) && k < |toks|
    ensures Offset(toks, k) + |Source(toks[k])| <= |s|
    ensures s[Offset(toks, k)..Offset(toks, k) + |Source(toks[k])|] == Source(toks[k])
    decreases k
  {
    hide Fits, Source;
    if k > 0 {
      var n := |Source(toks[0])|;
      TokenAt(toks[1..], s[n..], k - 1);
      var o := Offset(toks[1..], k - 1);
      assert s[n..][o..o + |Source(toks[k])|] == s[n + o..n + o + |Source(toks[k])|];
    }
  }

  lemma {:induction false} RenderedAt(toks: seq<Token>, k: nat)
    requires k < |toks|
    ensures Offset(toks, k) + |Source(toks[k])| <= |Render(toks)|
    ensures Render(toks)[Offset(toks, k)..Offset(toks, k) + |Source(toks[k])|] == Masked(toks[k])
    decreases k
  {
    hide Source;
    if k > 0 {
      var n := |Source(toks[0])|;
      RenderedAt(toks[1..], k - 1);
      var o := Offset(toks[1..], k - 1);
      assert Render(toks)[n..] == Render(toks[1..]);
      assert Render(toks)[n..][o..o + |Source(toks[k])|] == Render(toks)[n + o..n + o + |Source(toks[k])|];
    }
  }

  /** Token by token: strings, plain bytes and an unterminated block keep their
      bytes; comments are blanked. */
  lemma TokensKept(toks: seq<Token>, s: Text, k: nat)
    requires Lexes(toks, s) && k < |toks|
    ensures var o := Offset(toks, k); var e := o + |Source(toks[k])|;
            && e <= |s| && s[o..e] == Source(toks[k])
            && Mask(s, false, false)[o..e] ==
                 if toks[k].Line? || toks[k].Block? then Blank(s[o..e]) else s[o..e]
  {
    hide Mask, Lexes, Render, Offset;
    MaskIsLexical(toks, s);
    TokenAt(toks, s, k);
    RenderedAt(toks, k);
  }

  predicate AllBlank(b: Text) {
    forall i :: 0 <= i < |b| ==> b[i] == SPACE || IsBreak(b[i])
  }

  lemma {:induction false} BlankKept(b: Text, tail: Text)
    requires AllBlank(b)
    ensures Mask(b + tail, false, false) == b + Mask(tail, false, false)
    decreases |b|
  {
    hide Mask;
    if b == [] {
      assert b + tail == tail;
    } else {
      assert (b + tail)[1..] == b[1..] + tail;
      OneByte(b + tail, b[1..] + tail, false);
      BlankKept(b[1..], tail);
      assert b == [b[0]] + b[1..];
    }
  }

  /** A byte that starts no comment starts none after masking either. */
  lemma StillNoComment(s: Text, m: Text)
    requires s != [] && ScanSlash(s).NoComment? && s[0] != QUOTE
    requires |m| == |s| && m[0] == s[0] && (|s| > 1 ==> m[1] == s[1] || m[1] == SPACE)
    ensures ScanSlash(m).NoComment?
  {
  }

  /** Masking twice is masking once. */
  lemma {:induction false} MaskIdempotent(s: Text, inString: bool, escaped: bool)
    requires !inString ==> !escaped
    ensures Mask(Mask(s, inString, escaped), inString, escaped) == Mask(s, inString, escaped)
    decreases |s|
  {
    if s != [] {
      hide Mask, ScanSlash;
      var r := OneRound(s, inString, escaped);
      var m := Mask(s, inString, escaped);
      MaskRound(s, inString, escaped);
      if r.Move? {
        var rest := Mask(s[r.n..], r.inString, r.escaped);
        MaskIdempotent(s[r.n..], r.inString, r.escaped);
        assert m[r.n..] == rest;
        if r.blank {
          BlankKept(Blank(s[..r.n]), rest);
        } else {
          assert m[..1] == s[..1] && m[0] == s[..1][0];
          if !inString && s[0] != QUOTE {
            assert |s| > 1 ==> m[1] == rest[0];
            if |s| > 1 {
              BreaksKept(s[1..], false, false, 0);
            }
            StillNoComment(s, m);
          }
          MaskRound(m, inString, escaped);
        }
      }
    }
  }

  // --------------------------------------------------------------------- UTF-8

  lemma {:induction false} AsciiStays(b: Text)
    requires AllBlank(b)
    ensures Run(Boundary, b) == Boundary
  {
    if b != [] {
      AsciiStays(b[1..]);
    }
  }

  /** A comment ends with a slash, or where the input or a line break stands. */
  lemma CommentEnds(s: Text)
    requires ScanSlash(s).Comment?
    ensures var n := ScanSlash(s).n; n == |s| || IsBreak(s[n]) || s[n - 1] == SLASH
    ensures s[0] == SLASH
  {
    var n := ScanSlash(s).n;
    if s[1] == SLASH {
      assert n < |s| ==> s[2..][n - 2] == s[n];
    } else {
      assert s[2..][n - 3] == s[n - 1];
    }
  }

  /** So in valid text a comment is a whole number of characters. */
  lemma CommentIsWhole(q: Progress, s: Text)
    requires Proper(q) && ScanSlash(s).Comment? && Run(q, s) == Boundary
    ensures q == Boundary && Run(Boundary, s[..ScanSlash(s).n]) == Boundary
  {
    hide ScanSlash;
    var n := ScanSlash(s).n;
    CommentEnds(s);
    AsciiAtBoundary(q, s);
    assert s == s[..n] + s[n..];
    RunSplits(Boundary, s[..n], s[n..]);
    RunProper(Boundary, s[..n]);
    if n < |s| && IsBreak(s[n]) {
      AsciiAtBoundary(Run(Boundary, s[..n]), s[n..]);
    } else if n < |s| {
      assert s == s[..n - 1] + s[n - 1..] && s[..n] == s[..n - 1] + [SLASH];
      RunSplits(Boundary, s[..n - 1], s[n - 1..]);
      RunProper(Boundary, s[..n - 1]);
      AsciiAtBoundary(Run(Boundary, s[..n - 1]), s[n - 1..]);
      RunSplits(Boundary, s[..n - 1], [SLASH]);
    }
  }

  lemma {:induction false} RunKept(q: Progress, s: Text, inString: bool, escaped: bool)
    requires Proper(q) && Run(q, s) == Boundary
    ensures Run(q, Mask(s, inString, escaped)) == Boundary
    decreases |s|
  {
    if s != [] {
      hide Mask, ScanSlash;
      var r := OneRound(s, inString, escaped);
      MaskRound(s, inString, escaped);
      if r.Move? {
        assert s == s[..r.n] + s[r.n..];
        RunSplits(q, s[..r.n], s[r.n..]);
        RunProper(q, s[..r.n]);
        var kept := if r.blank then Blank(s[..r.n]) else s[..r.n];
        if r.blank {
          CommentIsWhole(q, s);
          AsciiStays(kept);
        }
        RunSplits(q, kept, Mask(s[r.n..], r.inString, r.escaped));
        RunKept(Run(q, s[..r.n]), s[r.n..], r.inString, r.escaped);
      }
    }
  }

  /** Masking keeps valid UTF-8 valid, so the conversion back to a string cannot fail. */
  lemma MaskKeepsUtf8(s: Text)
    requires ValidUtf8(s)
    ensures ValidUtf8(Mask(s, false, false))
  {
    RunKept(Boundary, s, false, false);
  }
}
