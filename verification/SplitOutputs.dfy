/** What comes out of the splitter, for any text at all: which slices, what was dropped, and how each slice
    splits when it is given back alone. */
module SplitOutputs {
  import opened Options
  import opened Splitter
  import opened SplitLaws
  import Text

  function Min(a: nat, b: nat): nat {
    if a < b then a else b
  }

  // ---- cutting a text at blanks, or after a token, cuts its tokens and nothing else

  lemma {:induction false} LineCommentCut(v: string, x: string)
    ensures LineComment(v).len == Min(LineComment(v + x).len, |v|)
  {
    if v != [] {
      assert (v + x)[1..] == v[1..] + x;
      LineCommentCut(v[1..], x);
    }
  }

  /** Where v is cut off: its token ended within v, or a blank comes next. */
  predicate Cuttable(n: nat, v: string, x: string) {
    n <= |v| || (x != [] && Text.IsSpace(x[0]))
  }

  lemma {:induction false} BlockCommentCut(v: string, x: string, depth: nat)
    requires Cuttable(BlockComment(v + x, depth).len, v, x)
    ensures BlockComment(v, depth).len == Min(BlockComment(v + x, depth).len, |v|)
    decreases |v|
  {
    if depth > 0 && v != [] {
      assert (v + x)[1..] == v[1..] + x;
      if |v| > 1 {
        assert (v + x)[2..] == v[2..] + x;
        if v[0] == '/' && v[1] == '*' {
          BlockCommentCut(v[2..], x, depth + 1);
        } else if v[0] == '*' && v[1] == '/' {
          BlockCommentCut(v[2..], x, depth - 1);
        } else {
          BlockCommentCut(v[1..], x, depth);
        }
      } else {
        BlockCommentCut(v[1..], x, depth);
      }
    }
  }

  /** A pair that stands for one byte, or any other byte that is not the mark. */
  lemma QuotedSteps(v: string, x: string, mark: char, escapes: bool)
    requires |v| > 1
    ensures var pair := (escapes && v[0] == '\\') || (v[0] == mark && v[1] == mark);
            && (pair ==> Quoted(v, mark, escapes) == Longer(2, Quoted(v[2..], mark, escapes)))
            && (pair ==> Quoted(v + x, mark, escapes) == Longer(2, Quoted(v[2..] + x, mark, escapes)))
            && (!pair && v[0] != mark ==> Quoted(v, mark, escapes) == Longer(1, Quoted(v[1..], mark, escapes)))
            && (!pair && v[0] != mark ==> Quoted(v + x, mark, escapes) == Longer(1, Quoted(v[1..] + x, mark, escapes)))
            && (!pair && v[0] == mark ==> Quoted(v, mark, escapes).len == 1 == Quoted(v + x, mark, escapes).len)
  {
    assert (v + x)[2..] == v[2..] + x && (v + x)[1..] == v[1..] + x;
  }

  lemma {:induction false} QuotedCut(v: string, x: string, mark: char, escapes: bool)
    requires mark == '\'' || mark == '"'
    requires Cuttable(Quoted(v + x, mark, escapes).len, v, x)
    ensures Quoted(v, mark, escapes).len == Min(Quoted(v + x, mark, escapes).len, |v|)
    decreases |v|
  {
    if |v| == 1 {
      LastQuotedByteCut(v, x, mark, escapes);
    } else if |v| > 1 {
      QuotedSteps(v, x, mark, escapes);
      if (escapes && v[0] == '\\') || (v[0] == mark && v[1] == mark) {
        QuotedCut(v[2..], x, mark, escapes);
      } else if v[0] != mark {
        QuotedCut(v[1..], x, mark, escapes);
      }
    }
  }

  lemma LastQuotedByteCut(v: string, x: string, mark: char, escapes: bool)
    requires |v| == 1 && (mark == '\'' || mark == '"')
    requires Cuttable(Quoted(v + x, mark, escapes).len, v, x)
    ensures Quoted(v, mark, escapes).len == Min(Quoted(v + x, mark, escapes).len, 1)
  {
    assert v[1..] == [];
    if x != [] { assert (v + x)[1] == x[0]; }
  }

  lemma {:induction false} IndexCut(v: string, x: string, tag: string)
    ensures Index(v, tag) ==
            if Index(v + x, tag).Some? && Index(v + x, tag).value + |tag| <= |v| then Index(v + x, tag) else None
  {
    if Index(v, tag).Some? {
      IndexExtends(v, x, tag);
    } else if Index(v + x, tag).Some? && Index(v + x, tag).value + |tag| <= |v| {
      IndexFoundInside(v, x, tag);
    }
  }

  lemma {:induction false} IndexFoundInside(v: string, x: string, tag: string)
    requires Index(v + x, tag).Some? && Index(v + x, tag).value + |tag| <= |v|
    ensures Index(v, tag).Some?
  {
    if tag <= v + x {
      assert tag == (v + x)[..|tag|] == v[..|tag|];
    } else if v != [] {
      assert (v + x)[1..] == v[1..] + x;
      IndexFoundInside(v[1..], x, tag);
    }
  }

  lemma TagLengthCut(v: string, x: string)
    requires v != []
    ensures var n := TagLength(v + x);
            TagLength(v) == if n.Some? && n.value <= |v| then n else None
  {
    assert (v + x)[1..] == v[1..] + x;
    IdentRunAppends(v[1..], x);
  }

  /** A delimiter holds no blank. */
  lemma TagHoldsNoBlank(s: string, i: nat)
    requires s != [] && TagLength(s).Some? && 1 <= i < TagLength(s).value
    ensures !Text.IsSpace(s[i])
  {
    IdentRunHoldsIdents(s[1..]);
    assert i < TagLength(s).value - 1 ==> s[i] == s[1..][i - 1];
  }

  lemma {:induction false} IdentRunHoldsIdents(s: string)
    ensures forall i | 0 <= i < IdentRun(s) :: IsIdent(s[i])
  {
    if s != [] && IsIdent(s[0]) {
      IdentRunHoldsIdents(s[1..]);
      assert forall i | 1 <= i < IdentRun(s) :: s[i] == s[1..][i - 1];
    }
  }

  lemma DollarQuotedCut(v: string, x: string, n: nat)
    requires n <= |v|
    ensures DollarQuoted(v, n).len == Min(DollarQuoted(v + x, n).len, |v|)
  {
    assert (v + x)[n..] == v[n..] + x && (v + x)[..n] == v[..n];
    IndexCut(v[n..], x, v[..n]);
  }

  lemma DollarCut(before: string, v: string, x: string)
    requires v != [] && v[0] == '$' && Cuttable(Next(before, v + x).scan.len, v, x)
    ensures Next(before, v).kind == Next(before, v + x).kind
    ensures Next(before, v).scan.len == Min(Next(before, v + x).scan.len, |v|)
  {
    TagLengthCut(v, x);
    var n := TagLength(v + x);
    if n.Some? && n.value > |v| {
      TagHoldsNoBlank(v + x, |v|);
    } else if n.Some? {
      DollarQuotedCut(v, x, n.value);
    }
  }

  lemma NextCut(before: string, v: string, x: string)
    requires v != [] && Cuttable(Next(before, v + x).scan.len, v, x)
    ensures Next(before, v).kind == Next(before, v + x).kind
    ensures Next(before, v).scan.len == Min(Next(before, v + x).scan.len, |v|)
  {
    var whole, c := v + x, v[0];
    assert whole[1..] == v[1..] + x;
    if |v| > 1 { assert whole[2..] == v[2..] + x; }
    if c == '-' && |v| > 1 && v[1] == '-' {
      LineCommentCut(v[2..], x);
    } else if c == '/' && |v| > 1 && v[1] == '*' {
      BlockCommentCut(v[2..], x, 1);
    } else if c == '\'' || c == '"' {
      QuotedCut(v[1..], x, c, c == '\'' && EscapesAfter(before));
    } else if c == '$' {
      DollarCut(before, v, x);
    }
  }

  // ---- a trimmed segment, alone

  /** Without the two blanks, vertical tab and form feed, that trimming drops and the lexer takes for code. */
  predicate Plain(s: string) {
    '\U{0B}' !in s && '\U{0C}' !in s
  }

  /** A blank is a token of its own, and code only where it is not plain. */
  lemma FirstPastABlank(before: string, text: string, passed: string, left: string)
    requires text != [] && Text.IsSpace(text[0]) && passed == before + text[..1] && left == text[1..]
    ensures First(SQL, before, text).len == 1 + First(SQL, passed, left).len
    ensures Plain(text[..1]) ==> First(SQL, before, text).code == First(SQL, passed, left).code
  {
    var t := Next(before, text);
    assert t.scan.len == 1;
    assert text[0] in text[..1];
    FirstPastAToken(SQL, before, text);
  }

  lemma FirstAtABreak(lex: Lexer, before: string, text: string)
    requires First(lex, before, text).len == 0
    ensures !First(lex, before, text).code
  {
  }

  lemma {:induction false} BlanksHoldNoCode(before: string, w: string, text: string)
    requires Text.AllSpace(w) && Plain(w) && w <= text && First(SQL, before, text).len == |w|
    ensures !First(SQL, before, text).code
    decreases |w|
  {
    if w == [] {
      FirstAtABreak(SQL, before, text);
    } else {
      var passed, left := before + text[..1], text[1..];
      FirstPastABlank(before, text, passed, left);
      BlanksHoldNoCode(passed, w[1..], left);
    }
  }

  lemma OneByteOn(before: string, lead: string, rest: string)
    requires lead != []
    ensures (lead + rest)[1..] == lead[1..] + rest && before + (lead + rest)[..1] + lead[1..] == before + lead
    ensures (lead + rest)[..1] == lead[..1]
  {
  }

  lemma {:induction false} SkipBlanks(before: string, lead: string, text: string, passed: string, rest: string)
    requires Text.AllSpace(lead) && text == lead + rest && passed == before + lead
    ensures First(SQL, before, text).len == |lead| + First(SQL, passed, rest).len
    ensures Plain(lead) ==> First(SQL, before, text).code == First(SQL, passed, rest).code
    decreases |lead|
  {
    if lead == [] {
      assert text == rest && passed == before;
    } else {
      var next, left := before + text[..1], text[1..];
      FirstPastABlank(before, text, next, left);
      OneByteOn(before, lead, rest);
      SkipBlanks(next, lead[1..], left, passed, rest);
    }
  }

  lemma OneTokenOn(pre: string, before: string, v: string, w: string, text: string, n: nat)
    requires v + w <= text && n <= |v|
    ensures v[n..] + w <= text[n..] && (pre + before) + text[..n] == pre + (before + v[..n])
  {
    assert text[..n] == v[..n];
    assert (v + w)[n..] == v[n..] + w;
  }

  lemma BlanksLeft(v: string, w: string, text: string, n: nat)
    requires v + w <= text && |v| <= n <= |v| + |w|
    ensures w[n - |v|..] <= text[n..]
  {
    assert (v + w)[n..] == w[n - |v|..];
  }

  /** A segment's text v, trimmed of the blanks w, holds on its own the tokens it held in place. */
  lemma {:induction false} FirstCut(pre: string, before: string, v: string, w: string, text: string, passed: string)
    requires Apart(pre) && passed == pre + before && Text.AllSpace(w) && v + w <= text
    requires First(SQL, passed, text).len == |v| + |w|
    ensures First(SQL, before, v).len == |v|
    ensures Plain(w) && First(SQL, passed, text).code ==> First(SQL, before, v).code
    decreases |v|
  {
    if v == [] {
      if Plain(w) { BlanksHoldNoCode(passed, w, text); }
    } else {
      var n := Next(passed, text).scan.len;
      FirstNotEmpty(SQL, passed, text);
      TokenCut(pre, before, v, w, text, passed);
      FirstPastAToken(SQL, passed, text);
      FirstPastAToken(SQL, before, v);
      if n <= |v| {
        OneTokenOn(pre, before, v, w, text, n);
        FirstCut(pre, before + v[..n], v[n..], w, text[n..], passed + text[..n]);
      } else if Plain(w) {
        BlanksLeft(v, w, text, n);
        BlanksHoldNoCode(passed + text[..n], w[n - |v|..], text[n..]);
      }
    }
  }

  lemma FirstNotEmpty(lex: Lexer, before: string, text: string)
    requires First(lex, before, text).len > 0
    ensures text != [] && !lex(before, text).kind.Separator?
    ensures lex(before, text).scan.len <= First(lex, before, text).len
  {
  }

  lemma TokenCut(pre: string, before: string, v: string, w: string, text: string, passed: string)
    requires Apart(pre) && passed == pre + before && Text.AllSpace(w) && v != [] && v + w <= text
    requires Next(passed, text).scan.len <= |v| + |w|
    ensures Next(before, v).kind == Next(passed, text).kind
    ensures Next(before, v).scan.len == Min(Next(passed, text).scan.len, |v|)
  {
    var x := text[|v|..];
    assert text == v + x;
    assert w != [] ==> x[0] == w[0];
    NextCut(passed, v, x);
    EscapesAfterApart(pre, before);
  }

  // ---- every output, alone

  lemma TrimmedTwice(u: string)
    ensures Text.TrimSpace(Text.TrimSpace(u)) == Text.TrimSpace(u)
  {
    var left := Text.TrimLeft(u);
    var t := Text.TrimRight(left);
    Text.TrimLeftIs(u);
    Text.TrimRightIs(left);
    if t != [] { assert t[0] == left[0]; }
  }

  lemma TrimPieces(u: string, left: string, t: string, lead: string, w: string)
    requires |left| <= |u| && left == u[|u| - |left|..] && |t| <= |left| && t == left[..|t|]
    requires lead == u[..|u| - |left|] && w == left[|t|..]
    ensures u == lead + t + w
  {
    assert left == t + w;
  }

  lemma TrimmedParts(u: string) returns (lead: string, w: string)
    ensures u == lead + Text.TrimSpace(u) + w && Text.AllSpace(lead) && Text.AllSpace(w)
    ensures |lead| == |u| - |Text.TrimLeft(u)|
  {
    var left := Text.TrimLeft(u);
    var t := Text.TrimRight(left);
    Text.TrimLeftIs(u);
    Text.TrimRightIs(left);
    lead, w := u[..|u| - |left|], left[|t|..];
    TrimPieces(u, left, t, lead, w);
  }

  /** Trimmed, not empty, and with no separator of its own. */
  predicate Single(o: string) {
    o != "" && Text.TrimSpace(o) == o && First(SQL, [], o).len == |o|
  }

  predicate AllSingle(outs: seq<string>, coded: bool) {
    forall o | o in outs :: Single(o) && (coded ==> First(SQL, [], o).code)
  }

  lemma TrimmedSegment(pre: string, rest: string, lead: string, o: string, w: string, text: string)
    requires Apart(pre) && Text.AllSpace(lead) && Text.AllSpace(w) && rest == lead + text && o + w <= text
    requires First(SQL, pre, rest).len == |lead| + |o| + |w|
    ensures First(SQL, [], o).len == |o|
    ensures First(SQL, pre, rest).code && Plain(lead) && Plain(w) ==> First(SQL, [], o).code
  {
    var passed := pre + lead;
    SkipBlanks(pre, lead, rest, passed, text);
    assert passed + [] == passed;
    FirstCut(passed, [], o, w, text, passed);
  }

  lemma TrimmedIsSingle(pre: string, rest: string, u: string, g: Segment, lead: string, o: string, w: string)
    requires Apart(pre) && g == First(SQL, pre, rest) && u == rest[..g.len] && u == lead + o + w
    requires Text.AllSpace(lead) && Text.AllSpace(w)
    ensures First(SQL, [], o).len == |o| && (g.code && Plain(rest) ==> First(SQL, [], o).code)
  {
    Cutting(rest, u, lead, o, w);
    TrimmedSegment(pre, rest, lead, o, w, rest[|lead|..]);
  }

  lemma EmittedIsSingle(pre: string, rest: string, u: string, g: Segment)
    requires Apart(pre) && g == First(SQL, pre, rest) && u == rest[..g.len]
    ensures AllSingle(Emit(Piece(u, g.code)), Plain(rest))
  {
    if g.code && Text.TrimSpace(u) != "" {
      var lead, w := TrimmedParts(u);
      TrimmedTwice(u);
      TrimmedIsSingle(pre, rest, u, g, lead, Text.TrimSpace(u), w);
    }
  }

  lemma Cutting(rest: string, u: string, lead: string, o: string, w: string)
    requires u <= rest && u == lead + o + w
    ensures rest == lead + rest[|lead|..] && o + w <= rest[|lead|..]
    ensures Plain(rest) ==> Plain(lead) && Plain(w)
  {
    assert u[|lead|..] == o + w && u[..|lead|] == lead;
    assert forall c | c in lead || c in w :: c in rest by {
      assert forall c | c in lead || c in w :: c in u;
    }
  }

  lemma FirstPiece(lex: Lexer, pre: string, rest: string)
    ensures var g := First(lex, pre, rest);
            && (g.len < |rest| ==> rest[g.len] == ';')
            && PiecesFrom(lex, |pre|, pre, rest, false) == [Piece(rest[..g.len], g.code)] + Later(lex, pre, rest, g.len)
  {
    var g := First(lex, pre, rest);
    PiecesBySegment(lex, |pre|, pre, rest, false);
    assert (pre + rest[..g.len])[|pre|..] == rest[..g.len];
  }

  predicate AllPiecesSingle(ps: seq<Piece>, coded: bool) {
    forall p | p in ps :: AllSingle(Emit(p), coded)
  }

  lemma {:induction false} PiecesAreSingle(pre: string, rest: string, coded: bool)
    requires Apart(pre) && (coded ==> Plain(rest))
    ensures AllPiecesSingle(PiecesFrom(SQL, |pre|, pre, rest, false), coded)
    decreases |rest|
  {
    var g := First(SQL, pre, rest);
    FirstPiece(SQL, pre, rest);
    EmittedIsSingle(pre, rest, rest[..g.len], g);
    if g.len < |rest| { LaterIsSingle(pre, rest, g.len, coded); }
    AllPiecesSingleCons(Piece(rest[..g.len], g.code), Later(SQL, pre, rest, g.len), coded);
  }

  lemma AllPiecesSingleCons(p: Piece, ps: seq<Piece>, coded: bool)
    requires AllSingle(Emit(p), coded) && AllPiecesSingle(ps, coded)
    ensures AllPiecesSingle([p] + ps, coded)
  {
  }

  lemma {:induction false} LaterIsSingle(pre: string, rest: string, m: nat, coded: bool)
    requires m < |rest| && rest[m] == ';' && (coded ==> Plain(rest))
    ensures AllPiecesSingle(Later(SQL, pre, rest, m), coded)
    decreases |rest|, 0
  {
    var next := pre + rest[..m + 1];
    assert |next| == |pre| + m + 1;
    PiecesAreSingle(next, rest[m + 1..], coded);
  }

  lemma {:induction false} GatheredComeFromPieces<T>(make: Piece -> seq<T>, ps: seq<Piece>, x: T)
    requires x in Gather(make, ps)
    ensures exists p :: p in ps && x in make(p)
  {
    if x in make(ps[0]) {
      assert ps[0] in ps;
    } else {
      GatheredComeFromPieces(make, ps[1..], x);
      var p :| p in ps[1..] && x in make(p);
      assert p in ps;
    }
  }

  lemma OutputIsSingle(src: string, o: string)
    requires o in Split(src)
    ensures Single(o) && (Plain(src) ==> First(SQL, [], o).code)
  {
    var ps := PiecesOf(src);
    PiecesAreSingle([], src, Plain(src));
    GatheredComeFromPieces(Emit, ps, o);
    var p :| p in ps && o in Emit(p);
    assert AllSingle(Emit(p), Plain(src));
  }

  lemma SingleSplits(o: string)
    requires Single(o)
    ensures Split(o) == if First(SQL, [], o).code then [o] else []
  {
    var g := First(SQL, [], o);
    FirstPiece(SQL, [], o);
    assert o[..g.len] == o;
    GatherOne(Emit, Piece(o, g.code));
  }

  /** Each output splits to itself alone, exactly when it still holds code of its own: when it is more than
      comments and blanks. A text without vertical tabs and form feeds yields no other kind. */
  lemma OutputsSplitToThemselves(src: string, o: string)
    requires o in Split(src)
    ensures Split(o) == [o] <==> First(SQL, [], o).code
    ensures Split(o) == [o] || Split(o) == []
    ensures Plain(src) ==> Split(o) == [o]
  {
    OutputIsSingle(src, o);
    SingleSplits(o);
  }

  const ODD_BLANK := "\U{0B}/*c*/"

  lemma TheCommentIsOneToken(before: string)
    ensures First(SQL, before, "/*c*/") == Segment(5, false, true)
  {
    var c := "/*c*/";
    assert c[2..] == "c*/" && "c*/"[1..] == "*/" && "*/"[2..] == "";
    assert BlockComment("*/", 1) == Scan(2, true);
    assert BlockComment("c*/", 1) == Scan(3, true);
    assert Next(before, c) == Token(Remark, Scan(5, true));
    assert c[5..] == [];
  }

  lemma TheCommentIsTrimmed(c: string)
    requires c == "/*c*/"
    ensures Text.TrimLeft(c) == c && Text.TrimSpace(c) == c
  {
    assert !Text.IsSpace(c[0]) && !Text.IsSpace(c[4]);
  }

  lemma TheTabIsTrimmed()
    ensures Text.TrimSpace(ODD_BLANK) == "/*c*/"
  {
    assert Text.IsSpace(ODD_BLANK[0]) && ODD_BLANK[1..] == "/*c*/";
    TheCommentIsTrimmed("/*c*/");
  }

  /** A vertical tab counts as code and is then trimmed away, so a lone comment is emitted as a statement; given
      back, it is no statement. */
  lemma ALoneCommentCanComeOut()
    ensures Split(ODD_BLANK) == ["/*c*/"] && Split("/*c*/") == []
  {
    TheTabIsTrimmed();
    TheTabIsCode();
    FirstPiece(SQL, [], ODD_BLANK);
    assert ODD_BLANK[..6] == ODD_BLANK;
    GatherOne(Emit, Piece(ODD_BLANK, true));
    TheCommentIsNone("/*c*/");
  }

  lemma TheCommentIsNone(c: string)
    requires c == "/*c*/"
    ensures Split(c) == []
  {
    TheCommentIsTrimmed(c);
    TheCommentIsOneToken([]);
    SingleSplits(c);
  }

  lemma TheTabIsCode()
    ensures First(SQL, [], ODD_BLANK) == Segment(6, true, true)
  {
    assert Next([], ODD_BLANK) == Token(Code, Scan(1, true));
    assert ODD_BLANK[1..] == "/*c*/";
    TheCommentIsOneToken([] + ODD_BLANK[..1]);
  }

  // ---- which slices, and what is dropped

  /** What kind of token each byte belongs to. */
  function Kinds(lex: Lexer, before: string, rest: string): (ks: seq<Kind>)
    ensures |ks| == |rest|
    decreases |rest|
  {
    if rest == [] then []
    else
      var t := lex(before, rest);
      seq(t.scan.len, _ => t.kind) + Kinds(lex, before + rest[..t.scan.len], rest[t.scan.len..])
  }

  datatype Span = Span(from: nat, to: nat)

  predicate Covered(spans: seq<Span>, i: nat) {
    exists k :: 0 <= k < |spans| && spans[k].from <= i < spans[k].to
  }

  predicate Droppable(c: char, kind: Kind) {
    Text.IsSpace(c) || kind.Remark? || kind.Separator?
  }

  /** The outputs are these slices of the text, none empty. */
  predicate AreSlices(outs: seq<string>, text: string, spans: seq<Span>) {
    && |spans| == |outs|
    && forall k | 0 <= k < |spans| ::
         spans[k].from < spans[k].to <= |text| && text[spans[k].from..spans[k].to] == outs[k]
  }

  /** In the text's own order, and a byte at least between one and the next. */
  predicate InOrder(spans: seq<Span>) {
    forall j, k | 0 <= j < k < |spans| :: spans[j].to < spans[k].from
  }

  /** A slice holds no separator, and what no slice holds is blank, comment or separator. */
  predicate Conserves(text: string, ks: seq<Kind>, spans: seq<Span>)
    requires |ks| == |text|
  {
    && (forall i | 0 <= i < |text| && Covered(spans, i) :: !ks[i].Separator?)
    && (forall i | 0 <= i < |text| && !Covered(spans, i) :: Droppable(text[i], ks[i]))
  }

  /** The bytes of the first segment are no separators, and code only if it has code. */
  predicate Segmented(ks: seq<Kind>, rest: string, g: Segment)
    requires |ks| == |rest| && g.len <= |rest|
  {
    && (forall i | 0 <= i < g.len :: !ks[i].Separator? && (ks[i].Blank? ==> Text.IsSpace(rest[i])))
    && (!g.code ==> forall i | 0 <= i < g.len :: !ks[i].Code?)
    && (g.len < |rest| ==> ks[g.len].Separator?)
  }

  lemma KindsAtABreak(lex: Lexer, before: string, rest: string)
    requires rest == [] || lex(before, rest).kind.Separator?
    ensures Segmented(Kinds(lex, before, rest), rest, First(lex, before, rest))
    ensures TailIs(lex, before, rest, First(lex, before, rest).len, Kinds(lex, before, rest))
  {
    FirstAtOnce(lex, before, rest);
    if rest != [] { KindsPastAToken(lex, before, rest); }
  }

  lemma {:induction false} KindsOfFirst(lex: Lexer, before: string, rest: string)
    ensures Segmented(Kinds(lex, before, rest), rest, First(lex, before, rest))
    decreases |rest|
  {
    if rest == [] || lex(before, rest).kind.Separator? {
      KindsAtABreak(lex, before, rest);
    } else {
      var n := lex(before, rest).scan.len;
      KindsOfFirst(lex, before + rest[..n], rest[n..]);
      KindsPastAToken(lex, before, rest);
      FirstPastAToken(lex, before, rest);
      SegmentGrows(Kinds(lex, before, rest), Kinds(lex, before + rest[..n], rest[n..]), rest, rest[n..], n,
                   First(lex, before + rest[..n], rest[n..]), First(lex, before, rest));
    }
  }

  lemma FirstAtOnce(lex: Lexer, before: string, rest: string)
    requires rest == [] || lex(before, rest).kind.Separator?
    ensures First(lex, before, rest).len == 0
  {
  }

  /** After the separator m bytes on, the kinds are those of the text that begins there. */
  ghost predicate TailIs(lex: Lexer, before: string, rest: string, m: nat, ks: seq<Kind>) {
    |ks| == |rest| && (m < |rest| ==> ks[m + 1..] == Kinds(lex, before + rest[..m + 1], rest[m + 1..]))
  }

  lemma TailGrows(lex: Lexer, before: string, rest: string, n: nat, m: nat, ks: seq<Kind>, ls: seq<Kind>)
    requires n <= |rest| == |ks| && ls == ks[n..] && TailIs(lex, before + rest[..n], rest[n..], m, ls)
    ensures TailIs(lex, before, rest, n + m, ks)
  {
    if n + m < |rest| {
      RegroupKinds(lex, before, rest, n, m);
      TailOfTail(ks, ls, n, m + 1);
    }
  }

  lemma {:induction false} KindsAfterFirst(lex: Lexer, before: string, rest: string)
    ensures TailIs(lex, before, rest, First(lex, before, rest).len, Kinds(lex, before, rest))
    decreases |rest|
  {
    if rest == [] || lex(before, rest).kind.Separator? {
      KindsAtABreak(lex, before, rest);
    } else {
      var n := lex(before, rest).scan.len;
      KindsAfterFirst(lex, before + rest[..n], rest[n..]);
      TailPastAToken(lex, before, rest, n);
    }
  }

  lemma TailPastAToken(lex: Lexer, before: string, rest: string, n: nat)
    requires rest != [] && !lex(before, rest).kind.Separator? && n == lex(before, rest).scan.len
    requires var p, l := before + rest[..n], rest[n..]; TailIs(lex, p, l, First(lex, p, l).len, Kinds(lex, p, l))
    ensures TailIs(lex, before, rest, First(lex, before, rest).len, Kinds(lex, before, rest))
  {
    KindsPastAToken(lex, before, rest);
    FirstPastAToken(lex, before, rest);
    TailGrows(lex, before, rest, n, First(lex, before + rest[..n], rest[n..]).len,
              Kinds(lex, before, rest), Kinds(lex, before + rest[..n], rest[n..]));
  }

  lemma TailOfTail(ks: seq<Kind>, ls: seq<Kind>, n: nat, m: nat)
    requires n + m <= |ks| && ls == ks[n..]
    ensures ks[n + m..] == ls[m..]
  {
  }

  lemma KindsPastAToken(lex: Lexer, before: string, rest: string)
    requires rest != []
    ensures var t := lex(before, rest);
            var ks := Kinds(lex, before, rest);
            && (forall i | 0 <= i < t.scan.len :: ks[i] == t.kind)
            && ks[t.scan.len..] == Kinds(lex, before + rest[..t.scan.len], rest[t.scan.len..])
  {
  }

  lemma SegmentGrows(ks: seq<Kind>, ls: seq<Kind>, rest: string, left: string, n: nat, h: Segment, g: Segment)
    requires |ks| == |rest| && |ls| == |left| && n <= |rest| && left == rest[n..] && ls == ks[n..]
    requires h.len <= |left| && Segmented(ls, left, h) && g.len == n + h.len && (h.code ==> g.code)
    requires forall i | 0 <= i < n :: !ks[i].Separator? && (ks[i].Blank? ==> Text.IsSpace(rest[i]))
    requires forall i | 0 <= i < n :: ks[i].Code? ==> g.code
    ensures Segmented(ks, rest, g)
  {
    assert forall i | n <= i < |rest| :: ks[i] == ls[i - n] && rest[i] == left[i - n];
  }

  lemma RegroupKinds(lex: Lexer, before: string, rest: string, n: nat, m: nat)
    requires n + m < |rest|
    ensures Kinds(lex, before + rest[..n] + rest[n..][..m + 1], rest[n..][m + 1..]) ==
            Kinds(lex, before + rest[..n + m + 1], rest[n + m + 1..])
  {
    assert (before + rest[..n]) + rest[n..][..m + 1] == before + rest[..n + m + 1];
    assert rest[n..][m + 1..] == rest[n + m + 1..];
  }

  ghost predicate Accounts(outs: seq<string>, text: string, ks: seq<Kind>, spans: seq<Span>) {
    && |ks| == |text|
    && AreSlices(outs, text, spans) && InOrder(spans) && Conserves(text, ks, spans)
  }

  lemma SpanOfAStatement(u: string, ks: seq<Kind>, lead: string, o: string, w: string)
    requires |ks| == |u| && u == lead + o + w && o != "" && Text.AllSpace(lead) && Text.AllSpace(w)
    requires forall i | 0 <= i < |u| :: !ks[i].Separator?
    ensures Accounts([o], u, ks, [Span(|lead|, |lead| + |o|)])
  {
    var span := Span(|lead|, |lead| + |o|);
    assert u[span.from..span.to] == o;
    forall i | 0 <= i < |u|
      ensures !Covered([span], i) ==> Text.IsSpace(u[i])
    {
      if i < span.from {
        assert u[i] == lead[i];
      } else if i >= span.to {
        assert u[i] == w[i - span.to];
      } else {
        assert [span][0].from <= i < [span][0].to;
      }
    }
  }

  /** Where a segment's statement lies in it, if there is one. */
  function SpanOf(lead: nat, o: string, code: bool): seq<Span> {
    if code && o != "" then [Span(lead, lead + |o|)] else []
  }

  function FirstSpan(u: string, code: bool): seq<Span> {
    Text.TrimLeftIs(u);
    SpanOf(|u| - |Text.TrimLeft(u)|, Text.TrimSpace(u), code)
  }

  lemma SpanOfASegment(u: string, ks: seq<Kind>, code: bool, lead: string, o: string, w: string)
    requires |ks| == |u| && Segmented(ks, u, Segment(|u|, code, true))
    requires u == lead + o + w && Text.AllSpace(lead) && Text.AllSpace(w)
    ensures Accounts(if code && o != "" then [o] else [], u, ks, SpanOf(|lead|, o, code))
  {
    if code && o != "" {
      SpanOfAStatement(u, ks, lead, o, w);
    } else if code {
      assert u == lead + w;
      assert Text.AllSpace(u);
    }
  }

  lemma SpanOfFirst(u: string, ks: seq<Kind>, code: bool)
    requires |ks| == |u| && Segmented(ks, u, Segment(|u|, code, true))
    ensures Accounts(Emit(Piece(u, code)), u, ks, FirstSpan(u, code))
  {
    var lead, w := TrimmedParts(u);
    SpanOfASegment(u, ks, code, lead, Text.TrimSpace(u), w);
  }

  function Shifted(spans: seq<Span>, n: nat): (r: seq<Span>)
    ensures |r| == |spans|
  {
    seq(|spans|, i requires 0 <= i < |spans| => Span(spans[i].from + n, spans[i].to + n))
  }

  lemma ShiftedCover(s1: seq<Span>, s2: seq<Span>, n: nat, i: nat)
    requires forall k | 0 <= k < |s1| :: s1[k].to < n
    ensures Covered(s1 + Shifted(s2, n), i) <==> Covered(s1, i) || (i >= n && Covered(s2, i - n))
  {
    var all := s1 + Shifted(s2, n);
    if Covered(s1, i) {
      var k :| 0 <= k < |s1| && s1[k].from <= i < s1[k].to;
      assert all[k] == s1[k];
    }
    if i >= n && Covered(s2, i - n) {
      var k :| 0 <= k < |s2| && s2[k].from <= i - n < s2[k].to;
      assert all[|s1| + k] == Shifted(s2, n)[k];
    }
    if Covered(all, i) {
      var k :| 0 <= k < |all| && all[k].from <= i < all[k].to;
      if k >= |s1| { assert all[k] == Shifted(s2, n)[k - |s1|]; }
    }
  }

  lemma SlicesAppend(a: seq<string>, b: seq<string>, text: string, m: nat, s1: seq<Span>, s2: seq<Span>)
    requires m < |text| && AreSlices(a, text[..m], s1) && AreSlices(b, text[m + 1..], s2)
    requires InOrder(s1) && InOrder(s2)
    ensures AreSlices(a + b, text, s1 + Shifted(s2, m + 1)) && InOrder(s1 + Shifted(s2, m + 1))
  {
    var all := s1 + Shifted(s2, m + 1);
    forall k | 0 <= k < |all|
      ensures all[k].from < all[k].to <= |text| && text[all[k].from..all[k].to] == (a + b)[k]
    {
      if k < |s1| {
        assert text[..m][s1[k].from..s1[k].to] == text[s1[k].from..s1[k].to];
      } else {
        var s := s2[k - |s1|];
        assert text[m + 1..][s.from..s.to] == text[s.from + m + 1..s.to + m + 1];
      }
    }
  }

  lemma ConservesAppend(text: string, ks: seq<Kind>, m: nat, s1: seq<Span>, s2: seq<Span>)
    requires |ks| == |text| && m < |text| && ks[m].Separator?
    requires forall k | 0 <= k < |s1| :: s1[k].to <= m
    requires Conserves(text[..m], ks[..m], s1) && Conserves(text[m + 1..], ks[m + 1..], s2)
    ensures Conserves(text, ks, s1 + Shifted(s2, m + 1))
  {
    var all := s1 + Shifted(s2, m + 1);
    forall i | 0 <= i < |text|
      ensures if Covered(all, i) then !ks[i].Separator? else Droppable(text[i], ks[i])
    {
      ShiftedCover(s1, s2, m + 1, i);
      if i < m {
        assert text[..m][i] == text[i] && ks[..m][i] == ks[i];
      } else if i > m {
        assert !Covered(s1, i);
        assert text[m + 1..][i - m - 1] == text[i] && ks[m + 1..][i - m - 1] == ks[i];
      } else {
        assert !Covered(s1, i);
      }
    }
  }

  lemma AccountsAppend(a: seq<string>, b: seq<string>, text: string, ks: seq<Kind>, m: nat, s1: seq<Span>,
                       s2: seq<Span>)
    requires |ks| == |text| && m < |text| && ks[m].Separator?
    requires Accounts(a, text[..m], ks[..m], s1) && Accounts(b, text[m + 1..], ks[m + 1..], s2)
    ensures Accounts(a + b, text, ks, s1 + Shifted(s2, m + 1))
  {
    SlicesAppend(a, b, text, m, s1, s2);
    ConservesAppend(text, ks, m, s1, s2);
  }

  /** Where what each piece yields lies in the text they were cut from. */
  function Placed(spans: Piece -> seq<Span>, ps: seq<Piece>): seq<Span> {
    if ps == [] then [] else spans(ps[0]) + Shifted(Placed(spans, ps[1..]), |ps[0].text| + 1)
  }

  /** The pieces are the text cut at its separators, each of them marked code exactly as its bytes are. */
  ghost predicate Aligned(ps: seq<Piece>, rest: string, ks: seq<Kind>)
    decreases |ps|
  {
    && ps != [] && |ks| == |rest| && ps[0].text <= rest
    && var m := |ps[0].text|;
       && Segmented(ks, rest, Segment(m, ps[0].code, true))
       && if |ps| == 1 then m == |rest| else m < |rest| && Aligned(ps[1..], rest[m + 1..], ks[m + 1..])
  }

  lemma {:induction false} PiecesAreAligned(lex: Lexer, pre: string, rest: string)
    ensures Aligned(PiecesFrom(lex, |pre|, pre, rest, false), rest, Kinds(lex, pre, rest))
    decreases |rest|
  {
    var m := First(lex, pre, rest).len;
    if m == |rest| {
      LastIsAligned(lex, pre, rest);
    } else {
      PiecesAreAligned(lex, pre + rest[..m + 1], rest[m + 1..]);
      LaterIs(lex, pre, rest, m, pre + rest[..m + 1], rest[m + 1..]);
      MoreAreAligned(lex, pre, rest, m, Later(lex, pre, rest, m), pre + rest[..m + 1]);
    }
  }

  lemma LastIsAligned(lex: Lexer, pre: string, rest: string)
    requires First(lex, pre, rest).len == |rest|
    ensures Aligned(PiecesFrom(lex, |pre|, pre, rest, false), rest, Kinds(lex, pre, rest))
  {
    KindsOfFirst(lex, pre, rest);
    FirstPiece(lex, pre, rest);
    assert rest[..|rest|] == rest;
  }

  lemma MoreAreAligned(lex: Lexer, pre: string, rest: string, m: nat, later: seq<Piece>, next: string)
    requires m == First(lex, pre, rest).len < |rest| && later == Later(lex, pre, rest, m) && later != []
    requires next == pre + rest[..m + 1] && Aligned(later, rest[m + 1..], Kinds(lex, next, rest[m + 1..]))
    ensures Aligned(PiecesFrom(lex, |pre|, pre, rest, false), rest, Kinds(lex, pre, rest))
  {
    KindsOfFirst(lex, pre, rest);
    KindsAfterFirst(lex, pre, rest);
    FirstPiece(lex, pre, rest);
    AlignedCons(Piece(rest[..m], First(lex, pre, rest).code), later, rest, Kinds(lex, pre, rest));
  }

  lemma LaterIs(lex: Lexer, pre: string, rest: string, m: nat, next: string, left: string)
    requires m < |rest| && next == pre + rest[..m + 1] && left == rest[m + 1..]
    ensures Later(lex, pre, rest, m) == PiecesFrom(lex, |next|, next, left, false)
  {
    assert |next| == |pre| + m + 1;
  }

  lemma AlignedCons(p: Piece, ps: seq<Piece>, rest: string, ks: seq<Kind>)
    requires |ks| == |rest| && |p.text| < |rest| && p.text <= rest && ps != []
    requires Segmented(ks, rest, Segment(|p.text|, p.code, true))
    requires Aligned(ps, rest[|p.text| + 1..], ks[|p.text| + 1..])
    ensures Aligned([p] + ps, rest, ks)
  {
    assert ([p] + ps)[1..] == ps;
  }

  lemma SegmentAlone(rest: string, ks: seq<Kind>, g: Segment)
    requires |ks| == |rest| && g.len <= |rest| && Segmented(ks, rest, g)
    ensures Segmented(ks[..g.len], rest[..g.len], Segment(g.len, g.code, true))
  {
  }

  /** Each piece's own spans account for it. */
  ghost predicate EachAccounts(make: Piece -> seq<string>, spans: Piece -> seq<Span>) {
    forall p: Piece, ks: seq<Kind> ::
      |ks| == |p.text| && Segmented(ks, p.text, Segment(|p.text|, p.code, true)) ==>
        Accounts(make(p), p.text, ks, spans(p))
  }

  lemma {:induction false} AlignedAccount(make: Piece -> seq<string>, spans: Piece -> seq<Span>,
                                          ps: seq<Piece>, rest: string, ks: seq<Kind>)
    requires Aligned(ps, rest, ks) && EachAccounts(make, spans)
    ensures Accounts(Gather(make, ps), rest, ks, Placed(spans, ps))
    decreases |ps|
  {
    var p, m := ps[0], |ps[0].text|;
    SegmentAlone(rest, ks, Segment(m, p.code, true));
    assert rest[..m] == p.text;
    assert Accounts(make(p), p.text, ks[..m], spans(p));
    if |ps| == 1 {
      LastPiece(make, spans, ps, p);
      assert rest[..m] == rest && ks[..m] == ks;
    } else {
      AlignedAccount(make, spans, ps[1..], rest[m + 1..], ks[m + 1..]);
      AccountsAppend(make(p), Gather(make, ps[1..]), rest, ks, m, spans(p), Placed(spans, ps[1..]));
      MorePieces(make, spans, ps, p, ps[1..]);
    }
  }

  lemma MorePieces(make: Piece -> seq<string>, spans: Piece -> seq<Span>, ps: seq<Piece>, p: Piece, later: seq<Piece>)
    requires ps != [] && p == ps[0] && later == ps[1..]
    ensures Gather(make, ps) == make(p) + Gather(make, later)
    ensures Placed(spans, ps) == spans(p) + Shifted(Placed(spans, later), |p.text| + 1)
  {
  }

  lemma LastPiece(make: Piece -> seq<string>, spans: Piece -> seq<Span>, ps: seq<Piece>, p: Piece)
    requires ps == [p]
    ensures Gather(make, ps) == make(p) && Placed(spans, ps) == spans(p)
  {
    GatherOne(make, p);
    assert ps[1..] == [] && Shifted([], |p.text| + 1) == [];
  }

  /** Where the statement of a piece lies in it, if there is one. */
  function SpanIn(p: Piece): seq<Span> {
    FirstSpan(p.text, p.code)
  }

  lemma EachStatementAccounts()
    ensures EachAccounts(Emit, SpanIn)
  {
    forall p: Piece, ks: seq<Kind> | |ks| == |p.text| && Segmented(ks, p.text, Segment(|p.text|, p.code, true))
      ensures Accounts(Emit(p), p.text, ks, SpanIn(p))
    {
      SpanOfFirst(p.text, ks, p.code);
    }
  }

  /** Where each output lies in the text. */
  function Spans(src: string): seq<Span> {
    Placed(SpanIn, PiecesOf(src))
  }

  /** For any text: the outputs are slices of it in order, apart from one another, and everything else is
      blanks, comments and separators. */
  lemma OutputsAreSlices(src: string)
    ensures AreSlices(Split(src), src, Spans(src)) && InOrder(Spans(src))
    ensures Conserves(src, Kinds(SQL, [], src), Spans(src))
  {
    PiecesAreAligned(SQL, [], src);
    EachStatementAccounts();
    AlignedAccount(Emit, SpanIn, PiecesOf(src), src, Kinds(SQL, [], src));
  }
}
