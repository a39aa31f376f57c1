/** Which outputs split to themselves, told from the text they were cut from. */
module SplitCode {
  import opened Splitter
  import opened SplitLaws
  import opened SplitOutputs

  /** Some byte of the span belongs to a token that is code. */
  predicate HasCode(ks: seq<Kind>, span: Span) {
    exists i :: span.from <= i < span.to && i < |ks| && ks[i].Code?
  }

  // ---- a segment's code, in place and alone

  lemma CodeOfAToken(ks: seq<Kind>, n: nat, kind: Kind, ls: seq<Kind>, m: nat)
    requires 1 <= n <= m <= |ks| && (forall i | 0 <= i < n :: ks[i] == kind) && ls == ks[n..]
    ensures HasCode(ks, Span(0, m)) <==> kind.Code? || HasCode(ls, Span(0, m - n))
  {
    if kind.Code? { assert ks[0].Code?; }
    if HasCode(ls, Span(0, m - n)) {
      var i :| 0 <= i < m - n && i < |ls| && ls[i].Code?;
      assert ks[n + i] == ls[i];
    }
    if HasCode(ks, Span(0, m)) && !kind.Code? {
      var i :| 0 <= i < m && i < |ks| && ks[i].Code?;
      assert ls[i - n] == ks[i];
    }
  }

  lemma CodeOfAllOneToken(ks: seq<Kind>, n: nat, kind: Kind, m: nat)
    requires 1 <= m <= n <= |ks| && forall i | 0 <= i < n :: ks[i] == kind
    ensures HasCode(ks, Span(0, m)) <==> kind.Code?
  {
    if kind.Code? { assert ks[0].Code?; }
  }

  /** The text v of a segment holds code on its own exactly when one of its bytes belongs to code in place. */
  lemma {:induction false} CodeInPlace(pre: string, before: string, v: string, w: string, text: string, passed: string)
    requires Apart(pre) && passed == pre + before && Text.AllSpace(w) && v + w <= text
    requires First(SQL, passed, text).len == |v| + |w|
    ensures First(SQL, before, v).code <==> HasCode(Kinds(SQL, passed, text), Span(0, |v|))
    decreases |v|
  {
    if v != [] {
      var t := Next(passed, text);
      var n := t.scan.len;
      FirstNotEmpty(SQL, passed, text);
      TokenCut(pre, before, v, w, text, passed);
      FirstPastAToken(SQL, passed, text);
      FirstPastAToken(SQL, before, v);
      KindsPastAToken(SQL, passed, text);
      if n <= |v| {
        OneTokenOn(pre, before, v, w, text, n);
        CodeInPlace(pre, before + v[..n], v[n..], w, text[n..], passed + text[..n]);
        CodeOfAToken(Kinds(SQL, passed, text), n, t.kind, Kinds(SQL, passed + text[..n], text[n..]), |v|);
      } else {
        CodeOfAllOneToken(Kinds(SQL, passed, text), n, t.kind, |v|);
        assert v[|v|..] == [];
      }
    }
  }

  lemma {:induction false} KindsSkipBlanks(before: string, lead: string, text: string, passed: string, rest: string)
    requires Text.AllSpace(lead) && text == lead + rest && passed == before + lead
    ensures Kinds(SQL, before, text)[|lead|..] == Kinds(SQL, passed, rest)
    decreases |lead|
  {
    if lead == [] {
      assert text == rest && passed == before;
    } else {
      var next, left := before + text[..1], text[1..];
      BlankIsOneByte(before, text);
      KindsPastAToken(SQL, before, text);
      OneByteOn(before, lead, rest);
      KindsSkipBlanks(next, lead[1..], left, passed, rest);
      TailOfTail(Kinds(SQL, before, text), Kinds(SQL, next, left), 1, |lead| - 1);
    }
  }

  lemma BlankIsOneByte(before: string, text: string)
    requires text != [] && Text.IsSpace(text[0])
    ensures SQL(before, text).scan.len == 1
  {
  }

  /** A trimmed statement holds code on its own exactly when its place in the text does. */
  lemma CodeOfAStatement(pre: string, rest: string, lead: string, o: string, w: string, text: string, passed: string)
    requires Apart(pre) && Text.AllSpace(lead) && Text.AllSpace(w) && rest == lead + text && o + w <= text
    requires First(SQL, pre, rest).len == |lead| + |o| + |w| && passed == pre + lead
    ensures First(SQL, [], o).code <==> HasCode(Kinds(SQL, pre, rest), Span(|lead|, |lead| + |o|))
  {
    SkipBlanks(pre, lead, rest, passed, text);
    CodeAlone(passed, o, w, text);
    KindsSkipBlanks(pre, lead, rest, passed, text);
    CodeFurtherOn(Kinds(SQL, pre, rest), |lead|, |o|);
  }

  lemma CodeAlone(passed: string, o: string, w: string, text: string)
    requires Apart(passed) && Text.AllSpace(w) && o + w <= text && First(SQL, passed, text).len == |o| + |w|
    ensures First(SQL, [], o).code <==> HasCode(Kinds(SQL, passed, text), Span(0, |o|))
  {
    assert passed + [] == passed;
    CodeInPlace(passed, [], o, w, text, passed);
  }

  lemma CodeFurtherOn(ks: seq<Kind>, n: nat, m: nat)
    requires n + m <= |ks|
    ensures HasCode(ks, Span(n, n + m)) <==> HasCode(ks[n..], Span(0, m))
  {
    if HasCode(ks, Span(n, n + m)) {
      var i :| n <= i < n + m && i < |ks| && ks[i].Code?;
      assert ks[n..][i - n] == ks[i];
    }
    if HasCode(ks[n..], Span(0, m)) {
      var i :| 0 <= i < m && i < |ks[n..]| && ks[n..][i].Code?;
      assert ks[n + i] == ks[n..][i];
    }
  }

  // ---- every output's

  /** Each output holds code on its own exactly when its span does in place. */
  ghost predicate CodeAgrees(coded: string -> bool, outs: seq<string>, ks: seq<Kind>, spans: seq<Span>) {
    && |outs| == |spans|
    && (forall k | 0 <= k < |outs| :: spans[k].to <= |ks|)
    && (forall k | 0 <= k < |outs| :: coded(outs[k]) <==> HasCode(ks, spans[k]))
  }

  predicate CodedAlone(o: string) {
    First(SQL, [], o).code
  }

  lemma OneAgrees(coded: string -> bool, o: string, ks: seq<Kind>, span: Span)
    requires span.to <= |ks| && (coded(o) <==> HasCode(ks, span))
    ensures CodeAgrees(coded, [o], ks, [span])
  {
  }

  lemma EmitAndSpan(u: string, code: bool, lead: string)
    requires code && Text.TrimSpace(u) != "" && |lead| == |u| - |Text.TrimLeft(u)|
    ensures Emit(Piece(u, code)) == [Text.TrimSpace(u)]
    ensures SpanIn(Piece(u, code)) == [Span(|lead|, |lead| + |Text.TrimSpace(u)|)]
  {
  }

  lemma CodeOfASegment(pre: string, rest: string, u: string, g: Segment, lead: string, o: string, w: string)
    requires Apart(pre) && g == First(SQL, pre, rest) && u == rest[..g.len] && u == lead + o + w
    requires Text.AllSpace(lead) && Text.AllSpace(w)
    ensures CodeAgrees(CodedAlone, [o], Kinds(SQL, pre, rest), [Span(|lead|, |lead| + |o|)])
  {
    Cutting(rest, u, lead, o, w);
    CodeOfAStatement(pre, rest, lead, o, w, rest[|lead|..], pre + lead);
    OneAgrees(CodedAlone, o, Kinds(SQL, pre, rest), Span(|lead|, |lead| + |o|));
  }

  lemma CodeOfAPiece(pre: string, rest: string, u: string, g: Segment)
    requires Apart(pre) && g == First(SQL, pre, rest) && u == rest[..g.len]
    ensures CodeAgrees(CodedAlone, Emit(Piece(u, g.code)), Kinds(SQL, pre, rest), SpanIn(Piece(u, g.code)))
  {
    if g.code && Text.TrimSpace(u) != "" {
      var lead, w := TrimmedParts(u);
      CodeOfASegment(pre, rest, u, g, lead, Text.TrimSpace(u), w);
      EmitAndSpan(u, g.code, lead);
    }
  }

  lemma CodeAgreesAppend(coded: string -> bool, a: seq<string>, b: seq<string>, ks: seq<Kind>, m: nat,
                         s1: seq<Span>, s2: seq<Span>)
    requires m < |ks| && CodeAgrees(coded, a, ks, s1) && CodeAgrees(coded, b, ks[m + 1..], s2)
    ensures CodeAgrees(coded, a + b, ks, s1 + Shifted(s2, m + 1))
  {
    var outs, spans := a + b, s1 + Shifted(s2, m + 1);
    forall k | |a| <= k < |outs|
      ensures spans[k].to <= |ks| && (coded(outs[k]) <==> HasCode(ks, spans[k]))
    {
      var s := s2[k - |a|];
      assert outs[k] == b[k - |a|] && spans[k] == Span(s.from + m + 1, s.to + m + 1);
      CodeShifts(ks, m + 1, s);
    }
  }

  lemma CodeShifts(ks: seq<Kind>, n: nat, s: Span)
    requires n + s.to <= |ks|
    ensures HasCode(ks, Span(s.from + n, s.to + n)) <==> HasCode(ks[n..], s)
  {
    if HasCode(ks, Span(s.from + n, s.to + n)) {
      var i :| s.from + n <= i < s.to + n && i < |ks| && ks[i].Code?;
      assert ks[n..][i - n] == ks[i];
    }
    if HasCode(ks[n..], s) {
      var i :| s.from <= i < s.to && i < |ks[n..]| && ks[n..][i].Code?;
      assert ks[n + i] == ks[n..][i];
    }
  }

  /** What is made of the first segment agrees with its span. */
  ghost predicate AgreesAt(lex: Lexer, coded: string -> bool, make: Piece -> seq<string>, spans: Piece -> seq<Span>,
                           pre: string, rest: string)
  {
    var p := Piece(rest[..First(lex, pre, rest).len], First(lex, pre, rest).code);
    CodeAgrees(coded, make(p), Kinds(lex, pre, rest), spans(p))
  }

  ghost predicate EachAgrees(lex: Lexer, coded: string -> bool, make: Piece -> seq<string>, spans: Piece -> seq<Span>) {
    forall pre: string, rest: string | Apart(pre) :: AgreesAt(lex, coded, make, spans, pre, rest)
  }

  /** What is made of all the pieces agrees with their spans. */
  ghost predicate AllAgree(lex: Lexer, coded: string -> bool, make: Piece -> seq<string>, spans: Piece -> seq<Span>,
                           pre: string, rest: string)
  {
    var ps := PiecesFrom(lex, |pre|, pre, rest, false);
    CodeAgrees(coded, Gather(make, ps), Kinds(lex, pre, rest), Placed(spans, ps))
  }

  lemma {:induction false} CodeOfPieces(lex: Lexer, coded: string -> bool, make: Piece -> seq<string>,
                                        spans: Piece -> seq<Span>, pre: string, rest: string)
    requires Apart(pre) && EachAgrees(lex, coded, make, spans)
    ensures AllAgree(lex, coded, make, spans, pre, rest)
    decreases |rest|
  {
    var m := First(lex, pre, rest).len;
    assert AgreesAt(lex, coded, make, spans, pre, rest);
    if m == |rest| {
      CodeAtTheEnd(lex, coded, make, spans, pre, rest);
    } else {
      SeparatorIsApart(lex, pre, rest);
      CodeOfPieces(lex, coded, make, spans, pre + rest[..m + 1], rest[m + 1..]);
      CodeGoesOn(lex, coded, make, spans, pre, rest, m, pre + rest[..m + 1], rest[m + 1..]);
    }
  }

  lemma SeparatorIsApart(lex: Lexer, pre: string, rest: string)
    requires First(lex, pre, rest).len < |rest|
    ensures Apart(pre + rest[..First(lex, pre, rest).len + 1])
  {
    FirstPiece(lex, pre, rest);
  }

  lemma CodeAtTheEnd(lex: Lexer, coded: string -> bool, make: Piece -> seq<string>, spans: Piece -> seq<Span>,
                     pre: string, rest: string)
    requires First(lex, pre, rest).len == |rest| && AgreesAt(lex, coded, make, spans, pre, rest)
    ensures AllAgree(lex, coded, make, spans, pre, rest)
  {
    FirstPiece(lex, pre, rest);
    LastPiece(make, spans, PiecesFrom(lex, |pre|, pre, rest, false), Piece(rest[..|rest|], First(lex, pre, rest).code));
  }

  lemma CodeGoesOn(lex: Lexer, coded: string -> bool, make: Piece -> seq<string>, spans: Piece -> seq<Span>,
                   pre: string, rest: string, m: nat, next: string, left: string)
    requires m == First(lex, pre, rest).len < |rest| && next == pre + rest[..m + 1] && left == rest[m + 1..]
    requires AgreesAt(lex, coded, make, spans, pre, rest) && AllAgree(lex, coded, make, spans, next, left)
    ensures AllAgree(lex, coded, make, spans, pre, rest)
  {
    FirstPiece(lex, pre, rest);
    KindsAfterFirst(lex, pre, rest);
    assert |next| == |pre| + m + 1;
    CodeOfMore(coded, make, spans, Piece(rest[..m], First(lex, pre, rest).code),
               PiecesFrom(lex, |next|, next, left, false), Kinds(lex, pre, rest), m);
  }

  lemma CodeOfMore(coded: string -> bool, make: Piece -> seq<string>, spans: Piece -> seq<Span>, p: Piece,
                   later: seq<Piece>, ks: seq<Kind>, m: nat)
    requires m < |ks| && |p.text| == m && CodeAgrees(coded, make(p), ks, spans(p))
    requires CodeAgrees(coded, Gather(make, later), ks[m + 1..], Placed(spans, later))
    ensures CodeAgrees(coded, Gather(make, [p] + later), ks, Placed(spans, [p] + later))
  {
    CodeAgreesAppend(coded, make(p), Gather(make, later), ks, m, spans(p), Placed(spans, later));
    assert ([p] + later)[1..] == later;
    MorePieces(make, spans, [p] + later, p, later);
  }

  lemma EachStatementAgrees()
    ensures EachAgrees(SQL, CodedAlone, Emit, SpanIn)
  {
    forall pre: string, rest: string | Apart(pre)
      ensures AgreesAt(SQL, CodedAlone, Emit, SpanIn, pre, rest)
    {
      CodeOfAPiece(pre, rest, rest[..First(SQL, pre, rest).len], First(SQL, pre, rest));
    }
  }

  /** The k-th output splits to itself alone, and not to nothing, exactly when some byte of its place in the text
      belongs to a token that is code. */
  lemma OutputsSplitToThemselvesExactly(src: string, k: nat)
    requires k < |Split(src)|
    ensures k < |Spans(src)|
    ensures Split(Split(src)[k]) == [Split(src)[k]] <==> HasCode(Kinds(SQL, [], src), Spans(src)[k])
    ensures Split(Split(src)[k]) == [Split(src)[k]] || Split(Split(src)[k]) == []
  {
    EachStatementAgrees();
    CodeOfPieces(SQL, CodedAlone, Emit, SpanIn, [], src);
    assert CodedAlone(Split(src)[k]) <==> HasCode(Kinds(SQL, [], src), Spans(src)[k]);
    OutputsSplitToThemselves(src, Split(src)[k]);
  }
}
