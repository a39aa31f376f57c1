/** What the splitter promises: joined statements come back, nothing but blanks, comments and separators is
    dropped, and what comes out splits to itself. */
module SplitLaws {
  import opened Splitter
  import Text

  // ---- the first statement's extent, in tokens

  datatype Segment = Segment(len: nat, code: bool, closed: bool)

  /** How far the tokens of rest run before a separator, whether one of them is code, and whether all of them
      found their own end. */
  function First(lex: Lexer, before: string, rest: string): (g: Segment)
    ensures g.len <= |rest|
    decreases |rest|
  {
    if rest == [] then Segment(0, false, true)
    else
      var t := lex(before, rest);
      var n := t.scan.len;
      if t.kind.Separator? then Segment(0, false, true)
      else
        var g := First(lex, before + rest[..n], rest[n..]);
        Segment(n + g.len, t.kind.Code? || g.code, t.scan.closed && g.closed)
  }

  /** The pieces after the separator that stands m bytes on, if the text does not end there. */
  function Later(lex: Lexer, before: string, rest: string, m: nat): seq<Piece>
    requires m <= |rest|
  {
    if m < |rest| then PiecesFrom(lex, |before| + m + 1, before + rest[..m + 1], rest[m + 1..], false) else []
  }

  /** ps is the first segment and what comes later. */
  ghost predicate SplitsOff(lex: Lexer, start: nat, before: string, rest: string, hasCode: bool, g: Segment,
                            ps: seq<Piece>) {
    && start <= |before| && g.len <= |rest|
    && (g.len < |rest| ==> rest[g.len] == ';')
    && ps == [Piece((before + rest[..g.len])[start..], hasCode || g.code)] + Later(lex, before, rest, g.len)
  }

  lemma {:induction false} PiecesBySegment(lex: Lexer, start: nat, before: string, rest: string, hasCode: bool)
    requires start <= |before|
    ensures SplitsOff(lex, start, before, rest, hasCode, First(lex, before, rest),
                      PiecesFrom(lex, start, before, rest, hasCode))
    decreases |rest|
  {
    if rest == [] || lex(before, rest).kind.Separator? {
      PiecesAtABreak(lex, start, before, rest, hasCode);
    } else {
      var t := lex(before, rest);
      var n := t.scan.len;
      var passed, left := before + rest[..n], rest[n..];
      PiecesBySegment(lex, start, passed, left, hasCode || t.kind.Code?);
      PiecesPastAToken(lex, start, before, rest, hasCode);
      FirstPastAToken(lex, before, rest);
      OneTokenFurther(lex, start, before, rest, hasCode, n, t.kind.Code?, First(lex, passed, left),
                      First(lex, before, rest), PiecesFrom(lex, start, passed, left, hasCode || t.kind.Code?));
    }
  }

  lemma OneTokenFurther(lex: Lexer, start: nat, before: string, rest: string, hasCode: bool, n: nat, code: bool,
                        h: Segment, g: Segment, ps: seq<Piece>)
    requires start <= |before| && n <= |rest| && g.len == n + h.len && g.code == (code || h.code)
    requires SplitsOff(lex, start, before + rest[..n], rest[n..], hasCode || code, h, ps)
    ensures SplitsOff(lex, start, before, rest, hasCode, g, ps)
  {
    Regroup(lex, before, rest, n, h.len);
  }

  lemma PiecesAtABreak(lex: Lexer, start: nat, before: string, rest: string, hasCode: bool)
    requires start <= |before| && (rest == [] || lex(before, rest).kind.Separator?)
    ensures First(lex, before, rest) == Segment(0, false, true)
    ensures PiecesFrom(lex, start, before, rest, hasCode) ==
            [Piece((before + rest[..0])[start..], hasCode)] + Later(lex, before, rest, 0)
  {
    assert before + rest[..0] == before;
  }

  lemma PiecesPastAToken(lex: Lexer, start: nat, before: string, rest: string, hasCode: bool)
    requires start <= |before| && rest != [] && !lex(before, rest).kind.Separator?
    ensures var t := lex(before, rest);
            PiecesFrom(lex, start, before, rest, hasCode) ==
            PiecesFrom(lex, start, before + rest[..t.scan.len], rest[t.scan.len..], hasCode || t.kind.Code?)
  {
  }

  lemma FirstPastAToken(lex: Lexer, before: string, rest: string)
    requires rest != [] && !lex(before, rest).kind.Separator?
    ensures var t := lex(before, rest);
            var g := First(lex, before + rest[..t.scan.len], rest[t.scan.len..]);
            First(lex, before, rest) == Segment(t.scan.len + g.len, t.kind.Code? || g.code, t.scan.closed && g.closed)
  {
  }

  lemma Regroup(lex: Lexer, before: string, rest: string, n: nat, m: nat)
    requires n + m <= |rest|
    ensures (before + rest[..n]) + rest[n..][..m] == before + rest[..n + m]
    ensures n + m < |rest| ==> rest[n..][m] == rest[n + m]
    ensures Later(lex, before + rest[..n], rest[n..], m) == Later(lex, before, rest, n + m)
  {
    if n + m < |rest| {
      assert (before + rest[..n]) + rest[n..][..m + 1] == before + rest[..n + m + 1];
      assert rest[n..][m + 1..] == rest[n + m + 1..];
    }
  }

  // ---- a token that found its end does not look past it

  lemma {:induction false} LineCommentExtends(u: string, post: string)
    requires LineComment(u).closed
    ensures LineComment(u + post) == LineComment(u)
  {
    if u[0] != '\n' {
      assert (u + post)[1..] == u[1..] + post;
      LineCommentExtends(u[1..], post);
    }
  }

  lemma {:induction false} BlockCommentExtends(u: string, post: string, depth: nat)
    requires BlockComment(u, depth).closed
    ensures BlockComment(u + post, depth) == BlockComment(u, depth)
    decreases |u|
  {
    if depth > 0 {
      assert (u + post)[1..] == u[1..] + post;
      if |u| > 1 {
        assert (u + post)[2..] == u[2..] + post;
        if u[0] == '/' && u[1] == '*' {
          BlockCommentExtends(u[2..], post, depth + 1);
        } else if u[0] == '*' && u[1] == '/' {
          BlockCommentExtends(u[2..], post, depth - 1);
        } else {
          BlockCommentExtends(u[1..], post, depth);
        }
      }
    }
  }

  lemma {:induction false} QuotedExtends(u: string, post: string, mark: char, escapes: bool)
    requires Quoted(u, mark, escapes).closed && mark != '\\' && (post == [] || post[0] != mark)
    ensures Quoted(u + post, mark, escapes) == Quoted(u, mark, escapes)
    decreases |u|
  {
    assert (u + post)[1..] == u[1..] + post;
    if |u| > 1 {
      assert (u + post)[2..] == u[2..] + post;
      if (escapes && u[0] == '\\') || (u[0] == mark && u[1] == mark) {
        QuotedExtends(u[2..], post, mark, escapes);
      } else if u[0] != mark {
        QuotedExtends(u[1..], post, mark, escapes);
      }
    }
  }

  lemma {:induction false} IdentRunAppends(u: string, post: string)
    ensures IdentRun(u + post) == if IdentRun(u) < |u| then IdentRun(u) else |u| + IdentRun(post)
  {
    if u == [] {
      assert u + post == post;
    } else {
      assert (u + post)[1..] == u[1..] + post;
      IdentRunAppends(u[1..], post);
    }
  }

  lemma {:induction false} IndexExtends(u: string, post: string, tag: string)
    requires Index(u, tag).Some?
    ensures Index(u + post, tag) == Index(u, tag)
  {
    if tag <= u {
      assert tag <= u + post;
    } else {
      assert (u + post)[1..] == u[1..] + post;
      assert |u| >= |tag| by { IndexFits(u, tag); }
      assert (u + post)[..|tag|] == u[..|tag|];
      IndexExtends(u[1..], post, tag);
    }
  }

  lemma IndexFits(u: string, tag: string)
    requires Index(u, tag).Some?
    ensures |tag| <= |u|
  {
  }

  lemma TagLengthExtends(u: string, post: string)
    requires u != [] && (post == [] || !(IsIdent(post[0]) || post[0] == '$'))
    ensures TagLength(u + post) == TagLength(u)
  {
    assert (u + post)[1..] == u[1..] + post;
    IdentRunAppends(u[1..], post);
  }

  lemma DollarQuotedExtends(u: string, post: string, n: nat)
    requires n <= |u| && DollarQuoted(u, n).closed
    ensures DollarQuoted(u + post, n) == DollarQuoted(u, n)
  {
    assert (u + post)[n..] == u[n..] + post && (u + post)[..n] == u[..n];
    IndexExtends(u[n..], post, u[..n]);
  }

  /** Text that cannot make the E before a quote part of a longer word, and is not that E. */
  predicate Apart(pre: string) {
    pre == [] || pre[|pre| - 1] == ';' || Text.IsSpace(pre[|pre| - 1])
  }

  lemma EscapesAfterApart(pre: string, before: string)
    requires Apart(pre)
    ensures EscapesAfter(pre + before) == EscapesAfter(before)
  {
  }

  lemma NextExtends(pre: string, before: string, u: string, post: string)
    requires Apart(pre) && u != [] && Next(before, u).scan.closed && (post == [] || post[0] == ';')
    ensures Next(pre + before, u + post) == Next(before, u)
  {
    EscapesAfterApart(pre, before);
    var whole, c := u + post, u[0];
    assert whole[1..] == u[1..] + post;
    if |u| > 1 { assert whole[2..] == u[2..] + post; }
    if c == '-' && |u| > 1 && u[1] == '-' {
      LineCommentExtends(u[2..], post);
    } else if c == '/' && |u| > 1 && u[1] == '*' {
      BlockCommentExtends(u[2..], post, 1);
    } else if c == '\'' || c == '"' {
      QuotedExtends(u[1..], post, c, c == '\'' && EscapesAfter(before));
    } else if c == '$' {
      TagLengthExtends(u, post);
      if TagLength(u).Some? { DollarQuotedExtends(u, post, TagLength(u).value); }
    }
  }

  lemma {:induction false} FirstExtends(pre: string, before: string, u: string, post: string)
    requires Apart(pre) && (post == [] || post[0] == ';')
    requires First(SQL, before, u).len == |u| && First(SQL, before, u).closed
    ensures First(SQL, pre + before, u + post) == First(SQL, before, u)
    decreases |u|
  {
    if u == [] {
      assert u + post == post;
    } else {
      NextExtends(pre, before, u, post);
      var n := Next(before, u).scan.len;
      FirstExtends(pre, before + u[..n], u[n..], post);
      ExtendedPieces(pre, before, u, post, n);
      FirstPastAToken(SQL, before, u);
      FirstPastAToken(SQL, pre + before, u + post);
    }
  }

  lemma ExtendedPieces(pre: string, before: string, u: string, post: string, n: nat)
    requires n <= |u|
    ensures (u + post)[n..] == u[n..] + post
    ensures (pre + before) + (u + post)[..n] == pre + (before + u[..n])
  {
    assert (u + post)[..n] == u[..n];
  }

  // ---- joined statements come back

  /** Trimmed, holding code, ending at the top level, and with no separator of its own. */
  predicate Whole(s: string) {
    && s != "" && Text.TrimSpace(s) == s
    && First(SQL, [], s) == Segment(|s|, true, true)
  }

  function Join(statements: seq<string>): string {
    if statements == [] then []
    else if |statements| == 1 then statements[0]
    else statements[0] + ";" + Join(statements[1..])
  }

  function Coded(statements: seq<string>): seq<Piece> {
    seq(|statements|, i requires 0 <= i < |statements| => Piece(statements[i], true))
  }

  lemma OneStatementComesBack(pre: string, s: string, post: string)
    requires Apart(pre) && Whole(s) && (post == [] || post[0] == ';')
    ensures PiecesFrom(SQL, |pre|, pre, s + post, false) == [Piece(s, true)] + Later(SQL, pre, s + post, |s|)
  {
    var text := s + post;
    FirstExtends(pre, [], s, post);
    assert pre + [] == pre;
    PiecesBySegment(SQL, |pre|, pre, text, false);
    assert text[..|s|] == s && (pre + s)[|pre|..] == s;
  }

  lemma LaterIsTheRest(lex: Lexer, pre: string, s: string, text: string, next: string, rest: string)
    requires text == s + (";" + rest) && next == pre + s + ";"
    ensures Later(lex, pre, text, |s|) == PiecesFrom(lex, |next|, next, rest, false)
  {
    assert pre + text[..|s| + 1] == next && text[|s| + 1..] == rest;
  }

  ghost predicate AllWhole(statements: seq<string>) {
    forall i | 0 <= i < |statements| :: Whole(statements[i])
  }

  lemma {:induction false} JoinedComeBack(pre: string, statements: seq<string>)
    requires Apart(pre) && statements != [] && AllWhole(statements)
    ensures PiecesFrom(SQL, |pre|, pre, Join(statements), false) == Coded(statements)
    decreases |statements|
  {
    if |statements| == 1 {
      OneComesBack(pre, statements, statements[0]);
    } else {
      JoinedComeBack(pre + statements[0] + ";", statements[1..]);
      MoreComeBack(pre, statements, statements[0], statements[1..], pre + statements[0] + ";");
    }
  }

  lemma OneComesBack(pre: string, statements: seq<string>, s: string)
    requires Apart(pre) && statements == [s] && Whole(s)
    ensures PiecesFrom(SQL, |pre|, pre, Join(statements), false) == Coded(statements)
  {
    OneStatementComesBack(pre, s, []);
    assert s + [] == s;
  }

  lemma MoreComeBack(pre: string, statements: seq<string>, s: string, later: seq<string>, next: string)
    requires Apart(pre) && later != [] && statements == [s] + later && Whole(s) && next == pre + s + ";"
    requires PiecesFrom(SQL, |next|, next, Join(later), false) == Coded(later)
    ensures PiecesFrom(SQL, |pre|, pre, Join(statements), false) == Coded(statements)
  {
    OneStatementMore(pre, s, Join(later), next, Coded(later));
    JoinedHead(statements, s, later);
  }

  lemma JoinedHead(statements: seq<string>, s: string, later: seq<string>)
    requires later != [] && statements == [s] + later
    ensures Join(statements) == s + (";" + Join(later))
    ensures Coded(statements) == [Piece(s, true)] + Coded(later)
  {
    assert statements[1..] == later;
  }

  lemma OneStatementMore(pre: string, s: string, rest: string, next: string, ps: seq<Piece>)
    requires Apart(pre) && Whole(s) && next == pre + s + ";" && PiecesFrom(SQL, |next|, next, rest, false) == ps
    ensures PiecesFrom(SQL, |pre|, pre, s + (";" + rest), false) == [Piece(s, true)] + ps
  {
    OneStatementComesBack(pre, s, ";" + rest);
    LaterIsTheRest(SQL, pre, s, s + (";" + rest), next, rest);
  }

  lemma {:induction false} GatherEach<T>(make: Piece -> seq<T>, ps: seq<Piece>, xs: seq<T>)
    requires |ps| == |xs| && forall i | 0 <= i < |ps| :: make(ps[i]) == [xs[i]]
    ensures Gather(make, ps) == xs
  {
    if ps != [] {
      GatherEach(make, ps[1..], xs[1..]);
      assert xs == [xs[0]] + xs[1..];
    }
  }

  lemma WholeIsEmitted(s: string)
    requires Whole(s)
    ensures Emit(Piece(s, true)) == [s]
  {
  }

  /** Splitting undoes joining. */
  lemma SplitOfJoin(statements: seq<string>)
    requires forall s | s in statements :: Whole(s)
    ensures Split(Join(statements)) == statements
  {
    if statements == [] {
      GatherOne(Emit, Piece("", false));
    } else {
      JoinedComeBack([], statements);
      forall i | 0 <= i < |statements|
        ensures Emit(Coded(statements)[i]) == [statements[i]]
      {
        WholeIsEmitted(statements[i]);
      }
      GatherEach(Emit, Coded(statements), statements);
    }
  }
}
