/** Cutting a .sql file into its top-level statements: a hand-written lexer for quotes, escape strings, dollar quotes
    and nested comments. Where it follows the PostgreSQL manual, and where it does not, is in module Manual. */
module Splitter {
  import opened Options
  import Text

  // ---- scanners: each looks only forward, and says how many bytes it took and whether it found its own end

  datatype Scan = Scan(len: nat, closed: bool)

  predicate IsIdent(c: char) {
    c == '_' || 'a' <= c <= 'z' || 'A' <= c <= 'Z' || '0' <= c <= '9'
  }

  function Longer(n: nat, s: Scan): Scan {
    Scan(n + s.len, s.closed)
  }

  /** Up to a newline, which is left; unended at the end of the text. */
  function LineComment(s: string): (r: Scan)
    ensures r.len <= |s|
  {
    if s == [] then Scan(0, false)
    else if s[0] == '\n' then Scan(0, true)
    else Longer(1, LineComment(s[1..]))
  }

  /** A block comment's inside, comments nesting. */
  function BlockComment(s: string, depth: nat): (r: Scan)
    ensures r.len <= |s|
    decreases |s|
  {
    if depth == 0 then Scan(0, true)
    else if s == [] then Scan(0, false)
    else if |s| > 1 && s[0] == '/' && s[1] == '*' then Longer(2, BlockComment(s[2..], depth + 1))
    else if |s| > 1 && s[0] == '*' && s[1] == '/' then Longer(2, BlockComment(s[2..], depth - 1))
    else Longer(1, BlockComment(s[1..], depth))
  }

  /** What follows an opening quote, up to and with the closing one; a doubled quote is inside. */
  function Quoted(s: string, mark: char, escapes: bool): (r: Scan)
    ensures r.len <= |s|
    decreases |s|
  {
    if s == [] then Scan(0, false)
    else if escapes && s[0] == '\\' && |s| > 1 then Longer(2, Quoted(s[2..], mark, escapes))
    else if s[0] == mark then
      if |s| > 1 && s[1] == mark then Longer(2, Quoted(s[2..], mark, escapes)) else Scan(1, true)
    else Longer(1, Quoted(s[1..], mark, escapes))
  }

  function IdentRun(s: string): (n: nat)
    ensures n <= |s|
    ensures n == |s| || !IsIdent(s[n])
  {
    if s != [] && IsIdent(s[0]) then 1 + IdentRun(s[1..]) else 0
  }

  /** dollarTag: the length of the opening delimiter that starts here, if one does. */
  function TagLength(s: string): (n: Option<nat>)
    requires s != []
    ensures n.Some? ==> 2 <= n.value <= |s|
  {
    var k := IdentRun(s[1..]);
    if 1 + k >= |s| || s[1 + k] != '$' then None
    else if k > 0 && '0' <= s[1] <= '9' then None
    else Some(k + 2)
  }

  /** strings.Index. */
  function Index(s: string, tag: string): (at: Option<nat>)
    ensures at.Some? ==> at.value + |tag| <= |s|
  {
    if tag <= s then Some(0)
    else if s == [] then None
    else
      var rest := Index(s[1..], tag);
      if rest.None? then None else Some(1 + rest.value)
  }

  function DollarQuoted(s: string, tagLength: nat): (r: Scan)
    requires tagLength <= |s|
    ensures tagLength <= r.len <= |s|
  {
    var at := Index(s[tagLength..], s[..tagLength]);
    if at.Some? then Scan(tagLength + at.value + tagLength, true) else Scan(|s|, false)
  }

  // ---- tokens

  datatype Kind = Separator | Blank | Remark | Code

  datatype Token = Token(kind: Kind, scan: Scan)

  /** A quote opens an escape string when an E stands before it that does not end an identifier. */
  predicate EscapesAfter(before: string) {
    var n := |before|;
    n > 0 && (before[n - 1] == 'E' || before[n - 1] == 'e') && (n == 1 || !IsIdent(before[n - 2]))
  }

  /** The token rest begins with, given the text already passed. */
  function Next(before: string, rest: string): (t: Token)
    requires rest != []
    ensures 1 <= t.scan.len <= |rest|
    ensures t.kind.Separator? ==> t.scan.len == 1 && rest[0] == ';'
    ensures t.kind.Blank? ==> t.scan.len == 1 && Text.IsSpace(rest[0])
  {
    var c := rest[0];
    if c == ';' then Token(Separator, Scan(1, true))
    else if c == '-' && |rest| > 1 && rest[1] == '-' then Token(Remark, Longer(2, LineComment(rest[2..])))
    else if c == '/' && |rest| > 1 && rest[1] == '*' then Token(Remark, Longer(2, BlockComment(rest[2..], 1)))
    else if c == '\'' then Token(Code, Longer(1, Quoted(rest[1..], '\'', EscapesAfter(before))))
    else if c == '"' then Token(Code, Longer(1, Quoted(rest[1..], '"', false)))
    else if c == '$' && TagLength(rest).Some? then Token(Code, DollarQuoted(rest, TagLength(rest).value))
    else if c == ' ' || c == '\t' || c == '\n' || c == '\r' then Token(Blank, Scan(1, true))
    else Token(Code, Scan(1, true))
  }

  // ---- the split, over any lexer

  predicate Takes(rest: string, t: Token) {
    rest != [] ==>
      && 1 <= t.scan.len <= |rest|
      && (t.kind.Separator? ==> t.scan.len == 1 && rest[0] == ';')
      && (t.kind.Blank? ==> t.scan.len == 1 && Text.IsSpace(rest[0]))
  }

  /** Whatever tells tokens apart: each is a part of the text, and separators and blanks are single bytes. */
  type Lexer = f: (string, string) -> Token | forall before, rest :: Takes(rest, f(before, rest))
    witness (before: string, rest: string) => Token(Code, Scan(1, true))

  function Lex(before: string, rest: string): (t: Token)
    ensures Takes(rest, t)
  {
    if rest == [] then Token(Blank, Scan(0, true)) else Next(before, rest)
  }

  const SQL: Lexer := Lex

  /** The text between two separators, and whether any of it is code. */
  datatype Piece = Piece(text: string, code: bool)

  /** before is what has been passed, and the current piece began at start. */
  function PiecesFrom(lex: Lexer, start: nat, before: string, rest: string, hasCode: bool): (ps: seq<Piece>)
    requires start <= |before|
    ensures ps != []
    decreases |rest|
  {
    if rest == [] then [Piece(before[start..], hasCode)]
    else
      var t := lex(before, rest);
      var n := t.scan.len;
      var passed, left := before + rest[..n], rest[n..];
      if t.kind.Separator? then
        [Piece(before[start..], hasCode)] + PiecesFrom(lex, |passed|, passed, left, false)
      else PiecesFrom(lex, start, passed, left, hasCode || t.kind.Code?)
  }

  function Emit(p: Piece): seq<string> {
    if p.code && Text.TrimSpace(p.text) != "" then [Text.TrimSpace(p.text)] else []
  }

  /** What is made of each piece, in their order. */
  function Gather<T>(make: Piece -> seq<T>, ps: seq<Piece>): seq<T> {
    if ps == [] then [] else make(ps[0]) + Gather(make, ps[1..])
  }

  function PiecesOf(src: string): seq<Piece> {
    PiecesFrom(SQL, 0, [], src, false)
  }

  function Split(src: string): seq<string> {
    Gather(Emit, PiecesOf(src))
  }

  // ---- the method, by indices

  method SkipLine(src: string, from: nat) returns (i: nat)
    requires from <= |src|
    ensures i == from + LineComment(src[from..]).len <= |src|
  {
    i := from;
    while i < |src| && src[i] != '\n'
      invariant from <= i <= |src|
      invariant from + LineComment(src[from..]).len == i + LineComment(src[i..]).len
    {
      assert src[i..][1..] == src[i + 1..];
      i := i + 1;
    }
  }

  method SkipBlock(src: string, from: nat) returns (i: nat)
    requires from <= |src|
    ensures i == from + BlockComment(src[from..], 1).len <= |src|
  {
    i := from;
    var depth := 1;
    while i < |src| && depth > 0
      invariant from <= i <= |src| && depth >= 0
      invariant from + BlockComment(src[from..], 1).len == i + BlockComment(src[i..], depth).len
      decreases |src| - i
    {
      assert src[i..][1..] == src[i + 1..];
      if i + 1 < |src| { assert src[i..][2..] == src[i + 2..]; }
      if src[i] == '/' && i + 1 < |src| && src[i + 1] == '*' {
        depth, i := depth + 1, i + 2;
      } else if src[i] == '*' && i + 1 < |src| && src[i + 1] == '/' {
        depth, i := depth - 1, i + 2;
      } else {
        i := i + 1;
      }
    }
  }

  method SkipQuoted(src: string, from: nat, mark: char, escapes: bool) returns (i: nat)
    requires from <= |src|
    ensures i == from + Quoted(src[from..], mark, escapes).len <= |src|
  {
    i := from;
    while i < |src|
      invariant from <= i <= |src|
      invariant from + Quoted(src[from..], mark, escapes).len == i + Quoted(src[i..], mark, escapes).len
    {
      assert src[i..][1..] == src[i + 1..];
      if i + 1 < |src| { assert src[i..][2..] == src[i + 2..]; }
      if escapes && src[i] == '\\' && i + 1 < |src| {
        i := i + 2;
      } else if src[i] == mark {
        if i + 1 < |src| && src[i + 1] == mark {
          i := i + 2;
        } else {
          i := i + 1;
          return;
        }
      } else {
        i := i + 1;
      }
    }
  }

  method DollarTag(src: string, i: nat) returns (tag: string, ok: bool)
    requires i < |src|
    ensures ok <==> TagLength(src[i..]).Some?
    ensures ok ==> tag == src[i..][..TagLength(src[i..]).value]
  {
    var j := i + 1;
    while j < |src| && IsIdent(src[j])
      invariant i + 1 <= j <= |src|
      invariant i + 1 + IdentRun(src[i + 1..]) == j + IdentRun(src[j..])
    {
      assert src[j..][1..] == src[j + 1..];
      j := j + 1;
    }
    assert src[i..][1..] == src[i + 1..];
    assert j == i + 1 + IdentRun(src[i..][1..]);
    if j >= |src| || src[j] != '$' { return "", false; }
    if j > i + 1 && '0' <= src[i + 1] <= '9' { return "", false; }
    return src[i..j + 1], true;
  }

  /** One turn of the outer switch. */
  method Step(src: string, i: nat) returns (end: nat, code: bool, separator: bool)
    requires i < |src|
    ensures var t := SQL(src[..i], src[i..]);
            && end == i + t.scan.len && separator == t.kind.Separator? && code == t.kind.Code?
  {
    var c := src[i];
    end, code, separator := i + 1, false, false;
    ghost var rest := src[i..];
    assert rest[1..] == src[i + 1..];
    if i + 1 < |src| { assert rest[2..] == src[i + 2..]; }
    if c == ';' {
      separator := true;
    } else if c == '-' && i + 1 < |src| && src[i + 1] == '-' {
      end := SkipLine(src, i + 2);
    } else if c == '/' && i + 1 < |src| && src[i + 1] == '*' {
      end := SkipBlock(src, i + 2);
    } else if c == '\'' {
      code := true;
      var escapes := i > 0 && (src[i - 1] == 'E' || src[i - 1] == 'e') && (i == 1 || !IsIdent(src[i - 2]));
      end := SkipQuoted(src, i + 1, '\'', escapes);
    } else if c == '"' {
      code := true;
      end := SkipQuoted(src, i + 1, '"', false);
    } else if c == '$' {
      code := true;
      var tag, ok := DollarTag(src, i);
      if ok {
        assert src[i + |tag|..] == rest[|tag|..];
        var j := Index(src[i + |tag|..], tag);
        end := if j.Some? then i + |tag| + j.value + |tag| else |src|;
      }
    } else {
      code := c != ' ' && c != '\t' && c != '\n' && c != '\r';
    }
  }

  /** The step of the split that ends at index end of the whole text. */
  lemma PiecesAt(lex: Lexer, src: string, start: nat, i: nat, end: nat, hasCode: bool, t: Token)
    requires start <= i < |src| && t == lex(src[..i], src[i..]) && end == i + t.scan.len
    ensures end <= |src|
    ensures PiecesFrom(lex, start, src[..i], src[i..], hasCode) ==
            if t.kind.Separator? then
              [Piece(src[start..i], hasCode)] + PiecesFrom(lex, end, src[..end], src[end..], false)
            else PiecesFrom(lex, start, src[..end], src[end..], hasCode || t.kind.Code?)
  {
    assert src[..i] + src[i..][..end - i] == src[..end] && src[i..][end - i..] == src[end..];
    assert src[..i][start..] == src[start..i];
  }

  /** What is still to come when the scan stands at index i. */
  ghost predicate Remaining(lex: Lexer, src: string, start: nat, i: nat, hasCode: bool, rest: seq<Piece>) {
    start <= i <= |src| && rest == PiecesFrom(lex, start, src[..i], src[i..], hasCode)
  }

  lemma RemainingAtTheEnd(lex: Lexer, src: string, start: nat, hasCode: bool, rest: seq<Piece>)
    requires Remaining(lex, src, start, |src|, hasCode, rest)
    ensures rest == [Piece(src[start..], hasCode)]
  {
    assert src[..|src|] == src;
  }

  lemma RemainingAtTheStart(lex: Lexer, src: string)
    ensures Remaining(lex, src, 0, 0, false, PiecesFrom(lex, 0, [], src, false))
  {
    assert src[..0] == [] && src[0..] == src;
  }

  lemma RemainingAfter(lex: Lexer, src: string, start: nat, i: nat, end: nat, hasCode: bool, code: bool,
                       separator: bool, rest: seq<Piece>) returns (later: seq<Piece>)
    requires i < |src| && Remaining(lex, src, start, i, hasCode, rest)
    requires var t := lex(src[..i], src[i..]);
             end == i + t.scan.len && separator == t.kind.Separator? && code == t.kind.Code?
    ensures i < end <= |src|
    ensures if separator then
              Remaining(lex, src, end, end, false, later) && rest == [Piece(src[start..i], hasCode)] + later
            else Remaining(lex, src, start, end, hasCode || code, later) && rest == later
  {
    PiecesAt(lex, src, start, i, end, hasCode, lex(src[..i], src[i..]));
    later := if separator then PiecesFrom(lex, end, src[..end], src[end..], false) else rest;
  }

  lemma GatherHead<T>(make: Piece -> seq<T>, ps: seq<Piece>, p: Piece, rest: seq<Piece>)
    requires ps == [p] + rest
    ensures Gather(make, ps) == make(p) + Gather(make, rest)
  {
    assert ps[1..] == rest;
  }

  lemma GatherOne<T>(make: Piece -> seq<T>, p: Piece)
    ensures Gather(make, [p]) == make(p)
  {
    GatherHead(make, [p], p, []);
  }

  lemma {:induction false} GatherSnoc<T>(make: Piece -> seq<T>, done: seq<Piece>, p: Piece)
    ensures Gather(make, done + [p]) == Gather(make, done) + make(p)
  {
    if done == [] {
      GatherOne(make, p);
      assert done + [p] == [p];
    } else {
      GatherSnoc(make, done[1..], p);
      SnocHead(make, done, p, done[0], done[1..]);
    }
  }

  lemma SnocHead<T>(make: Piece -> seq<T>, done: seq<Piece>, p: Piece, first: Piece, rest: seq<Piece>)
    requires done == [first] + rest && Gather(make, rest + [p]) == Gather(make, rest) + make(p)
    ensures Gather(make, done + [p]) == Gather(make, done) + make(p)
  {
    GatherHead(make, done, first, rest);
    assert done + [p] == [first] + (rest + [p]);
    GatherHead(make, done + [p], first, rest + [p]);
  }

  /** emit: the trimmed piece joins what there is, if it holds code and is not all blank. */
  method EmitPiece(out: seq<string>, piece: Piece, ghost done: seq<Piece>) returns (more: seq<string>)
    requires out == Gather(Emit, done)
    ensures more == Gather(Emit, done + [piece])
  {
    GatherSnoc(Emit, done, piece);
    more := out;
    if piece.code {
      var s := Text.TrimSpace(piece.text);
      if s != "" { more := more + [s]; }
    }
  }

  /** Where the loop stands: what it has made of the pieces behind it, and the pieces still to come. */
  ghost predicate Standing(lex: Lexer, make: Piece -> seq<string>, whole: seq<Piece>, src: string, start: nat, i: nat,
                           hasCode: bool, out: seq<string>, done: seq<Piece>, rest: seq<Piece>)
  {
    out == Gather(make, done) && done + rest == whole && Remaining(lex, src, start, i, hasCode, rest)
  }

  lemma StandingAfter(lex: Lexer, make: Piece -> seq<string>, whole: seq<Piece>, src: string, start: nat, i: nat,
                      end: nat, hasCode: bool, code: bool, out: seq<string>, done: seq<Piece>, rest: seq<Piece>)
    requires i < |src| && Standing(lex, make, whole, src, start, i, hasCode, out, done, rest)
    requires var t := lex(src[..i], src[i..]); end == i + t.scan.len && !t.kind.Separator? && code == t.kind.Code?
    ensures i < end <= |src| && Standing(lex, make, whole, src, start, end, hasCode || code, out, done, rest)
  {
    var later := RemainingAfter(lex, src, start, i, end, hasCode, code, false, rest);
  }

  lemma StandingAfterSeparator(lex: Lexer, make: Piece -> seq<string>, whole: seq<Piece>, src: string, start: nat,
                               i: nat, end: nat, hasCode: bool, out: seq<string>, more: seq<string>, done: seq<Piece>,
                               piece: Piece, rest: seq<Piece>) returns (later: seq<Piece>)
    requires i < |src| && Standing(lex, make, whole, src, start, i, hasCode, out, done, rest)
    requires var t := lex(src[..i], src[i..]); end == i + t.scan.len && t.kind.Separator?
    requires piece == Piece(src[start..i], hasCode) && more == Gather(make, done + [piece])
    ensures i < end <= |src| && Standing(lex, make, whole, src, end, end, false, more, done + [piece], later)
  {
    later := RemainingAfter(lex, src, start, i, end, hasCode, false, true, rest);
    assert done + ([piece] + later) == (done + [piece]) + later;
  }

  lemma StandingAtTheEnd(lex: Lexer, make: Piece -> seq<string>, whole: seq<Piece>, src: string, start: nat,
                         hasCode: bool, out: seq<string>, done: seq<Piece>, rest: seq<Piece>)
    requires Standing(lex, make, whole, src, start, |src|, hasCode, out, done, rest)
    ensures whole == done + [Piece(src[start..], hasCode)]
  {
    RemainingAtTheEnd(lex, src, start, hasCode, rest);
  }

  method SplitStatements(src: string) returns (out: seq<string>)
    ensures out == Split(src)
  {
    out := [];
    var start, hasCode, i := 0, false, 0;
    ghost var done, rest, whole := [], PiecesOf(src), PiecesOf(src);
    RemainingAtTheStart(SQL, src);
    while i < |src|
      invariant 0 <= start <= i <= |src| && Standing(SQL, Emit, whole, src, start, i, hasCode, out, done, rest)
      decreases |src| - i
    {
      var end, code, separator := Step(src, i);
      if separator {
        var piece := Piece(src[start..i], hasCode);
        var more := EmitPiece(out, piece, done);
        rest := StandingAfterSeparator(SQL, Emit, whole, src, start, i, end, hasCode, out, more, done, piece, rest);
        done := done + [piece];
        out, start, hasCode := more, end, false;
      } else {
        StandingAfter(SQL, Emit, whole, src, start, i, end, hasCode, code, out, done, rest);
        hasCode := hasCode || code;
      }
      i := end;
    }
    StandingAtTheEnd(SQL, Emit, whole, src, start, hasCode, out, done, rest);
    out := EmitPiece(out, Piece(src[start..], hasCode), done);
  }
}
