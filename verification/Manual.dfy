/** The lexical rules of the PostgreSQL manual, sections 4.1.1, 4.1.2 and 4.1.5, and where the splitter's lexer follows
    them. In the manual a dollar sign after the first byte of an identifier belongs to it; an escape string begins with
    the identifier E alone, and keeps its escapes where it is continued on another line; bytes from 128 up are letters.
    The splitter looks at the bytes before a quote, not at words, and keeps nothing from one string to the next. */
module Manual {
  import opened Options
  import opened Splitter
  import opened SplitOutputs
  import Text

  /** What the manual leaves open. Whether a block comment may stand between the parts of a continued string, and a
      newline inside it counts; whether a carriage return ends a line; whether vertical tab and form feed are blanks. */
  datatype Reading = Reading(blocksPass: bool, blockLinesCount: bool, returnsEndLines: bool, feedsAreBlank: bool)

  /** What a byte is part of. */
  datatype Class = Break | Space | Comment | Plain | Single(escapes: bool) | Double | Dollar

  function Fill(c: Class, n: nat): (s: seq<Class>)
    ensures |s| == n && forall i | 0 <= i < n :: s[i] == c
  {
    seq(n, _ => c)
  }

  // ---- the splitter's classes

  function ClassOf(before: string, rest: string): Class
    requires rest != []
  {
    match Next(before, rest).kind
    case Separator => Break
    case Blank => Space
    case Remark => Comment
    case Code =>
      if rest[0] == '\'' then Single(EscapesAfter(before))
      else if rest[0] == '"' then Double
      else if rest[0] == '$' && TagLength(rest).Some? then Dollar
      else Plain
  }

  function Classes(before: string, rest: string): (cs: seq<Class>)
    ensures |cs| == |rest|
    decreases |rest|
  {
    if rest == [] then []
    else
      var n := Next(before, rest).scan.len;
      Fill(ClassOf(before, rest), n) + Classes(before + rest[..n], rest[n..])
  }

  // ---- the manual's, word by word

  predicate InName(c: char) {
    IsIdent(c) || c as int >= 128
  }

  predicate IsLetter(c: char) {
    InName(c) && !Text.IsDigit(c)
  }

  predicate InIdentifier(c: char) {
    InName(c) || c == '$'
  }

  function WordRun(s: string): (n: nat)
    ensures n <= |s|
  {
    if s != [] && InIdentifier(s[0]) then 1 + WordRun(s[1..]) else 0
  }

  function NameRun(s: string): (n: nat)
    ensures n <= |s|
  {
    if s != [] && InName(s[0]) then 1 + NameRun(s[1..]) else 0
  }

  /** A dollar quote's delimiter: its tag, if any, is an identifier without dollar signs. */
  function DelimiterLength(s: string): (n: Option<nat>)
    requires s != []
    ensures n.Some? ==> 2 <= n.value <= |s|
  {
    var k := NameRun(s[1..]);
    if 1 + k >= |s| || s[1 + k] != '$' then None
    else if k > 0 && Text.IsDigit(s[1]) then None
    else Some(k + 2)
  }

  predicate EndsLine(r: Reading, c: char) {
    c == '\n' || (r.returnsEndLines && c == '\r')
  }

  predicate HoldsALine(r: Reading, s: string) {
    exists i :: 0 <= i < |s| && EndsLine(r, s[i])
  }

  /** The rest of a line. */
  function LineRun(r: Reading, s: string): (n: nat)
    ensures n <= |s|
  {
    if s != [] && !EndsLine(r, s[0]) then 1 + LineRun(r, s[1..]) else 0
  }

  predicate IsFeed(c: char) {
    c == '\U{0B}' || c == '\U{0C}'
  }

  /** What stands just before: the end of an identifier, the middle of a number, or an escape string with nothing but
      blanks and comments since, perhaps an end of line among them. */
  datatype Where = Outside | InWord(word: string) | InNumber | AfterEscape(line: bool)

  predicate IsE(at: Where) {
    at == InWord("E") || at == InWord("e")
  }

  /** Whether a quote here begins, or goes on with, an escape string. */
  predicate ReadsEscapes(at: Where) {
    IsE(at) || at == AfterEscape(true)
  }

  datatype Lexeme = Lexeme(kind: Class, len: nat)

  /** What is neither a word nor a number. */
  function OtherLexeme(r: Reading, at: Where, rest: string): (x: Lexeme)
    requires rest != []
    ensures 1 <= x.len <= |rest|
  {
    var c, escapes := rest[0], ReadsEscapes(at);
    if c == ';' then Lexeme(Break, 1)
    else if c in " \t\n\r" || (r.feedsAreBlank && IsFeed(c)) then Lexeme(Space, 1)
    else if "--" <= rest then Lexeme(Comment, 2 + LineRun(r, rest[2..]))
    else if "/*" <= rest then Lexeme(Comment, 2 + BlockComment(rest[2..], 1).len)
    else if c == '\'' then Lexeme(Single(escapes), 1 + Quoted(rest[1..], c, escapes).len)
    else if c == '"' then Lexeme(Double, 1 + Quoted(rest[1..], c, false).len)
    else if c == '$' && DelimiterLength(rest).Some? then
      Lexeme(Dollar, DollarQuoted(rest, DelimiterLength(rest).value).len)
    else Lexeme(Plain, 1)
  }

  /** Where a lexeme that is neither word nor number leads: a closed escape string may yet be continued. */
  function Led(r: Reading, at: Where, kind: Class, text: string): Where
    requires text != []
  {
    match kind
    case Single(escapes) => if escapes then AfterEscape(false) else Outside
    case Space => if at.AfterEscape? then AfterEscape(at.line || EndsLine(r, text[0])) else Outside
    case Comment =>
      if !at.AfterEscape? then Outside
      else if "--" <= text then at
      else if r.blocksPass then AfterEscape(at.line || (r.blockLinesCount && HoldsALine(r, text)))
      else Outside
    case _ => Outside
  }

  /** An identifier is taken whole, dollar signs and all; so is a run of digits with the letters glued to it. */
  function ManualClasses(r: Reading, at: Where, rest: string): (cs: seq<Class>)
    ensures |cs| == |rest|
    decreases |rest|
  {
    if rest == [] then []
    else if IsLetter(rest[0]) then
      var n := WordRun(rest);
      Fill(Plain, n) + ManualClasses(r, InWord(rest[..n]), rest[n..])
    else if Text.IsDigit(rest[0]) then
      var n := NameRun(rest);
      Fill(Plain, n) + ManualClasses(r, Outside, rest[n..])
    else
      var x := OtherLexeme(r, at, rest);
      Fill(x.kind, x.len) + ManualClasses(r, Led(r, at, x.kind, rest[..x.len]), rest[x.len..])
  }

  // ---- the same, byte by byte

  /** A number that is over leaves nothing to touch. */
  function Touched(at: Where): Where {
    if at.InNumber? then Outside else at
  }

  /** The manual's classes from the middle of a word or a number on. */
  function From(r: Reading, at: Where, rest: string): seq<Class> {
    match at
    case InWord(w) => var n := WordRun(rest); Fill(Plain, n) + ManualClasses(r, InWord(w + rest[..n]), rest[n..])
    case InNumber => var n := NameRun(rest); Fill(Plain, n) + ManualClasses(r, Outside, rest[n..])
    case _ => ManualClasses(r, at, rest)
  }

  /** Whether the byte continues the word or number the bytes before it are in. */
  predicate Continues(at: Where, c: char) {
    (at.InWord? && InIdentifier(c)) || (at.InNumber? && InName(c))
  }

  /** Where one plain byte leads. */
  function Moved(at: Where, c: char): Where {
    if Continues(at, c) then if at.InWord? then InWord(at.word + [c]) else InNumber
    else if IsLetter(c) then InWord([c])
    else if Text.IsDigit(c) then InNumber
    else Outside
  }

  lemma FillCons(c: Class, n: nat, rest: seq<Class>)
    requires n > 0
    ensures Fill(c, n) + rest == [c] + (Fill(c, n - 1) + rest)
  {
  }

  /** A byte that continues a word or number is plain, and the rest goes on from it. */
  lemma ContinuedByte(r: Reading, at: Where, rest: string)
    requires rest != [] && Continues(at, rest[0])
    ensures From(r, at, rest) == [Plain] + From(r, Moved(at, rest[0]), rest[1..])
  {
    var left := rest[1..];
    var n := if at.InWord? then WordRun(left) else NameRun(left);
    assert rest[n + 1..] == left[n..];
    if at.InWord? {
      assert at.word + rest[..n + 1] == (at.word + [rest[0]]) + left[..n];
      FillCons(Plain, n + 1, ManualClasses(r, InWord(at.word + rest[..n + 1]), rest[n + 1..]));
    } else {
      FillCons(Plain, n + 1, ManualClasses(r, Outside, rest[n + 1..]));
    }
  }

  /** A byte that does not leaves it at the lexeme that begins there. */
  lemma EndedRun(r: Reading, at: Where, rest: string)
    requires rest == [] || !Continues(at, rest[0])
    ensures From(r, at, rest) == ManualClasses(r, Touched(at), rest)
  {
    assert rest[0..] == rest;
    if at.InWord? { assert at.word + rest[..0] == at.word; }
  }

  lemma BegunWord(r: Reading, at: Where, rest: string)
    requires rest != [] && IsLetter(rest[0])
    ensures ManualClasses(r, at, rest) == [Plain] + From(r, InWord([rest[0]]), rest[1..])
  {
    var left := rest[1..];
    var n := WordRun(left);
    assert rest[n + 1..] == left[n..] && rest[..n + 1] == [rest[0]] + left[..n];
    FillCons(Plain, n + 1, ManualClasses(r, InWord(rest[..n + 1]), rest[n + 1..]));
  }

  lemma BegunNumber(r: Reading, at: Where, rest: string)
    requires rest != [] && Text.IsDigit(rest[0])
    ensures ManualClasses(r, at, rest) == [Plain] + From(r, InNumber, rest[1..])
  {
    var left := rest[1..];
    var n := NameRun(left);
    assert rest[n + 1..] == left[n..];
    FillCons(Plain, n + 1, ManualClasses(r, Outside, rest[n + 1..]));
  }

  // ---- where the two part

  /** The splitter's next token is
      - a dollar quote opened inside an identifier, or a delimiter it does not know for its letters outside ASCII;
      - an escape string after a word that only ends in E, or a plain string that continues an escape string;
      - and, as the manual is read, a vertical tab or form feed, or a line comment with a carriage return in it. */
  predicate Parts(r: Reading, at: Where, before: string, rest: string)
    requires rest != []
  {
    var c, n := ClassOf(before, rest), Next(before, rest).scan.len;
    || (c == Dollar && at.InWord?)
    || (c == Plain && rest[0] == '$' && !at.InWord? && DelimiterLength(rest).Some?)
    || (c == Single(true) && !IsE(at))
    || (c == Single(false) && at == AfterEscape(true))
    || (c == Plain && r.feedsAreBlank && IsFeed(rest[0]))
    || (c == Comment && rest[0] == '-' && r.returnsEndLines && '\r' in rest[..n])
  }

  /** Where the splitter's token leads. */
  function After(r: Reading, at: Where, before: string, rest: string): Where
    requires rest != []
  {
    var n := Next(before, rest).scan.len;
    if ClassOf(before, rest) == Plain then Moved(at, rest[0]) else Led(r, Touched(at), ClassOf(before, rest), rest[..n])
  }

  /** None of the tokens from here to the end of the text is one of these. */
  predicate NeverParts(r: Reading, at: Where, before: string, rest: string)
    decreases |rest|
  {
    rest == [] ||
    (&& !Parts(r, at, before, rest)
     && var n := Next(before, rest).scan.len;
        NeverParts(r, After(r, at, before, rest), before + rest[..n], rest[n..]))
  }

  predicate EndsInIdent(s: string) {
    s != [] && IsIdent(s[|s| - 1])
  }

  /** before does end in that word, which no identifier byte touches from the left; outside of words and numbers it
      ends in no identifier byte, unless at the end of a line comment. */
  ghost predicate Stands(at: Where, before: string, rest: string) {
    match at
    case InWord(w) =>
      w != [] && |w| <= |before| && before[|before| - |w|..] == w && !EndsInIdent(before[..|before| - |w|])
    case InNumber => true
    case _ => !EndsInIdent(before) || rest == [] || rest[0] == '\n'
  }

  /** After the word E the splitter reads an escape string, and after an escape string it does not. */
  lemma EscapesAfterE(at: Where, before: string, rest: string)
    requires Stands(at, before, rest) && rest != [] && rest[0] == '\''
    ensures IsE(at) ==> EscapesAfter(before)
    ensures at.AfterEscape? ==> !EscapesAfter(before)
  {
    if IsE(at) {
      var n := |before|;
      assert before[n - 1] == at.word[0];
      if n > 1 { assert before[..n - 1][n - 2] == before[n - 2]; }
    }
  }

  // ---- how each scanner ends

  lemma {:induction false} LineCommentEnds(s: string)
    ensures var n := LineComment(s).len; n == |s| || s[n] == '\n'
  {
    if s != [] && s[0] != '\n' { LineCommentEnds(s[1..]); }
  }

  lemma {:induction false} BlockCommentEnds(s: string, depth: nat)
    requires depth > 0
    ensures var n := BlockComment(s, depth).len; n == |s| || (n > 0 && s[n - 1] == '/')
    decreases |s|
  {
    if |s| > 1 && s[0] == '/' && s[1] == '*' {
      BlockCommentEnds(s[2..], depth + 1);
    } else if |s| > 1 && s[0] == '*' && s[1] == '/' {
      if depth > 1 { BlockCommentEnds(s[2..], depth - 1); }
    } else if s != [] {
      BlockCommentEnds(s[1..], depth);
    }
  }

  lemma {:induction false} QuotedEnds(s: string, mark: char, escapes: bool)
    ensures var n := Quoted(s, mark, escapes).len; n == |s| || (n > 0 && s[n - 1] == mark)
    decreases |s|
  {
    if s == [] {
    } else if (escapes && s[0] == '\\' && |s| > 1) || (s[0] == mark && |s| > 1 && s[1] == mark) {
      QuotedEnds(s[2..], mark, escapes);
    } else if s[0] != mark {
      QuotedEnds(s[1..], mark, escapes);
    }
  }

  lemma {:induction false} IndexFinds(s: string, tag: string)
    requires Index(s, tag).Some?
    ensures var i := Index(s, tag).value; s[i..i + |tag|] == tag
  {
    if !(tag <= s) {
      IndexFinds(s[1..], tag);
      var i := Index(s[1..], tag).value;
      assert s[1..][i..i + |tag|] == s[i + 1..i + 1 + |tag|];
    }
  }

  lemma DollarQuotedEnds(s: string, n: nat)
    requires 2 <= n <= |s| && s[n - 1] == '$'
    ensures var m := DollarQuoted(s, n).len; m == |s| || s[m - 1] == '$'
  {
    var tag, at := s[..n], Index(s[n..], s[..n]);
    if at.Some? {
      IndexFinds(s[n..], tag);
      var i := at.value;
      assert s[n..][i..i + n][n - 1] == s[n + i + n - 1];
      assert tag[n - 1] == '$';
    }
  }

  lemma TagEndsInADollar(s: string)
    requires s != [] && TagLength(s).Some?
    ensures s[TagLength(s).value - 1] == '$'
  {
  }

  /** A token that is not plain ends at the end of the text, before a newline, or with a byte that is no
      identifier's. */
  lemma TokenEnds(before: string, rest: string)
    requires rest != [] && ClassOf(before, rest) != Plain
    ensures var n := Next(before, rest).scan.len;
            n == |rest| || rest[n] == '\n' || !IsIdent(rest[n - 1])
  {
    var c := rest[0];
    if c == '-' && |rest| > 1 && rest[1] == '-' {
      LineCommentEnds(rest[2..]);
    } else if c == '/' && |rest| > 1 && rest[1] == '*' {
      BlockCommentEnds(rest[2..], 1);
    } else if c == '\'' || c == '"' {
      QuotedEnds(rest[1..], c, c == '\'' && EscapesAfter(before));
    } else if c == '$' && TagLength(rest).Some? {
      TagEndsInADollar(rest);
      DollarQuotedEnds(rest, TagLength(rest).value);
    }
  }

  lemma PlainIsOneByte(before: string, rest: string)
    requires rest != [] && ClassOf(before, rest) == Plain
    ensures Next(before, rest).scan.len == 1
  {
  }

  lemma NameIsPlain(before: string, rest: string)
    requires rest != [] && InName(rest[0])
    ensures ClassOf(before, rest) == Plain
  {
  }

  lemma PlainByteStands(at: Where, before: string, rest: string)
    requires Stands(at, before, rest) && rest != []
    ensures Stands(Moved(at, rest[0]), before + [rest[0]], rest[1..])
  {
    var c, now := rest[0], before + [rest[0]];
    if Continues(at, c) && at.InWord? {
      var k := |before| - |at.word|;
      assert before == before[..k] + at.word;
      assert now == before[..k] + (at.word + [c]) && now[..k] == before[..k] && now[k..] == at.word + [c];
    } else if IsLetter(c) {
      assert now[..|now| - 1] == before && now[|now| - 1..] == [c];
    }
  }

  lemma TokenStands(r: Reading, at: Where, before: string, rest: string)
    requires Stands(at, before, rest) && rest != []
    ensures var n := Next(before, rest).scan.len;
            Stands(After(r, at, before, rest), before + rest[..n], rest[n..])
  {
    var n := Next(before, rest).scan.len;
    if ClassOf(before, rest) == Plain {
      PlainIsOneByte(before, rest);
      PlainByteStands(at, before, rest);
      assert rest[..1] == [rest[0]];
    } else {
      TokenEnds(before, rest);
      assert (before + rest[..n])[|before| + n - 1] == rest[n - 1];
    }
  }

  // ---- token by token

  lemma {:induction false} NameRunStops(s: string, k: nat)
    requires k < |s| && !InName(s[k]) && forall i | 0 <= i < k :: InName(s[i])
    ensures NameRun(s) == k
  {
    if k > 0 { NameRunStops(s[1..], k - 1); }
  }

  /** A delimiter the splitter knows is one of the manual's. */
  lemma TagIsDelimiter(s: string)
    requires s != [] && TagLength(s).Some?
    ensures DelimiterLength(s) == TagLength(s)
  {
    var k := IdentRun(s[1..]);
    IdentRunHoldsIdents(s[1..]);
    NameRunStops(s[1..], k);
  }

  /** A line ends for the splitter where it does for the manual, unless a carriage return ends it sooner. */
  lemma {:induction false} LineRunAgainst(r: Reading, s: string)
    ensures var n, m := LineComment(s).len, LineRun(r, s);
            if r.returnsEndLines && '\r' in s[..n] then m < n && s[m] == '\r' else m == n
  {
    if s != [] && s[0] != '\n' {
      LineRunAgainst(r, s[1..]);
      var n := LineComment(s).len;
      assert s[..n] == [s[0]] + s[1..][..n - 1];
    }
  }

  lemma QuoteAgrees(r: Reading, at: Where, before: string, rest: string)
    requires Stands(at, before, rest) && rest != [] && rest[0] == '\'' && !Parts(r, at, before, rest)
    ensures OtherLexeme(r, Touched(at), rest) == Lexeme(ClassOf(before, rest), Next(before, rest).scan.len)
  {
    EscapesAfterE(at, before, rest);
  }

  lemma DollarAgrees(r: Reading, at: Where, before: string, rest: string)
    requires rest != [] && rest[0] == '$' && !at.InWord? && !Parts(r, at, before, rest)
    ensures OtherLexeme(r, Touched(at), rest) == Lexeme(ClassOf(before, rest), Next(before, rest).scan.len)
  {
    if TagLength(rest).Some? { TagIsDelimiter(rest); }
  }

  lemma LineAgrees(r: Reading, at: Where, before: string, rest: string)
    requires "--" <= rest && !Parts(r, at, before, rest)
    ensures OtherLexeme(r, Touched(at), rest) == Lexeme(ClassOf(before, rest), Next(before, rest).scan.len)
  {
    var n := LineComment(rest[2..]).len;
    LineRunAgainst(r, rest[2..]);
    assert rest[..n + 2] == "--" + rest[2..][..n];
  }

  /** Where neither a word nor a number goes on or begins, and the two do not part, they read the same lexeme. */
  lemma OtherTokenAgrees(r: Reading, at: Where, before: string, rest: string)
    requires Stands(at, before, rest) && rest != [] && !Continues(at, rest[0]) && !InName(rest[0])
    requires !Parts(r, at, before, rest)
    ensures OtherLexeme(r, Touched(at), rest) == Lexeme(ClassOf(before, rest), Next(before, rest).scan.len)
  {
    if rest[0] == '\'' {
      QuoteAgrees(r, at, before, rest);
    } else if rest[0] == '$' {
      DollarAgrees(r, at, before, rest);
    } else if "--" <= rest {
      LineAgrees(r, at, before, rest);
    }
  }

  /** The manual's classes begin with this token's and go on from where it leads. */
  ghost predicate Follows(r: Reading, at: Where, before: string, rest: string)
    requires rest != []
  {
    var n := Next(before, rest).scan.len;
    From(r, at, rest) == Fill(ClassOf(before, rest), n) + From(r, After(r, at, before, rest), rest[n..])
  }

  lemma FillOne(c: Class)
    ensures Fill(c, 1) == [c]
  {
  }

  lemma OtherLexemeStep(r: Reading, at: Where, rest: string, x: Lexeme)
    requires rest != [] && !InName(rest[0]) && x == OtherLexeme(r, at, rest)
    ensures ManualClasses(r, at, rest) ==
            Fill(x.kind, x.len) + ManualClasses(r, Led(r, at, x.kind, rest[..x.len]), rest[x.len..])
  {
  }

  lemma OtherTokenFollows(r: Reading, at: Where, before: string, rest: string)
    requires Stands(at, before, rest) && rest != [] && !Continues(at, rest[0]) && !InName(rest[0])
    requires !Parts(r, at, before, rest)
    ensures Follows(r, at, before, rest)
  {
    EndedRun(r, at, rest);
    OtherTokenAgrees(r, at, before, rest);
    var n := Next(before, rest).scan.len;
    OtherLexemeStep(r, Touched(at), rest, Lexeme(ClassOf(before, rest), n));
    if ClassOf(before, rest) == Plain { PlainIsOneByte(before, rest); }
    assert Led(r, Touched(at), ClassOf(before, rest), rest[..n]) == After(r, at, before, rest);
    assert !After(r, at, before, rest).InWord? && !After(r, at, before, rest).InNumber?;
  }

  lemma NameFollows(r: Reading, at: Where, before: string, rest: string)
    requires rest != [] && (InName(rest[0]) || (Continues(at, rest[0]) && !Parts(r, at, before, rest)))
    ensures Follows(r, at, before, rest)
  {
    if InName(rest[0]) { NameIsPlain(before, rest); }
    assert ClassOf(before, rest) == Plain;
    PlainIsOneByte(before, rest);
    FillOne(Plain);
    if Continues(at, rest[0]) {
      ContinuedByte(r, at, rest);
    } else {
      EndedRun(r, at, rest);
      if IsLetter(rest[0]) { BegunWord(r, Touched(at), rest); } else { BegunNumber(r, Touched(at), rest); }
    }
  }

  lemma TokenFollows(r: Reading, at: Where, before: string, rest: string)
    requires Stands(at, before, rest) && rest != [] && !Parts(r, at, before, rest)
    ensures Follows(r, at, before, rest)
  {
    if InName(rest[0]) || Continues(at, rest[0]) {
      NameFollows(r, at, before, rest);
    } else {
      OtherTokenFollows(r, at, before, rest);
    }
  }

  /** Some byte of the token is classed otherwise. */
  ghost predicate Differs(r: Reading, at: Where, before: string, rest: string)
    requires rest != []
  {
    exists i :: 0 <= i < Next(before, rest).scan.len && i < |From(r, at, rest)| &&
                From(r, at, rest)[i] != ClassOf(before, rest)
  }

  lemma FirstByteDiffers(r: Reading, at: Where, before: string, rest: string)
    requires rest != [] && !Continues(at, rest[0]) && !InName(rest[0])
    requires OtherLexeme(r, Touched(at), rest).kind != ClassOf(before, rest)
    ensures Differs(r, at, before, rest)
  {
    EndedRun(r, at, rest);
    OtherLexemeStep(r, Touched(at), rest, OtherLexeme(r, Touched(at), rest));
    assert From(r, at, rest)[0] != ClassOf(before, rest);
  }

  lemma ReturnIsSpace(r: Reading, at: Where, rest: string)
    requires rest != [] && rest[0] == '\r'
    ensures ManualClasses(r, at, rest)[0] == Space
  {
    OtherLexemeStep(r, at, rest, Lexeme(Space, 1));
  }

  /** The comment the manual reads there ends at the carriage return. */
  lemma ReturnEndsComment(r: Reading, before: string, rest: string)
    requires rest != [] && ClassOf(before, rest) == Comment && rest[0] == '-'
    requires r.returnsEndLines && '\r' in rest[..Next(before, rest).scan.len]
    ensures var m := LineRun(r, rest[2..]) + 2; m < Next(before, rest).scan.len && rest[m] == '\r' && "--" <= rest
  {
    var n := LineComment(rest[2..]).len;
    LineRunAgainst(r, rest[2..]);
    assert rest[..n + 2] == "--" + rest[2..][..n];
    var m := LineRun(r, rest[2..]) + 2;
    assert rest[m] == rest[2..][m - 2];
  }

  lemma CarriageReturnDiffers(r: Reading, at: Where, before: string, rest: string)
    requires rest != [] && ClassOf(before, rest) == Comment && rest[0] == '-'
    requires r.returnsEndLines && '\r' in rest[..Next(before, rest).scan.len]
    ensures Differs(r, at, before, rest)
  {
    ReturnEndsComment(r, before, rest);
    var m := LineRun(r, rest[2..]) + 2;
    EndedRun(r, at, rest);
    OtherLexemeStep(r, Touched(at), rest, Lexeme(Comment, m));
    ReturnIsSpace(r, Led(r, Touched(at), Comment, rest[..m]), rest[m..]);
    assert From(r, at, rest)[m] == Space;
  }

  lemma QuoteClasses(r: Reading, at: Where, before: string, rest: string)
    requires rest != [] && rest[0] == '\''
    ensures ClassOf(before, rest) == Single(EscapesAfter(before))
    ensures OtherLexeme(r, at, rest).kind == Single(ReadsEscapes(at))
  {
  }

  lemma QuoteParts(r: Reading, at: Where, before: string, rest: string)
    requires rest != [] && rest[0] == '\'' && Parts(r, at, before, rest)
    ensures if EscapesAfter(before) then !IsE(at) else at == AfterEscape(true)
  {
    QuoteClasses(r, at, before, rest);
  }

  lemma QuoteKinds(r: Reading, at: Where, before: string, rest: string)
    requires Stands(at, before, rest) && rest != [] && rest[0] == '\'' && Parts(r, at, before, rest)
    ensures ReadsEscapes(Touched(at)) != EscapesAfter(before)
  {
    EscapesAfterE(at, before, rest);
    QuoteParts(r, at, before, rest);
  }

  lemma QuoteClassDiffers(r: Reading, at: Where, before: string, rest: string)
    requires rest != [] && rest[0] == '\'' && ReadsEscapes(Touched(at)) != EscapesAfter(before)
    ensures Differs(r, at, before, rest)
  {
    QuoteClasses(r, Touched(at), before, rest);
    FirstByteDiffers(r, at, before, rest);
  }

  lemma QuoteDiffers(r: Reading, at: Where, before: string, rest: string)
    requires Stands(at, before, rest) && rest != [] && rest[0] == '\'' && Parts(r, at, before, rest)
    ensures Differs(r, at, before, rest)
  {
    QuoteKinds(r, at, before, rest);
    QuoteClassDiffers(r, at, before, rest);
  }

  lemma InnerDollarDiffers(r: Reading, at: Where, before: string, rest: string)
    requires rest != [] && Continues(at, rest[0]) && ClassOf(before, rest) == Dollar
    ensures Differs(r, at, before, rest)
  {
    ContinuedByte(r, at, rest);
    assert From(r, at, rest)[0] == Plain;
  }

  lemma PartingDiffers(r: Reading, at: Where, before: string, rest: string)
    requires Stands(at, before, rest) && rest != [] && Parts(r, at, before, rest)
    ensures Differs(r, at, before, rest)
  {
    var c := rest[0];
    if c == '\'' {
      QuoteDiffers(r, at, before, rest);
    } else if c == '-' {
      CarriageReturnDiffers(r, at, before, rest);
    } else if Continues(at, c) {
      InnerDollarDiffers(r, at, before, rest);
    } else {
      FirstByteDiffers(r, at, before, rest);
    }
  }

  // ---- the whole text

  lemma {:induction false} AgreesFromHere(r: Reading, at: Where, before: string, rest: string)
    requires Stands(at, before, rest)
    ensures Classes(before, rest) == From(r, at, rest) <==> NeverParts(r, at, before, rest)
    decreases |rest|
  {
    if rest == [] {
      EndedRun(r, at, rest);
    } else {
      var n := Next(before, rest).scan.len;
      TokenStands(r, at, before, rest);
      AgreesFromHere(r, After(r, at, before, rest), before + rest[..n], rest[n..]);
      if Parts(r, at, before, rest) {
        PartingDiffers(r, at, before, rest);
        FirstClasses(before, rest);
      } else {
        TokenFollows(r, at, before, rest);
        SamePrefix(Fill(ClassOf(before, rest), n), Classes(before + rest[..n], rest[n..]),
                   From(r, After(r, at, before, rest), rest[n..]));
      }
    }
  }

  lemma FirstClasses(before: string, rest: string)
    requires rest != []
    ensures forall i | 0 <= i < Next(before, rest).scan.len :: Classes(before, rest)[i] == ClassOf(before, rest)
  {
  }

  lemma SamePrefix(a: seq<Class>, b: seq<Class>, c: seq<Class>)
    ensures a + b == a + c <==> b == c
  {
    if a + b == a + c { assert b == (a + b)[|a|..] == (a + c)[|a|..] == c; }
  }

  /** For any text, and however the manual is read where it leaves a choice: the splitter's lexer puts every byte where
      the manual's rules put it if and only if none of its tokens is one of those that part. */
  lemma FollowsTheManualExactly(r: Reading, src: string)
    ensures Classes([], src) == ManualClasses(r, Outside, src) <==> NeverParts(r, Outside, [], src)
  {
    AgreesFromHere(r, Outside, [], src);
  }

  // ---- what that means for the split

  lemma {:induction false} ClassesAreKinds(before: string, rest: string)
    ensures forall i | 0 <= i < |rest| ::
              Classes(before, rest)[i].Break? <==> Kinds(SQL, before, rest)[i].Separator?
    decreases |rest|
  {
    if rest != [] {
      var n := Next(before, rest).scan.len;
      ClassesAreKinds(before + rest[..n], rest[n..]);
      KindsPastAToken(SQL, before, rest);
      BreaksAgree(Classes(before, rest), Kinds(SQL, before, rest), n, ClassOf(before, rest),
                  Classes(before + rest[..n], rest[n..]));
    }
  }

  lemma BreaksAgree(cs: seq<Class>, ks: seq<Kind>, n: nat, c: Class, later: seq<Class>)
    requires 1 <= n <= |ks| == |cs| && cs == Fill(c, n) + later
    requires forall i | 0 <= i < n :: ks[i].Separator? <==> c.Break?
    requires forall i | 0 <= i < |later| :: later[i].Break? <==> ks[n..][i].Separator?
    ensures forall i | 0 <= i < |cs| :: cs[i].Break? <==> ks[i].Separator?
  {
    forall i | n <= i < |cs|
      ensures cs[i].Break? <==> ks[i].Separator?
    {
      assert cs[i] == later[i - n] && ks[i] == ks[n..][i - n];
    }
  }

  /** In such a text the splitter cuts exactly at the manual's top-level semicolons. */
  lemma CutsWhereTheManualDoes(r: Reading, src: string, i: nat)
    requires NeverParts(r, Outside, [], src) && i < |src|
    ensures Kinds(SQL, [], src)[i].Separator? <==> ManualClasses(r, Outside, src)[i].Break?
  {
    FollowsTheManualExactly(r, src);
    ClassesAreKinds([], src);
  }

  const GLUED := "a$b$;x"

  lemma GluedTail()
    ensures Next("a", "$b$;x") == Token(Code, Scan(5, false))
  {
    var rest := "$b$;x";
    assert rest[1..] == "b$;x" && "b$;x"[1..] == "$;x" && IdentRun("$;x") == 0 && IdentRun("b$;x") == 1;
    assert TagLength(rest) == Some(3) && rest[..3] == "$b$" && rest[3..] == ";x";
    assert ";x"[1..] == "x" && "x"[1..] == "" && Index("", "$b$") == None && Index("x", "$b$") == None;
    assert Index(";x", "$b$") == None;
  }

  lemma GluedWord()
    ensures WordRun(GLUED) == 4
  {
    assert GLUED[1..] == "$b$;x" && "$b$;x"[1..] == "b$;x" && "b$;x"[1..] == "$;x" && "$;x"[1..] == ";x";
    assert WordRun(";x") == 0 && WordRun("$;x") == 1 && WordRun("b$;x") == 2 && WordRun("$b$;x") == 3;
  }

  /** A delimiter inside an identifier takes the rest of the text for a quote, and the separator with it. */
  lemma ADelimiterInAnIdentifierHidesASeparator(r: Reading)
    ensures Classes([], GLUED)[4] == Dollar && ManualClasses(r, Outside, GLUED)[4] == Break
  {
    GluedTail();
    GluedWord();
    assert Next([], GLUED) == Token(Code, Scan(1, true)) && GLUED[1..] == "$b$;x" && [] + GLUED[..1] == "a";
    assert Classes([], GLUED) == Fill(Plain, 1) + Classes("a", "$b$;x");
    assert ClassOf("a", "$b$;x") == Dollar && "$b$;x"[5..] == [];
    assert GLUED[4..] == ";x" && OtherLexeme(r, InWord(GLUED[..4]), ";x") == Lexeme(Break, 1);
    OtherLexemeStep(r, InWord(GLUED[..4]), ";x", Lexeme(Break, 1));
  }

  /** An escape string, a newline, and a second part that holds an escaped quote and a semicolon. */
  const CONTINUED := "E'a'\n'b\\';'"

  const SECOND := "'b\\';'"

  lemma SecondPart()
    ensures Quoted(SECOND[1..], '\'', true).len == 5 && Quoted(SECOND[1..], '\'', false).len == 3
  {
    var s := "b\\';'";
    assert SECOND[1..] == s && s[1..] == "\\';'" && s[1..][2..] == ";'" && s[1..][1..] == "';'";
    assert ";'"[1..] == "'";
    assert Quoted("'", '\'', true) == Scan(1, true) && Quoted(";'", '\'', true) == Scan(2, true);
    assert Quoted("\\';'", '\'', true) == Scan(4, true);
    assert Quoted("';'", '\'', false) == Scan(1, true) && Quoted("\\';'", '\'', false) == Scan(2, true);
  }

  lemma FirstPart(escapes: bool)
    ensures Quoted("a'\n'b\\';'", '\'', escapes).len == 2
  {
    var s := "a'\n'b\\';'";
    assert s[1..] == "'\n'b\\';'" && s[0] == 'a' && s[1] == '\'' && s[2] == '\n';
    assert Quoted(s[1..], '\'', escapes) == Scan(1, true);
  }

  /** The splitter's first token here is n bytes long, and leaves it there. */
  predicate SplitterPasses(before: string, rest: string, n: nat, passed: string, left: string) {
    rest != [] && n == Next(before, rest).scan.len && passed == before + rest[..n] && left == rest[n..]
  }

  /** The manual's first lexeme here is n bytes long, and leaves it there. */
  predicate ManualPasses(r: Reading, at: Where, rest: string, n: nat, to: Where, left: string) {
    rest != [] && n <= |rest| && left == rest[n..] &&
    if IsLetter(rest[0]) then n == WordRun(rest) && to == InWord(rest[..n])
    else
      && !Text.IsDigit(rest[0]) && n == OtherLexeme(r, at, rest).len
      && to == Led(r, at, OtherLexeme(r, at, rest).kind, rest[..n])
  }

  lemma ClassesFurther(before: string, rest: string, n: nat, passed: string, left: string, i: nat)
    requires SplitterPasses(before, rest, n, passed, left) && i < |left|
    ensures Classes(before, rest)[n + i] == Classes(passed, left)[i]
  {
  }

  lemma WordStep(r: Reading, at: Where, rest: string)
    requires rest != [] && IsLetter(rest[0])
    ensures var n := WordRun(rest);
            ManualClasses(r, at, rest) == Fill(Plain, n) + ManualClasses(r, InWord(rest[..n]), rest[n..])
  {
  }

  lemma ManualFurther(r: Reading, at: Where, rest: string, n: nat, to: Where, left: string, i: nat)
    requires ManualPasses(r, at, rest, n, to, left) && i < |left|
    ensures ManualClasses(r, at, rest)[n + i] == ManualClasses(r, to, left)[i]
  {
    if IsLetter(rest[0]) {
      WordStep(r, at, rest);
    } else {
      OtherLexemeStep(r, at, rest, OtherLexeme(r, at, rest));
    }
  }

  const AFTER_E := "'a'\n'b\\';'"
  const AFTER_PART := "\n'b\\';'"

  lemma TheWordE(r: Reading)
    ensures SplitterPasses([], CONTINUED, 1, "E", AFTER_E)
    ensures ManualPasses(r, Outside, CONTINUED, 1, InWord("E"), AFTER_E)
  {
    OnlyTheWordE();
    assert [] + "E" == "E";
  }

  lemma OnlyTheWordE()
    ensures CONTINUED[1..] == AFTER_E && CONTINUED[..1] == "E" && CONTINUED[0] == 'E' && WordRun(CONTINUED) == 1
  {
    assert CONTINUED[1..] == AFTER_E && WordRun(AFTER_E) == 0;
  }

  lemma FirstPartTexts()
    ensures AFTER_E[..3] == "'a'" && AFTER_E[3..] == AFTER_PART && "E" + "'a'" == "E'a'"
    ensures AFTER_E[1..] == "a'\n'b\\';'" && AFTER_E[0] == '\'' && !("--" <= AFTER_E) && !("/*" <= AFTER_E)
  {
  }

  lemma TheFirstPart(r: Reading)
    ensures SplitterPasses("E", AFTER_E, 3, "E'a'", AFTER_PART)
    ensures ManualPasses(r, InWord("E"), AFTER_E, 3, AfterEscape(false), AFTER_PART)
  {
    FirstPart(true);
    FirstPartTexts();
    assert EscapesAfter("E");
  }

  lemma TheNewline(r: Reading)
    ensures SplitterPasses("E'a'", AFTER_PART, 1, "E'a'\n", SECOND)
    ensures ManualPasses(r, AfterEscape(false), AFTER_PART, 1, AfterEscape(true), SECOND)
  {
    assert AFTER_PART[..1] == "\n" && AFTER_PART[1..] == SECOND && "E'a'" + "\n" == "E'a'\n";
  }

  /** The splitter takes four bytes for the second part, the manual six. */
  lemma TheSecondPart(r: Reading)
    ensures SplitterPasses("E'a'\n", SECOND, 4, "E'a'\n" + SECOND[..4], ";'")
    ensures OtherLexeme(r, AfterEscape(true), SECOND) == Lexeme(Single(true), 6)
  {
    SecondPart();
    var before := "E'a'\n";
    assert before[5 - 1] == '\n' && !EscapesAfter(before);
    assert SECOND[0] == '\'' && !("--" <= SECOND) && !("/*" <= SECOND) && SECOND[4..] == ";'";
  }

  /** Three tokens on, the splitter's classes are those of what is left. */
  lemma ThreeTokensOn(b: seq<string>, s: seq<string>, i: nat)
    requires |b| == |s| == 4 && i < |s[3]|
    requires SplitterPasses(b[0], s[0], 1, b[1], s[1]) && SplitterPasses(b[1], s[1], 3, b[2], s[2])
    requires SplitterPasses(b[2], s[2], 1, b[3], s[3])
    ensures Classes(b[0], s[0])[5 + i] == Classes(b[3], s[3])[i]
  {
    ClassesFurther(b[0], s[0], 1, b[1], s[1], 4 + i);
    ClassesFurther(b[1], s[1], 3, b[2], s[2], 1 + i);
    ClassesFurther(b[2], s[2], 1, b[3], s[3], i);
  }

  /** The splitter's reading: the second part is a plain string of four bytes, and then comes a separator. */
  lemma ContinuedForTheSplitter(r: Reading)
    ensures Classes([], CONTINUED)[9] == Break
  {
    TheWordE(r);
    TheFirstPart(r);
    TheNewline(r);
    ThreeTokensOn([[], "E", "E'a'", "E'a'\n"], [CONTINUED, AFTER_E, AFTER_PART, SECOND], 4);
    SecondForTheSplitter(r);
  }

  lemma SecondForTheSplitter(r: Reading)
    ensures Classes("E'a'\n", SECOND)[4] == Break
  {
    TheSecondPart(r);
    FirstClasses("E'a'\n" + SECOND[..4], ";'");
    ClassesFurther("E'a'\n", SECOND, 4, "E'a'\n" + SECOND[..4], ";'", 0);
  }

  lemma SecondForTheManual(r: Reading)
    ensures ManualClasses(r, AfterEscape(true), SECOND)[4] == Single(true)
  {
    TheSecondPart(r);
    OtherLexemeStep(r, AfterEscape(true), SECOND, Lexeme(Single(true), 6));
  }

  lemma NewlineForTheManual(r: Reading)
    ensures ManualClasses(r, AfterEscape(false), AFTER_PART)[5] == Single(true)
  {
    SecondForTheManual(r);
    TheNewline(r);
    ManualFurther(r, AfterEscape(false), AFTER_PART, 1, AfterEscape(true), SECOND, 4);
  }

  lemma FirstForTheManual(r: Reading)
    ensures ManualClasses(r, InWord("E"), AFTER_E)[8] == Single(true)
  {
    NewlineForTheManual(r);
    TheFirstPart(r);
    ManualFurther(r, InWord("E"), AFTER_E, 3, AfterEscape(false), AFTER_PART, 5);
  }

  /** The manual's: the string goes on, and the separator is inside it. */
  lemma ContinuedForTheManual(r: Reading)
    ensures ManualClasses(r, Outside, CONTINUED)[9] == Single(true)
  {
    FirstForTheManual(r);
    TheWordE(r);
    ManualFurther(r, Outside, CONTINUED, 1, InWord("E"), AFTER_E, 8);
  }

  /** A continued escape string is cut in two at a semicolon inside it, however the manual is read. */
  lemma AContinuedEscapeStringIsCut(r: Reading)
    ensures Kinds(SQL, [], CONTINUED)[9].Separator? && ManualClasses(r, Outside, CONTINUED)[9] == Single(true)
  {
    ContinuedForTheSplitter(r);
    ContinuedForTheManual(r);
    ClassesAreKinds([], CONTINUED);
  }
}
