/** If-None-Match over any list of entity-tags, as section 8.8.3 of RFC 9110 writes them: the quoted text may hold
    commas, which the header is cut at all the same. */
module EntityTags {
  import opened Options
  import opened ETags
  import Text

  /** A member of a list: nothing, which section 5.6.1.2 of RFC 9110 has a recipient pass over, or an entity-tag; either
      in any whitespace. */
  datatype Listed =
    | Nothing(pad: string)
    | Entity(before: string, weak: bool, inner: string, after: string)
  {
    predicate Valid() {
      match this
      case Nothing(pad) => Text.AllSpace(pad)
      case Entity(before, weak, inner, after) => Text.AllSpace(before) && Text.AllSpace(after) && '"' !in inner
    }

    function Tag(): string {
      match this
      case Nothing(_) => ""
      case Entity(_, weak, inner, _) => (if weak then "W/" else "") + InQuotes(inner)
    }

    function Render(): string {
      match this
      case Nothing(pad) => pad
      case Entity(before, _, _, after) => before + Tag() + after
    }

    predicate Carries(inner: string) {
      Entity? && this.inner == inner
    }
  }

  function InQuotes(inner: string): string {
    "\"" + inner + "\""
  }

  /** The text inside the quotes of a formatted tag. */
  function Inner(emitter: nat, logbook: nat): string {
    Decimal(emitter) + "-" + Decimal(logbook)
  }

  function Rendered(list: seq<Listed>): (out: seq<string>)
    ensures |out| == |list| && forall i | 0 <= i < |list| :: out[i] == list[i].Render()
  {
    seq(|list|, i requires 0 <= i < |list| => list[i].Render())
  }

  // ---- counting quotation marks

  function Quotes(s: string): nat {
    if s == [] then 0 else (if s[0] == '"' then 1 else 0) + Quotes(s[1..])
  }

  lemma {:induction false} QuotesAdd(a: string, b: string)
    ensures Quotes(a + b) == Quotes(a) + Quotes(b)
  {
    if a == [] {
      assert a + b == b;
    } else {
      assert (a + b)[1..] == a[1..] + b;
      QuotesAdd(a[1..], b);
    }
  }

  lemma {:induction false} NoQuotes(s: string)
    requires '"' !in s
    ensures Quotes(s) == 0
  {
    if s != [] { NoQuotes(s[1..]); }
  }

  lemma {:induction false} TrimLeftKeepsQuotes(s: string)
    ensures Quotes(Text.TrimLeft(s)) == Quotes(s)
  {
    if s != [] && Text.IsSpace(s[0]) { TrimLeftKeepsQuotes(s[1..]); }
  }

  lemma {:induction false} TrimRightKeepsQuotes(s: string)
    ensures Quotes(Text.TrimRight(s)) == Quotes(s)
  {
    if s != [] && Text.IsSpace(s[|s| - 1]) {
      var n := |s| - 1;
      TrimRightKeepsQuotes(s[..n]);
      assert s == s[..n] + [s[n]];
      QuotesAdd(s[..n], [s[n]]);
    }
  }

  lemma TrimKeepsQuotes(s: string)
    ensures Quotes(Text.TrimSpace(s)) == Quotes(s)
  {
    TrimLeftKeepsQuotes(s);
    TrimRightKeepsQuotes(Text.TrimLeft(s));
  }

  lemma QuotesAtBothEnds(t: string)
    requires |t| >= 2 && t[0] == '"' && t[|t| - 1] == '"'
    ensures Quotes(t) >= 2
  {
    var n := |t| - 1;
    assert t == ['"'] + t[1..n] + ['"'];
    QuotesAdd(['"'] + t[1..n], ['"']);
    QuotesAdd(['"'], t[1..n]);
  }

  lemma PrefixKeepsQuotes(s: string)
    ensures Quotes(TrimPrefix(s, "W/")) == Quotes(s)
  {
    if "W/" <= s {
      assert s == "W/" + s[2..];
      QuotesAdd("W/", s[2..]);
      NoQuotes("W/");
    }
  }

  /** What carries a tag has two quotation marks. */
  lemma TagsHaveTwoQuotes(s: string)
    requires OpaqueTag(s).Some?
    ensures Quotes(s) >= 2
  {
    TrimKeepsQuotes(s);
    PrefixKeepsQuotes(Text.TrimSpace(s));
    QuotesAtBothEnds(OpaqueTag(s).value);
  }

  lemma {:induction false} PartsHaveNoMore(s: string, i: nat)
    requires i < |Split(s)|
    ensures Quotes(Split(s)[i]) <= Quotes(s)
  {
    if s != [] {
      var rest := Split(s[1..]);
      if s[0] == ',' {
        if i > 0 { PartsHaveNoMore(s[1..], i - 1); }
      } else if i == 0 {
        PartsHaveNoMore(s[1..], 0);
        QuotesAdd([s[0]], rest[0]);
        QuotesAdd([s[0]], s[1..]);
        assert s == [s[0]] + s[1..];
      } else {
        PartsHaveNoMore(s[1..], i);
      }
    }
  }

  lemma OneQuoteNamesNothing(s: string, current: string)
    requires Quotes(s) <= 1
    ensures !NamesTag(s, current)
  {
    AnyNamesExactly(Split(s), current);
    forall part | part in Split(s) ensures OpaqueTag(part).None? {
      var i :| 0 <= i < |Split(s)| && Split(s)[i] == part;
      PartsHaveNoMore(s, i);
      if OpaqueTag(part).Some? { TagsHaveTwoQuotes(part); }
    }
  }

  // ---- a list names what its members name

  lemma {:induction false} SplitOfTwo(a: string, b: string)
    ensures Split(a + "," + b) == Split(a) + Split(b)
  {
    var s := a + "," + b;
    if a == [] {
      assert s[1..] == b;
    } else {
      assert s[1..] == a[1..] + "," + b;
      SplitOfTwo(a[1..], b);
      FirstPartGrows(a[0], Split(a[1..]), Split(b));
    }
  }

  /** What Split puts in front of the parts of the rest. */
  function Grown(c: char, parts: seq<string>): seq<string>
    requires parts != []
  {
    if c == ',' then [""] + parts else [[c] + parts[0]] + parts[1..]
  }

  lemma FirstPartGrows(c: char, parts: seq<string>, more: seq<string>)
    requires parts != []
    ensures Grown(c, parts + more) == Grown(c, parts) + more
  {
    assert (parts + more)[0] == parts[0] && (parts + more)[1..] == parts[1..] + more;
  }

  lemma EitherNames(a: string, b: string, current: string)
    ensures NamesTag(a + "," + b, current) <==> NamesTag(a, current) || NamesTag(b, current)
  {
    SplitOfTwo(a, b);
    AnyNamesExactly(Split(a) + Split(b), current);
    AnyNamesExactly(Split(a), current);
    AnyNamesExactly(Split(b), current);
  }

  lemma {:induction false} JoinNames(parts: seq<string>, current: string)
    requires parts != []
    ensures NamesTag(Join(parts), current) <==> exists i :: 0 <= i < |parts| && NamesTag(parts[i], current)
  {
    if |parts| > 1 {
      JoinNames(parts[1..], current);
      EitherNames(parts[0], Join(parts[1..]), current);
      if i :| 0 <= i < |parts[1..]| && NamesTag(parts[1..][i], current) {
        assert NamesTag(parts[i + 1], current);
      }
      if i :| 0 < i < |parts| && NamesTag(parts[i], current) {
        assert parts[i] == parts[1..][i - 1];
      }
    }
  }

  // ---- one member

  lemma TagOfQuoted(q: string)
    requires |q| >= 2 && q[0] == '"' && q[|q| - 1] == '"'
    ensures OpaqueTag(q) == Some(q) && OpaqueTag("W/" + q) == Some(q)
  {
    TrimSpaceOfTight(q);
    var w := "W/" + q;
    assert w[|w| - 1] == q[|q| - 1];
    TrimSpaceOfTight(w);
    assert w[2..] == q && !("W/" <= q);
  }

  lemma TagOfEntity(m: Listed)
    requires m.Valid() && m.Entity?
    ensures OpaqueTag(m.Render()) == Some(InQuotes(m.inner))
  {
    OpaqueTagOfPadded(m.before, m.Tag(), m.after);
    TagOfQuoted(InQuotes(m.inner));
    assert "" + InQuotes(m.inner) == InQuotes(m.inner);
  }

  lemma QuotesAround(a: string, b: string)
    ensures Quotes(a + "\"" + b) == Quotes(a) + 1 + Quotes(b)
  {
    QuotesAdd(a + "\"", b);
    QuotesAdd(a, "\"");
  }

  lemma CommaInside(front: string, a: string, b: string, after: string)
    ensures front + InQuotes(a + "," + b) + after == (front + "\"" + a) + "," + (b + "\"" + after)
  {
  }

  lemma RenderOf(m: Listed)
    requires m.Entity?
    ensures m.Render() == (m.before + if m.weak then "W/" else "") + InQuotes(m.inner) + m.after
  {
  }

  /** Cut at a comma inside its quotes, a member is two texts with one mark each. */
  lemma CutInTwo(m: Listed, k: nat) returns (a: string, b: string)
    requires m.Valid() && m.Entity? && k < |m.inner| && m.inner[k] == ','
    ensures m.Render() == a + "," + b && Quotes(a) == 1 && Quotes(b) == 1
  {
    var front := m.before + if m.weak then "W/" else "";
    var x, y := m.inner[..k], m.inner[k + 1..];
    a := front + "\"" + x;
    b := y + "\"" + m.after;
    assert m.inner == x + "," + y;
    RenderOf(m);
    CommaInside(front, x, y, m.after);
    NoQuotes(front);
    NoQuotes(x);
    QuotesAround(front, x);
    NoQuotes(y);
    NoQuotes(m.after);
    QuotesAround(y, m.after);
  }

  lemma CutEntityNamesNothing(m: Listed, current: string)
    requires m.Valid() && m.Entity? && ',' in m.inner
    ensures !NamesTag(m.Render(), current)
  {
    var k :| 0 <= k < |m.inner| && m.inner[k] == ',';
    var a, b := CutInTwo(m, k);
    OneQuoteNamesNothing(a, current);
    OneQuoteNamesNothing(b, current);
    EitherNames(a, b, current);
  }

  lemma InQuotesIsInjective(a: string, b: string)
    ensures InQuotes(a) == InQuotes(b) <==> a == b
  {
    assert InQuotes(a)[1..|a| + 1] == a && InQuotes(b)[1..|b| + 1] == b;
  }

  lemma WholeEntityNames(m: Listed, inner: string)
    requires m.Valid() && m.Entity? && ',' !in m.inner
    ensures NamesTag(m.Render(), InQuotes(inner)) <==> m.inner == inner
  {
    SplitOfPlain(m.Render());
    AnyNamesExactly([m.Render()], InQuotes(inner));
    TagOfEntity(m);
    InQuotesIsInjective(m.inner, inner);
  }

  lemma MemberNames(m: Listed, inner: string)
    requires m.Valid() && ',' !in inner
    ensures NamesTag(m.Render(), InQuotes(inner)) <==> m.Carries(inner)
  {
    if m.Nothing? {
      NoQuotes(m.pad);
      OneQuoteNamesNothing(m.pad, InQuotes(inner));
    } else if ',' in m.inner {
      CutEntityNamesNothing(m, InQuotes(inner));
    } else {
      WholeEntityNames(m, inner);
    }
  }

  // ---- such a list is never a star

  lemma {:induction false} JoinHasTheQuotes(parts: seq<string>, i: nat)
    requires i < |parts|
    ensures Quotes(Join(parts)) >= Quotes(parts[i])
  {
    if |parts| > 1 {
      QuotesAdd(parts[0] + ",", Join(parts[1..]));
      QuotesAdd(parts[0], ",");
      if i > 0 { JoinHasTheQuotes(parts[1..], i - 1); }
    }
  }

  lemma {:induction false} JoinHasNoStar(parts: seq<string>)
    requires parts != [] && forall i | 0 <= i < |parts| :: '*' !in parts[i]
    ensures '*' !in Join(parts)
  {
    if |parts| > 1 { JoinHasNoStar(parts[1..]); }
  }

  lemma TrimAddsNothing(s: string, c: char)
    requires c !in s
    ensures c !in Text.TrimSpace(s)
  {
    var left := Text.TrimLeft(s);
    Text.TrimLeftIs(s);
    Text.TrimRightIs(left);
  }

  lemma EntityHasAQuote(m: Listed)
    requires m.Entity?
    ensures Quotes(m.Render()) >= 1
  {
    var front := m.before + if m.weak then "W/" else "";
    RenderOf(m);
    QuotesAdd(front + InQuotes(m.inner), m.after);
    QuotesAdd(front, InQuotes(m.inner));
    assert InQuotes(m.inner)[0] == '"';
  }

  lemma ListIsNoStar(list: seq<Listed>)
    requires list != [] && forall i | 0 <= i < |list| :: list[i].Valid()
    ensures Text.TrimSpace(Join(Rendered(list))) != "*"
    ensures Text.TrimSpace(Join(Rendered(list))) == "" ==> forall i | 0 <= i < |list| :: list[i].Nothing?
  {
    var parts := Rendered(list);
    if i :| 0 <= i < |list| && list[i].Entity? {
      EntityHasAQuote(list[i]);
      JoinHasTheQuotes(parts, i);
      TrimKeepsQuotes(Join(parts));
    } else {
      JoinHasNoStar(parts);
      TrimAddsNothing(Join(parts), '*');
    }
  }

  // ---- the header

  lemma FormattedHasNoComma(emitter: nat, logbook: nat)
    ensures ',' !in Inner(emitter, logbook)
  {
    DecimalHasNoMark(emitter);
    DecimalHasNoMark(logbook);
  }

  lemma ListNames(list: seq<Listed>, inner: string)
    requires list != [] && (forall i | 0 <= i < |list| :: list[i].Valid()) && ',' !in inner
    ensures NamesTag(Join(Rendered(list)), InQuotes(inner)) <==>
            exists i :: 0 <= i < |list| && list[i].Carries(inner)
  {
    JoinNames(Rendered(list), InQuotes(inner));
    forall i | 0 <= i < |list| ensures NamesTag(list[i].Render(), InQuotes(inner)) <==> list[i].Carries(inner) {
      MemberNames(list[i], inner);
    }
  }

  /** The header's trimming changes no answer, and is not what makes it a star. */
  lemma TrimmedListNames(list: seq<Listed>, current: string)
    requires list != [] && forall i | 0 <= i < |list| :: list[i].Valid()
    ensures var header := Text.TrimSpace(Join(Rendered(list)));
            && header != "*" && (NamesTag(header, current) <==> NamesTag(Join(Rendered(list)), current))
            && (header == "" ==> forall i | 0 <= i < |list| :: list[i].Nothing?)
  {
    var header := Join(Rendered(list));
    ListIsNoStar(list);
    NamesTagTrimLeft(header, current);
    TagsOfTrimRight(Text.TrimLeft(header));
  }

  lemma MatchesOf(header: string, emitter: nat, logbook: nat)
    requires emitter >= 1 && logbook >= 1 && Text.TrimSpace(header) != "*"
    ensures Matches(header, FormatETag(emitter, logbook)) <==>
            Text.TrimSpace(header) != "" && NamesTag(Text.TrimSpace(header), Opaque(emitter, logbook))
  {
    OpaqueTagOfFormatted(emitter, logbook);
  }

  /** Any list of entity-tags, this server's or not, weak or strong, with commas in their quotes, empty members among
      them, and however spaced: it matches the current tag exactly when one of them has its text. */
  lemma AnyListMatchesExactly(list: seq<Listed>, emitter: nat, logbook: nat)
    requires list != [] && (forall i | 0 <= i < |list| :: list[i].Valid()) && emitter >= 1 && logbook >= 1
    ensures Matches(Join(Rendered(list)), FormatETag(emitter, logbook)) <==>
            exists i :: 0 <= i < |list| && list[i].Carries(Inner(emitter, logbook))
  {
    var inner := Inner(emitter, logbook);
    FormattedHasNoComma(emitter, logbook);
    OpaqueIsInQuotes(emitter, logbook);
    ListNames(list, inner);
    TrimmedListNames(list, InQuotes(inner));
    MatchesOf(Join(Rendered(list)), emitter, logbook);
  }

  lemma OpaqueIsInQuotes(emitter: nat, logbook: nat)
    ensures Opaque(emitter, logbook) == InQuotes(Inner(emitter, logbook))
  {
  }
}
