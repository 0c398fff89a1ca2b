/**
 The lexical rules of each database, written down as what may be written, by the driver's name.

 A statement is a sequence of lexemes: literals, quoted names, comments, parameters, casts and single characters. What
 of it is valid text for a driver is said here without the scanner, its rules or its dialects; the scanner is proved to
 read every such statement back as the lexemes it was written from (`ReadsBack`).
 */
module SqlGrammar {
  import opened SqlLexer
  import opened SqlRewrite

  // What each driver's database does.

  /** A backslash in an ordinary literal is data. */
  predicate PlainBackslash(driver: string) {
    driver == "postgres" || driver == "cockroach" || driver == "sqlite"
  }

  predicate IsPostgres(driver: string) {
    driver == "postgres" || driver == "cockroach"
  }

  /** A driver by none of the names the program knows. */
  predicate IsUnknown(driver: string) {
    driver !in {"postgres", "cockroach", "mysql", "sqlite"}
  }

  // Literals.

  /** A part of a literal: a character, a doubled quote, or a backslash and the character it escapes. */
  datatype Part = Char(c: char) | Doubled | Escaped(c: char)

  function PartText(p: Part): string {
    match p
    case Char(c) => [c]
    case Doubled => "''"
    case Escaped(c) => ['\\', c]
  }

  function PartsText(parts: seq<Part>): string {
    if parts == [] then "" else PartText(parts[0]) + PartsText(parts[1..])
  }

  /** What a literal in which backslashes escape, or do not, is made of. */
  predicate AreParts(parts: seq<Part>, escapes: bool) {
    forall i :: 0 <= i < |parts| ==> IsPart(parts[i], escapes)
  }

  predicate IsPart(p: Part, escapes: bool) {
    match p
    case Char(c) => c != '\'' && (escapes ==> c != '\\')
    case Doubled => true
    case Escaped(_) => escapes
  }

  lemma PartStep(p: Part, escapes: bool, rest: string)
    requires IsPart(p, escapes)
    ensures StringTail(PartText(p) + rest, escapes) == |PartText(p)| + StringTail(rest, escapes)
  {
    var t := PartText(p) + rest;
    assert t[|PartText(p)|..] == rest;
    hide StringTail;
    StringTailStep(t, escapes);
  }

  lemma {:induction false} LiteralEnds(parts: seq<Part>, escapes: bool, x: string)
    requires AreParts(parts, escapes) && (x == "" || x[0] != '\'')
    ensures StringTail(PartsText(parts) + ("'" + x), escapes) == |PartsText(parts)| + 1
  {
    if parts == [] {
      var t := "'" + x;
      assert PartsText(parts) + t == t && t[1..] == x;
    } else {
      LiteralEnds(parts[1..], escapes, x);
      PastPart(parts, escapes, "'" + x);
    }
  }

  /** A literal that is never closed runs to the end; a backslash may be the last of it. */
  lemma {:induction false} LiteralOpen(parts: seq<Part>, escapes: bool, x: string)
    requires AreParts(parts, escapes) && (x == "" || x == "\\")
    ensures StringTail(PartsText(parts) + x, escapes) == |PartsText(parts) + x|
  {
    if parts == [] {
      assert PartsText(parts) + x == x;
    } else {
      LiteralOpen(parts[1..], escapes, x);
      PastPart(parts, escapes, x);
    }
  }

  lemma PastPart(parts: seq<Part>, escapes: bool, x: string)
    requires parts != [] && AreParts(parts, escapes)
    ensures var k := |PartText(parts[0])|;
      && PartsText(parts) == PartText(parts[0]) + PartsText(parts[1..])
      && StringTail(PartsText(parts) + x, escapes) == k + StringTail(PartsText(parts[1..]) + x, escapes)
  {
    assert PartsText(parts) == PartText(parts[0]) + PartsText(parts[1..]);
    hide StringTail, PartsText, PartText, IsPart;
    var rest := PartsText(parts[1..]) + x;
    PartStep(parts[0], escapes, rest);
    assert PartsText(parts) + x == PartText(parts[0]) + rest;
  }

  // Comments.

  /** The inside of a block comment and its end: with no comment in it, or text, a comment, and the rest. */
  datatype Body = End(w: string) | Inner(w: string, inner: Body, rest: Body)

  function BodyText(b: Body): string {
    match b
    case End(w) => w + "*/"
    case Inner(w, inner, rest) => w + "/*" + BodyText(inner) + BodyText(rest)
  }

  /** Where `mark` follows `w`, it is its first occurrence. */
  predicate NoEarlier(w: string, next: string, mark: string) {
    forall k :: 0 <= k < |w| ==> !(mark <= (w + next)[k..])
  }

  /** Text that neither opens nor closes a comment, up to what follows it. */
  predicate IsInside(w: string, next: string) {
    NoEarlier(w, next, "/*") && NoEarlier(w, next, "*/")
  }

  predicate IsNested(b: Body) {
    match b
    case End(w) => IsInside(w, "*/")
    case Inner(w, inner, rest) => IsInside(w, "/*") && IsNested(inner) && IsNested(rest)
  }

  lemma {:induction false} PastInside(w: string, next: string, x: string, depth: nat)
    requires IsInside(w, next) && |next| == 2 && depth > 0
    ensures BlockTail(w + next + x, true, depth) == |w| + BlockTail(next + x, true, depth)
  {
    var t := w + next + x;
    if w == "" {
      assert t == next + x;
    } else {
      assert t[1..] == w[1..] + next + x;
      assert forall k :: 0 <= k < |w| - 1 ==> (w[1..] + next)[k..] == (w + next)[k + 1..];
      PastInside(w[1..], next, x, depth);
      var f := (w + next)[0..];
      assert f[0] == t[0] && f[1] == t[1];
      assert !("/*" <= f) && !("*/" <= f);
      NotMark(f, t);
      hide BlockTail;
      BlockTailStep(t, true, depth);
    }
  }

  lemma NotMark(f: string, t: string)
    requires |f| >= 2 && |t| >= 2 && f[0] == t[0] && f[1] == t[1] && !("/*" <= f) && !("*/" <= f)
    ensures !(t[0] == '/' && t[1] == '*') && !(t[0] == '*' && t[1] == '/')
  {
    assert f[..2] == [f[0], f[1]];
    assert "/*" == ['/', '*'] && "*/" == ['*', '/'];
  }

  /** A comment that nests ends where its last closer balances its opener. */
  lemma {:induction false} NestedEnds(b: Body, depth: nat, x: string)
    requires IsNested(b) && depth > 0
    ensures BlockTail(BodyText(b) + x, true, depth) ==
      |BodyText(b)| + if depth == 1 then 0 else BlockTail(x, true, depth - 1)
  {
    hide BlockTail;
    match b
    case End(w) =>
      PastInside(w, "*/", x, depth);
      CloserCounts(x, depth);
      assert BodyText(b) + x == w + "*/" + x;
    case Inner(w, inner, rest) =>
      var after := BodyText(rest) + x;
      var inside := BodyText(inner) + after;
      PastInside(w, "/*", inside, depth);
      OpenerCounts(inside, depth);
      assert BodyText(b) + x == w + "/*" + inside;
      NestedEnds(inner, depth + 1, after);
      NestedEnds(rest, depth, x);
  }

  lemma CloserCounts(x: string, depth: nat)
    requires depth > 0
    ensures BlockTail("*/" + x, true, depth) == 2 + if depth == 1 then 0 else BlockTail(x, true, depth - 1)
  {
    assert ("*/" + x)[2..] == x;
  }

  lemma OpenerCounts(x: string, depth: nat)
    requires depth > 0
    ensures BlockTail("/*" + x, true, depth) == 2 + BlockTail(x, true, depth + 1)
  {
    assert ("/*" + x)[2..] == x;
  }

  /** One that does not ends at its first closer. */
  lemma {:induction false} FlatEnds(w: string, x: string)
    requires NoEarlier(w, "*/", "*/")
    ensures BlockTail(w + "*/" + x, false, 1) == |w| + 2
  {
    var t := w + "*/" + x;
    if w == "" {
      assert t == "*/" + x;
    } else {
      assert t[1..] == w[1..] + "*/" + x;
      assert forall k :: 0 <= k < |w| - 1 ==> (w[1..] + "*/")[k..] == (w + "*/")[k + 1..];
      FlatEnds(w[1..], x);
      var f := (w + "*/")[0..];
      assert f[0] == t[0] && f[1] == t[1] && !("*/" <= f) && f[..2] == [f[0], f[1]];
      assert "*/" == ['*', '/'];
      hide BlockTail;
      BlockTailStep(t, false, 1);
    }
  }

  /** The inside of a comment that is never closed: text, comments that are, and openers that are not. */
  datatype Unclosed = Tail(w: string) | Past(w: string, inner: Body, rest: Unclosed) | Deeper(w: string, rest: Unclosed)

  function UnclosedText(u: Unclosed): string {
    match u
    case Tail(w) => w
    case Past(w, inner, rest) => w + "/*" + BodyText(inner) + UnclosedText(rest)
    case Deeper(w, rest) => w + "/*" + UnclosedText(rest)
  }

  predicate IsUnclosed(u: Unclosed) {
    match u
    case Tail(w) => IsInside(w, "")
    case Past(w, inner, rest) => IsInside(w, "/*") && IsNested(inner) && IsUnclosed(rest)
    case Deeper(w, rest) => IsInside(w, "/*") && IsUnclosed(rest)
  }

  lemma {:induction false} UnclosedRuns(u: Unclosed, depth: nat)
    requires IsUnclosed(u) && depth > 0
    ensures BlockTail(UnclosedText(u), true, depth) == |UnclosedText(u)|
  {
    hide BlockTail;
    match u
    case Tail(w) =>
      assert w + "" == w;
      OpenEnds(w, true, depth);
    case Past(w, inner, rest) =>
      var after := UnclosedText(rest);
      var inside := BodyText(inner) + after;
      PastInside(w, "/*", inside, depth);
      OpenerCounts(inside, depth);
      assert UnclosedText(u) == w + "/*" + inside;
      NestedEnds(inner, depth + 1, after);
      UnclosedRuns(rest, depth);
    case Deeper(w, rest) =>
      PastInside(w, "/*", UnclosedText(rest), depth);
      OpenerCounts(UnclosedText(rest), depth);
      UnclosedRuns(rest, depth + 1);
  }

  // Lines and quoted names.

  lemma {:induction false} DelimitedEnds(w: string, c: char, x: string)
    requires c !in w
    ensures DelimitedTail(w + [c] + x, c) == |w| + 1 && DelimitedTail(w, c) == |w|
  {
    var t := w + [c] + x;
    if w == "" {
      assert t == [c] + x;
    } else {
      assert t[1..] == w[1..] + [c] + x;
      DelimitedEnds(w[1..], c, x);
    }
  }

  // Dollar quotes.

  predicate IsTag(tag: string) {
    tag == "" || IsName(tag)
  }

  /** A letter or an underscore. */
  predicate StartsName(c: char) {
    'a' <= c <= 'z' || 'A' <= c <= 'Z' || c == '_'
  }

  /** Or a digit. */
  predicate ContinuesName(c: char) {
    StartsName(c) || '0' <= c <= '9'
  }

  predicate IsName(name: string) {
    name != "" && StartsName(name[0]) && forall i :: 0 <= i < |name| ==> ContinuesName(name[i])
  }

  lemma {:induction false} NameEnds(name: string, x: string)
    requires (forall i :: 0 <= i < |name| ==> IsNameChar(name[i])) && (x == "" || !IsNameChar(x[0]))
    ensures NameRun(name + x) == |name|
  {
    if name == "" {
      assert name + x == x;
    } else {
      assert (name + x)[1..] == name[1..] + x;
      NameEnds(name[1..], x);
    }
  }

  /** The opener and closer of a dollar quote. */
  function Fence(tag: string): string {
    "$" + tag + "$"
  }

  lemma FenceOpens(tag: string, x: string)
    requires IsTag(tag)
    ensures TagLength(Fence(tag) + x) == |tag| + 2
  {
    var t := Fence(tag) + x;
    assert t[1..] == tag + ("$" + x) && t[|tag| + 1] == '$';
    NameEnds(tag, "$" + x);
    hide NameRun;
    assert tag != "" ==> t[1] == tag[0];
  }

  lemma DollarEnds(tag: string, w: string, x: string)
    requires IsTag(tag) && NoEarlier(w, Fence(tag), Fence(tag))
    ensures DollarLength(Fence(tag) + w + Fence(tag) + x) == 2 * |Fence(tag)| + |w|
  {
    hide TagLength, IndexOf;
    var fence := Fence(tag);
    var n := |fence|;
    var t := fence + w + fence + x;
    var rest := w + fence + x;
    assert t == fence + rest && t[..n] == fence && t[n..] == rest;
    FenceOpens(tag, rest);
    var k := IndexOf(rest, fence);
    assert rest[|w|..] == fence + x;
    assert OccursAt(rest, fence, |w|);
    forall j | 0 <= j < |w| ensures !OccursAt(rest, fence, j) {
      assert rest[j..] == (w + fence)[j..] + x;
      PrefixWithin(fence, (w + fence)[j..], x);
    }
  }

  lemma PrefixWithin(f: string, u: string, x: string)
    requires |f| <= |u|
    ensures f <= u + x <==> f <= u
  {
    assert (u + x)[..|f|] == u[..|f|];
  }

  /** What opens a dollar quote that is closed. */
  ghost predicate OpensDollar(t: string) {
    exists tag, w, x :: IsTag(tag) && t == Fence(tag) + w + Fence(tag) + x
  }

  lemma DollarOpens(t: string)
    requires t != "" && t[0] == '$' && DollarLength(t) > 0
    ensures OpensDollar(t)
  {
    var tag := TagOf(t);
    var n := TagLength(t);
    var k := IndexOf(t[n..], t[..n]);
    assert n + k <= |t| && t[..n] <= t[n..][k..];
    hide DollarLength, TagLength, IndexOf, IsTag, Fence;
    Divided(t, n, k);
    OpensByTag(tag, t[..n], t[n..n + k], t[n + k + n..]);
  }

  lemma OpensByTag(tag: string, fence: string, w: string, x: string)
    requires IsTag(tag) && fence == Fence(tag)
    ensures OpensDollar(fence + w + fence + x)
  {
    hide IsTag, Fence;
    assert fence + w + fence + x == Fence(tag) + w + Fence(tag) + x;
  }

  lemma Divided(t: string, n: nat, k: nat)
    requires n + k <= |t| && t[..n] <= t[n..][k..]
    ensures n + k + n <= |t| && t == t[..n] + t[n..n + k] + t[..n] + t[n + k + n..]
  {
    assert t[n..][k..] == t[n + k..];
    assert t[n + k..][..n] == t[..n];
    assert t[n + k..n + k + n] == t[..n];
  }

  lemma TagOf(t: string) returns (tag: string)
    requires t != "" && t[0] == '$' && TagLength(t) > 0
    ensures IsTag(tag) && Fence(tag) == t[..TagLength(t)]
  {
    hide NameRun;
    var n := TagLength(t);
    tag := t[1..n - 1];
    assert forall i :: 0 <= i < |tag| ==> tag[i] == t[1..][i];
    assert t[n - 1] == '$';
    assert Fence(tag) == t[..n];
  }

  // Lexemes.

  datatype Lexeme =
    | Literal(parts: seq<Part>)
    | EscapeLiteral(prefix: char, parts: seq<Part>)
    | OpenLiteral(parts: seq<Part>, last: string)
    | OpenEscape(prefix: char, parts: seq<Part>, last: string)
    | DollarLiteral(tag: string, w: string)
    | QuotedName(quote: char, w: string)
    | OpenName(quote: char, w: string)
    | Line(opener: string, w: string)
    | LastLine(opener: string, w: string)
    | Block(body: Body)
    | OpenBlock(unclosed: Unclosed)
    | Parameter(name: string)
    | DoubleColon
    | Single(c: char)

  function Written(l: Lexeme): string {
    match l
    case Literal(parts) => "'" + PartsText(parts) + "'"
    case EscapeLiteral(prefix, parts) => [prefix] + "'" + PartsText(parts) + "'"
    case OpenLiteral(parts, last) => "'" + PartsText(parts) + last
    case OpenEscape(prefix, parts, last) => [prefix] + "'" + PartsText(parts) + last
    case DollarLiteral(tag, w) => Fence(tag) + w + Fence(tag)
    case QuotedName(quote, w) => [quote] + w + [quote]
    case OpenName(quote, w) => [quote] + w
    case Line(opener, w) => opener + w + "\n"
    case LastLine(opener, w) => opener + w
    case Block(body) => "/*" + BodyText(body)
    case OpenBlock(unclosed) => "/*" + UnclosedText(unclosed)
    case Parameter(name) => ":" + name
    case DoubleColon => "::"
    case Single(c) => [c]
  }

  /** `--` opens a comment in every database, but in MySQL only before a space; `#` in MySQL, as far as is known. */
  predicate OpensLine(driver: string, opener: string, next: string) {
    || (opener == "--" && (driver == "mysql" ==> next == "" || next[0] in [' ', '\t', '\n', '\r']))
    || (opener == "#" && (driver == "mysql" || IsUnknown(driver)))
  }

  /** A character that begins nothing, before `next`. */
  ghost predicate StandsAlone(driver: string, c: char, before: bool, next: string) {
    && c !in ['\'', '"', '`']
    && (c == '$' && (IsPostgres(driver) || IsUnknown(driver)) ==> !OpensDollar([c] + next))
    && (c in ['e', 'E'] && IsPostgres(driver) && !before ==> next == "" || next[0] != '\'')
    && (c == '-' && next != "" && next[0] == '-' ==> !OpensLine(driver, "--", next[1..]))
    && (c == '#' ==> !OpensLine(driver, "#", next))
    && (c == '/' ==> next == "" || next[0] != '*')
    && (c == ':' ==> next == "" || (next[0] != ':' && !StartsName(next[0])))
  }

  /** A lexeme of the driver's database, before `next`; `before` says that a name's character precedes it. */
  ghost predicate IsLexeme(driver: string, l: Lexeme, before: bool, next: string) {
    match l
    case Literal(parts) => AreParts(parts, !PlainBackslash(driver)) && (next == "" || next[0] != '\'')
    case EscapeLiteral(prefix, parts) =>
      && prefix in ['e', 'E'] && IsPostgres(driver) && !before && AreParts(parts, true)
      && (next == "" || next[0] != '\'')
    case OpenLiteral(parts, last) =>
      AreParts(parts, !PlainBackslash(driver)) && (last == "" || last == "\\") && next == ""
    case OpenEscape(prefix, parts, last) =>
      && prefix in ['e', 'E'] && IsPostgres(driver) && !before && AreParts(parts, true)
      && (last == "" || last == "\\") && next == ""
    case DollarLiteral(tag, w) =>
      (IsPostgres(driver) || IsUnknown(driver)) && IsTag(tag) && NoEarlier(w, Fence(tag), Fence(tag))
    case QuotedName(quote, w) => quote in ['"', '`'] && quote !in w
    case OpenName(quote, w) => quote in ['"', '`'] && quote !in w && next == ""
    case Line(opener, w) => OpensLine(driver, opener, w + "\n") && '\n' !in w
    case LastLine(opener, w) => OpensLine(driver, opener, w) && '\n' !in w && next == ""
    case Block(body) =>
      if IsPostgres(driver) || IsUnknown(driver) then IsNested(body) else body.End? && NoEarlier(body.w, "*/", "*/")
    case OpenBlock(unclosed) =>
      && next == ""
      && if IsPostgres(driver) || IsUnknown(driver) then IsUnclosed(unclosed)
         else unclosed.Tail? && NoEarlier(unclosed.w, "", "*/")
    case Parameter(name) =>
      IsName(name) && (next == "" || !ContinuesName(next[0]))
    case DoubleColon => true
    case Single(c) => StandsAlone(driver, c, before, next)
  }

  /** What the rewriter makes of a lexeme. */
  function TokenOf(l: Lexeme): Token {
    match l
    case Parameter(name) => Param(name)
    case DoubleColon => Cast
    case Single(c) => Code(c)
    case _ => Region(Written(l))
  }

  // Reading one lexeme.

  lemma SkipQuote(t: string, before: bool, d: Dialect)
    requires t != "" && t[0] == '\''
    ensures Skip(t, before, d) == 1 + StringTail(t[1..], d.BackslashEscapes())
  {
  }

  lemma BackslashByDriver(driver: string)
    ensures DialectFor(driver).BackslashEscapes() <==> !PlainBackslash(driver)
  {
  }

  lemma QuoteByDriver(driver: string, body: string, before: bool)
    ensures Skip("'" + body, before, DialectFor(driver)) == 1 + StringTail(body, !PlainBackslash(driver))
  {
    BackslashByDriver(driver);
    SkipQuote("'" + body, before, DialectFor(driver));
    assert ("'" + body)[1..] == body;
  }

  lemma ReadsLiteral(driver: string, l: Lexeme, before: bool, next: string)
    requires (l.Literal? || l.OpenLiteral?) && IsLexeme(driver, l, before, next)
    ensures Skip(Written(l) + next, before, DialectFor(driver)) == |Written(l)|
  {
    hide Skip, StringTail, PartsText, PlainBackslash, DialectFor, AreParts;
    var escapes := !PlainBackslash(driver);
    var body := PartsText(l.parts) + if l.Literal? then "'" + next else l.last;
    assert Written(l) + next == "'" + body;
    QuoteByDriver(driver, body, before);
    if l.Literal? { LiteralEnds(l.parts, escapes, next); } else { LiteralOpen(l.parts, escapes, l.last); }
  }

  lemma SkipEscape(t: string, d: Dialect)
    requires |t| >= 2 && (t[0] == 'e' || t[0] == 'E') && t[1] == '\'' && d.EscapeStrings()
    ensures Skip(t, false, d) == 2 + StringTail(t[2..], true)
  {
  }

  lemma ReadsEscape(driver: string, prefix: char, parts: seq<Part>, next: string)
    requires prefix in ['e', 'E'] && IsPostgres(driver) && AreParts(parts, true) && (next == "" || next[0] != '\'')
    ensures var text := Written(EscapeLiteral(prefix, parts));
      Skip(text + next, false, DialectFor(driver)) == |text|
  {
    hide Skip, StringTail, PartsText, AreParts;
    var body := PartsText(parts) + ("'" + next);
    var t := [prefix, '\''] + body;
    assert Written(EscapeLiteral(prefix, parts)) + next == t && t[2..] == body;
    LiteralEnds(parts, true, next);
    SkipEscape(t, DialectFor(driver));
  }

  lemma ReadsOpenEscape(driver: string, prefix: char, parts: seq<Part>, last: string)
    requires prefix in ['e', 'E'] && IsPostgres(driver) && AreParts(parts, true) && (last == "" || last == "\\")
    ensures var text := Written(OpenEscape(prefix, parts, last));
      Skip(text, false, DialectFor(driver)) == |text|
  {
    hide Skip, StringTail, PartsText, AreParts;
    var body := PartsText(parts) + last;
    var t := [prefix, '\''] + body;
    assert Written(OpenEscape(prefix, parts, last)) == t && t[2..] == body;
    LiteralOpen(parts, true, last);
    SkipEscape(t, DialectFor(driver));
  }

  lemma ReadsDollar(driver: string, l: Lexeme, before: bool, next: string)
    requires l.DollarLiteral? && IsLexeme(driver, l, before, next)
    ensures Skip(Written(l) + next, before, DialectFor(driver)) == |Written(l)|
  {
    DollarEnds(l.tag, l.w, next);
    assert Written(l) + next == Fence(l.tag) + l.w + Fence(l.tag) + next;
    hide DollarLength;
    assert (Written(l) + next)[0] == '$';
  }

  lemma SkipName(quote: char, body: string, before: bool, d: Dialect)
    requires quote == '"' || quote == '`'
    ensures Skip([quote] + body, before, d) == 1 + DelimitedTail(body, quote)
  {
    hide DelimitedTail;
    assert ([quote] + body)[1..] == body;
  }

  lemma ReadsName(driver: string, l: Lexeme, before: bool, next: string)
    requires (l.QuotedName? || l.OpenName?) && IsLexeme(driver, l, before, next)
    ensures Skip(Written(l) + next, before, DialectFor(driver)) == |Written(l)|
  {
    hide Skip, DelimitedTail, DialectFor;
    var body := l.w + (if l.QuotedName? then [l.quote] else "") + next;
    assert Written(l) + next == [l.quote] + body;
    assert l.OpenName? ==> body == l.w;
    SkipName(l.quote, body, before, DialectFor(driver));
    DelimitedEnds(l.w, l.quote, next);
  }

  lemma SkipLine(driver: string, opener: string, rest: string, before: bool)
    requires OpensLine(driver, opener, rest)
    ensures Skip(opener + rest, before, DialectFor(driver)) == DelimitedTail(opener + rest, '\n')
  {
    var t := opener + rest;
    hide DelimitedTail;
    if opener == "--" && rest != "" { assert t[2] == rest[0]; }
    assert t[0] == opener[0];
  }

  lemma ReadsLine(driver: string, l: Lexeme, before: bool, next: string)
    requires (l.Line? || l.LastLine?) && IsLexeme(driver, l, before, next)
    ensures Skip(Written(l) + next, before, DialectFor(driver)) == |Written(l)|
  {
    hide Skip, DelimitedTail, DialectFor;
    var rest := l.w + (if l.Line? then "\n" else "") + next;
    assert Written(l) + next == l.opener + rest;
    assert l.Line? ==> rest[0] == (l.w + "\n")[0];
    assert l.LastLine? ==> rest == l.w;
    SkipLine(driver, l.opener, rest, before);
    DelimitedEnds(l.opener + l.w, '\n', next);
    if l.Line? {
      assert l.opener + rest == l.opener + l.w + ['\n'] + next;
    } else {
      assert l.opener + rest == l.opener + l.w;
    }
  }

  lemma SkipBlock(t: string, before: bool, d: Dialect)
    requires |t| >= 2 && t[0] == '/' && t[1] == '*'
    ensures Skip(t, before, d) == 2 + BlockTail(t[2..], d.NestedBlockComments(), 1)
  {
  }

  lemma NestingByDriver(driver: string)
    ensures DialectFor(driver).NestedBlockComments() <==> IsPostgres(driver) || IsUnknown(driver)
  {
  }

  lemma ReadsBlock(driver: string, l: Lexeme, before: bool, next: string)
    requires (l.Block? || l.OpenBlock?) && IsLexeme(driver, l, before, next)
    ensures Skip(Written(l) + next, before, DialectFor(driver)) == |Written(l)|
  {
    hide Skip, BlockTail, BodyText, UnclosedText, IsNested, IsUnclosed, DialectFor, IsPostgres, IsUnknown;
    var t := Written(l) + next;
    assert t[0] == '/' && t[1] == '*';
    NestingByDriver(driver);
    SkipBlock(t, before, DialectFor(driver));
    if l.OpenBlock? {
      assert t[2..] == UnclosedText(l.unclosed);
      if IsPostgres(driver) || IsUnknown(driver) { UnclosedRuns(l.unclosed, 1); } else { FlatOpen(l.unclosed); }
    } else {
      assert t[2..] == BodyText(l.body) + next;
      if IsPostgres(driver) || IsUnknown(driver) { NestedEnds(l.body, 1, next); } else { FlatBody(l.body, next); }
    }
  }

  lemma FlatOpen(u: Unclosed)
    requires u.Tail? && NoEarlier(u.w, "", "*/")
    ensures BlockTail(UnclosedText(u), false, 1) == |UnclosedText(u)|
  {
    assert u.w + "" == u.w;
    OpenEnds(u.w, false, 1);
  }

  lemma FlatBody(b: Body, x: string)
    requires b.End? && NoEarlier(b.w, "*/", "*/")
    ensures BlockTail(BodyText(b) + x, false, 1) == |BodyText(b)|
  {
    FlatEnds(b.w, x);
  }

  lemma {:induction false} OpenEnds(w: string, nested: bool, depth: nat)
    requires depth > 0 && forall k :: 0 <= k < |w| ==> !("*/" <= w[k..])
    ensures BlockTail(w, nested, depth) == |w|
    decreases |w|
  {
    if |w| >= 2 {
      var k := if nested && w[0] == '/' && w[1] == '*' then 2 else 1;
      assert forall j :: 0 <= j < |w| - k ==> w[k..][j..] == w[k + j..];
      OpenEnds(w[k..], nested, if k == 2 then depth + 1 else depth);
      assert w[0..] == w && "*/" == ['*', '/'] && w[..2] == [w[0], w[1]];
    }
  }

  lemma ReadsRegion(driver: string, l: Lexeme, before: bool, next: string)
    requires IsLexeme(driver, l, before, next) && TokenOf(l).Region?
    ensures Skip(Written(l) + next, before, DialectFor(driver)) == |Written(l)| && Written(l) != ""
  {
    hide Skip, IsLexeme;
    match l
    case Literal(_) => ReadsLiteral(driver, l, before, next);
    case OpenLiteral(_, _) => ReadsLiteral(driver, l, before, next);
    case EscapeLiteral(prefix, parts) =>
      EscapeIsLexeme(driver, l, before, next);
      ReadsEscape(driver, prefix, parts, next);
    case OpenEscape(prefix, parts, last) =>
      OpenEscapeIsLexeme(driver, l, before, next);
      ReadsOpenEscape(driver, prefix, parts, last);
      assert Written(l) + next == Written(l);
    case DollarLiteral(_, _) => ReadsDollar(driver, l, before, next);
    case QuotedName(_, _) => ReadsName(driver, l, before, next);
    case OpenName(_, _) => ReadsName(driver, l, before, next);
    case Line(opener, _) =>
      assert opener != "" by { OpenersNotEmpty(driver, l, before, next); }
      ReadsLine(driver, l, before, next);
    case LastLine(opener, _) =>
      assert opener != "" by { OpenersNotEmpty(driver, l, before, next); }
      ReadsLine(driver, l, before, next);
    case Block(_) => ReadsBlock(driver, l, before, next);
    case OpenBlock(_) => ReadsBlock(driver, l, before, next);
  }

  lemma EscapeIsLexeme(driver: string, l: Lexeme, before: bool, next: string)
    requires l.EscapeLiteral? && IsLexeme(driver, l, before, next)
    ensures l.prefix in ['e', 'E'] && IsPostgres(driver) && AreParts(l.parts, true) && !before
    ensures next == "" || next[0] != '\''
  {
  }

  lemma OpenEscapeIsLexeme(driver: string, l: Lexeme, before: bool, next: string)
    requires l.OpenEscape? && IsLexeme(driver, l, before, next)
    ensures l.prefix in ['e', 'E'] && IsPostgres(driver) && AreParts(l.parts, true) && !before && next == ""
    ensures l.last == "" || l.last == "\\"
  {
  }

  lemma OpenersNotEmpty(driver: string, l: Lexeme, before: bool, next: string)
    requires (l.Line? || l.LastLine?) && IsLexeme(driver, l, before, next)
    ensures l.opener != ""
  {
  }

  lemma ReadsSingle(driver: string, c: char, before: bool, next: string)
    requires StandsAlone(driver, c, before, next)
    ensures NextToken([c] + next, before, DialectFor(driver)) == Code(c)
  {
    var t := [c] + next;
    assert t[1..] == next;
    hide StringTail, DelimitedTail, BlockTail, DollarLength, OpensDollar, NameRun;
    if c == '$' && (IsPostgres(driver) || IsUnknown(driver)) && DollarLength(t) > 0 {
      DollarOpens(t);
    }
    if |t| > 2 { assert t[2] == next[1..][0]; }
  }

  /** The scanner reads a lexeme as what it is, whatever follows. */
  lemma ReadsLexeme(driver: string, l: Lexeme, before: bool, next: string)
    requires IsLexeme(driver, l, before, next)
    ensures Written(l) != "" && NextToken(Written(l) + next, before, DialectFor(driver)) == TokenOf(l)
  {
    hide NextToken, IsLexeme;
    match l
    case Parameter(name) =>
      ParameterIsLexeme(driver, name, before, next);
      ReadsParameter(name, next, before, DialectFor(driver));
    case DoubleColon => ReadsCast(next, before, DialectFor(driver));
    case Single(c) =>
      AloneIsLexeme(driver, c, before, next);
      ReadsSingle(driver, c, before, next);
    case _ =>
      ReadsRegion(driver, l, before, next);
      hide Written, Skip;
      FrontIsRegion(Written(l), next, before, DialectFor(driver));
  }

  lemma ParameterIsLexeme(driver: string, name: string, before: bool, next: string)
    requires IsLexeme(driver, Parameter(name), before, next)
    ensures IsName(name) && (next == "" || !IsNameChar(next[0]))
  {
  }

  lemma AloneIsLexeme(driver: string, c: char, before: bool, next: string)
    requires IsLexeme(driver, Single(c), before, next)
    ensures StandsAlone(driver, c, before, next)
  {
  }

  lemma FrontIsRegion(p: string, next: string, before: bool, d: Dialect)
    requires p != "" && Skip(p + next, before, d) == |p|
    ensures NextToken(p + next, before, d) == Region(p)
  {
    hide Skip;
    assert (p + next)[..|p|] == p;
  }

  lemma ReadsCast(next: string, before: bool, d: Dialect)
    ensures NextToken("::" + next, before, d) == Cast
  {
    var t := "::" + next;
    assert t[0] == ':' && t[1] == ':';
    ColonBeginsNothing(t, before, d);
    hide Skip;
  }

  lemma ColonBeginsNothing(t: string, before: bool, d: Dialect)
    requires t != "" && t[0] == ':'
    ensures Skip(t, before, d) == 0
  {
  }

  lemma ReadsParameter(name: string, next: string, before: bool, d: Dialect)
    requires IsName(name) && (next == "" || !IsNameChar(next[0]))
    ensures NextToken(":" + name + next, before, d) == Param(name)
  {
    var t := ":" + name + next;
    NameEnds(name, next);
    ColonBeginsNothing(t, before, d);
    hide NameRun, Skip;
    assert t[0] == ':' && t[1..] == name + next && t[1] == name[0];
    assert t[1..][..|name|] == name;
  }

  // Whole statements.

  function WrittenAll(ls: seq<Lexeme>): string {
    if ls == [] then "" else Written(ls[0]) + WrittenAll(ls[1..])
  }

  predicate EndsName(text: string) {
    text != "" && ContinuesName(text[|text| - 1])
  }

  /** A statement of the driver's database: each lexeme valid before the text of the rest. */
  ghost predicate IsStatement(driver: string, ls: seq<Lexeme>, before: bool) {
    ls == [] ||
    (IsLexeme(driver, ls[0], before, WrittenAll(ls[1..])) && IsStatement(driver, ls[1..], EndsName(Written(ls[0]))))
  }

  function TokensOf(ls: seq<Lexeme>): seq<Token> {
    if ls == [] then [] else [TokenOf(ls[0])] + TokensOf(ls[1..])
  }

  lemma TextOfToken(l: Lexeme)
    ensures Text(TokenOf(l)) == Written(l)
  {
  }

  /** Every statement written by the rules of its database is read back as the lexemes it was written from. */
  lemma {:induction false} ReadsBack(driver: string, ls: seq<Lexeme>, before: bool)
    requires IsStatement(driver, ls, before)
    ensures Tokens(WrittenAll(ls), before, DialectFor(driver)) == TokensOf(ls)
  {
    if ls == [] {
      assert Tokens("", before, DialectFor(driver)) == [];
    } else {
      hide NextToken, IsLexeme, Written, TokenOf, Tokens;
      var l, rest := ls[0], WrittenAll(ls[1..]);
      ReadsLexeme(driver, l, before, rest);
      TextOfToken(l);
      ReadsBack(driver, ls[1..], EndsName(Written(l)));
      TokensStep(Written(l), rest, TokenOf(l), before, DialectFor(driver));
    }
  }

  /** The parameters the author wrote, in order. */
  function Parameters(ls: seq<Lexeme>): seq<string> {
    if ls == [] then [] else (if ls[0].Parameter? then [ls[0].name] else []) + Parameters(ls[1..])
  }

  /** Each lexeme as it was, but for the parameters. */
  function Replaced(ls: seq<Lexeme>, style: Style, names: seq<string>): string {
    if ls == [] then ""
    else (if ls[0].Parameter? then Placeholder(style, ls[0].name, names) else Written(ls[0]))
         + Replaced(ls[1..], style, names)
  }

  lemma {:induction false} TokensOfRender(ls: seq<Lexeme>, style: Style, names: seq<string>)
    ensures ParamNames(TokensOf(ls)) == Parameters(ls)
    ensures RenderAll(TokensOf(ls), style, names) == Replaced(ls, style, names)
  {
    if ls != [] {
      hide Placeholder, Written;
      TextOfToken(ls[0]);
      TokensOfRender(ls[1..], style, names);
      var toks := TokensOf(ls);
      assert toks[0] == TokenOf(ls[0]) && toks[1..] == TokensOf(ls[1..]);
      assert toks[0].Param? <==> ls[0].Parameter?;
    }
  }

  /** A driver is sent the statement with exactly the author's parameters replaced, and given values for just those. */
  lemma RewritesParameters(driver: string, ls: seq<Lexeme>, style: Style)
    requires IsStatement(driver, ls, false)
    ensures ParamNames(StatementTokens(WrittenAll(ls), DialectFor(driver))) == Parameters(ls)
    ensures var names := DriverNames(StatementTokens(WrittenAll(ls), DialectFor(driver)), style);
      Rewritten(WrittenAll(ls), DialectFor(driver), style) == Replaced(ls, style, names)
  {
    hide Tokens, IsStatement;
    ReadsBack(driver, ls, false);
    TokensOfRender(ls, style, DriverNames(TokensOf(ls), style));
  }
}
