/** The words of a statement's code, for every statement written by the rules of its database. */
module SqlWords {
  import SqlEveryText
  import opened SqlGrammar
  import opened SqlLexer
  import opened SqlReturning
  import opened SqlRewrite

  /** What a statement is to a reader of words: what it skips, words, and characters that are neither. */
  datatype Piece = Skipped(l: Lexeme) | Word(w: string) | Mark(c: char)

  function PieceText(p: Piece): string {
    match p
    case Skipped(l) => Written(l)
    case Word(w) => w
    case Mark(c) => [c]
  }

  function PiecesText(ps: seq<Piece>): string {
    if ps == [] then "" else PieceText(ps[0]) + PiecesText(ps[1..])
  }

  predicate IsSkippedKind(l: Lexeme) {
    !l.Parameter? && !l.DoubleColon? && !l.Single?
  }

  /** A piece before `next`: a word is as long as it can be, and the prefix of an escape string is none. */
  ghost predicate IsPiece(driver: string, p: Piece, before: bool, next: string) {
    match p
    case Skipped(l) => IsSkippedKind(l) && IsLexeme(driver, l, before, next)
    case Word(w) =>
      && IsName(w) && (next == "" || !ContinuesName(next[0]))
      && (|w| > 1 || StandsAlone(driver, w[0], before, next))
    case Mark(c) => !StartsName(c) && (c == ':' || StandsAlone(driver, c, before, next))
  }

  ghost predicate ArePieces(driver: string, ps: seq<Piece>, before: bool) {
    ps == [] ||
    (IsPiece(driver, ps[0], before, PiecesText(ps[1..])) && ArePieces(driver, ps[1..], EndsName(PieceText(ps[0]))))
  }

  function WordsOf(ps: seq<Piece>): seq<string> {
    if ps == [] then [] else (if ps[0].Word? then [ps[0].w] else []) + WordsOf(ps[1..])
  }

  lemma AloneIsCode(driver: string, c: char, before: bool, next: string)
    requires StandsAlone(driver, c, before, next)
    ensures Skip([c] + next, before, DialectFor(driver)) == 0
  {
    ReadsSingle(driver, c, before, next);
    hide Skip, StandsAlone;
  }

  /** The word scan takes a piece as a whole. */
  lemma PieceStep(driver: string, p: Piece, before: bool, next: string)
    requires IsPiece(driver, p, before, next)
    ensures var text := PieceText(p);
      text != "" && WordStep(text + next, before, DialectFor(driver)) == (|text|, p.Skipped?, p.Word?)
  {
    hide Skip, StandsAlone, IsLexeme, Written;
    var d := DialectFor(driver);
    var t := PieceText(p) + next;
    match p
    case Skipped(l) =>
      ReadsRegion(driver, l, before, next);
    case Mark(c) =>
      if c == ':' { ColonBeginsNothing(t, before, d); } else { AloneIsCode(driver, c, before, next); }
    case Word(w) =>
      NameEnds(w, next);
      hide NameRun;
      if |w| == 1 {
        assert t == [w[0]] + next;
        AloneIsCode(driver, w[0], before, next);
      } else {
        LongWordIsCode(t, before, d);
      }
  }

  lemma LongWordIsCode(t: string, before: bool, d: Dialect)
    requires |t| > 1 && StartsName(t[0]) && ContinuesName(t[1])
    ensures Skip(t, before, d) == 0
  {
  }

  /** The words found in a statement are those that were written. */
  lemma {:induction false} WordsBack(driver: string, ps: seq<Piece>, before: bool)
    requires ArePieces(driver, ps, before)
    ensures Words(PiecesText(ps), before, DialectFor(driver)) == WordsOf(ps)
  {
    if ps == [] {
      assert Words("", before, DialectFor(driver)) == [];
    } else {
      var text, next := PieceText(ps[0]), PiecesText(ps[1..]);
      PieceStep(driver, ps[0], before, next);
      WordsBack(driver, ps[1..], EndsName(text));
      hide WordStep, IsPiece, Words;
      WordsFront(text, next, before, DialectFor(driver), ps[0].Word?);
    }
  }

  lemma WordsFront(text: string, next: string, before: bool, d: Dialect, word: bool)
    requires text != "" && WordStep(text + next, before, d).0 == |text| && WordStep(text + next, before, d).2 == word
    ensures Words(text + next, before, d) == (if word then [text] else []) + Words(next, EndsName(text), d)
  {
    hide WordStep;
    var t := text + next;
    assert t[|text|..] == next && t[..|text|] == text && t[|text| - 1] == text[|text| - 1];
  }

  lemma FrontPiece(driver: string, t: string, before: bool) returns (p: Piece, x: string)
    requires t != ""
    ensures t == PieceText(p) + x && PieceText(p) != "" && IsPiece(driver, p, before, x)
  {
    var l;
    l, x := SqlEveryText.Front(driver, t, before);
    hide StandsAlone;
    if IsSkippedKind(l) {
      p := Skipped(l);
    } else if StartsName(t[0]) {
      assert l == Single(t[0]);
      var n := NameRun(t);
      p := Word(t[..n]);
      assert n == 1 ==> t[..n] == [t[0]] && x == t[1..];
      x := t[n..];
    } else {
      p, x := Mark(t[0]), t[1..];
    }
  }

  /** Every text is made of such pieces, whatever is in it. */
  lemma {:induction false} EveryText(driver: string, t: string, before: bool) returns (ps: seq<Piece>)
    ensures ArePieces(driver, ps, before) && PiecesText(ps) == t
    decreases |t|
  {
    if t == "" {
      ps := [];
    } else {
      hide IsPiece, PieceText;
      var p, x := FrontPiece(driver, t, before);
      var rest := EveryText(driver, x, EndsName(PieceText(p)));
      ps := [p] + rest;
      assert ps[1..] == rest;
    }
  }

  /** So a statement has RETURNING exactly when it was written as one of its words, in whatever case. */
  lemma ReturningWritten(driver: string, stmt: string) returns (ps: seq<Piece>)
    ensures ArePieces(driver, ps, false) && PiecesText(ps) == stmt
    ensures Returning(Words(stmt, false, DialectFor(driver))) <==>
      exists w :: w in WordsOf(ps) && SpellsReturning(w)
  {
    hide ArePieces, SpellsReturning, Words;
    ps := EveryText(driver, stmt, false);
    WordsBack(driver, ps, false);
    FoundAsSpelled(WordsOf(ps));
  }

  /** A parameter's name is a word as well: one that spells RETURNING is taken for it, by every driver. */
  lemma ParameterTaken(driver: string, name: string)
    requires SpellsReturning(name)
    ensures StatementTokens(":" + name, DialectFor(driver)) == [Param(name)]
    ensures Returning(Words(":" + name, false, DialectFor(driver)))
  {
    SpelledIsName(name);
    ParameterAlone(driver, name);
    ParameterWords(driver, name);
    FoundAsSpelled([name]);
    assert name in [name];
  }

  lemma ParameterAlone(driver: string, name: string)
    requires IsName(name)
    ensures StatementTokens(":" + name, DialectFor(driver)) == [Param(name)]
  {
    hide Tokens;
    var ls := [Parameter(name)];
    assert ls[1..] == [] && WrittenAll([]) == "";
    assert WrittenAll(ls) == ":" + name + "" == ":" + name;
    assert IsStatement(driver, [], EndsName(":" + name));
    ReadsBack(driver, ls, false);
    assert TokensOf(ls) == [Param(name)] + TokensOf([]);
  }

  lemma ParameterWords(driver: string, name: string)
    requires IsName(name)
    ensures |name| > 1 ==> Words(":" + name, false, DialectFor(driver)) == [name]
  {
    hide Words;
    if |name| > 1 {
      var word := [Word(name)];
      var ps := [Mark(':')] + word;
      assert ps[1..] == word && word[1..] == [];
      assert PiecesText(word) == name + "" == name && PiecesText(ps) == ":" + name;
      assert ArePieces(driver, [], EndsName(name));
      assert ArePieces(driver, word, false);
      WordsBack(driver, ps, false);
      assert WordsOf(word) == [name] + [] && WordsOf(ps) == [] + WordsOf(word);
    }
  }

  lemma SpelledIsName(name: string)
    requires SpellsReturning(name)
    ensures IsName(name)
  {
    var small, capital := "returning", "RETURNING";
    assert forall k :: 0 <= k < 9 ==> StartsName(small[k]) && StartsName(capital[k]);
  }
}
