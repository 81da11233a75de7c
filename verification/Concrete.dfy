/** Concrete texts: words, quoted names, single spaces and a few marks. */
module Concrete {
  import opened Prelude
  import opened Bytes
  import opened Lexer
  import opened Classifier
  import opened BackupTarget
  import R = Render

  predicate WordLike(s: string) {
    s != "" && forall k :: 0 <= k < |s| ==> Letter(s[k]) || Digit(s[k])
  }

  predicate Simple(x: R.Lexeme) {
    || (x.Word? && WordLike(x.word)) || (x.Quoted? && x.open == '"' && WordLike(x.name))
    || x == R.Gap(" ") || (x.Mark? && x.c in ";=.>")
  }

  /** No word and no name follows a word or a name directly. */
  predicate Tidy(xs: seq<R.Lexeme>) {
    && (forall i :: 0 <= i < |xs| ==> Simple(xs[i]))
    && forall i :: 0 <= i < |xs| - 1 && (xs[i].Word? || xs[i].Quoted?) ==> !xs[i + 1].Word? && !xs[i + 1].Quoted?
  }

  lemma TidyJoin(xs: seq<R.Lexeme>, ys: seq<R.Lexeme>)
    requires Tidy(xs) && Tidy(ys) && xs != [] && ys != []
    requires xs[|xs| - 1].Gap? || xs[|xs| - 1].Mark? || ys[0].Gap? || ys[0].Mark?
    ensures Tidy(xs + ys)
  {
    hide Simple;
  }

  lemma SimpleReads(d: Dialect, x: R.Lexeme, rest: string)
    requires Simple(x) && (rest == "" || x.Gap? || x.Mark? || rest[0] in " ;=.>")
    ensures R.Formed(d, x) && R.Fits(x, rest) && !R.Opens(x) && !R.Closes(x)
  {
  }

  lemma {:induction false} TidyReads(d: Dialect, xs: seq<R.Lexeme>)
    requires Tidy(xs)
    ensures R.Readable(d, xs) && R.Balanced(xs, 0)
    decreases |xs|
  {
    hide R.Formed, R.Fits, R.Opens, R.Closes;
    if xs != [] {
      TidyReads(d, xs[1..]);
      var rest := R.SpellAll(xs[1..]);
      assert Simple(xs[0]);
      if |xs| > 1 && (xs[0].Word? || xs[0].Quoted?) {
        assert Simple(xs[1]) && !xs[1].Word? && !xs[1].Quoted? && xs[1..][0] == xs[1];
        assert rest[0] == R.Spell(xs[1])[0];
      }
      SimpleReads(d, xs[0], rest);
    }
  }

  lemma TidyLexes(d: Dialect, xs: seq<R.Lexeme>)
    requires Tidy(xs)
    ensures R.Balanced(xs, 0) && Lex(d, R.SpellAll(xs)) == Ok(R.TokensOf(xs, 0, 0))
  {
    hide *;
    TidyReads(d, xs);
    R.LexReads(d, xs);
  }

  lemma EmptyBalanced()
    ensures R.Balanced([], 0) && R.SpellAll([]) == "" && forall at :: R.TokensOf([], at, 0) == []
  {
  }

  /** One lexeme in front: its text, and its token. */
  lemma InFront(x: R.Lexeme, xs: seq<R.Lexeme>, at: nat)
    requires Simple(x) && R.Balanced(xs, 0)
    ensures R.SpellAll([x] + xs) == R.Spell(x) + R.SpellAll(xs) && R.Balanced([x] + xs, 0)
    ensures R.TokensOf([x] + xs, at, 0) == (if x.Gap? then [] else [R.TokenOf(x, at, 0)]) + R.TokensOf(xs, at + |R.Spell(x)|, 0)
  {
    hide R.Spell, R.TokenOf, R.Opens, R.Closes;
    SimpleReads(Postgres, x, "");
    OneMore(x, xs);
    assert ([x] + xs)[1..] == xs;
  }

  lemma OneMore(x: R.Lexeme, xs: seq<R.Lexeme>)
    requires R.Balanced(xs, 0) && !R.Opens(x) && !R.Closes(x)
    ensures R.Balanced([x] + xs, 0) && R.Advance(x, 0) == 0 && R.Outside(x, 0) == 0
  {
    assert ([x] + xs)[1..] == xs;
  }

  lemma Trims(s: string)
    requires s != "" && !AsciiSpace(s[0]) && !AsciiSpace(s[|s| - 1]) && s[0] < '\U{80}' && s[|s| - 1] < '\U{80}'
    ensures TrimSpace(s) == s
  {
    assert SpaceRuneAt(s, 0) == 0;
    assert SpaceRuneBefore(s, |s|) == 0;
  }

  // ------------------------------------------------------------------
  // What is read of a token.

  ghost predicate Reads(t: Token, text: string, lower: string, start: nat, name: bool) {
    && text != "" && t.text == text && t.lower == lower && t.start == start && t.end == start + |text| && t.depth == 0
    && t.identifier == name && t.quoted == (text[0] == '"')
  }

  lemma WordReads(word: string, lower: string, at: nat)
    requires WordLike(word) && ToLower(word) == lower
    ensures Reads(R.TokenOf(R.Word(word), at, 0), word, lower, at, true) && |R.Spell(R.Word(word))| == |word|
  {
    assert Letter(word[0]) || Digit(word[0]);
  }

  lemma MarkReads(c: char, at: nat)
    requires c != '"'
    ensures Reads(R.TokenOf(R.Mark(c), at, 0), [c], [c], at, false)
  {
  }

  // ------------------------------------------------------------------
  // One lexeme in front of others, with what is read of its token.

  const SPACE := R.Gap(" ")

  lemma WordAhead(word: string, lower: string, xs: seq<R.Lexeme>, at: nat)
    requires WordLike(word) && ToLower(word) == lower && R.Balanced(xs, 0)
    ensures R.SpellAll([R.Word(word)] + xs) == word + R.SpellAll(xs) && R.Balanced([R.Word(word)] + xs, 0)
    ensures R.TokensOf([R.Word(word)] + xs, at, 0) == [R.TokenOf(R.Word(word), at, 0)] + R.TokensOf(xs, at + |word|, 0)
    ensures Reads(R.TokenOf(R.Word(word), at, 0), word, lower, at, true)
  {
    hide R.TokensOf, R.Balanced, R.SpellAll, R.TokenOf, Reads, WordLike;
    InFront(R.Word(word), xs, at);
    WordReads(word, lower, at);
  }

  lemma MarkAhead(c: char, xs: seq<R.Lexeme>, at: nat)
    requires c in ";.=>" && R.Balanced(xs, 0)
    ensures R.SpellAll([R.Mark(c)] + xs) == [c] + R.SpellAll(xs) && R.Balanced([R.Mark(c)] + xs, 0)
    ensures R.TokensOf([R.Mark(c)] + xs, at, 0) == [R.TokenOf(R.Mark(c), at, 0)] + R.TokensOf(xs, at + 1, 0)
    ensures Reads(R.TokenOf(R.Mark(c), at, 0), [c], [c], at, false)
  {
    hide R.TokensOf, R.Balanced, R.SpellAll, R.TokenOf, Reads;
    InFront(R.Mark(c), xs, at);
    MarkReads(c, at);
  }

  lemma SpaceAhead(xs: seq<R.Lexeme>, at: nat)
    requires R.Balanced(xs, 0)
    ensures R.SpellAll([SPACE] + xs) == " " + R.SpellAll(xs) && R.Balanced([SPACE] + xs, 0)
    ensures R.TokensOf([SPACE] + xs, at, 0) == R.TokensOf(xs, at + 1, 0)
  {
    hide R.TokensOf, R.Balanced, R.SpellAll;
    InFront(SPACE, xs, at);
    assert [] + R.TokensOf(xs, at + 1, 0) == R.TokensOf(xs, at + 1, 0);
  }

  // ------------------------------------------------------------------
  // Words that mean little.

  /** Not a word that names a table, a write or a join. */
  predicate Quiet(w: string) {
    w !in ["from", "join", "update", "into", "truncate", "merge", "delete", "using"]
  }

  lemma QuietNamesNoTable(ts: seq<Token>, i: nat)
    requires 0 < i < |ts| && Quiet(ts[i].lower)
    ensures TableAt(ts, i) == None && !WritesRows(ts, i) && ts[i].lower !in JOIN_WORDS && ts[i].lower != "from"
  {
  }
}
