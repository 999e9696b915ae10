/**
 * What a pattern means to the one who writes it: laws about characters, periods,
 * wildcards and brackets, stated on patterns and strings alone.
 */
module FnmatchLaws {
  import opened Wrappers
  import opened Fnmatch

  /** The pattern matches the whole string. */
  ghost predicate Accepts(pat: Text, s: Text, f: Flags) {
    Matches(Tokens(pat, 0, f), s, 0, f)
  }

  // ---- Case ----

  /** The same character, or under FNM_CASEFOLD the two cases of a letter. */
  predicate SameLetter(a: Char, b: Char, f: Flags) {
    || a == b
    || (f.casefold && 65 <= a <= 90 && b == a + 32)
    || (f.casefold && 65 <= b <= 90 && a == b + 32)
  }

  lemma FoldIsCase(a: Char, b: Char, f: Flags)
    ensures Fold(a, f) == Fold(b, f) <==> SameLetter(a, b, f)
  {
  }

  predicate SameLetters(s: Text, t: Text, f: Flags) {
    |s| == |t| && forall k :: 0 <= k < |t| ==> SameLetter(t[k], s[k], f)
  }

  lemma SameLettersFold(s: Text, t: Text, f: Flags)
    ensures SameFolded(s, 0, t, f) <==> SameLetters(s, t, f)
  {
    hide Fold, SameLetter;
    forall k | 0 <= k < |t| && |s| == |t|
      ensures Fold(t[k], f) == Fold(s[0 + k], f) <==> SameLetter(t[k], s[k], f)
    {
      FoldIsCase(t[k], s[k], f);
    }
    if SameFolded(s, 0, t, f) {
      forall k | 0 <= k < |t| ensures SameLetter(t[k], s[k], f) {
        assert Fold(t[k], f) == Fold(s[0 + k], f);
      }
    }
  }

  /** A character that means itself in a pattern. */
  predicate Plain(c: Char, f: Flags) {
    c != STAR && c != QUESTION && c != OPEN && (f.noescape || c != BACKSLASH)
  }

  lemma {:induction false} PlainTokens(before: Text, t: Text, f: Flags)
    requires forall k :: 0 <= k < |t| ==> Plain(t[k], f)
    ensures Tokens(before + t, |before|, f) == Literals(t)
    decreases |t|
  {
    if t == [] {
    } else {
      var next := before + [t[0]];
      assert before + t == next + t[1..];
      PlainToken(before + t, |before|, f);
      hide Token1;
      PlainTokens(next, t[1..], f);
    }
  }

  lemma PlainToken(pat: Text, p: nat, f: Flags)
    requires p < |pat| && Plain(pat[p], f)
    ensures Token1(pat, p, f) == (Lit(pat[p]), p + 1)
  {
  }

  /**
   * A pattern without special characters, or with every character quoted, matches
   * its own text, in either case under FNM_CASEFOLD, and nothing else.
   */
  lemma TextMatchesItself(t: Text, s: Text, f: Flags)
    requires !f.leadingDir
    ensures (forall k :: 0 <= k < |t| ==> Plain(t[k], f)) ==> (Accepts(t, s, f) <==> SameLetters(s, t, f))
    ensures !f.noescape ==> (Accepts(Quote(t), s, f) <==> SameLetters(s, t, f))
  {
    hide Plain, SameLetter, Matches, Tokens;
    SameLettersFold(s, t, f);
    if forall k :: 0 <= k < |t| ==> Plain(t[k], f) {
      assert [] + t == t;
      PlainTokens([], t, f);
      LiteralsMatch(t, s, 0, f);
    }
    if !f.noescape { QuotedMatchesItself(t, s, f); }
  }

  /** A backslash that ends the pattern means itself. */
  lemma LastBackslash(s: Text, f: Flags)
    requires !f.leadingDir
    ensures Accepts([BACKSLASH], s, f) <==> s == [BACKSLASH]
  {
    assert Tokens([BACKSLASH], 0, f) == Literals([BACKSLASH]);
    LiteralsMatch([BACKSLASH], s, 0, f);
    SameLettersFold(s, [BACKSLASH], f);
  }

  // ---- Periods ----

  /**
   * Under FNM_PERIOD a leading period, and with FNM_PATHNAME one after a slash, is
   * the piece of a literal period, however the matched string is cut.
   */
  lemma LeadingPeriodIsLiteral(toks: seq<Token>, s: Text, cuts: seq<nat>, f: Flags, k: nat)
    requires f.period && IsCut(toks, s, 0, cuts, f) && k < |s| && k < cuts[|toks|]
    requires s[k] == DOT && (k == 0 || (f.pathname && s[k - 1] == SLASH))
    ensures exists t :: 0 <= t < |toks| && cuts[t] == k && toks[t] == Lit(DOT)
  {
    var t := PieceAt(toks, s, 0, cuts, f, |toks|, k);
    assert Piece(toks[t], s, cuts[t], cuts[t + 1], f);
  }

  /** The pattern starts with a wildcard: a star, a question mark or a bracket that is closed. */
  predicate StartsWild(pat: Text, f: Flags) {
    pat != [] && (pat[0] == STAR || pat[0] == QUESTION || (pat[0] == OPEN && Bracket(pat, 0, f).Some?))
  }

  /** So such a pattern matches no string that starts with a period. */
  lemma WildSparesPeriod(pat: Text, s: Text, f: Flags)
    requires f.period && StartsWild(pat, f) && s != [] && s[0] == DOT
    ensures !Accepts(pat, s, f)
  {
    hide Bracket;
    var (t, q) := Token1(pat, 0, f);
    assert forall j: nat :: !Piece(t, s, 0, j, f);
    MatchesCons(t, Tokens(pat, q, f), s, 0, f);
  }

  /** A star alone matches what has no leading period under FNM_PERIOD and no slash under FNM_PATHNAME. */
  lemma StarMatches(s: Text, f: Flags)
    requires !f.leadingDir
    ensures Accepts([STAR], s, f) <==>
            !(f.period && s != [] && s[0] == DOT) && !(f.pathname && SLASH in s)
  {
    assert Tokens([STAR], 1, f) == [] && Tokens([STAR], 0, f) == [Star] + [];
    MatchesCons(Star, [], s, 0, f);
    forall j: nat ensures Matches([], s, j, f) <==> j == |s| { MatchesNil(s, j, f); }
    hide Matches, Tokens;
    assert Piece(Star, s, 0, |s|, f) <==> !(f.period && s != [] && s[0] == DOT) && !(f.pathname && SLASH in s) by {
      if f.pathname && SLASH in s {
        var k :| 0 <= k < |s| && s[k] == SLASH;
        assert Separator(s[k], f);
      }
    }
  }

  /** A question mark matches one character, with the same exceptions. */
  lemma QuestionMatches(s: Text, f: Flags)
    requires !f.leadingDir
    ensures Accepts([QUESTION], s, f) <==>
            |s| == 1 && !(f.period && s[0] == DOT) && !(f.pathname && s[0] == SLASH)
  {
    assert Tokens([QUESTION], 1, f) == [] && Tokens([QUESTION], 0, f) == [Any] + [];
    MatchesOne(Any, [], s, 0, f);
    MatchesNil(s, 1, f);
  }

  // ---- Brackets ----

  /** A bracket alone matches one character that it accepts, with the same exceptions. */
  lemma BracketMatches(pat: Text, negate: bool, items: seq<Item>, s: Text, f: Flags)
    requires !f.leadingDir && pat != [] && Token1(pat, 0, f) == (Set(negate, items), |pat|)
    ensures Accepts(pat, s, f) <==>
            |s| == 1 && !(f.period && s[0] == DOT) && !(f.pathname && s[0] == SLASH) &&
            ItemsAccept(items, s[0], f) != negate
  {
    assert Tokens(pat, |pat|, f) == [];
    hide Token1;
    assert Tokens(pat, 0, f) == [Set(negate, items)] + [];
    MatchesOne(Set(negate, items), [], s, 0, f);
    MatchesNil(s, 1, f);
  }

  /** A character that has no special place in a bracket. */
  predicate Inner(c: Char) {
    c != CLOSE && c != BANG && c != CARET && c != BACKSLASH && c != DASH
  }

  /** The characters of `s` that neither a leading period nor a slash rules out. */
  predicate Single1(s: Text, f: Flags) {
    |s| == 1 && !(f.period && s[0] == DOT) && !(f.pathname && s[0] == SLASH)
  }

  /** `[ab]` and `[!ab]`, `[^ab]`. */
  lemma PairBracket(a: Char, b: Char, s: Text, f: Flags)
    requires !f.leadingDir && Inner(a) && Inner(b)
    ensures Accepts([OPEN, a, b, CLOSE], s, f) <==>
            Single1(s, f) && (SameLetter(a, s[0], f) || SameLetter(b, s[0], f))
    ensures Accepts([OPEN, BANG, a, b, CLOSE], s, f) <==>
            Single1(s, f) && !SameLetter(a, s[0], f) && !SameLetter(b, s[0], f)
    ensures Accepts([OPEN, CARET, a, b, CLOSE], s, f) <==> Accepts([OPEN, BANG, a, b, CLOSE], s, f)
  {
    PairItems([OPEN, a, b, CLOSE], 1, a, b, f);
    PairItems([OPEN, BANG, a, b, CLOSE], 2, a, b, f);
    PairItems([OPEN, CARET, a, b, CLOSE], 2, a, b, f);
    hide Items, Tokens, Matches, Accepts, ItemsAccept;
    var items := [Single(a), Single(b)];
    BracketMatches([OPEN, a, b, CLOSE], false, items, s, f);
    BracketMatches([OPEN, BANG, a, b, CLOSE], true, items, s, f);
    BracketMatches([OPEN, CARET, a, b, CLOSE], true, items, s, f);
    if |s| == 1 {
      TwoAccept(Single(a), Single(b), s[0], f);
      FoldIsCase(a, s[0], f);
      FoldIsCase(b, s[0], f);
    }
  }

  lemma PairItems(pat: Text, p: nat, a: Char, b: Char, f: Flags)
    requires Inner(a) && Inner(b) && p + 3 == |pat| && pat[p] == a && pat[p + 1] == b && pat[p + 2] == CLOSE
    ensures Items(pat, p, true, None, f) == Some(([Single(a), Single(b)], |pat|))
  {
    assert Items(pat, p + 2, false, Some(b), f) == Some(([], |pat|));
    assert Item1(pat, p + 1, Some(a), f) == (Single(b), p + 2, Some(b));
    assert [Single(b)] + [] == [Single(b)];
    assert Items(pat, p + 1, false, Some(a), f) == Some(([Single(b)], |pat|));
    assert Item1(pat, p, None, f) == (Single(a), p + 1, Some(a));
    assert [Single(a)] + [Single(b)] == [Single(a), Single(b)];
  }

  lemma TwoAccept(x: Item, y: Item, c: int, f: Flags)
    ensures ItemsAccept([x, y], c, f) <==> ItemAccepts(x, c, f) || ItemAccepts(y, c, f)
    ensures ItemsAccept([x], c, f) <==> ItemAccepts(x, c, f)
  {
    assert [x, y][0] == x && [x, y][1] == y && [x][0] == x;
  }

  /** `[a-b]` without FNM_CASEFOLD: the characters from `a` to `b`, and `a` itself even when there are none. */
  lemma RangeBracket(a: Char, b: Char, s: Text, f: Flags)
    requires !f.leadingDir && !f.casefold && Inner(a) && Inner(b)
    ensures Accepts([OPEN, a, DASH, b, CLOSE], s, f) <==> Single1(s, f) && (s[0] == a || a <= s[0] <= b)
  {
    var pat: Text := [OPEN, a, DASH, b, CLOSE];
    assert Items(pat, 4, false, None, f) == Some(([], 5));
    assert Item1(pat, 2, Some(a), f) == (Range(a, b), 4, None);
    assert [Range(a, b)] + [] == [Range(a, b)];
    assert Items(pat, 2, false, Some(a), f) == Some(([Range(a, b)], 5));
    assert Item1(pat, 1, None, f) == (Single(a), 2, Some(a));
    assert [Single(a)] + [Range(a, b)] == [Single(a), Range(a, b)];
    assert Items(pat, 1, true, None, f) == Some(([Single(a), Range(a, b)], 5));
    hide Items, Tokens, Matches, Accepts, ItemsAccept;
    BracketMatches(pat, false, [Single(a), Range(a, b)], s, f);
    if |s| == 1 { TwoAccept(Single(a), Range(a, b), s[0], f); }
  }

  // ---- After the first character ----

  /** A question mark further on spares a period only after a slash, and that under FNM_PATHNAME. */
  lemma QuestionInside(c: Char, s: Text, f: Flags)
    requires !f.leadingDir && Plain(c, f)
    ensures Accepts([c, QUESTION], s, f) <==>
            && |s| == 2 && SameLetter(c, s[0], f) && !(f.pathname && s[1] == SLASH)
            && !(f.period && f.pathname && s[0] == SLASH && s[1] == DOT)
  {
    var pat: Text := [c, QUESTION];
    PlainToken(pat, 0, f);
    assert Tokens(pat, 2, f) == [] && Tokens(pat, 1, f) == [Any] + [];
    hide Token1;
    assert Tokens(pat, 0, f) == [Lit(c)] + ([Any] + []);
    hide Tokens, Matches;
    MatchesOne(Lit(c), [Any] + [], s, 0, f);
    MatchesOne(Any, [], s, 1, f);
    MatchesNil(s, 2, f);
    if |s| > 0 { FoldIsCase(c, s[0], f); }
  }

  /** Nor does a star. */
  lemma StarInside(c: Char, s: Text, f: Flags)
    requires !f.leadingDir && Plain(c, f)
    ensures Accepts([c, STAR], s, f) <==>
            && |s| > 0 && SameLetter(c, s[0], f) && !(f.pathname && SLASH in s[1..])
            && !(f.period && f.pathname && s[0] == SLASH && |s| > 1 && s[1] == DOT)
  {
    var pat: Text := [c, STAR];
    PlainToken(pat, 0, f);
    assert Tokens(pat, 2, f) == [] && Tokens(pat, 1, f) == [Star] + [];
    hide Token1;
    assert Tokens(pat, 0, f) == [Lit(c)] + ([Star] + []);
    hide Tokens, Matches;
    MatchesOne(Lit(c), [Star] + [], s, 0, f);
    MatchesCons(Star, [], s, 1, f);
    forall j: nat ensures Matches([], s, j, f) <==> j == |s| { MatchesNil(s, j, f); }
    if |s| > 0 {
      FoldIsCase(c, s[0], f);
      StarPiece(s, f);
    }
  }

  lemma StarPiece(s: Text, f: Flags)
    requires |s| > 0
    ensures Piece(Star, s, 1, |s|, f) <==>
            !(f.pathname && SLASH in s[1..]) && !(f.period && f.pathname && s[0] == SLASH && |s| > 1 && s[1] == DOT)
  {
    if f.pathname && SLASH in s[1..] {
      var k :| 0 <= k < |s[1..]| && s[1..][k] == SLASH;
      assert Separator(s[k + 1], f);
    } else if f.pathname {
      forall k | 1 <= k < |s| ensures s[k] != SLASH { assert s[1..][k - 1] == s[k]; }
    }
  }

  // ---- Writing patterns ----

  /** A written pattern is read as the tokens it was written from. */
  lemma WrittenReadsBack(gs: seq<Glyph>, f: Flags)
    requires !f.noescape && forall i :: 0 <= i < |gs| && gs[i].WSet? ==> gs[i].groups != []
    ensures Tokens(Write(gs), 0, f) == TokensOf(gs)
  {
    hide Tokens, TokensOf, Write;
    WrittenPatternReadsBack(Write(gs), 0, gs, f);
  }

  /** Without a slash in it a pattern is read as POSIX says. */
  lemma {:induction false} SlashlessReadsAsPosix(pat: Text, p: nat, f: Flags)
    requires SLASH !in pat
    ensures Tokens(pat, p, f) == PosixTokens(pat, p, f)
    decreases |pat| - p
  {
    hide Bracket, Token1;
    if p >= |pat| {
    } else {
      SlashlessReadsAsPosix(pat, Token1(pat, p, f).1, f);
    }
  }

  /** The characters with a meaning of their own. */
  lemma SpecialCharacters()
    ensures SLASH == '/' as int && DOT == '.' as int && STAR == '*' as int && QUESTION == '?' as int
    ensures OPEN == '[' as int && CLOSE == ']' as int && BACKSLASH == '\\' as int && DASH == '-' as int
    ensures BANG == '!' as int && CARET == '^' as int
  {
  }
}
