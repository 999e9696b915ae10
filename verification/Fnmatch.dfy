/**
 * The glob matcher of the C library, a backtracking walk over pattern and
 * string, proved against a declarative meaning: a string matches when it can be
 * cut into pieces, one per token of the pattern, each accepted by its token.
 */
module Fnmatch {
  import opened Wrappers

  /** A byte of a C string; the terminator is not part of the string. */
  type Char = c: int | 1 <= c < 256 witness 1
  type Text = seq<Char>

  datatype Flags = Flags(noescape: bool, pathname: bool, period: bool, leadingDir: bool, casefold: bool)

  const SLASH: Char := 47
  const DOT: Char := 46
  const STAR: Char := 42
  const QUESTION: Char := 63
  const OPEN: Char := 91
  const CLOSE: Char := 93
  const BACKSLASH: Char := 92
  const DASH: Char := 45
  const BANG: Char := 33
  const CARET: Char := 94

  /** tolower in the C locale under FNM_CASEFOLD. */
  function Fold(c: int, f: Flags): int {
    if f.casefold && 65 <= c <= 90 then c + 32 else c
  }

  predicate Separator(c: int, f: Flags) {
    f.pathname && c == SLASH
  }

  /** A period that a wildcard must not match: leading, or after a slash. */
  predicate PeriodSpecial(s: Text, i: nat, f: Flags) {
    f.period && i < |s| && s[i] == DOT && (i == 0 || (f.pathname && s[i - 1] == SLASH))
  }

  /** A character a single-character wildcard may match at all. */
  predicate Ordinary(s: Text, i: nat, f: Flags) {
    i < |s| && !Separator(s[i], f) && !PeriodSpecial(s, i, f)
  }

  // ---- Tokens of a pattern ----

  datatype Item = Single(c: Char) | Range(lo: Char, hi: Char)

  datatype Token = Lit(c: Char) | Any | Star | Set(negate: bool, items: seq<Item>)

  /** One possibly escaped character: the character, whether it was escaped, what follows. */
  function Unit(pat: Text, p: nat, f: Flags): (r: (Char, bool, nat))
    requires p < |pat|
    ensures p < r.2 <= |pat|
  {
    if !f.noescape && pat[p] == BACKSLASH && p + 1 < |pat| then (pat[p + 1], true, p + 2)
    else (pat[p], false, p + 1)
  }

  /**
   * The item at `p` of a bracket, what follows it, and the character a `-`
   * there would extend to a range.
   */
  function Item1(pat: Text, p: nat, prev: Option<Char>, f: Flags): (r: (Item, nat, Option<Char>))
    requires p < |pat|
    ensures p < r.1 <= |pat|
  {
    var (c, escaped, q) := Unit(pat, p, f);
    if !escaped && c == DASH && prev.Some? && q < |pat| && pat[q] != CLOSE then
      var (end, _, q') := Unit(pat, q, f);
      (Range(prev.value, end), q', None)
    else (Single(c), q, Some(c))
  }

  /** The items of a bracket from `p` on and the position after its `]`; None if it is not closed. */
  function Items(pat: Text, p: nat, first: bool, prev: Option<Char>, f: Flags): (r: Option<(seq<Item>, nat)>)
    ensures r.Some? ==> p < r.value.1 <= |pat|
    decreases |pat| - p
  {
    if p >= |pat| then None
    else if pat[p] == CLOSE && !first then Some(([], p + 1))
    else
      var (item, q, prev') := Item1(pat, p, prev, f);
      var rest := Items(pat, q, false, prev', f);
      if rest.None? then None else Some(([item] + rest.value.0, rest.value.1))
  }

  predicate Negated(pat: Text, p: nat) {
    p + 1 < |pat| && (pat[p + 1] == BANG || pat[p + 1] == CARET)
  }

  /** The bracket expression that opens at `p`. */
  function Bracket(pat: Text, p: nat, f: Flags): (r: Option<(seq<Item>, nat)>)
    requires p < |pat|
    ensures r.Some? ==> p < r.value.1 <= |pat|
  {
    Items(pat, if Negated(pat, p) then p + 2 else p + 1, true, None, f)
  }

  /** The first token at `p` and where the next one starts. */
  function Token1(pat: Text, p: nat, f: Flags): (r: (Token, nat))
    requires p < |pat|
    ensures p < r.1 <= |pat|
  {
    if pat[p] == QUESTION then (Any, p + 1)
    else if pat[p] == STAR then (Star, p + 1)
    else if pat[p] == OPEN then
      var b := Bracket(pat, p, f);
      if b.None? then (Lit(OPEN), p + 1) else (Set(Negated(pat, p), b.value.0), b.value.1)
    else
      var (c, _, q) := Unit(pat, p, f);
      (Lit(c), q)
  }

  function Tokens(pat: Text, p: nat, f: Flags): seq<Token>
    decreases |pat| - p
  {
    if p >= |pat| then []
    else
      var (t, q) := Token1(pat, p, f);
      [t] + Tokens(pat, q, f)
  }

  // ---- Meaning ----

  predicate ItemAccepts(item: Item, c: int, f: Flags) {
    match item
    case Single(d) => Fold(d, f) == Fold(c, f)
    case Range(lo, hi) => Fold(lo, f) <= Fold(c, f) <= Fold(hi, f)
  }

  predicate ItemsAccept(items: seq<Item>, c: int, f: Flags) {
    exists i :: 0 <= i < |items| && ItemAccepts(items[i], c, f)
  }

  /** The token accepts the piece `s[i..j]` where it stands. */
  predicate Piece(t: Token, s: Text, i: nat, j: nat, f: Flags) {
    match t
    case Lit(c) => i < |s| && j == i + 1 && Fold(c, f) == Fold(s[i], f)
    case Any => j == i + 1 && Ordinary(s, i, f)
    case Set(negate, items) => j == i + 1 && Ordinary(s, i, f) && ItemsAccept(items, s[i], f) != negate
    case Star => i <= j <= |s| && !PeriodSpecial(s, i, f) && forall k :: i <= k < j ==> !Separator(s[k], f)
  }

  predicate EndOk(s: Text, i: nat, f: Flags) {
    i == |s| || (f.leadingDir && i < |s| && s[i] == SLASH)
  }

  /** A way to cut the string: piece t runs from cuts[t] to cuts[t + 1]. */
  ghost predicate IsCut(toks: seq<Token>, s: Text, i: nat, cuts: seq<nat>, f: Flags) {
    && |cuts| == |toks| + 1 && cuts[0] == i
    && (forall t :: 0 <= t < |toks| ==> Piece(toks[t], s, cuts[t], cuts[t + 1], f))
    && EndOk(s, cuts[|toks|], f)
  }

  /** The declarative meaning of a pattern. */
  ghost predicate Matches(toks: seq<Token>, s: Text, i: nat, f: Flags) {
    exists cuts :: IsCut(toks, s, i, cuts, f)
  }

  // ---- The meaning, one token at a time ----

  lemma MatchesNil(s: Text, i: nat, f: Flags)
    ensures Matches([], s, i, f) <==> EndOk(s, i, f)
  {
    if EndOk(s, i, f) { assert IsCut([], s, i, [i], f); }
  }

  lemma MatchesCons(t: Token, toks: seq<Token>, s: Text, i: nat, f: Flags)
    ensures Matches([t] + toks, s, i, f) <==> exists j: nat :: Piece(t, s, i, j, f) && Matches(toks, s, j, f)
  {
    var all := [t] + toks;
    if Matches(all, s, i, f) {
      var cuts :| IsCut(all, s, i, cuts, f);
      assert all[0] == t && Piece(all[0], s, cuts[0], cuts[1], f);
      forall k | 0 <= k < |toks| ensures Piece(toks[k], s, cuts[1..][k], cuts[1..][k + 1], f) {
        assert toks[k] == all[k + 1];
      }
      assert IsCut(toks, s, cuts[1], cuts[1..], f);
    }
    if j: nat :| Piece(t, s, i, j, f) && Matches(toks, s, j, f) {
      var cuts :| IsCut(toks, s, j, cuts, f);
      var whole := [i] + cuts;
      forall k | 0 <= k < |all| ensures Piece(all[k], s, whole[k], whole[k + 1], f) {
        if k > 0 { assert all[k] == toks[k - 1]; }
      }
      assert IsCut(all, s, i, whole, f);
    }
  }

  /** A token of one character settles its piece. */
  lemma MatchesOne(t: Token, toks: seq<Token>, s: Text, i: nat, f: Flags)
    requires !t.Star?
    ensures Matches([t] + toks, s, i, f) <==> Piece(t, s, i, i + 1, f) && Matches(toks, s, i + 1, f)
  {
    MatchesCons(t, toks, s, i, f);
    assert forall j: nat :: Piece(t, s, i, j, f) ==> j == i + 1;
  }

  /** A run of stars means one star. */
  lemma StarStar(toks: seq<Token>, s: Text, i: nat, f: Flags)
    ensures Matches([Star] + ([Star] + toks), s, i, f) <==> Matches([Star] + toks, s, i, f)
  {
    MatchesCons(Star, [Star] + toks, s, i, f);
    MatchesCons(Star, toks, s, i, f);
    if j: nat :| Piece(Star, s, i, j, f) && Matches([Star] + toks, s, j, f) {
      MatchesCons(Star, toks, s, j, f);
      var k: nat :| Piece(Star, s, j, k, f) && Matches(toks, s, k, f);
      assert Piece(Star, s, i, k, f);
    }
    if j: nat :| Piece(Star, s, i, j, f) && Matches(toks, s, j, f) {
      assert Piece(Star, s, i, i, f);
    }
  }

  lemma ItemsAcceptCons(item: Item, items: seq<Item>, c: int, f: Flags)
    ensures ItemsAccept([item] + items, c, f) <==> ItemAccepts(item, c, f) || ItemsAccept(items, c, f)
  {
    var all := [item] + items;
    if ItemsAccept(items, c, f) {
      var i :| 0 <= i < |items| && ItemAccepts(items[i], c, f);
      assert all[i + 1] == items[i];
    }
    if ItemAccepts(item, c, f) { assert all[0] == item; }
  }

  // ---- The C functions ----

  /**
   * Walks one bracket expression: -1 if it is not closed, otherwise whether it
   * accepts the character, and where it ends, which does not depend on the
   * character.
   */
  method BracketMatch(pat: Text, start: nat, sc: int, f: Flags) returns (ok: int, next: nat)
    requires start < |pat|
    ensures Bracket(pat, start, f).None? ==> ok == -1 && next == start
    ensures Bracket(pat, start, f).Some? ==>
              && next == Bracket(pat, start, f).value.1
              && ok == if ItemsAccept(Bracket(pat, start, f).value.0, sc, f) != Negated(pat, start) then 1 else 0
  {
    hide Items, Continues, ItemsAccept, Bracket, ItemAccepts;
    var p := start + 1;
    var negate, matched, first := false, false, true;
    var prev: Option<Char> := None;
    if p < |pat| && (pat[p] == BANG || pat[p] == CARET) {
      negate := true;
      p := p + 1;
    }
    ghost var whole := Bracket(pat, start, f);
    BracketStarts(pat, start, sc, f);
    while p < |pat|
      invariant p <= |pat| && negate == Negated(pat, start)
      invariant Continues(whole, Items(pat, p, first, prev, f), matched, sc, f)
      decreases |pat| - p
    {
      if pat[p] == CLOSE && !first {
        ItemsEnd(whole, pat, p, first, prev, matched, sc, f);
        return if matched != negate then 1 else 0, p + 1;
      }
      ghost var p0, prev0 := p, prev;
      ItemsContinue(whole, pat, p, first, prev, matched, sc, f);
      var c := pat[p];
      p := p + 1;
      var escaped := false;
      if !f.noescape && c == BACKSLASH && p < |pat| {
        c := pat[p];
        p := p + 1;
        escaped := true;
      }
      if !escaped && c == DASH && prev.Some? && p < |pat| && pat[p] != CLOSE {
        var end := pat[p];
        p := p + 1;
        if !f.noescape && end == BACKSLASH && p < |pat| {
          end := pat[p];
          p := p + 1;
        }
        assert (Range(prev.value, end), p, None) == Item1(pat, p0, prev0, f);
        ItemDecides(Range(prev.value, end), sc, f);
        if Fold(prev.value, f) <= Fold(sc, f) && Fold(sc, f) <= Fold(end, f) {
          matched := true;
        }
        prev, first := None, false;
        continue;
      }
      assert (Single(c), p, Some(c)) == Item1(pat, p0, prev0, f);
      ItemDecides(Single(c), sc, f);
      if Fold(c, f) == Fold(sc, f) {
        matched := true;
      }
      prev, first := Some(c), false;
    }
    ItemsEnd(whole, pat, p, first, prev, matched, sc, f);
    return -1, start;
  }

  /** `rest` is what is left of the bracket `whole` once its earlier items were tested. */
  ghost predicate Continues(whole: Option<(seq<Item>, nat)>, rest: Option<(seq<Item>, nat)>, matched: bool,
                            c: int, f: Flags)
  {
    && (whole.None? <==> rest.None?)
    && (whole.Some? ==>
          && whole.value.1 == rest.value.1
          && (ItemsAccept(whole.value.0, c, f) <==> matched || ItemsAccept(rest.value.0, c, f)))
  }

  lemma BracketStarts(pat: Text, start: nat, c: int, f: Flags)
    requires start < |pat|
    ensures var p := if Negated(pat, start) then start + 2 else start + 1;
            Continues(Bracket(pat, start, f), Items(pat, p, true, None, f), false, c, f)
  {
    hide Items, ItemsAccept;
  }

  lemma ItemDecides(item: Item, c: int, f: Flags)
    ensures item.Single? ==> (ItemAccepts(item, c, f) <==> Fold(item.c, f) == Fold(c, f))
    ensures item.Range? ==> (ItemAccepts(item, c, f) <==> Fold(item.lo, f) <= Fold(c, f) <= Fold(item.hi, f))
  {
  }

  lemma ItemsEnd(whole: Option<(seq<Item>, nat)>, pat: Text, p: nat, first: bool, prev: Option<Char>,
                 matched: bool, c: int, f: Flags)
    requires p >= |pat| || (pat[p] == CLOSE && !first)
    requires Continues(whole, Items(pat, p, first, prev, f), matched, c, f)
    ensures p >= |pat| ==> whole.None?
    ensures p < |pat| ==> whole.Some? && whole.value.1 == p + 1 && (ItemsAccept(whole.value.0, c, f) <==> matched)
  {
    assert !ItemsAccept([], c, f);
  }

  lemma ItemsContinue(whole: Option<(seq<Item>, nat)>, pat: Text, p: nat, first: bool, prev: Option<Char>,
                      matched: bool, c: int, f: Flags)
    requires p < |pat| && !(pat[p] == CLOSE && !first)
    requires Continues(whole, Items(pat, p, first, prev, f), matched, c, f)
    ensures var (item, q, prev') := Item1(pat, p, prev, f);
            Continues(whole, Items(pat, q, false, prev', f), matched || ItemAccepts(item, c, f), c, f)
  {
    var (item, q, prev') := Item1(pat, p, prev, f);
    var rest := Items(pat, q, false, prev', f);
    if rest.Some? { ItemsAcceptCons(item, rest.value.0, c, f); }
  }

  /** Where the run of stars at `p` ends. */
  function AfterStars(pat: Text, p: nat): (q: nat)
    requires p <= |pat|
    ensures p <= q <= |pat| && (q < |pat| ==> pat[q] != STAR)
    ensures p < |pat| && pat[p] == STAR ==> p < q
    decreases |pat| - p
  {
    if p < |pat| && pat[p] == STAR then AfterStars(pat, p + 1) else p
  }

  lemma CollapseStars(pat: Text, p: nat, s: Text, i: nat, f: Flags)
    requires p < |pat| && pat[p] == STAR
    ensures Matches(Tokens(pat, p, f), s, i, f) <==> Matches([Star] + Tokens(pat, AfterStars(pat, p), f), s, i, f)
    decreases |pat| - p
  {
    if p + 1 >= |pat| || pat[p + 1] != STAR {
    } else {
      CollapseStars(pat, p + 1, s, i, f);
      StarStar(Tokens(pat, p + 2, f), s, i, f);
    }
  }

  /** A trailing star takes everything, or under FNM_PATHNAME what precedes the next slash. */
  lemma TrailingStar(s: Text, i: nat, j: nat, f: Flags)
    requires i <= j <= |s| && !PeriodSpecial(s, i, f)
    requires forall k :: i <= k < j ==> !Separator(s[k], f)
    requires j == |s| || Separator(s[j], f)
    ensures Matches([Star], s, i, f) <==> j == |s| || f.leadingDir
  {
    assert [Star] + [] == [Star];
    MatchesCons(Star, [], s, i, f);
    forall k: nat ensures Matches([], s, k, f) <==> EndOk(s, k, f) {
      MatchesNil(s, k, f);
    }
    assert Piece(Star, s, i, j, f);
  }

  /** match_here: walks pattern and string together, backtracking at stars only. */
  method MatchHere(pat: Text, pattern: nat, s: Text, string_: nat, f: Flags) returns (r: bool)
    requires pattern <= |pat| && string_ <= |s|
    ensures r <==> Matches(Tokens(pat, pattern, f), s, string_, f)
    decreases |pat| - pattern
  {
    hide Matches, Items;
    var p, i := pattern, string_;
    while true
      invariant pattern <= p <= |pat| && 0 <= i <= |s|
      invariant Matches(Tokens(pat, pattern, f), s, string_, f) <==> Matches(Tokens(pat, p, f), s, i, f)
      decreases |pat| - p
    {
      if p == |pat| {
        MatchesNil(s, i, f);
        return i == |s| || (f.leadingDir && s[i] == SLASH);
      }
      ghost var (t, q) := Token1(pat, p, f);
      assert Tokens(pat, p, f) == [t] + Tokens(pat, q, f);
      if pat[p] == QUESTION {
        MatchesOne(t, Tokens(pat, q, f), s, i, f);
        if i == |s| || Separator(s[i], f) || PeriodSpecial(s, i, f) {
          return false;
        }
        p, i := p + 1, i + 1;
      } else if pat[p] == STAR {
        r := MatchStar(pat, p, s, i, f);
        return;
      } else if pat[p] == OPEN {
        MatchesOne(t, Tokens(pat, q, f), s, i, f);
        if i == |s| || Separator(s[i], f) || PeriodSpecial(s, i, f) {
          return false;
        }
        var ok, next := BracketMatch(pat, p, s[i], f);
        if ok < 0 {
          if Fold(OPEN, f) != Fold(s[i], f) {
            return false;
          }
          p, i := p + 1, i + 1;
        } else {
          if ok == 0 {
            return false;
          }
          p, i := next, i + 1;
        }
      } else {
        MatchesOne(t, Tokens(pat, q, f), s, i, f);
        var pc := pat[p];
        if pc == BACKSLASH && !f.noescape && p + 1 < |pat| {
          p := p + 1;
          pc := pat[p];
        }
        if i == |s| || Fold(pc, f) != Fold(s[i], f) {
          return false;
        }
        p, i := p + 1, i + 1;
      }
    }
  }

  /** The star case of match_here. */
  method MatchStar(pat: Text, pattern: nat, s: Text, string_: nat, f: Flags) returns (r: bool)
    requires pattern < |pat| && pat[pattern] == STAR && string_ <= |s|
    ensures r <==> Matches(Tokens(pat, pattern, f), s, string_, f)
    decreases |pat| - pattern, 0
  {
    hide Matches;
    var p, i := pattern, string_;
    while p < |pat| && pat[p] == STAR
      invariant pattern <= p <= |pat| && AfterStars(pat, pattern) == AfterStars(pat, p)
      decreases |pat| - p
    {
      p := p + 1;
    }
    CollapseStars(pat, pattern, s, i, f);
    ghost var rest := Tokens(pat, p, f);
    MatchesCons(Star, rest, s, i, f);
    if PeriodSpecial(s, i, f) {
      return false;
    }
    if p == |pat| {
      assert [Star] + rest == [Star];
      if !f.pathname {
        TrailingStar(s, i, |s|, f);
        return true;
      }
      while i < |s|
        invariant string_ <= i <= |s|
        invariant forall k :: string_ <= k < i ==> !Separator(s[k], f)
      {
        if s[i] == SLASH {
          TrailingStar(s, string_, i, f);
          return f.leadingDir;
        }
        i := i + 1;
      }
      TrailingStar(s, string_, i, f);
      return true;
    }
    while true
      invariant string_ <= i <= |s|
      invariant forall k :: string_ <= k < i ==> !Separator(s[k], f)
      invariant forall j: nat :: string_ <= j < i ==> !Matches(rest, s, j, f)
      decreases |s| - i
    {
      var here := MatchHere(pat, p, s, i, f);
      if here {
        assert Piece(Star, s, string_, i, f);
        return true;
      }
      if i == |s| || Separator(s[i], f) {
        return false;
      }
      i := i + 1;
    }
  }

  /** fnmatch: 0 for a match, FNM_NOMATCH (1) otherwise and for a null argument. */
  method FnMatch(pattern: Option<Text>, string_: Option<Text>, f: Flags) returns (rc: int)
    ensures rc == 0 || rc == 1
    ensures rc == 0 <==> pattern.Some? && string_.Some? && Matches(Tokens(pattern.value, 0, f), string_.value, 0, f)
  {
    if pattern.None? || string_.None? {
      return 1;
    }
    var r := MatchHere(pattern.value, 0, string_.value, 0, f);
    return if r then 0 else 1;
  }

  // ---- Laws of the matcher ----

  /** How a pattern reads depends on FNM_NOESCAPE only. */
  lemma {:induction false} TokensFlags(pat: Text, p: nat, f: Flags, g: Flags)
    requires f.noescape == g.noescape
    ensures Tokens(pat, p, f) == Tokens(pat, p, g)
    decreases |pat| - p
  {
    if p >= |pat| {
    } else {
      if pat[p] == OPEN { ItemsFlags(pat, if Negated(pat, p) then p + 2 else p + 1, true, None, f, g); }
      TokensFlags(pat, Token1(pat, p, f).1, f, g);
    }
  }

  lemma {:induction false} ItemsFlags(pat: Text, p: nat, first: bool, prev: Option<Char>, f: Flags, g: Flags)
    requires f.noescape == g.noescape
    ensures Items(pat, p, first, prev, f) == Items(pat, p, first, prev, g)
    decreases |pat| - p
  {
    if p >= |pat| || (pat[p] == CLOSE && !first) {
    } else {
      assert Item1(pat, p, prev, f) == Item1(pat, p, prev, g);
      hide Item1;
      var (item, q, prev') := Item1(pat, p, prev, f);
      ItemsFlags(pat, q, false, prev', f, g);
    }
  }

  /** A piece reads the string up to where it ends, and one character further only for a period. */
  lemma PiecePrefix(t: Token, s: Text, i: nat, j: nat, k: nat, f: Flags, g: Flags)
    requires j <= k <= |s| && (k < |s| ==> s[k] != DOT) && g == f.(leadingDir := g.leadingDir)
    ensures Piece(t, s, i, j, f) <==> Piece(t, s[..k], i, j, g)
  {
    if t.Set? {
      forall c ensures ItemsAccept(t.items, c, f) <==> ItemsAccept(t.items, c, g) {
        assert forall n :: 0 <= n < |t.items| ==> (ItemAccepts(t.items[n], c, f) <==> ItemAccepts(t.items[n], c, g));
      }
    }
  }

  lemma {:induction false} CutsAscend(toks: seq<Token>, s: Text, i: nat, cuts: seq<nat>, f: Flags, t: nat)
    requires IsCut(toks, s, i, cuts, f) && t <= |toks|
    ensures cuts[t] <= cuts[|toks|]
    decreases |toks| - t
  {
    if t >= |toks| {
    } else {
      assert Piece(toks[t], s, cuts[t], cuts[t + 1], f);
      CutsAscend(toks, s, i, cuts, f, t + 1);
    }
  }

  lemma CutOfPrefix(toks: seq<Token>, s: Text, cuts: seq<nat>, k: nat, f: Flags, g: Flags)
    requires f.leadingDir && g == f.(leadingDir := false)
    requires k <= |s| && (k == |s| || s[k] == SLASH) && |cuts| == |toks| + 1 && cuts[|toks|] == k
    ensures IsCut(toks, s, 0, cuts, f) <==> IsCut(toks, s[..k], 0, cuts, g)
  {
    if IsCut(toks, s, 0, cuts, f) {
      forall t | 0 <= t < |toks| ensures Piece(toks[t], s[..k], cuts[t], cuts[t + 1], g) {
        CutsAscend(toks, s, 0, cuts, f, t + 1);
        PiecePrefix(toks[t], s, cuts[t], cuts[t + 1], k, f, g);
      }
    }
    if IsCut(toks, s[..k], 0, cuts, g) {
      forall t | 0 <= t < |toks| ensures Piece(toks[t], s, cuts[t], cuts[t + 1], f) {
        CutsAscend(toks, s[..k], 0, cuts, g, t + 1);
        PiecePrefix(toks[t], s, cuts[t], cuts[t + 1], k, f, g);
      }
    }
  }

  /** FNM_LEADING_DIR matches exactly when some leading part that ends before a slash, or all, matches. */
  lemma LeadingDirIsPrefixMatch(pat: Text, s: Text, f: Flags)
    requires f.leadingDir
    ensures var g := f.(leadingDir := false);
            Matches(Tokens(pat, 0, f), s, 0, f) <==>
            exists k :: 0 <= k <= |s| && (k == |s| || s[k] == SLASH) && Matches(Tokens(pat, 0, g), s[..k], 0, g)
  {
    var g := f.(leadingDir := false);
    var toks := Tokens(pat, 0, f);
    TokensFlags(pat, 0, f, g);
    if Matches(toks, s, 0, f) {
      var cuts :| IsCut(toks, s, 0, cuts, f);
      var k := cuts[|toks|];
      CutOfPrefix(toks, s, cuts, k, f, g);
      assert Matches(toks, s[..k], 0, g);
    }
    if k :| 0 <= k <= |s| && (k == |s| || s[k] == SLASH) && Matches(toks, s[..k], 0, g) {
      var cuts :| IsCut(toks, s[..k], 0, cuts, g);
      CutOfPrefix(toks, s, cuts, k, f, g);
    }
  }

  /** Every character of `t` behind a backslash. */
  function Quote(t: Text): Text {
    if t == [] then [] else [BACKSLASH, t[0]] + Quote(t[1..])
  }

  function Literals(t: Text): seq<Token> {
    if t == [] then [] else [Lit(t[0])] + Literals(t[1..])
  }

  lemma EscapedToken(pat: Text, p: nat, c: Char, f: Flags)
    requires !f.noescape && p + 1 < |pat| && pat[p] == BACKSLASH && pat[p + 1] == c
    ensures Token1(pat, p, f) == (Lit(c), p + 2)
  {
  }

  lemma {:induction false} QuotedTokens(before: Text, t: Text, f: Flags)
    requires !f.noescape
    ensures Tokens(before + Quote(t), |before|, f) == Literals(t)
    decreases |t|
  {
    if t == [] {
    } else {
      var pat := before + Quote(t);
      var next := before + [BACKSLASH, t[0]];
      assert pat == next + Quote(t[1..]);
      EscapedToken(pat, |before|, t[0], f);
      hide Token1;
      QuotedTokens(next, t[1..], f);
    }
  }

  predicate SameFolded(s: Text, i: nat, t: Text, f: Flags) {
    i + |t| == |s| && forall k :: 0 <= k < |t| ==> Fold(t[k], f) == Fold(s[i + k], f)
  }

  lemma {:induction false} LiteralsMatch(t: Text, s: Text, i: nat, f: Flags)
    requires !f.leadingDir
    ensures Matches(Literals(t), s, i, f) <==> SameFolded(s, i, t, f)
    decreases |t|
  {
    if t == [] {
      MatchesNil(s, i, f);
    } else {
      MatchesOne(Lit(t[0]), Literals(t[1..]), s, i, f);
      LiteralsMatch(t[1..], s, i + 1, f);
      if SameFolded(s, i, t, f) {
        assert Fold(t[0], f) == Fold(s[i + 0], f);
        forall k | 0 <= k < |t[1..]| ensures Fold(t[1..][k], f) == Fold(s[i + 1 + k], f) {
          assert t[1..][k] == t[k + 1] && s[i + 1 + k] == s[i + (k + 1)];
        }
      }
      if Piece(Lit(t[0]), s, i, i + 1, f) && SameFolded(s, i + 1, t[1..], f) {
        forall k | 0 <= k < |t| ensures Fold(t[k], f) == Fold(s[i + k], f) {
          if k > 0 { assert t[k] == t[1..][k - 1] && s[i + k] == s[i + 1 + (k - 1)]; }
        }
      }
    }
  }

  /** A quoted text matches itself, up to case where case is folded, and nothing else. */
  lemma QuotedMatchesItself(t: Text, s: Text, f: Flags)
    requires !f.noescape && !f.leadingDir
    ensures Matches(Tokens(Quote(t), 0, f), s, 0, f) <==> SameFolded(s, 0, t, f)
  {
    assert [] + Quote(t) == Quote(t);
    QuotedTokens([], t, f);
    LiteralsMatch(t, s, 0, f);
  }

  /** The piece of a cut that holds position `k`. */
  lemma {:induction false} PieceAt(toks: seq<Token>, s: Text, i: nat, cuts: seq<nat>, f: Flags, n: nat,
                                   k: nat) returns (t: nat)
    requires IsCut(toks, s, i, cuts, f) && n <= |toks| && i <= k < cuts[n]
    ensures t < n && cuts[t] <= k < cuts[t + 1]
    decreases n
  {
    if cuts[n - 1] <= k {
      t := n - 1;
    } else {
      t := PieceAt(toks, s, i, cuts, f, n - 1, k);
    }
  }

  /**
   * Under FNM_PATHNAME slashes pair off: in whatever way a matched string is cut,
   * each slash of the matched part is the piece of a literal slash of the pattern,
   * and each literal slash takes a slash.
   */
  lemma PathnameSlashesAreLiteral(toks: seq<Token>, s: Text, i: nat, cuts: seq<nat>, f: Flags)
    requires f.pathname && IsCut(toks, s, i, cuts, f)
    ensures forall k :: i <= k < cuts[|toks|] && k < |s| && s[k] == SLASH ==>
              exists t :: 0 <= t < |toks| && cuts[t] == k && toks[t] == Lit(SLASH)
    ensures forall t :: 0 <= t < |toks| && toks[t] == Lit(SLASH) ==> cuts[t] < |s| && s[cuts[t]] == SLASH
  {
    forall k | i <= k < cuts[|toks|] && k < |s| && s[k] == SLASH
      ensures exists t :: 0 <= t < |toks| && cuts[t] == k && toks[t] == Lit(SLASH)
    {
      var t := PieceAt(toks, s, i, cuts, f, |toks|, k);
      assert Piece(toks[t], s, cuts[t], cuts[t + 1], f);
      assert Separator(s[k], f);
    }
    forall t | 0 <= t < |toks| && toks[t] == Lit(SLASH) ensures cuts[t] < |s| && s[cuts[t]] == SLASH {
      assert Piece(toks[t], s, cuts[t], cuts[t + 1], f);
    }
  }

  // ---- Reading back a written pattern ----

  /** What the inside of a bracket is written from: a character, or a range after its lower end. */
  datatype Group = One(c: Char) | Span(lo: Char, hi: Char)

  datatype Glyph = WLit(c: Char) | WAny | WStar | WSet(negate: bool, groups: seq<Group>)

  function WriteGroup(g: Group): Text {
    match g
    case One(c) => [BACKSLASH, c]
    case Span(lo, hi) => [BACKSLASH, lo, DASH, BACKSLASH, hi]
  }

  function WriteGroups(gs: seq<Group>): Text {
    if gs == [] then [] else WriteGroup(gs[0]) + WriteGroups(gs[1..])
  }

  function ItemsOf(gs: seq<Group>): seq<Item> {
    if gs == [] then []
    else match gs[0]
      case One(c) => [Single(c)] + ItemsOf(gs[1..])
      case Span(lo, hi) => [Single(lo)] + ([Range(lo, hi)] + ItemsOf(gs[1..]))
  }

  function WriteGlyph(g: Glyph): (r: Text)
    ensures |r| > 0
  {
    match g
    case WLit(c) => [BACKSLASH, c]
    case WAny => [QUESTION]
    case WStar => [STAR]
    case WSet(negate, groups) => Opening(negate) + (WriteGroups(groups) + [CLOSE])
  }

  function TokenOf(g: Glyph): Token {
    match g
    case WLit(c) => Lit(c)
    case WAny => Any
    case WStar => Star
    case WSet(negate, groups) => Set(negate, ItemsOf(groups))
  }

  function Write(gs: seq<Glyph>): Text {
    if gs == [] then [] else WriteGlyph(gs[0]) + Write(gs[1..])
  }

  function TokensOf(gs: seq<Glyph>): seq<Token> {
    if gs == [] then [] else [TokenOf(gs[0])] + TokensOf(gs[1..])
  }

  /** `text` stands in the pattern at `p`. */
  predicate StandsAt(pat: Text, p: nat, text: Text) {
    p + |text| <= |pat| && forall k :: 0 <= k < |text| ==> pat[p + k] == text[k]
  }

  lemma StandsSplit(pat: Text, p: nat, a: Text, b: Text)
    requires StandsAt(pat, p, a + b)
    ensures StandsAt(pat, p, a) && StandsAt(pat, p + |a|, b)
  {
    forall k | 0 <= k < |a| ensures pat[p + k] == a[k] { assert (a + b)[k] == a[k]; }
    forall k | 0 <= k < |b| ensures pat[p + |a| + k] == b[k] { assert pat[p + (|a| + k)] == (a + b)[|a| + k]; }
  }

  lemma StandsChar(pat: Text, p: nat, text: Text, k: nat)
    requires StandsAt(pat, p, text) && k < |text|
    ensures p + |text| <= |pat| && pat[p + k] == text[k]
  {
  }

  /** One step of reading a bracket inside: a written group yields its items. */
  lemma GroupReadBack(pat: Text, p: nat, g: Group, first: bool, prev: Option<Char>, f: Flags)
    requires !f.noescape && StandsAt(pat, p, WriteGroup(g))
    ensures var rest := Items(pat, p + |WriteGroup(g)|, false, if g.One? then Some(g.c) else None, f);
            Items(pat, p, first, prev, f) ==
            if rest.None? then None
            else Some((if g.One? then [Single(g.c)] + rest.value.0
                       else [Single(g.lo)] + ([Range(g.lo, g.hi)] + rest.value.0), rest.value.1))
  {
    var w := WriteGroup(g);
    StandsChar(pat, p, w, 0);
    StandsChar(pat, p, w, 1);
    if g.Span? {
      StandsChar(pat, p, w, 2);
      StandsChar(pat, p, w, 3);
      StandsChar(pat, p, w, 4);
      hide StandsAt;
      assert Item1(pat, p, prev, f) == (Single(g.lo), p + 2, Some(g.lo));
      assert Item1(pat, p + 2, Some(g.lo), f) == (Range(g.lo, g.hi), p + 5, None);
    } else {
      hide StandsAt;
      assert Item1(pat, p, prev, f) == (Single(g.c), p + 2, Some(g.c));
    }
  }

  function GroupItems(g: Group): seq<Item> {
    if g.One? then [Single(g.c)] else [Single(g.lo), Range(g.lo, g.hi)]
  }

  lemma GroupsCons(gs: seq<Group>)
    requires gs != []
    ensures WriteGroups(gs) == WriteGroup(gs[0]) + WriteGroups(gs[1..])
    ensures ItemsOf(gs) == GroupItems(gs[0]) + ItemsOf(gs[1..])
  {
  }

  lemma {:induction false} ItemsReadBack(pat: Text, p: nat, gs: seq<Group>, first: bool, prev: Option<Char>, f: Flags)
    requires !f.noescape && (first ==> gs != [])
    requires StandsAt(pat, p, WriteGroups(gs)) && p + |WriteGroups(gs)| < |pat| && pat[p + |WriteGroups(gs)|] == CLOSE
    ensures Items(pat, p, first, prev, f) == Some((ItemsOf(gs), p + |WriteGroups(gs)| + 1))
    decreases |gs|
  {
    hide StandsAt, WriteGroup, WriteGroups, ItemsOf, Items;
    if gs == [] {
      NoGroups(pat, p, prev, f);
    } else {
      var g := gs[0];
      GroupsCons(gs);
      StandsSplit(pat, p, WriteGroup(g), WriteGroups(gs[1..]));
      GroupReadBack(pat, p, g, first, prev, f);
      var next := p + |WriteGroup(g)|;
      ItemsReadBack(pat, next, gs[1..], false, if g.One? then Some(g.c) else None, f);
      if g.Span? {
        assert [Single(g.lo)] + ([Range(g.lo, g.hi)] + ItemsOf(gs[1..])) ==
               [Single(g.lo), Range(g.lo, g.hi)] + ItemsOf(gs[1..]);
      }
    }
  }

  lemma NoGroups(pat: Text, p: nat, prev: Option<Char>, f: Flags)
    ensures WriteGroups([]) == [] && ItemsOf([]) == []
    ensures p < |pat| && pat[p] == CLOSE ==> Items(pat, p, false, prev, f) == Some(([], p + 1))
  {
  }

  lemma GroupsStart(gs: seq<Group>)
    requires gs != []
    ensures |WriteGroups(gs)| > 0 && WriteGroups(gs)[0] == BACKSLASH
  {
  }

  function Opening(negate: bool): Text { if negate then [OPEN, BANG] else [OPEN] }

  /** Where the parts of a written bracket stand. */
  lemma SetStands(pat: Text, p: nat, negate: bool, groups: seq<Group>)
    requires groups != [] && StandsAt(pat, p, Opening(negate) + (WriteGroups(groups) + [CLOSE]))
    ensures var q, n := p + |Opening(negate)|, |WriteGroups(groups)|;
            && q + n < |pat| && StandsAt(pat, q, WriteGroups(groups)) && pat[q + n] == CLOSE
            && pat[p] == OPEN && Negated(pat, p) == negate
  {
    hide WriteGroups, StandsAt;
    var open, inside := Opening(negate), WriteGroups(groups);
    GroupsStart(groups);
    StandsSplit(pat, p, open, inside + [CLOSE]);
    StandsSplit(pat, p + |open|, inside, [CLOSE]);
    StandsChar(pat, p, open, 0);
    if negate { StandsChar(pat, p, open, 1); }
    StandsChar(pat, p + |open|, inside, 0);
    StandsChar(pat, p + |open| + |inside|, [CLOSE], 0);
  }

  lemma SetToken(pat: Text, p: nat, negate: bool, items: seq<Item>, next: nat, f: Flags)
    requires p < |pat| && pat[p] == OPEN && Negated(pat, p) == negate
    requires Items(pat, p + |Opening(negate)|, true, None, f) == Some((items, next))
    ensures Token1(pat, p, f) == (Set(negate, items), next)
  {
    hide Items;
  }

  lemma SetReadBack(pat: Text, p: nat, negate: bool, groups: seq<Group>, f: Flags)
    requires !f.noescape && groups != [] && StandsAt(pat, p, Opening(negate) + (WriteGroups(groups) + [CLOSE]))
    ensures p < |pat|
    ensures Token1(pat, p, f) == (Set(negate, ItemsOf(groups)), p + |Opening(negate) + (WriteGroups(groups) + [CLOSE])|)
  {
    hide Items, Token1, ItemsOf, WriteGroups, StandsAt, Negated;
    var q := p + |Opening(negate)|;
    SetStands(pat, p, negate, groups);
    ItemsReadBack(pat, q, groups, true, None, f);
    SetToken(pat, p, negate, ItemsOf(groups), q + |WriteGroups(groups)| + 1, f);
  }

  lemma GlyphReadBack(pat: Text, p: nat, g: Glyph, f: Flags)
    requires !f.noescape && (g.WSet? ==> g.groups != []) && StandsAt(pat, p, WriteGlyph(g))
    ensures p < |pat| && Token1(pat, p, f) == (TokenOf(g), p + |WriteGlyph(g)|)
  {
    hide Bracket, StandsAt, ItemsOf, WriteGroups;
    if g.WSet? {
      SetReadBack(pat, p, g.negate, g.groups, f);
    } else {
      StandsChar(pat, p, WriteGlyph(g), 0);
      if g.WLit? { StandsChar(pat, p, WriteGlyph(g), 1); }
    }
  }

  /** With escapes on, a list of tokens whose brackets are not empty is read back as it was written. */
  lemma {:induction false} WrittenPatternReadsBack(pat: Text, p: nat, gs: seq<Glyph>, f: Flags)
    requires !f.noescape && forall i :: 0 <= i < |gs| && gs[i].WSet? ==> gs[i].groups != []
    requires StandsAt(pat, p, Write(gs)) && p + |Write(gs)| == |pat|
    ensures Tokens(pat, p, f) == TokensOf(gs)
    decreases |gs|
  {
    hide Token1, WriteGlyph, StandsAt;
    if gs == [] {
    } else {
      StandsSplit(pat, p, WriteGlyph(gs[0]), Write(gs[1..]));
      GlyphReadBack(pat, p, gs[0], f);
      WrittenPatternReadsBack(pat, p + |WriteGlyph(gs[0])|, gs[1..], f);
    }
  }

  // ---- Slashes in brackets ----

  /** A bracket is read at `p` and a slash stands inside it. */
  predicate SlashInside(pat: Text, p: nat, f: Flags)
    requires p < |pat|
  {
    pat[p] == OPEN && Bracket(pat, p, f).Some? && SLASH in pat[p..Bracket(pat, p, f).value.1]
  }

  /**
   * The reading of section 2.13.3 of the Shell and Utilities volume of POSIX: where
   * slashes are matched explicitly, a bracket with a slash inside is no bracket and its
   * opening stands for itself.
   */
  function PosixToken1(pat: Text, p: nat, f: Flags): (r: (Token, nat))
    requires p < |pat|
    ensures p < r.1 <= |pat|
  {
    if f.pathname && SlashInside(pat, p, f) then (Lit(OPEN), p + 1) else Token1(pat, p, f)
  }

  function PosixTokens(pat: Text, p: nat, f: Flags): seq<Token>
    decreases |pat| - p
  {
    if p >= |pat| then []
    else
      var (t, q) := PosixToken1(pat, p, f);
      [t] + PosixTokens(pat, q, f)
  }

  /** Some bracket that the matcher reads from `p` on has a slash inside. */
  predicate SlashInBracket(pat: Text, p: nat, f: Flags)
    decreases |pat| - p
  {
    p < |pat| && (SlashInside(pat, p, f) || SlashInBracket(pat, Token1(pat, p, f).1, f))
  }

  /** The matcher reads a pattern so exactly when slashes are ordinary or stand in no bracket. */
  lemma {:induction false} BracketsReadAsPosix(pat: Text, p: nat, f: Flags)
    ensures Tokens(pat, p, f) == PosixTokens(pat, p, f) <==> !f.pathname || !SlashInBracket(pat, p, f)
    decreases |pat| - p
  {
    hide Bracket;
    if p >= |pat| {
    } else {
      var (t, q) := Token1(pat, p, f);
      var (u, r) := PosixToken1(pat, p, f);
      if f.pathname && SlashInside(pat, p, f) {
        assert Tokens(pat, p, f)[0] == t && PosixTokens(pat, p, f)[0] == u && t != u;
      } else {
        BracketsReadAsPosix(pat, q, f);
        hide Token1, SlashInside;
        assert Tokens(pat, p, f)[1..] == Tokens(pat, q, f) && PosixTokens(pat, p, f)[1..] == PosixTokens(pat, q, f);
      }
    }
  }

  /** A bracket around a slash matches nothing where POSIX has it match its own text. */
  lemma SlashBracketMatchesNothing(s: Text, f: Flags)
    requires f.pathname
    ensures var pat := [OPEN, SLASH, CLOSE];
            !Matches(Tokens(pat, 0, f), s, 0, f) && Matches(PosixTokens(pat, 0, f), pat, 0, f)
  {
    var pat: Text := [OPEN, SLASH, CLOSE];
    assert Items(pat, 2, false, Some(SLASH), f) == Some(([], 3));
    assert Item1(pat, 1, None, f) == (Single(SLASH), 2, Some(SLASH));
    assert [Single(SLASH)] + [] == [Single(SLASH)];
    assert Items(pat, 1, true, None, f) == Some(([Single(SLASH)], 3));
    var set1 := Set(false, [Single(SLASH)]);
    assert Tokens(pat, 0, f) == [set1] + [];
    MatchesOne(set1, [], s, 0, f);
    assert pat[1] in pat[0..3];
    assert PosixTokens(pat, 3, f) == [] && PosixTokens(pat, 2, f) == [Lit(CLOSE)] + [];
    assert PosixTokens(pat, 1, f) == [Lit(SLASH), Lit(CLOSE)];
    assert PosixTokens(pat, 0, f) == [Lit(OPEN), Lit(SLASH), Lit(CLOSE)];
    assert IsCut([Lit(OPEN), Lit(SLASH), Lit(CLOSE)], pat, 0, [0, 1, 2, 3], f);
  }
}
