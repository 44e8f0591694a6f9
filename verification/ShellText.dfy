/**
The characters of a line against the line as it was typed: tokens with white
space around them, and none needed except where two tokens would run together.
*/
module ShellText {
  import opened ShellGrammar
  import opened Shell
  import opened ShellLines

  predicate AllWhite(g: string) {
    forall k :: 0 <= k < |g| ==> White(g[k])
  }

  /** Two tokens that become another one if nothing is between them. */
  predicate Touch(a: Token<string>, b: Token<string>) {
    (a.Word? && b.Word?) || (a == Sym('>') && b.Sym? && b.c in {'>', '+'})
  }

  /** White space behind each token, enough to keep it apart from the next. */
  predicate Apart(ts: seq<Token<string>>, gaps: seq<string>) {
    && |gaps| == |ts| && (forall k :: 0 <= k < |gaps| ==> AllWhite(gaps[k]))
    && forall k :: 0 <= k < |ts| - 1 && gaps[k] == "" ==> !Touch(ts[k], ts[k + 1])
  }

  /** The characters: a gap, and each token with the gap behind it. */
  function Laid(gap: string, ts: seq<Token<string>>, gaps: seq<string>): (s: string)
    requires |gaps| == |ts|
    decreases |ts|
  {
    if ts == [] then gap else gap + (TokenText(ts[0]) + Laid(gaps[0], ts[1..], gaps[1..]))
  }

  predicate PlainTokens(ts: seq<Token<string>>) {
    forall k :: 0 <= k < |ts| ==> PlainToken(ts[k])
  }

  /** Nothing behind the token makes it longer. */
  predicate Ends(t: Token<string>, rest: string) {
    rest == "" || (if t.Word? then !InWord(rest[0]) else t == Sym('>') ==> rest[0] != '>')
  }

  lemma TokenStands(s: string, i: nat, t: Token<string>, rest: string)
    requires PlainToken(t) && i <= |s| && s[i..] == TokenText(t) + rest && Ends(t, rest)
    ensures i < |s| && !White(s[i]) && MapToken(TokenAt(s, i), Texts(s)) == t && TokenEnd(s, i) == i + |TokenText(t)| && s[i + |TokenText(t)|..] == rest
  {
    var n := |TokenText(t)|;
    assert forall k :: i <= k < |s| ==> s[k] == s[i..][k - i];
    assert s[i + n..] == s[i..][n..];
    if t.Word? {
      assert forall k :: i <= k < i + n ==> s[k] == t.w[k - i];
      WordEndIs(s, i, i + n);
      assert s[i..i + n] == s[i..][..n];
    } else {
      assert s[i] == TokenText(t)[0];
      if t.c == '+' { assert s[i + 1] == TokenText(t)[1]; }
    }
  }

  lemma NextEnds(ts: seq<Token<string>>, gaps: seq<string>)
    requires ts != [] && PlainTokens(ts) && Apart(ts, gaps)
    ensures Ends(ts[0], Laid(gaps[0], ts[1..], gaps[1..]))
  {
    var rest := Laid(gaps[0], ts[1..], gaps[1..]);
    assert AllWhite(gaps[0]);
    if gaps[0] != "" {
      assert rest[0] == gaps[0][0];
    } else if |ts| > 1 {
      assert PlainToken(ts[1]) && !Touch(ts[0], ts[1]);
      assert rest[0] == TokenText(ts[1])[0];
    }
  }

  lemma ApartRest(ts: seq<Token<string>>, gaps: seq<string>)
    requires ts != [] && PlainTokens(ts) && Apart(ts, gaps)
    ensures AllWhite(gaps[0]) && PlainTokens(ts[1..]) && Apart(ts[1..], gaps[1..])
  {
  }

  lemma GapSkipped(s: string, i: nat, gap: string, rest: string)
    requires i <= |s| && s[i..] == gap + rest && AllWhite(gap)
    ensures i + |gap| <= |s| && s[i + |gap|..] == rest && Lex(s, i) == Lex(s, i + |gap|)
  {
    assert forall k :: i <= k < i + |gap| ==> s[k] == s[i..][k - i] == gap[k - i];
    assert s[i + |gap|..] == s[i..][|gap|..];
    LexSkips(s, i, i + |gap|);
  }

  lemma LaidStep(gap: string, ts: seq<Token<string>>, gaps: seq<string>)
    requires |gaps| == |ts|
    ensures Laid(gap, ts, gaps) == if ts == [] then gap else gap + (TokenText(ts[0]) + Laid(gaps[0], ts[1..], gaps[1..]))
  {
  }

  /** However a line is spaced, the tokenizer finds its tokens. */
  lemma {:induction false} LexLaid(s: string, i: nat, gap: string, ts: seq<Token<string>>, gaps: seq<string>)
    requires i <= |s| && |gaps| == |ts| && AllWhite(gap) && PlainTokens(ts) && Apart(ts, gaps) && s[i..] == Laid(gap, ts, gaps)
    ensures MapTokens(Lex(s, i), Texts(s)) == ts
    decreases |ts|
  {
    hide AllWhite, White, PlainTokens, Apart, Texts, TokenText, MapToken, MapTokens, Laid, Lex;
    if ts == [] {
      OnlyGap(s, i, gap, gaps);
    } else {
      var e := LaidToken(s, i, gap, ts, gaps);
      ApartRest(ts, gaps);
      LexLaid(s, e, gaps[0], ts[1..], gaps[1..]);
      assert ts == [ts[0]] + ts[1..];
    }
  }

  lemma OnlyGap(s: string, i: nat, gap: string, gaps: seq<string>)
    requires i <= |s| && |gaps| == 0 && AllWhite(gap) && s[i..] == Laid(gap, [], gaps)
    ensures MapTokens(Lex(s, i), Texts(s)) == []
  {
    hide AllWhite, Lex;
    assert gap == gap + "";
    GapSkipped(s, i, gap, "");
    assert i + |gap| == |s|;
    NoTokens(s);
  }

  lemma LaidToken(s: string, i: nat, gap: string, ts: seq<Token<string>>, gaps: seq<string>) returns (e: nat)
    requires i <= |s| && |gaps| == |ts| > 0 && AllWhite(gap) && PlainTokens(ts) && Apart(ts, gaps) && s[i..] == Laid(gap, ts, gaps)
    ensures e <= |s| && s[e..] == Laid(gaps[0], ts[1..], gaps[1..])
    ensures MapTokens(Lex(s, i), Texts(s)) == [ts[0]] + MapTokens(Lex(s, e), Texts(s))
  {
    hide AllWhite, TokenAt, TokenEnd, White, PlainTokens, Apart, Texts, TokenText, MapToken, MapTokens, Ends, Laid, Lex;
    LaidStep(gap, ts, gaps);
    var rest := Laid(gaps[0], ts[1..], gaps[1..]);
    NextEnds(ts, gaps);
    FirstPlain(ts);
    GapSkipped(s, i, gap, TokenText(ts[0]) + rest);
    var j := i + |gap|;
    TokenStands(s, j, ts[0], rest);
    LexFirst(s, j);
    e := j + |TokenText(ts[0])|;
  }

  lemma LexFirst(s: string, j: nat)
    requires j < |s| && !White(s[j])
    ensures MapTokens(Lex(s, j), Texts(s)) == [MapToken(TokenAt(s, j), Texts(s))] + MapTokens(Lex(s, TokenEnd(s, j)), Texts(s))
  {
    hide Lex, TokenAt, TokenEnd, MapTokens, MapToken;
    LexStep(s, j);
    MapCons(TokenAt(s, j), Lex(s, TokenEnd(s, j)), Texts(s));
  }

  lemma FirstPlain(ts: seq<Token<string>>)
    requires ts != [] && PlainTokens(ts)
    ensures PlainToken(ts[0])
  {
  }

  lemma NoTokens(s: string)
    ensures Lex(s, |s|) == [] && MapTokens(Lex(s, |s|), Texts(s)) == []
  {
  }

  /** The token at a place, its characters, and what may follow. */
  lemma TokenThere(s: string, j: nat)
    requires j < |s| && !White(s[j]) && NUL !in s
    ensures var t, e := MapToken(TokenAt(s, j), Texts(s)), TokenEnd(s, j);
            PlainToken(t) && s[j..] == TokenText(t) + s[e..] && Ends(t, s[e..])
  {
    var t, e := MapToken(TokenAt(s, j), Texts(s)), TokenEnd(s, j);
    assert s[j..] == s[j..e] + s[e..];
    assert s[j..e] == TokenText(t);
    if t.Word? {
      forall k | 0 <= k < |t.w| ensures InWord(t.w[k]) && t.w[k] != NUL {
        assert t.w[k] == s[j + k] && s[j + k] in s;
      }
    }
  }

  lemma ApartCons(t: Token<string>, gap: string, ts: seq<Token<string>>, gaps: seq<string>)
    requires PlainToken(t) && PlainTokens(ts) && Apart(ts, gaps) && AllWhite(gap) && Ends(t, Laid(gap, ts, gaps))
    ensures PlainTokens([t] + ts) && Apart([t] + ts, [gap] + gaps)
    ensures forall g: string :: Laid(g, [t] + ts, [gap] + gaps) == g + (TokenText(t) + Laid(gap, ts, gaps))
  {
    var all, more := [t] + ts, [gap] + gaps;
    assert all[1..] == ts && more[1..] == gaps;
    if gap == "" && ts != [] {
      assert PlainToken(ts[0]);
      assert Laid(gap, ts, gaps)[0] == TokenText(ts[0])[0];
    }
    forall k | 0 <= k < |all| - 1 && more[k] == "" ensures !Touch(all[k], all[k + 1]) {
      if k > 0 {
        assert all[k] == ts[k - 1] && all[k + 1] == ts[k] && more[k] == gaps[k - 1];
      }
    }
  }

  /** Every line is its tokens with white space around them. */
  lemma {:induction false} LexLays(s: string, i: nat) returns (gap: string, gaps: seq<string>)
    requires i <= |s| && NUL !in s
    ensures var ts := MapTokens(Lex(s, i), Texts(s));
            |gaps| == |ts| && AllWhite(gap) && PlainTokens(ts) && Apart(ts, gaps) && s[i..] == Laid(gap, ts, gaps)
    decreases |s| - i
  {
    hide TokenAt, TokenEnd, White, PlainTokens, Apart, Texts, TokenText, MapToken, MapTokens, Ends;
    var j := Skip(s, i);
    gap := s[i..j];
    SkipWhites(s, i);
    assert s[i..] == gap + s[j..];
    if j == |s| {
      gaps := [];
      NoTokens(s);
      LexSkips(s, i, j);
      NothingApart();
    } else {
      var e := TokenEnd(s, j);
      var g, more := LexLays(s, e);
      gaps := [g] + more;
      TokenThere(s, j);
      LexStep(s, j);
      LexSkips(s, i, j);
      MapCons(TokenAt(s, j), Lex(s, e), Texts(s));
      ApartCons(MapToken(TokenAt(s, j), Texts(s)), g, MapTokens(Lex(s, e), Texts(s)), more);
    }
  }

  lemma SkipWhites(s: string, i: nat)
    requires i <= |s|
    ensures AllWhite(s[i..Skip(s, i)])
  {
  }

  lemma NothingApart()
    ensures PlainTokens([]) && Apart([], [])
  {
  }

  /** The line is typed as l with this white space. */
  ghost predicate TypedAs(s: string, l: Typed<string>, gap: string, gaps: seq<string>) {
    && LineOk(l) && PlainTokens(LineText(l)) && AllWhite(gap) && |gaps| == |LineText(l)| && Apart(LineText(l), gaps)
    && s == Laid(gap, LineText(l), gaps)
  }

  /** The shell reads a line of characters as a command exactly if the line is a way to type it, with any white
      space that keeps its tokens apart; the words of the command are the words of the line. */
  lemma ReadsExactly(s: string, c: Cmd<string>)
    requires NUL !in s
    ensures Command(Lex(s, 0)).Ok? && MapCmd(Command(Lex(s, 0)).v, Texts(s)) == c <==>
            exists l, gap, gaps :: TypedAs(s, l, gap, gaps) && LineCmd(l) == c
  {
    hide Lex, Line, LineOk, LineText, LineCmd, MapCmd, Texts, MapTokens, Laid, Apart, PlainTokens;
    var ts := MapTokens(Lex(s, 0), Texts(s));
    LineMap(Lex(s, 0), Texts(s));
    NoneLeft(Lex(s, 0), Texts(s));
    assert s[0..] == s;
    if Command(Lex(s, 0)).Ok? && MapCmd(Command(Lex(s, 0)).v, Texts(s)) == c {
      ParsesExactly(ts, c);
      var l :| Says(l, ts, c);
      var gap, gaps := LexLays(s, 0);
      assert TypedAs(s, l, gap, gaps);
    }
    if l, gap, gaps :| TypedAs(s, l, gap, gaps) && LineCmd(l) == c {
      LexLaid(s, 0, gap, LineText(l), gaps);
      assert Says(l, LineText(l), c);
      ParsesExactly(LineText(l), c);
      assert Command(ts) == Parse.Ok(c, []);
    }
  }

  lemma NoneLeft(ts: seq<Token<Span>>, f: Span -> string)
    requires SameUpTo(Line(ts), Line(MapTokens(ts, f)), f)
    ensures Command(ts).Ok? == Command(MapTokens(ts, f)).Ok?
    ensures Command(ts).Ok? ==> Command(MapTokens(ts, f)) == Parse.Ok(MapCmd(Command(ts).v, f), [])
  {
    hide Line;
  }
}
