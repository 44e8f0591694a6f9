/**
The shell's reader (sh.c): the tokenizer and the recursive-descent parser on the
characters of a line, and nulterminate, which cuts the line into C strings.  A
line stands for the characters before its terminating NUL, an index for a
pointer into it.
*/
module Shell {
  import opened ShellGrammar

  const NUL := 0 as char
  const WHITESPACE: set<char> := {' ', '\t', '\r', '\n', 11 as char}
  const SYMBOLS: set<char> := {'<', '|', '>', '&', ';', '(', ')'}

  predicate White(c: char) {
    c in WHITESPACE
  }

  /** A character that belongs to a word. */
  predicate InWord(c: char) {
    !White(c) && c !in SYMBOLS
  }

  /** A word of the line: q and eq of gettoken. */
  datatype Span = Span(q: nat, eq: nat)

  function Skip(s: string, i: nat): (j: nat)
    requires i <= |s|
    ensures i <= j <= |s| && (j < |s| ==> !White(s[j])) && forall k :: i <= k < j ==> White(s[k])
    decreases |s| - i
  {
    if i < |s| && White(s[i]) then Skip(s, i + 1) else i
  }

  function WordEnd(s: string, i: nat): (j: nat)
    requires i <= |s|
    ensures i <= j <= |s| && (j < |s| ==> !InWord(s[j])) && forall k :: i <= k < j ==> InWord(s[k])
    decreases |s| - i
  {
    if i < |s| && InWord(s[i]) then WordEnd(s, i + 1) else i
  }

  /** The token at a position that is not white. */
  function TokenAt(s: string, j: nat): (t: Token<Span>)
    requires j < |s| && !White(s[j])
  {
    if s[j] == '>' then Sym(if j + 1 < |s| && s[j + 1] == '>' then '+' else '>')
    else if s[j] in SYMBOLS then Sym(s[j])
    else Word(Span(j, WordEnd(s, j)))
  }

  function TokenEnd(s: string, j: nat): (k: nat)
    requires j < |s| && !White(s[j])
    ensures j < k <= |s|
  {
    if s[j] == '>' then (if j + 1 < |s| && s[j + 1] == '>' then j + 2 else j + 1)
    else if s[j] in SYMBOLS then j + 1
    else WordEnd(s, j)
  }

  /** The tokens of the line from position i on. */
  function Lex(s: string, i: nat): (ts: seq<Token<Span>>)
    requires i <= |s|
    decreases |s| - i
  {
    var j := Skip(s, i);
    if j == |s| then [] else [TokenAt(s, j)] + Lex(s, TokenEnd(s, j))
  }

  lemma {:induction false} LexSkips(s: string, i: nat, j: nat)
    requires i <= j <= |s| && forall k :: i <= k < j ==> White(s[k])
    ensures Lex(s, i) == Lex(s, j)
    decreases j - i
  {
    hide White, TokenAt, TokenEnd;
    if i < j {
      LexSkips(s, i + 1, j);
      assert Skip(s, i) == Skip(s, i + 1);
    }
  }

  // ---- the parser on characters ----

  method SkipWhite(s: string, i: nat) returns (j: nat)
    requires i <= |s|
    ensures j == Skip(s, i) && Lex(s, j) == Lex(s, i)
  {
    j := i;
    while j < |s| && White(s[j])
      invariant i <= j <= |s| && Skip(s, j) == Skip(s, i) && forall k :: i <= k < j ==> White(s[k])
    {
      j := j + 1;
    }
    LexSkips(s, i, j);
  }

  /** The text of a symbol starts with this character. */
  function First(c: char): (r: char) {
    if c == '+' then '>' else c
  }

  /** peek */
  method Peek(s: string, i: nat, toks: set<char>) returns (b: bool, j: nat)
    requires i <= |s| && toks <= SYMBOLS && NUL !in s
    ensures i <= j <= |s| && Lex(s, j) == Lex(s, i) && (Lex(s, i) == [] <==> j == |s|)
    ensures b <==> Lex(s, i) != [] && Lex(s, i)[0].Sym? && First(Lex(s, i)[0].c) in toks
  {
    j := SkipWhite(s, i);
    b := j < |s| && s[j] in toks;
  }

  /** gettoken; ret is the symbol, 'a' for a word, NUL at the end of the line. */
  method GetToken(s: string, i: nat) returns (ret: char, q: nat, eq: nat, j: nat)
    requires i <= |s| && NUL !in s
    ensures i <= j <= |s|
    ensures Lex(s, i) == [] ==> ret == NUL && Lex(s, j) == []
    ensures Lex(s, i) != [] ==>
              && Lex(s, j) == Lex(s, i)[1..]
              && Lex(s, i)[0] == (if ret == 'a' then Word(Span(q, eq)) else Sym(ret))
              && ret != NUL
  {
    var k := SkipWhite(s, i);
    q := k;
    if k == |s| {
      return NUL, q, k, k;
    }
    ghost var start := k;
    ret := s[k];
    if ret in {'|', '(', ')', ';', '&', '<'} {
      k := k + 1;
    } else if ret == '>' {
      k := k + 1;
      if k < |s| && s[k] == '>' {
        ret := '+';
        k := k + 1;
      }
    } else {
      ret := 'a';
      k := ScanWord(s, k);
    }
    eq := k;
    assert k == TokenEnd(s, start);
    j := SkipWhite(s, k);
  }

  method ScanWord(s: string, i: nat) returns (j: nat)
    requires i <= |s|
    ensures j == WordEnd(s, i)
  {
    j := i;
    while j < |s| && InWord(s[j])
      invariant i <= j <= |s| && WordEnd(s, j) == WordEnd(s, i)
    {
      j := j + 1;
    }
  }

  datatype Result<T> = Ok(v: T) | Panic

  /** What a parsing procedure did is what the grammar does with the remaining tokens. */
  ghost predicate Agrees<T>(s: string, r: Result<T>, j: nat, p: Parse<T, Span>) {
    match p
    case Err => r.Panic?
    case Ok(v, rest) => r == Result.Ok(v) && j <= |s| && Lex(s, j) == rest
  }

  /** parseredirs */
  method ParseRedirs(ws: seq<Wrap<Span>>, s: string, i: nat) returns (r: Result<seq<Wrap<Span>>>, j: nat)
    requires i <= |s| && NUL !in s
    ensures Agrees(s, r, j, Redirs(ws, Lex(s, i)))
  {
    hide Lex;
    var ws' := ws;
    j := i;
    while true
      invariant j <= |s| && Redirs(ws', Lex(s, j)) == Redirs(ws, Lex(s, i))
      decreases |Lex(s, j)|
    {
      ghost var ts := Lex(s, j);
      var b, q, eq, tok;
      b, j := Peek(s, j, {'<', '>'});
      if !b {
        return Result.Ok(ws'), j;
      }
      tok, q, eq, j := GetToken(s, j);
      var ret;
      ret, q, eq, j := GetToken(s, j);
      if ret != 'a' {
        return Panic, j;
      }
      assert ts[2..] == ts[1..][1..];
      ws' := ws' + [Wrap(tok != '<', Span(q, eq))];
    }
  }

  /** parseexec's words and redirections. */
  method ParseArgs(s: string, i: nat) returns (r: Result<(seq<Span>, seq<Wrap<Span>>)>, j: nat)
    requires i <= |s| && NUL !in s
    ensures Agrees(s, r, j, Args([], [], Lex(s, i)))
  {
    hide Lex, Redirs;
    var args, ws := [], [];
    j := i;
    while true
      invariant j <= |s| && Args(args, ws, Lex(s, j)) == Args([], [], Lex(s, i))
      decreases |Lex(s, j)|
    {
      var rd, b, q, eq, tok;
      rd, j := ParseRedirs(ws, s, j);
      if rd.Panic? {
        return Panic, j;
      }
      ws := rd.v;
      b, j := Peek(s, j, {'|', ')', '&', ';'});
      if b {
        return Result.Ok((args, ws)), j;
      }
      tok, q, eq, j := GetToken(s, j);
      if tok == NUL {
        return Result.Ok((args, ws)), j;
      }
      if tok != 'a' {
        return Panic, j;
      }
      args := args + [Span(q, eq)];
      if |args| >= MAXARGS {
        return Panic, j;
      }
    }
  }

  /** parseexec */
  method ParseExec(s: string, i: nat) returns (r: Result<Cmd<Span>>, j: nat)
    requires i <= |s| && NUL !in s
    ensures Agrees(s, r, j, Simple(Lex(s, i)))
    decreases |Lex(s, i)|, 0
  {
    hide Lex, Args, Block, Wrapped;
    var b;
    b, j := Peek(s, i, {'('});
    if b {
      r, j := ParseBlock(s, j);
      return;
    }
    var a;
    a, j := ParseArgs(s, j);
    if a.Panic? {
      return Panic, j;
    }
    return Result.Ok(Wrapped(Exec(a.v.0), a.v.1)), j;
  }

  /** parseblock, which its only caller enters at a `(`. */
  method ParseBlock(s: string, i: nat) returns (r: Result<Cmd<Span>>, j: nat)
    requires i <= |s| && NUL !in s && Ahead(Lex(s, i), {'('})
    ensures Agrees(s, r, j, Block(Lex(s, i)[1..]))
    decreases |Lex(s, i)|, -1
  {
    hide Lex, Line, Redirs, Wrapped;
    var b, tok, q, eq, c, ws;
    tok, q, eq, j := GetToken(s, i);
    c, j := ParseLine(s, j);
    if c.Panic? {
      return Panic, j;
    }
    b, j := Peek(s, j, {')'});
    if !b {
      return Panic, j;
    }
    tok, q, eq, j := GetToken(s, j);
    ws, j := ParseRedirs([], s, j);
    if ws.Panic? {
      return Panic, j;
    }
    return Result.Ok(Wrapped(c.v, ws.v)), j;
  }

  /** parsepipe */
  method ParsePipe(s: string, i: nat) returns (r: Result<Cmd<Span>>, j: nat)
    requires i <= |s| && NUL !in s
    ensures Agrees(s, r, j, Pipes(Lex(s, i)))
    decreases |Lex(s, i)|, 1
  {
    hide Lex, Simple;
    var b, tok, q, eq, d;
    r, j := ParseExec(s, i);
    if r.Panic? {
      return;
    }
    b, j := Peek(s, j, {'|'});
    if b {
      tok, q, eq, j := GetToken(s, j);
      d, j := ParsePipe(s, j);
      if d.Panic? {
        return Panic, j;
      }
      r := Result.Ok(Pipe(r.v, d.v));
    }
  }

  /** parseline */
  method ParseLine(s: string, i: nat) returns (r: Result<Cmd<Span>>, j: nat)
    requires i <= |s| && NUL !in s
    ensures Agrees(s, r, j, Line(Lex(s, i)))
    decreases |Lex(s, i)|, 2
  {
    hide Lex, Pipes;
    var b, tok, q, eq, d;
    r, j := ParsePipe(s, i);
    if r.Panic? {
      return;
    }
    ghost var p := Pipes(Lex(s, i));
    b, j := Peek(s, j, {'&'});
    while b
      invariant r.Ok? && j <= |s| && Backs(r.v, Lex(s, j)) == Backs(p.v, p.rest)
      invariant b <==> Ahead(Lex(s, j), {'&'})
      decreases |Lex(s, j)|
    {
      tok, q, eq, j := GetToken(s, j);
      r := Result.Ok(Back(r.v));
      b, j := Peek(s, j, {'&'});
    }
    b, j := Peek(s, j, {';'});
    if b {
      tok, q, eq, j := GetToken(s, j);
      d, j := ParseLine(s, j);
      if d.Panic? {
        return Panic, j;
      }
      r := Result.Ok(List(r.v, d.v));
    }
  }

  /** parsecmd before nulterminate */
  method ParseCmd(s: string) returns (r: Result<Cmd<Span>>)
    requires NUL !in s
    ensures match Command(Lex(s, 0)) case Err => r.Panic? case Ok(c, _) => r == Result.Ok(c)
  {
    hide Line;
    var b, j;
    r, j := ParseLine(s, 0);
    if r.Panic? {
      return;
    }
    b, j := Peek(s, j, {});
    if j != |s| {
      return Panic;
    }
  }

  // ---- print, then read ----

  predicate WordText(w: string) {
    w != "" && forall i :: 0 <= i < |w| ==> InWord(w[i]) && w[i] != NUL
  }

  predicate PlainToken(t: Token<string>) {
    match t
    case Word(w) => WordText(w)
    case Sym(c) => c in SYMBOLS || c == '+'
  }

  function TokenText(t: Token<string>): (r: string) {
    match t
    case Word(w) => w
    case Sym(c) => if c == '+' then ">>" else [c]
  }

  /** Each token followed by a space. */
  function Render(ts: seq<Token<string>>): (r: string) {
    if ts == [] then "" else TokenText(ts[0]) + " " + Render(ts[1..])
  }

  function TextAt(s: string, w: Span): (r: string) {
    if w.q <= w.eq <= |s| then s[w.q..w.eq] else ""
  }

  function Texts(s: string): (f: Span -> string) {
    w => TextAt(s, w)
  }

  lemma {:induction false} WordEndIs(s: string, i: nat, j: nat)
    requires i <= j <= |s| && (j < |s| ==> !InWord(s[j])) && forall k :: i <= k < j ==> InWord(s[k])
    ensures WordEnd(s, i) == j
    decreases j - i
  {
    if i < j { WordEndIs(s, i + 1, j); }
  }

  /** The token standing at i, with a space behind it. */
  lemma OneToken(s: string, i: nat, t: Token<string>)
    requires PlainToken(t) && i + |TokenText(t)| < |s| && s[i..i + |TokenText(t)|] == TokenText(t) && s[i + |TokenText(t)|] == ' '
    ensures !White(s[i]) && MapToken(TokenAt(s, i), Texts(s)) == t && TokenEnd(s, i) == i + |TokenText(t)|
  {
    var n := |TokenText(t)|;
    if t.Word? {
      assert s[i] == t.w[0];
      assert forall k :: i <= k < i + n ==> s[k] == t.w[k - i];
      WordEndIs(s, i, i + n);
    } else {
      assert s[i] == TokenText(t)[0];
      if t.c == '+' { assert s[i + 1] == TokenText(t)[1]; }
    }
  }

  lemma Cut(s: string, i: nat, a: string, rest: string)
    requires i <= |s| && s[i..] == a + " " + rest
    ensures i + |a| < |s| && s[i..i + |a|] == a && s[i + |a|] == ' ' && s[i + |a| + 1..] == rest
  {
    var n := |a|;
    assert s[i..i + n] == s[i..][..n] && s[i + n] == s[i..][n] && s[i + n + 1..] == s[i..][n + 1..];
  }

  lemma LexStep(s: string, i: nat)
    requires i < |s| && !White(s[i])
    ensures Lex(s, i) == [TokenAt(s, i)] + Lex(s, TokenEnd(s, i))
  {
  }

  lemma MapCons<V, W>(t: Token<V>, ts: seq<Token<V>>, f: V -> W)
    ensures MapTokens([t] + ts, f) == [MapToken(t, f)] + MapTokens(ts, f)
  {
  }

  /** The tokenizer gets back the tokens of a rendered line. */
  lemma {:induction false} LexRender(s: string, i: nat, ts: seq<Token<string>>)
    requires i <= |s| && s[i..] == Render(ts) && forall k :: 0 <= k < |ts| ==> PlainToken(ts[k])
    ensures MapTokens(Lex(s, i), Texts(s)) == ts
    decreases |ts|
  {
    hide White, TokenAt, TokenEnd, PlainToken, Texts, MapToken, TokenText, MapTokens;
    if ts == [] {
      assert i == |s|;
      assert MapTokens(Lex(s, i), Texts(s)) == [];
    } else {
      hide Lex;
      var n := |TokenText(ts[0])|;
      Cut(s, i, TokenText(ts[0]), Render(ts[1..]));
      OneToken(s, i, ts[0]);
      LexStep(s, i);
      Spaced(s, i + n);
      LexRender(s, i + n + 1, ts[1..]);
      MapCons(TokenAt(s, i), Lex(s, i + n + 1), Texts(s));
    }
  }

  lemma Spaced(s: string, i: nat)
    requires i < |s| && s[i] == ' '
    ensures Lex(s, i) == Lex(s, i + 1)
  {
    LexSkips(s, i, i + 1);
  }

  /** Every command of well-formed words and fewer than ten arguments is read back from its printed line. */
  lemma ReadBack(c: Cmd<string>)
    requires Good(c, WordText)
    ensures var s := Render(PrintLine(c));
            && NUL !in s
            && Command(Lex(s, 0)).Ok? && MapCmd(Command(Lex(s, 0)).v, Texts(s)) == c
  {
    hide Line, Lex, Render, PrintLine, MapCmd, Texts;
    var ts := PrintLine(c);
    var s := Render(ts);
    LinePrintable(c, WordText);
    RenderClean(ts);
    assert s[0..] == s;
    LexRender(s, 0, ts);
    GoodFits(c, WordText);
    PrintParse(c);
    LineMap(Lex(s, 0), Texts(s));
  }

  lemma {:induction false} RenderClean(ts: seq<Token<string>>)
    requires forall k :: 0 <= k < |ts| ==> PlainToken(ts[k])
    ensures NUL !in Render(ts)
  {
    if ts != [] {
      RenderClean(ts[1..]);
      assert PlainToken(ts[0]);
    }
  }

  // ---- nulterminate ----

  /** A whole word of the line: word characters up to a character that ends words. */
  predicate WordAt(s: string, w: Span) {
    w.q < w.eq <= |s| && (forall k :: w.q <= k < w.eq ==> InWord(s[k])) && (w.eq < |s| ==> !InWord(s[w.eq]))
  }

  function WordsAt(s: string): (f: Span -> bool) {
    w => WordAt(s, w)
  }

  lemma {:induction false} LexGood(s: string, i: nat)
    requires i <= |s|
    ensures GoodTokens(Lex(s, i), WordsAt(s))
    decreases |s| - i
  {
    var j := Skip(s, i);
    if j < |s| {
      LexGood(s, TokenEnd(s, j));
    }
  }

  /** The places nulterminate writes to. */
  function Ends(c: Cmd<Span>): (r: set<nat>) {
    match c
    case Exec(args) => set i | 0 <= i < |args| :: args[i].eq
    case Redir(d, _, f) => Ends(d) + {f.eq}
    case Pipe(l, r) => Ends(l) + Ends(r)
    case List(l, r) => Ends(l) + Ends(r)
    case Back(d) => Ends(d)
  }

  ghost predicate Cleared(b: seq<char>, b': seq<char>, ends: set<nat>) {
    |b'| == |b| && forall k :: 0 <= k < |b| ==> b'[k] == if k in ends then NUL else b[k]
  }

  method NulTerminate(c: Cmd<Span>, buf: array<char>)
    requires forall e :: e in Ends(c) ==> e < buf.Length
    modifies buf
    ensures Cleared(old(buf[..]), buf[..], Ends(c))
    decreases c
  {
    match c
    case Exec(args) =>
      var i := 0;
      while i < |args|
        invariant 0 <= i <= |args|
        invariant Cleared(old(buf[..]), buf[..], set k | 0 <= k < i :: args[k].eq)
      {
        assert args[i].eq in Ends(c);
        buf[args[i].eq] := NUL;
        i := i + 1;
      }
    case Redir(d, _, f) =>
      assert Ends(c) == Ends(d) + {f.eq};
      NulTerminate(d, buf);
      buf[f.eq] := NUL;
    case Pipe(l, r) =>
      assert Ends(c) == Ends(l) + Ends(r);
      NulTerminate(l, buf);
      NulTerminate(r, buf);
    case List(l, r) =>
      assert Ends(c) == Ends(l) + Ends(r);
      NulTerminate(l, buf);
      NulTerminate(r, buf);
    case Back(d) =>
      assert Ends(c) == Ends(d);
      NulTerminate(d, buf);
  }

  /** The C string at w.q is the word that stood there in the line. */
  predicate CutOut(b: seq<char>, s: string, w: Span) {
    w.q < w.eq <= |s| && w.eq < |b| && b[w.q..w.eq] == s[w.q..w.eq] && NUL !in s[w.q..w.eq] && b[w.eq] == NUL
  }

  function CutsOut(b: seq<char>, s: string): (f: Span -> bool) {
    w => CutOut(b, s, w)
  }

  /** Cutting one word never damages another. */
  lemma {:induction false} CutGood(c: Cmd<Span>, s: string, b: seq<char>, ends: set<nat>)
    requires NUL !in s && Good(c, WordsAt(s)) && Ends(c) <= ends && Cleared(s + [NUL], b, ends)
    requires forall e :: e in ends ==> e <= |s| && (e < |s| ==> !InWord(s[e]))
    ensures Good(c, CutsOut(b, s))
  {
    match c
    case Exec(args) =>
      forall i | 0 <= i < |args| ensures CutOut(b, s, args[i]) {
        assert WordsAt(s)(args[i]);
        assert args[i].eq in Ends(c);
        OneCut(args[i], s, b, ends);
      }
    case Redir(d, _, f) =>
      CutGood(d, s, b, ends);
      assert WordsAt(s)(f);
      OneCut(f, s, b, ends);
    case Pipe(l, r) => CutGood(l, s, b, ends); CutGood(r, s, b, ends);
    case List(l, r) => CutGood(l, s, b, ends); CutGood(r, s, b, ends);
    case Back(d) => CutGood(d, s, b, ends);
  }

  lemma OneCut(w: Span, s: string, b: seq<char>, ends: set<nat>)
    requires NUL !in s && WordAt(s, w) && w.eq in ends && Cleared(s + [NUL], b, ends)
    requires forall e :: e in ends ==> e <= |s| && (e < |s| ==> !InWord(s[e]))
    ensures CutOut(b, s, w)
  {
    forall k | w.q <= k < w.eq ensures b[k] == s[k] {
      assert InWord(s[k]);
    }
  }

  lemma {:induction false} EndsGood(c: Cmd<Span>, s: string)
    requires Good(c, WordsAt(s))
    ensures forall e :: e in Ends(c) ==> e <= |s| && (e < |s| ==> !InWord(s[e]))
  {
    match c
    case Exec(args) =>
      forall i | 0 <= i < |args| ensures WordAt(s, args[i]) {
        assert WordsAt(s)(args[i]);
      }
    case Redir(d, _, f) =>
      EndsGood(d, s);
      assert WordsAt(s)(f);
    case Pipe(l, r) => EndsGood(l, s); EndsGood(r, s);
    case List(l, r) => EndsGood(l, s); EndsGood(r, s);
    case Back(d) => EndsGood(d, s);
  }

  /** parsecmd on the line of length n: on success every word of the command has become a C string of its own. */
  method Parsecmd(line: array<char>, n: nat) returns (r: Result<Cmd<Span>>)
    requires n < line.Length && line[n] == NUL && NUL !in line[..n]
    modifies line
    ensures match Command(Lex(old(line[..n]), 0))
            case Err => r.Panic? && line[..] == old(line[..])
            case Ok(c, _) => r == Result.Ok(c) && Good(c, CutsOut(line[..n + 1], old(line[..n]))) && line[n + 1..] == old(line[n + 1..])
  {
    hide Lex, Command, Ends;
    ghost var s, all := line[..n], line[..];
    var text := line[..n];
    r := ParseCmd(text);
    if r.Ok? {
      CommandGood(s);
      EndsGood(r.v, s);
      NulTerminate(r.v, line);
      assert line[..n + 1] == line[..][..n + 1] && all[..n + 1] == s + [NUL];
      CutGood(r.v, s, line[..n + 1], Ends(r.v));
    }
  }

  lemma CommandGood(s: string)
    ensures Command(Lex(s, 0)).Ok? ==> Good(Command(Lex(s, 0)).v, WordsAt(s))
  {
    hide Lex, Line;
    LexGood(s, 0);
    if Line(Lex(s, 0)).Ok? {
      LineGood(Lex(s, 0), WordsAt(s));
    }
  }
}
