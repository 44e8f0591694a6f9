/**
The shell's grammar (sh.c) on token sequences: the recursive-descent parser, a
printer, and the proof that they are inverse.  Words are of any type W: texts,
or places in the input line.
*/
module ShellGrammar {
  const MAXARGS: nat := 10

  /** out: `>` and `>>`, which the parser treats alike (O_WRONLY|O_CREATE on fd 1); else `<` (O_RDONLY on fd 0). */
  datatype Cmd<W> =
    | Exec(args: seq<W>)
    | Redir(cmd: Cmd<W>, out: bool, file: W)
    | Pipe(left: Cmd<W>, right: Cmd<W>)
    | List(left: Cmd<W>, right: Cmd<W>)
    | Back(cmd: Cmd<W>)

  /** Sym('+') stands for `>>`. */
  datatype Token<W> = Word(w: W) | Sym(c: char)

  datatype Parse<T, W> = Ok(v: T, rest: seq<Token<W>>) | Err

  /** One redirection, to be put around a command. */
  datatype Wrap<W> = Wrap(out: bool, file: W)

  predicate Ahead<W>(ts: seq<Token<W>>, cs: set<char>) {
    |ts| > 0 && ts[0].Sym? && ts[0].c in cs
  }

  function Wrapped<W>(c: Cmd<W>, ws: seq<Wrap<W>>): (r: Cmd<W>) {
    if ws == [] then c else Redir(Wrapped(c, ws[..|ws| - 1]), ws[|ws| - 1].out, ws[|ws| - 1].file)
  }

  // ---- the parser ----

  function Redirs<W>(ws: seq<Wrap<W>>, ts: seq<Token<W>>): (r: Parse<seq<Wrap<W>>, W>)
    ensures r.Ok? ==> |r.rest| <= |ts|
    decreases |ts|
  {
    if !Ahead(ts, {'<', '>', '+'}) then Ok(ws, ts)
    else if |ts| > 1 && ts[1].Word? then Redirs(ws + [Wrap(ts[0].c != '<', ts[1].w)], ts[2..])
    else Err
  }

  /** parseexec after its first test: redirections and words in any order. */
  function Args<W>(args: seq<W>, ws: seq<Wrap<W>>, ts: seq<Token<W>>): (r: Parse<(seq<W>, seq<Wrap<W>>), W>)
    ensures r.Ok? ==> |r.rest| <= |ts|
    decreases |ts|
  {
    match Redirs(ws, ts)
    case Err => Err
    case Ok(ws', r) =>
      if r == [] || Ahead(r, {'|', ')', '&', ';'}) then Ok((args, ws'), r)
      else if !r[0].Word? || |args| + 1 >= MAXARGS then Err
      else Args(args + [r[0].w], ws', r[1..])
  }

  /** What follows the `(` of a block. */
  function Block<W>(ts: seq<Token<W>>): (r: Parse<Cmd<W>, W>)
    ensures r.Ok? ==> |r.rest| <= |ts|
    decreases |ts|, 3
  {
    match Line(ts)
    case Err => Err
    case Ok(c, r) =>
      if !Ahead(r, {')'}) then Err
      else match Redirs([], r[1..])
        case Err => Err
        case Ok(ws, r') => Ok(Wrapped(c, ws), r')
  }

  function Simple<W>(ts: seq<Token<W>>): (r: Parse<Cmd<W>, W>)
    ensures r.Ok? ==> |r.rest| <= |ts|
    decreases |ts|, 0
  {
    if Ahead(ts, {'('}) then Block(ts[1..])
    else match Args([], [], ts)
      case Err => Err
      case Ok(p, r) => Ok(Wrapped(Exec(p.0), p.1), r)
  }

  function Pipes<W>(ts: seq<Token<W>>): (r: Parse<Cmd<W>, W>)
    ensures r.Ok? ==> |r.rest| <= |ts|
    decreases |ts|, 1
  {
    match Simple(ts)
    case Err => Err
    case Ok(c, r) =>
      if !Ahead(r, {'|'}) then Ok(c, r)
      else match Pipes(r[1..])
        case Err => Err
        case Ok(d, r') => Ok(Pipe(c, d), r')
  }

  function Backs<W>(c: Cmd<W>, ts: seq<Token<W>>): (r: (Cmd<W>, seq<Token<W>>))
    ensures |r.1| <= |ts|
    decreases |ts|
  {
    if Ahead(ts, {'&'}) then Backs(Back(c), ts[1..]) else (c, ts)
  }

  function Line<W>(ts: seq<Token<W>>): (r: Parse<Cmd<W>, W>)
    ensures r.Ok? ==> |r.rest| <= |ts|
    decreases |ts|, 2
  {
    match Pipes(ts)
    case Err => Err
    case Ok(c, r) =>
      var b := Backs(c, r);
      if !Ahead(b.1, {';'}) then Ok(b.0, b.1)
      else match Line(b.1[1..])
        case Err => Err
        case Ok(d, r') => Ok(List(b.0, d), r')
  }

  /** parsecmd: anything left over is an error. */
  function Command<W>(ts: seq<Token<W>>): (r: Parse<Cmd<W>, W>)
    ensures r.Ok? ==> r.rest == []
  {
    match Line(ts)
    case Err => Err
    case Ok(c, r) => if r == [] then Ok(c, []) else Err
  }

  // ---- the printer ----

  function Words<W>(args: seq<W>): (r: seq<Token<W>>)
    ensures |r| == |args|
  {
    if args == [] then [] else [Word(args[0])] + Words(args[1..])
  }

  function RedirTokens<W>(ws: seq<Wrap<W>>): (r: seq<Token<W>>) {
    if ws == [] then [] else [Sym(if ws[0].out then '>' else '<'), Word(ws[0].file)] + RedirTokens(ws[1..])
  }

  function Base<W>(c: Cmd<W>): (r: Cmd<W>)
    ensures !r.Redir? && (c.Redir? || r == c)
  {
    if c.Redir? then Base(c.cmd) else c
  }

  function Wraps<W>(c: Cmd<W>): (r: seq<Wrap<W>>)
    ensures Wrapped(Base(c), r) == c
  {
    if c.Redir? then
      var r := Wraps(c.cmd) + [Wrap(c.out, c.file)];
      assert r[..|r| - 1] == Wraps(c.cmd);
      r
    else []
  }

  function Rank<W>(c: Cmd<W>): (n: nat) {
    match c
    case Exec(_) => 1
    case Redir(d, _, _) => 1 + Rank(d)
    case Pipe(l, r) => 1 + Rank(l) + Rank(r)
    case List(l, r) => 1 + Rank(l) + Rank(r)
    case Back(d) => 1 + Rank(d)
  }

  lemma {:induction false} BaseRank<W>(c: Cmd<W>)
    ensures Rank(Base(c)) <= Rank(c) && (c.Redir? ==> Rank(Base(c)) < Rank(c))
  {
    if c.Redir? { BaseRank(c.cmd); }
  }

  function Core<W>(c: Cmd<W>): (r: Cmd<W>)
    ensures !r.Back? && Rank(r) <= Rank(c) && (c.Back? ==> Rank(r) < Rank(c))
  {
    if c.Back? then Core(c.cmd) else c
  }

  function Depth<W>(c: Cmd<W>): (n: nat) {
    if c.Back? then 1 + Depth(c.cmd) else 0
  }

  function Amps<W>(n: nat): (r: seq<Token<W>>)
    ensures |r| == n
  {
    if n == 0 then [] else [Sym('&')] + Amps(n - 1)
  }

  /** A command at the level of a simple command, in parentheses where it is not one. */
  function PrintSimple<W>(c: Cmd<W>): (r: seq<Token<W>>)
    decreases Rank(c), 2
  {
    BaseRank(c);
    var b := Base(c);
    if b.Exec? then Words(b.args) + RedirTokens(Wraps(c))
    else [Sym('(')] + PrintInner(b) + [Sym(')')] + RedirTokens(Wraps(c))
  }

  /** PrintLine for a command that is no redirection and no simple command. */
  function PrintInner<W>(c: Cmd<W>): (r: seq<Token<W>>)
    requires c.Pipe? || c.List? || c.Back?
    decreases Rank(c), 1
  {
    match c
    case Pipe(l, r) => PrintSimple(l) + [Sym('|')] + PrintPipe(r)
    case List(l, r) => PrintBack(l) + [Sym(';')] + PrintLine(r)
    case Back(_) => PrintPipe(Core(c)) + Amps(Depth(c))
  }

  function PrintPipe<W>(c: Cmd<W>): (r: seq<Token<W>>)
    decreases Rank(c), 3
  {
    if c.Pipe? then PrintInner(c) else PrintSimple(c)
  }

  function PrintBack<W>(c: Cmd<W>): (r: seq<Token<W>>)
    decreases Rank(c), 4
  {
    if c.Back? then PrintInner(c) else PrintPipe(c)
  }

  function PrintLine<W>(c: Cmd<W>): (r: seq<Token<W>>)
    decreases Rank(c), 5
  {
    if c.List? then PrintInner(c) else PrintBack(c)
  }

  // ---- round trip ----

  /** The only commands no line can produce: ten or more arguments. */
  predicate Fits<W>(c: Cmd<W>) {
    match c
    case Exec(args) => |args| < MAXARGS
    case Redir(d, _, _) => Fits(d)
    case Pipe(l, r) => Fits(l) && Fits(r)
    case List(l, r) => Fits(l) && Fits(r)
    case Back(d) => Fits(d)
  }

  predicate Follows<W>(ts: seq<Token<W>>, cs: set<char>) {
    ts == [] || Ahead(ts, cs)
  }

  lemma {:induction false} RedirsRound<W>(before: seq<Wrap<W>>, ws: seq<Wrap<W>>, rest: seq<Token<W>>)
    requires !Ahead(rest, {'<', '>', '+'})
    ensures Redirs(before, RedirTokens(ws) + rest) == Ok(before + ws, rest)
    decreases |ws|
  {
    var ts := RedirTokens(ws) + rest;
    if ws == [] {
      assert ts == rest && before + ws == before;
    } else {
      assert ts[2..] == RedirTokens(ws[1..]) + rest;
      RedirsRound(before + [ws[0]], ws[1..], rest);
      assert before + [ws[0]] + ws[1..] == before + ws;
      assert Wrap(ws[0].out, ws[0].file) == ws[0];
    }
  }

  lemma {:induction false} ArgsRound<W>(before: seq<W>, args: seq<W>, ws: seq<Wrap<W>>, rest: seq<Token<W>>)
    requires |before| + |args| < MAXARGS && Follows(rest, {'|', ')', '&', ';'})
    ensures Args(before, [], Words(args) + RedirTokens(ws) + rest) == Ok((before + args, ws), rest)
    decreases |args|
  {
    var ts := Words(args) + RedirTokens(ws) + rest;
    if args == [] {
      assert ts == RedirTokens(ws) + rest && before + args == before;
      RedirsRound([], ws, rest);
      assert [] + ws == ws;
    } else {
      assert ts[0] == Word(args[0]) && ts[1..] == Words(args[1..]) + RedirTokens(ws) + rest;
      ArgsRound(before + [args[0]], args[1..], ws, rest);
      assert before + [args[0]] + args[1..] == before + args;
    }
  }

  lemma {:induction false} AmpsBack<W>(c: Cmd<W>, d: Cmd<W>, rest: seq<Token<W>>)
    requires Core(d) == c && !Ahead(rest, {'&'})
    ensures Backs(c, Amps(Depth(d)) + rest) == (d, rest)
  {
    AmpsBackFrom(c, Depth(d), rest);
    Nested(d);
  }

  function Nest<W>(c: Cmd<W>, n: nat): (r: Cmd<W>)
    decreases n
  {
    if n == 0 then c else Nest(Back(c), n - 1)
  }

  lemma {:induction false} NestOuter<W>(c: Cmd<W>, n: nat)
    ensures Nest(c, n + 1) == Back(Nest(c, n))
    decreases n
  {
    if n > 0 { NestOuter(Back(c), n - 1); }
  }

  lemma {:induction false} Nested<W>(d: Cmd<W>)
    ensures Nest(Core(d), Depth(d)) == d
  {
    if d.Back? {
      Nested(d.cmd);
      NestOuter(Core(d), Depth(d.cmd));
    }
  }

  lemma {:induction false} AmpsBackFrom<W>(c: Cmd<W>, n: nat, rest: seq<Token<W>>)
    requires !Ahead(rest, {'&'})
    ensures Backs(c, Amps(n) + rest) == (Nest(c, n), rest)
    decreases n
  {
    var ts := Amps(n) + rest;
    if n == 0 {
      assert ts == rest;
    } else {
      assert ts[1..] == Amps(n - 1) + rest;
      AmpsBackFrom(Back(c), n - 1, rest);
    }
  }

  lemma {:induction false} BaseFits<W>(c: Cmd<W>)
    requires Fits(c)
    ensures Fits(Base(c))
  {
    if c.Redir? { BaseFits(c.cmd); }
  }

  lemma {:induction false} CoreFits<W>(c: Cmd<W>)
    requires Fits(c)
    ensures Fits(Core(c))
  {
    if c.Back? { CoreFits(c.cmd); }
  }

  lemma WordsHead<W>(args: seq<W>, ws: seq<Wrap<W>>, rest: seq<Token<W>>)
    requires Follows(rest, {'|', ')', '&', ';'})
    ensures !Ahead(Words(args) + RedirTokens(ws) + rest, {'('})
  {
    if args == [] && ws == [] {
      assert Words(args) + RedirTokens(ws) + rest == rest;
    }
  }

  lemma ExecRound<W>(args: seq<W>, ws: seq<Wrap<W>>, rest: seq<Token<W>>)
    requires |args| < MAXARGS && Follows(rest, {'|', ')', '&', ';'})
    ensures Simple(Words(args) + RedirTokens(ws) + rest) == Ok(Wrapped(Exec(args), ws), rest)
  {
    hide Args, Words, RedirTokens, Ahead;
    ArgsRound([], args, ws, rest);
    WordsHead(args, ws, rest);
    assert [] + args == args;
  }

  lemma BlockRound<W>(inner: seq<Token<W>>, b: Cmd<W>, ws: seq<Wrap<W>>, rest: seq<Token<W>>)
    requires Line(inner + ([Sym(')')] + RedirTokens(ws) + rest)) == Ok(b, [Sym(')')] + RedirTokens(ws) + rest)
    requires Follows(rest, {'|', ')', '&', ';'})
    ensures Simple([Sym('(')] + inner + [Sym(')')] + RedirTokens(ws) + rest) == Ok(Wrapped(b, ws), rest)
  {
    hide Line, RedirTokens, Wrapped, Redirs;
    var tail := [Sym(')')] + RedirTokens(ws) + rest;
    var ts := [Sym('(')] + inner + [Sym(')')] + RedirTokens(ws) + rest;
    assert ts[1..] == inner + tail;
    assert tail[1..] == RedirTokens(ws) + rest;
    RedirsRound([], ws, rest);
    assert [] + ws == ws;
  }

  lemma {:induction false} SimpleRound<W>(c: Cmd<W>, rest: seq<Token<W>>)
    requires Fits(c) && Follows(rest, {'|', ')', '&', ';'})
    ensures Simple(PrintSimple(c) + rest) == Ok(c, rest)
    decreases Rank(c), 2
  {
    hide Simple, Line, Words, Wrapped, RedirTokens;
    BaseRank(c);
    BaseFits(c);
    var b, ws := Base(c), Wraps(c);
    if b.Exec? {
      ExecRound(b.args, ws, rest);
    } else {
      InnerRound(b, [Sym(')')] + RedirTokens(ws) + rest);
      BlockRound(PrintInner(b), b, ws, rest);
    }
  }

  lemma {:induction false} PipeRound<W>(c: Cmd<W>, rest: seq<Token<W>>)
    requires Fits(c) && Follows(rest, {')', '&', ';'})
    ensures Pipes(PrintPipe(c) + rest) == Ok(c, rest)
    decreases Rank(c), 3
  {
    hide Simple, PrintSimple;
    if c.Pipe? {
      var tail := [Sym('|')] + PrintPipe(c.right) + rest;
      SimpleRound(c.left, tail);
      PipeRound(c.right, rest);
      assert PrintPipe(c) + rest == PrintSimple(c.left) + tail;
      assert tail[1..] == PrintPipe(c.right) + rest;
    } else {
      SimpleRound(c, rest);
    }
  }

  /** A line, or the part of one before `;`: what Line does up to its last test. */
  lemma {:induction false} BackRound<W>(c: Cmd<W>, rest: seq<Token<W>>)
    requires Fits(c) && Follows(rest, {')', ';'})
    ensures var p := Pipes(PrintBack(c) + rest); p.Ok? && Backs(p.v, p.rest) == (c, rest)
    decreases Rank(c), 4
  {
    hide Pipes, PrintPipe;
    CoreFits(c);
    if c.Back? {
      PipeRound(Core(c), Amps(Depth(c)) + rest);
      assert PrintBack(c) + rest == PrintPipe(Core(c)) + (Amps(Depth(c)) + rest);
      AmpsBack(Core(c), c, rest);
    } else {
      PipeRound(c, rest);
    }
  }

  lemma {:induction false} LineRound<W>(c: Cmd<W>, rest: seq<Token<W>>)
    requires Fits(c) && Follows(rest, {')'})
    ensures Line(PrintLine(c) + rest) == Ok(c, rest)
    decreases Rank(c), 5
  {
    if c.List? {
      InnerRound(c, rest);
    } else {
      BackRound(c, rest);
    }
  }

  lemma {:induction false} InnerRound<W>(c: Cmd<W>, rest: seq<Token<W>>)
    requires Fits(c) && Follows(rest, {')'}) && (c.Pipe? || c.List? || c.Back?)
    ensures Line(PrintInner(c) + rest) == Ok(c, rest)
    decreases Rank(c), 1
  {
    hide Pipes, Backs;
    match c
    case Pipe(l, r) =>
      InnerPipe(l, r, rest);
    case List(l, r) =>
      var tail := [Sym(';')] + PrintLine(r) + rest;
      BackRound(l, tail);
      LineRound(r, rest);
      assert PrintInner(c) + rest == PrintBack(l) + tail;
      assert tail[1..] == PrintLine(r) + rest;
    case Back(_) =>
      CoreFits(c);
      PipeRound(Core(c), Amps(Depth(c)) + rest);
      assert PrintInner(c) + rest == PrintPipe(Core(c)) + (Amps(Depth(c)) + rest);
      AmpsBack(Core(c), c, rest);
  }

  lemma {:induction false} InnerPipe<W>(l: Cmd<W>, r: Cmd<W>, rest: seq<Token<W>>)
    requires Fits(l) && Fits(r) && Follows(rest, {')'})
    ensures Line(PrintInner(Pipe(l, r)) + rest) == Ok(Pipe(l, r), rest)
    decreases Rank(l) + Rank(r) + 1, 0
  {
    hide Simple, PrintSimple;
    var tail := [Sym('|')] + PrintPipe(r) + rest;
    SimpleRound(l, tail);
    PipeRound(r, rest);
    assert PrintInner(Pipe(l, r)) + rest == PrintSimple(l) + tail;
    assert tail[1..] == PrintPipe(r) + rest;
  }

  /** Every command that fits is parsed back from its printed form. */
  lemma PrintParse<W>(c: Cmd<W>)
    requires Fits(c)
    ensures Command(PrintLine(c)) == Ok(c, [])
  {
    LineRound(c, []);
    assert PrintLine(c) + [] == PrintLine(c);
  }

  // ---- what comes out of the parser ----

  /** Every word of the command satisfies p, and no Exec has too many arguments. */
  predicate Good<W>(c: Cmd<W>, p: W -> bool) {
    match c
    case Exec(args) => |args| < MAXARGS && forall i :: 0 <= i < |args| ==> p(args[i])
    case Redir(d, _, f) => Good(d, p) && p(f)
    case Pipe(l, r) => Good(l, p) && Good(r, p)
    case List(l, r) => Good(l, p) && Good(r, p)
    case Back(d) => Good(d, p)
  }

  predicate GoodTokens<W>(ts: seq<Token<W>>, p: W -> bool) {
    forall i :: 0 <= i < |ts| && ts[i].Word? ==> p(ts[i].w)
  }

  predicate GoodWraps<W>(ws: seq<Wrap<W>>, p: W -> bool) {
    forall i :: 0 <= i < |ws| ==> p(ws[i].file)
  }

  lemma {:induction false} WrappedGood<W>(c: Cmd<W>, ws: seq<Wrap<W>>, p: W -> bool)
    requires Good(c, p) && GoodWraps(ws, p)
    ensures Good(Wrapped(c, ws), p)
    decreases |ws|
  {
    if ws != [] { WrappedGood(c, ws[..|ws| - 1], p); }
  }

  lemma {:induction false} RedirsGood<W>(ws: seq<Wrap<W>>, ts: seq<Token<W>>, p: W -> bool)
    requires GoodTokens(ts, p) && GoodWraps(ws, p) && Redirs(ws, ts).Ok?
    ensures GoodWraps(Redirs(ws, ts).v, p) && GoodTokens(Redirs(ws, ts).rest, p)
    decreases |ts|
  {
    if Ahead(ts, {'<', '>', '+'}) {
      RedirsGood(ws + [Wrap(ts[0].c != '<', ts[1].w)], ts[2..], p);
    }
  }

  lemma {:induction false} ArgsGood<W>(args: seq<W>, ws: seq<Wrap<W>>, ts: seq<Token<W>>, p: W -> bool)
    requires GoodTokens(ts, p) && GoodWraps(ws, p) && Good(Exec(args), p) && Args(args, ws, ts).Ok?
    ensures Good(Exec(Args(args, ws, ts).v.0), p) && GoodWraps(Args(args, ws, ts).v.1, p) && GoodTokens(Args(args, ws, ts).rest, p)
    decreases |ts|
  {
    RedirsGood(ws, ts, p);
    var r := Redirs(ws, ts).rest;
    if !(r == [] || Ahead(r, {'|', ')', '&', ';'})) {
      ArgsGood(args + [r[0].w], Redirs(ws, ts).v, r[1..], p);
    }
  }

  lemma {:induction false} SimpleGood<W>(ts: seq<Token<W>>, p: W -> bool)
    requires GoodTokens(ts, p) && Simple(ts).Ok?
    ensures Good(Simple(ts).v, p) && GoodTokens(Simple(ts).rest, p)
    decreases |ts|, 0
  {
    hide Line, Args;
    if Ahead(ts, {'('}) {
      LineGood(ts[1..], p);
      var r := Line(ts[1..]);
      RedirsGood([], r.rest[1..], p);
      WrappedGood(r.v, Redirs([], r.rest[1..]).v, p);
    } else {
      ArgsGood([], [], ts, p);
      var a := Args([], [], ts).v;
      WrappedGood(Exec(a.0), a.1, p);
    }
  }

  lemma {:induction false} PipesGood<W>(ts: seq<Token<W>>, p: W -> bool)
    requires GoodTokens(ts, p) && Pipes(ts).Ok?
    ensures Good(Pipes(ts).v, p) && GoodTokens(Pipes(ts).rest, p)
    decreases |ts|, 1
  {
    hide Simple;
    SimpleGood(ts, p);
    var r := Simple(ts).rest;
    if Ahead(r, {'|'}) { PipesGood(r[1..], p); }
  }

  lemma {:induction false} BacksGood<W>(c: Cmd<W>, ts: seq<Token<W>>, p: W -> bool)
    requires GoodTokens(ts, p) && Good(c, p)
    ensures Good(Backs(c, ts).0, p) && GoodTokens(Backs(c, ts).1, p)
    decreases |ts|
  {
    if Ahead(ts, {'&'}) { BacksGood(Back(c), ts[1..], p); }
  }

  /** The parser only puts together words it was given, and refuses a tenth argument. */
  lemma {:induction false} LineGood<W>(ts: seq<Token<W>>, p: W -> bool)
    requires GoodTokens(ts, p) && Line(ts).Ok?
    ensures Good(Line(ts).v, p) && GoodTokens(Line(ts).rest, p)
    decreases |ts|, 2
  {
    hide Pipes;
    PipesGood(ts, p);
    BacksGood(Pipes(ts).v, Pipes(ts).rest, p);
    var b := Backs(Pipes(ts).v, Pipes(ts).rest);
    if Ahead(b.1, {';'}) { LineGood(b.1[1..], p); }
  }

  lemma {:induction false} GoodFits<W>(c: Cmd<W>, p: W -> bool)
    requires Good(c, p)
    ensures Fits(c)
  {
    match c
    case Exec(_) =>
    case Redir(d, _, _) => GoodFits(d, p);
    case Pipe(l, r) => GoodFits(l, p); GoodFits(r, p);
    case List(l, r) => GoodFits(l, p); GoodFits(r, p);
    case Back(d) => GoodFits(d, p);
  }

  /** The commands some line parses to are exactly those with fewer than MAXARGS arguments everywhere. */
  lemma ParserRange<W(!new)>(c: Cmd<W>)
    ensures Fits(c) <==> exists ts :: Command(ts) == Ok(c, [])
  {
    if Fits(c) { PrintParse(c); }
    if ts :| Command(ts) == Ok(c, []) {
      LineGood(ts, _ => true);
      GoodFits(c, _ => true);
    }
  }

  // ---- the parser does not look into words ----

  function MapCmd<V, W>(c: Cmd<V>, f: V -> W): (r: Cmd<W>) {
    match c
    case Exec(args) => Exec(MapWords(args, f))
    case Redir(d, o, w) => Redir(MapCmd(d, f), o, f(w))
    case Pipe(l, r) => Pipe(MapCmd(l, f), MapCmd(r, f))
    case List(l, r) => List(MapCmd(l, f), MapCmd(r, f))
    case Back(d) => Back(MapCmd(d, f))
  }

  function MapWords<V, W>(args: seq<V>, f: V -> W): (r: seq<W>) {
    seq(|args|, i requires 0 <= i < |args| => f(args[i]))
  }

  function MapToken<V, W>(t: Token<V>, f: V -> W): (r: Token<W>) {
    if t.Word? then Word(f(t.w)) else Sym(t.c)
  }

  function MapTokens<V, W>(ts: seq<Token<V>>, f: V -> W): (r: seq<Token<W>>)
    ensures |r| == |ts|
  {
    seq(|ts|, i requires 0 <= i < |ts| => MapToken(ts[i], f))
  }

  function MapWraps<V, W>(ws: seq<Wrap<V>>, f: V -> W): (r: seq<Wrap<W>>)
    ensures |r| == |ws|
  {
    seq(|ws|, i requires 0 <= i < |ws| => Wrap(ws[i].out, f(ws[i].file)))
  }

  lemma DropMap<V, W>(ts: seq<Token<V>>, f: V -> W, n: nat)
    requires n <= |ts|
    ensures MapTokens(ts, f)[n..] == MapTokens(ts[n..], f)
  {
  }

  lemma AheadMap<V, W>(ts: seq<Token<V>>, f: V -> W, cs: set<char>)
    ensures Ahead(MapTokens(ts, f), cs) == Ahead(ts, cs)
  {
  }

  lemma {:induction false} WrappedMap<V, W>(c: Cmd<V>, ws: seq<Wrap<V>>, f: V -> W)
    ensures MapCmd(Wrapped(c, ws), f) == Wrapped(MapCmd(c, f), MapWraps(ws, f))
    decreases |ws|
  {
    if ws != [] {
      WrappedMap(c, ws[..|ws| - 1], f);
      assert MapWraps(ws, f)[..|ws| - 1] == MapWraps(ws[..|ws| - 1], f);
    }
  }

  lemma {:induction false} RedirsMap<V, W>(ws: seq<Wrap<V>>, ts: seq<Token<V>>, f: V -> W)
    ensures var r, r' := Redirs(ws, ts), Redirs(MapWraps(ws, f), MapTokens(ts, f));
            r.Ok? == r'.Ok? && (r.Ok? ==> r'.v == MapWraps(r.v, f) && r'.rest == MapTokens(r.rest, f))
    decreases |ts|
  {
    AheadMap(ts, f, {'<', '>', '+'});
    if Ahead(ts, {'<', '>', '+'}) && |ts| > 1 && ts[1].Word? {
      var w := Wrap(ts[0].c != '<', ts[1].w);
      RedirsMap(ws + [w], ts[2..], f);
      DropMap(ts, f, 2);
      assert MapWraps(ws + [w], f) == MapWraps(ws, f) + [Wrap(w.out, f(w.file))];
    }
  }

  lemma {:induction false} ArgsMap<V, W>(args: seq<V>, ws: seq<Wrap<V>>, ts: seq<Token<V>>, f: V -> W)
    ensures var r, r' := Args(args, ws, ts), Args(MapWords(args, f), MapWraps(ws, f), MapTokens(ts, f));
            r.Ok? == r'.Ok? && (r.Ok? ==> r'.v == (MapWords(r.v.0, f), MapWraps(r.v.1, f)) && r'.rest == MapTokens(r.rest, f))
    decreases |ts|
  {
    hide Redirs;
    RedirsMap(ws, ts, f);
    if Redirs(ws, ts).Ok? {
      var r := Redirs(ws, ts).rest;
      AheadMap(r, f, {'|', ')', '&', ';'});
      if !(r == [] || Ahead(r, {'|', ')', '&', ';'})) && r[0].Word? && |args| + 1 < MAXARGS {
        ArgsMap(args + [r[0].w], Redirs(ws, ts).v, r[1..], f);
        DropMap(r, f, 1);
        assert MapWords(args + [r[0].w], f) == MapWords(args, f) + [f(r[0].w)];
      }
    }
  }

  ghost predicate SameUpTo<V, W>(r: Parse<Cmd<V>, V>, r': Parse<Cmd<W>, W>, f: V -> W) {
    r.Ok? == r'.Ok? && (r.Ok? ==> r'.v == MapCmd(r.v, f) && r'.rest == MapTokens(r.rest, f))
  }

  lemma {:induction false} BlockMap<V, W>(ts: seq<Token<V>>, f: V -> W)
    requires SameUpTo(Line(ts), Line(MapTokens(ts, f)), f)
    ensures SameUpTo(Block(ts), Block(MapTokens(ts, f)), f)
  {
    hide Line, Redirs;
    var l := Line(ts);
    if l.Ok? {
      AheadMap(l.rest, f, {')'});
      if Ahead(l.rest, {')'}) {
        DropMap(l.rest, f, 1);
        RedirsMap([], l.rest[1..], f);
        assert MapWraps<V, W>([], f) == [];
        if Redirs([], l.rest[1..]).Ok? { WrappedMap(l.v, Redirs([], l.rest[1..]).v, f); }
      }
    }
  }

  lemma {:induction false} SimpleMap<V, W>(ts: seq<Token<V>>, f: V -> W)
    ensures SameUpTo(Simple(ts), Simple(MapTokens(ts, f)), f)
    decreases |ts|, 0
  {
    hide Block, Args, Wrapped;
    AheadMap(ts, f, {'('});
    if Ahead(ts, {'('}) {
      DropMap(ts, f, 1);
      LineMap(ts[1..], f);
      BlockMap(ts[1..], f);
    } else {
      ArgsMap([], [], ts, f);
      assert MapWraps<V, W>([], f) == [] && MapWords<V, W>([], f) == [];
      var a := Args([], [], ts);
      if a.Ok? { WrappedMap(Exec(a.v.0), a.v.1, f); }
    }
  }

  lemma {:induction false} PipesMap<V, W>(ts: seq<Token<V>>, f: V -> W)
    ensures SameUpTo(Pipes(ts), Pipes(MapTokens(ts, f)), f)
    decreases |ts|, 1
  {
    hide Simple;
    SimpleMap(ts, f);
    var r := Simple(ts);
    if r.Ok? {
      AheadMap(r.rest, f, {'|'});
      if Ahead(r.rest, {'|'}) {
        DropMap(r.rest, f, 1);
        PipesMap(r.rest[1..], f);
      }
    }
  }

  lemma {:induction false} BacksMap<V, W>(c: Cmd<V>, ts: seq<Token<V>>, f: V -> W)
    ensures Backs(MapCmd(c, f), MapTokens(ts, f)) == (MapCmd(Backs(c, ts).0, f), MapTokens(Backs(c, ts).1, f))
    decreases |ts|
  {
    AheadMap(ts, f, {'&'});
    if Ahead(ts, {'&'}) {
      DropMap(ts, f, 1);
      BacksMap(Back(c), ts[1..], f);
    }
  }

  lemma {:induction false} LineMap<V, W>(ts: seq<Token<V>>, f: V -> W)
    ensures SameUpTo(Line(ts), Line(MapTokens(ts, f)), f)
    decreases |ts|, 2
  {
    hide Pipes;
    PipesMap(ts, f);
    var r := Pipes(ts);
    if r.Ok? {
      BacksMap(r.v, r.rest, f);
      var b := Backs(r.v, r.rest);
      AheadMap(b.1, f, {';'});
      if Ahead(b.1, {';'}) {
        DropMap(b.1, f, 1);
        LineMap(b.1[1..], f);
      }
    }
  }

  // ---- what the printer uses ----

  predicate Printable<W>(ts: seq<Token<W>>, p: W -> bool) {
    forall i :: 0 <= i < |ts| ==> if ts[i].Word? then p(ts[i].w) else ts[i].c in {'<', '|', '>', '&', ';', '(', ')'}
  }

  lemma {:induction false} WordsPrintable<W>(args: seq<W>, p: W -> bool)
    requires forall i :: 0 <= i < |args| ==> p(args[i])
    ensures Printable(Words(args), p)
  {
    if args != [] { WordsPrintable(args[1..], p); }
  }

  lemma {:induction false} WrapsPrintable<W>(ws: seq<Wrap<W>>, p: W -> bool)
    requires GoodWraps(ws, p)
    ensures Printable(RedirTokens(ws), p)
  {
    if ws != [] { WrapsPrintable(ws[1..], p); }
  }

  lemma {:induction false} BaseGood<W>(c: Cmd<W>, p: W -> bool)
    requires Good(c, p)
    ensures Good(Base(c), p) && GoodWraps(Wraps(c), p)
  {
    if c.Redir? { BaseGood(c.cmd, p); }
  }

  lemma {:induction false} CoreGood<W>(c: Cmd<W>, p: W -> bool)
    requires Good(c, p)
    ensures Good(Core(c), p)
  {
    if c.Back? { CoreGood(c.cmd, p); }
  }

  lemma {:induction false} AmpsPrintable<W>(n: nat, p: W -> bool)
    ensures Printable(Amps(n), p)
  {
    if n > 0 { AmpsPrintable(n - 1, p); }
  }

  lemma {:induction false} SimplePrintable<W>(c: Cmd<W>, p: W -> bool)
    requires Good(c, p)
    ensures Printable(PrintSimple(c), p)
    decreases Rank(c), 2
  {
    BaseRank(c);
    BaseGood(c, p);
    WrapsPrintable(Wraps(c), p);
    var b := Base(c);
    if b.Exec? { WordsPrintable(b.args, p); } else { InnerPrintable(b, p); }
  }

  lemma {:induction false} InnerPrintable<W>(c: Cmd<W>, p: W -> bool)
    requires Good(c, p) && (c.Pipe? || c.List? || c.Back?)
    ensures Printable(PrintInner(c), p)
    decreases Rank(c), 1
  {
    hide PrintSimple, PrintPipe, PrintBack, PrintLine;
    match c
    case Pipe(l, r) => SimplePrintable(l, p); PipePrintable(r, p);
    case List(l, r) => BackPrintable(l, p); LinePrintable(r, p);
    case Back(_) => CoreGood(c, p); PipePrintable(Core(c), p); AmpsPrintable(Depth(c), p);
  }

  lemma {:induction false} PipePrintable<W>(c: Cmd<W>, p: W -> bool)
    requires Good(c, p)
    ensures Printable(PrintPipe(c), p)
    decreases Rank(c), 3
  {
    if c.Pipe? { InnerPrintable(c, p); } else { SimplePrintable(c, p); }
  }

  lemma {:induction false} BackPrintable<W>(c: Cmd<W>, p: W -> bool)
    requires Good(c, p)
    ensures Printable(PrintBack(c), p)
    decreases Rank(c), 4
  {
    if c.Back? { InnerPrintable(c, p); } else { PipePrintable(c, p); }
  }

  lemma {:induction false} LinePrintable<W>(c: Cmd<W>, p: W -> bool)
    requires Good(c, p)
    ensures Printable(PrintLine(c), p)
    decreases Rank(c), 5
  {
    if c.List? { InnerPrintable(c, p); } else { BackPrintable(c, p); }
  }
}
