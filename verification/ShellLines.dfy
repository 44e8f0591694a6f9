/**
The lines the shell accepts, written down as they are typed: words and
redirections in any order, parentheses, pipes, `&` and `;`.  The parser of
ShellGrammar accepts exactly these and gives each the command it means.
*/
module ShellLines {
  import opened ShellGrammar

  /** A word of a simple command, or a redirection: `< w`, `> w`, `>> w`. */
  datatype Item<W> = Arg(w: W) | From(w: W) | To(w: W, twice: bool)

  datatype Simp<W> = Plain(items: seq<Item<W>>) | Paren(line: Typed<W>, redirs: seq<Item<W>>)

  datatype Piping<W> = One(cmd: Simp<W>) | Piped(cmd: Simp<W>, rest: Piping<W>)

  /** A pipeline with its `&`s, and after a `;` another line. */
  datatype Typed<W> = Last(pipe: Piping<W>, amps: nat) | Then(pipe: Piping<W>, amps: nat, rest: Typed<W>)

  // ---- the tokens ----

  function ItemText<W>(x: Item<W>): (ts: seq<Token<W>>) {
    match x
    case Arg(w) => [Word(w)]
    case From(w) => [Sym('<'), Word(w)]
    case To(w, twice) => [Sym(if twice then '+' else '>'), Word(w)]
  }

  function ItemsText<W>(items: seq<Item<W>>): (ts: seq<Token<W>>) {
    if items == [] then [] else ItemText(items[0]) + ItemsText(items[1..])
  }

  function SimpText<W>(c: Simp<W>): (ts: seq<Token<W>>) {
    match c
    case Plain(items) => ItemsText(items)
    case Paren(line, redirs) => [Sym('(')] + LineText(line) + [Sym(')')] + ItemsText(redirs)
  }

  function PipeText<W>(p: Piping<W>): (ts: seq<Token<W>>) {
    match p
    case One(c) => SimpText(c)
    case Piped(c, rest) => SimpText(c) + [Sym('|')] + PipeText(rest)
  }

  function LineText<W>(l: Typed<W>): (ts: seq<Token<W>>) {
    match l
    case Last(p, n) => PipeText(p) + Amps(n)
    case Then(p, n, rest) => PipeText(p) + Amps(n) + [Sym(';')] + LineText(rest)
  }

  // ---- the meaning ----

  function ArgsOf<W>(items: seq<Item<W>>): (r: seq<W>) {
    if items == [] then [] else (if items[0].Arg? then [items[0].w] else []) + ArgsOf(items[1..])
  }

  /** Input is redirected from the file for `<`, output to it for `>` and `>>` alike. */
  function WrapsOf<W>(items: seq<Item<W>>): (r: seq<Wrap<W>>) {
    if items == [] then [] else (if items[0].Arg? then [] else [Wrap(items[0].To?, items[0].w)]) + WrapsOf(items[1..])
  }

  function SimpCmd<W>(c: Simp<W>): (r: Cmd<W>) {
    match c
    case Plain(items) => Wrapped(Exec(ArgsOf(items)), WrapsOf(items))
    case Paren(line, redirs) => Wrapped(LineCmd(line), WrapsOf(redirs))
  }

  function PipeCmd<W>(p: Piping<W>): (r: Cmd<W>) {
    match p
    case One(c) => SimpCmd(c)
    case Piped(c, rest) => Pipe(SimpCmd(c), PipeCmd(rest))
  }

  function LineCmd<W>(l: Typed<W>): (r: Cmd<W>) {
    match l
    case Last(p, n) => Nest(PipeCmd(p), n)
    case Then(p, n, rest) => List(Nest(PipeCmd(p), n), LineCmd(rest))
  }

  /** Fewer than ten words in every simple command, and only redirections behind a `)`. */
  predicate SimpOk<W>(c: Simp<W>) {
    match c
    case Plain(items) => |ArgsOf(items)| < MAXARGS
    case Paren(line, redirs) => LineOk(line) && ArgsOf(redirs) == []
  }

  predicate PipeOk<W>(p: Piping<W>) {
    SimpOk(p.cmd) && (p.Piped? ==> PipeOk(p.rest))
  }

  predicate LineOk<W>(l: Typed<W>) {
    PipeOk(l.pipe) && (l.Then? ==> LineOk(l.rest))
  }

  // ---- one step of parseexec ----

  const STOPS: set<char> := {'|', ')', '&', ';'}
  const REDIRS: set<char> := {'<', '>', '+'}

  lemma WordStep<W>(args: seq<W>, ws: seq<Wrap<W>>, ts: seq<Token<W>>)
    requires |ts| > 0 && ts[0].Word?
    ensures Args(args, ws, ts) == if |args| + 1 >= MAXARGS then Err else Args(args + [ts[0].w], ws, ts[1..])
  {
  }

  lemma RedirStep<W>(args: seq<W>, ws: seq<Wrap<W>>, ts: seq<Token<W>>)
    requires Ahead(ts, REDIRS)
    ensures Args(args, ws, ts) == if |ts| > 1 && ts[1].Word? then Args(args, ws + [Wrap(ts[0].c != '<', ts[1].w)], ts[2..]) else Err
  {
  }

  lemma StopStep<W>(args: seq<W>, ws: seq<Wrap<W>>, ts: seq<Token<W>>)
    requires Follows(ts, STOPS)
    ensures Args(args, ws, ts) == Ok((args, ws), ts)
  {
  }

  lemma OtherStep<W>(args: seq<W>, ws: seq<Wrap<W>>, ts: seq<Token<W>>)
    requires |ts| > 0 && ts[0].Sym? && ts[0].c !in STOPS && ts[0].c !in REDIRS
    ensures Args(args, ws, ts).Err?
  {
  }

  lemma Regroup<T>(a: seq<T>, b: seq<T>, c: seq<T>)
    ensures a + b + c == a + (b + c)
  {
  }

  /** parseexec on a word or a redirection. */
  lemma ItemStep<W>(args: seq<W>, ws: seq<Wrap<W>>, x: Item<W>, tail: seq<Token<W>>)
    ensures Args(args, ws, ItemText(x) + tail) ==
            if !x.Arg? then Args(args, ws + [Wrap(x.To?, x.w)], tail) else if |args| + 1 >= MAXARGS then Err else Args(args + [x.w], ws, tail)
  {
    hide Args;
    var ts := ItemText(x) + tail;
    if x.Arg? {
      assert ts[1..] == tail;
      WordStep(args, ws, ts);
    } else {
      assert ts[2..] == tail;
      RedirStep(args, ws, ts);
    }
  }

  /** Where parseexec goes on there is a word or a redirection. */
  lemma FirstItem<W>(args: seq<W>, ws: seq<Wrap<W>>, ts: seq<Token<W>>) returns (x: Item<W>, tail: seq<Token<W>>)
    requires Args(args, ws, ts).Ok? && !Follows(ts, STOPS)
    ensures ts == ItemText(x) + tail && |tail| < |ts|
  {
    hide Args;
    if ts[0].Word? {
      x, tail := Arg(ts[0].w), ts[1..];
    } else if ts[0].c in REDIRS {
      RedirStep(args, ws, ts);
      x, tail := if ts[0].c == '<' then From(ts[1].w) else To(ts[1].w, ts[0].c == '+'), ts[2..];
    } else {
      OtherStep(args, ws, ts);
      assert false;
    }
  }

  lemma RedirItem<W>(ws: seq<Wrap<W>>, x: Item<W>, tail: seq<Token<W>>)
    requires !x.Arg?
    ensures Redirs(ws, ItemText(x) + tail) == Redirs(ws + [Wrap(x.To?, x.w)], tail)
  {
    assert (ItemText(x) + tail)[2..] == tail;
  }

  lemma FirstRedir<W>(ws: seq<Wrap<W>>, ts: seq<Token<W>>) returns (x: Item<W>, tail: seq<Token<W>>)
    requires Redirs(ws, ts).Ok? && Ahead(ts, REDIRS)
    ensures !x.Arg? && ts == ItemText(x) + tail && |tail| < |ts|
  {
    x, tail := if ts[0].c == '<' then From(ts[1].w) else To(ts[1].w, ts[0].c == '+'), ts[2..];
  }

  /** What one more item in front adds. */
  lemma ItemsCons<W>(x: Item<W>, more: seq<Item<W>>)
    ensures ItemsText([x] + more) == ItemText(x) + ItemsText(more)
    ensures ArgsOf([x] + more) == if x.Arg? then [x.w] + ArgsOf(more) else ArgsOf(more)
    ensures WrapsOf([x] + more) == if x.Arg? then WrapsOf(more) else [Wrap(x.To?, x.w)] + WrapsOf(more)
  {
    assert ([x] + more)[1..] == more;
  }

  lemma NoItems<W>()
    ensures ItemsText<W>([]) == [] && ArgsOf<W>([]) == [] && WrapsOf<W>([]) == []
  {
  }

  // ---- every typed line is read ----

  lemma {:induction false} RedirsRead<W>(ws: seq<Wrap<W>>, items: seq<Item<W>>, rest: seq<Token<W>>)
    requires ArgsOf(items) == [] && !Ahead(rest, REDIRS)
    ensures Redirs(ws, ItemsText(items) + rest) == Ok(ws + WrapsOf(items), rest)
    decreases |items|
  {
    hide ItemsText, ItemText, ArgsOf, WrapsOf;
    NoItems<W>();
    if items == [] {
      assert ItemsText(items) + rest == rest && ws + WrapsOf(items) == ws;
    } else {
      hide Redirs;
      var x, more := items[0], items[1..];
      assert items == [x] + more;
      ItemsCons(x, more);
      Regroup(ItemText(x), ItemsText(more), rest);
      RedirItem(ws, x, ItemsText(more) + rest);
      RedirsRead(ws + [Wrap(x.To?, x.w)], more, rest);
      Regroup(ws, [Wrap(x.To?, x.w)], WrapsOf(more));
    }
  }

  /** Words and redirections in any order: the words in order are the arguments, the redirections in order go
      around the command. */
  lemma {:induction false} ArgsRead<W>(args: seq<W>, ws: seq<Wrap<W>>, items: seq<Item<W>>, rest: seq<Token<W>>)
    requires |args| + |ArgsOf(items)| < MAXARGS && Follows(rest, STOPS)
    ensures Args(args, ws, ItemsText(items) + rest) == Ok((args + ArgsOf(items), ws + WrapsOf(items)), rest)
    decreases |items|
  {
    hide Args, ItemsText, ItemText, ArgsOf, WrapsOf;
    NoItems<W>();
    if items == [] {
      assert ItemsText(items) + rest == rest && args + ArgsOf(items) == args && ws + WrapsOf(items) == ws;
      StopStep(args, ws, rest);
    } else {
      var x, more := items[0], items[1..];
      assert items == [x] + more;
      ItemsCons(x, more);
      Regroup(ItemText(x), ItemsText(more), rest);
      ItemStep(args, ws, x, ItemsText(more) + rest);
      if x.Arg? {
        ArgsRead(args + [x.w], ws, more, rest);
        Regroup(args, [x.w], ArgsOf(more));
      } else {
        ArgsRead(args, ws + [Wrap(x.To?, x.w)], more, rest);
        Regroup(ws, [Wrap(x.To?, x.w)], WrapsOf(more));
      }
    }
  }

  lemma NoParen<W>(items: seq<Item<W>>, rest: seq<Token<W>>)
    requires Follows(rest, STOPS)
    ensures !Ahead(ItemsText(items) + rest, {'('})
  {
    if items == [] {
      assert ItemsText(items) + rest == rest;
    }
  }

  lemma PlainRead<W>(items: seq<Item<W>>, rest: seq<Token<W>>)
    requires |ArgsOf(items)| < MAXARGS && Follows(rest, STOPS)
    ensures Simple(ItemsText(items) + rest) == Ok(Wrapped(Exec(ArgsOf(items)), WrapsOf(items)), rest)
  {
    hide Args, ItemsText, Ahead, ArgsOf, WrapsOf, Block;
    ArgsRead([], [], items, rest);
    NoParen(items, rest);
    assert [] + ArgsOf(items) == ArgsOf(items) && [] + WrapsOf(items) == WrapsOf(items);
  }

  lemma {:induction false} SimpRead<W>(c: Simp<W>, rest: seq<Token<W>>)
    requires SimpOk(c) && Follows(rest, STOPS)
    ensures Simple(SimpText(c) + rest) == Ok(SimpCmd(c), rest)
    decreases c
  {
    hide Line, Redirs, ItemsText, Wrapped, ArgsOf, WrapsOf, Args;
    match c
    case Plain(items) => PlainRead(items, rest);
    case Paren(line, redirs) =>
      var tail := [Sym(')')] + ItemsText(redirs) + rest;
      var ts := SimpText(c) + rest;
      LineRead(line, tail);
      assert ts[1..] == LineText(line) + tail;
      assert tail[1..] == ItemsText(redirs) + rest;
      RedirsRead([], redirs, rest);
      assert [] + WrapsOf(redirs) == WrapsOf(redirs);
  }

  lemma {:induction false} PipeRead<W>(p: Piping<W>, rest: seq<Token<W>>)
    requires PipeOk(p) && Follows(rest, {')', '&', ';'})
    ensures Pipes(PipeText(p) + rest) == Ok(PipeCmd(p), rest)
    decreases p
  {
    hide Simple, SimpText, SimpCmd, SimpOk;
    match p
    case One(c) => SimpRead(c, rest);
    case Piped(c, more) =>
      var tail := [Sym('|')] + PipeText(more) + rest;
      SimpRead(c, tail);
      PipeRead(more, rest);
      assert PipeText(p) + rest == SimpText(c) + tail;
      assert tail[1..] == PipeText(more) + rest;
  }

  lemma {:induction false} LineRead<W>(l: Typed<W>, rest: seq<Token<W>>)
    requires LineOk(l) && Follows(rest, {')'})
    ensures Line(LineText(l) + rest) == Ok(LineCmd(l), rest)
    decreases l
  {
    hide Pipes, PipeText, PipeCmd, PipeOk;
    match l
    case Last(p, n) =>
      AmpsFollow(n, rest);
      PipeRead(p, Amps(n) + rest);
      AmpsBackFrom(PipeCmd(p), n, rest);
      Regroup(PipeText(p), Amps(n), rest);
    case Then(p, n, more) =>
      var tail := [Sym(';')] + (LineText(more) + rest);
      AmpsFollow(n, tail);
      PipeRead(p, Amps(n) + tail);
      AmpsBackFrom(PipeCmd(p), n, tail);
      ThenText(p, n, more, rest);
      assert tail[1..] == LineText(more) + rest;
      LineRead(more, rest);
  }

  lemma AmpsFollow<W>(n: nat, rest: seq<Token<W>>)
    requires Follows(rest, {')', ';'})
    ensures Follows(Amps(n) + rest, {')', '&', ';'})
  {
    if n == 0 {
      assert Amps(n) + rest == rest;
    }
  }

  // ---- every line that is read is a typed line ----

  lemma {:induction false} RedirsTyped<W>(ws: seq<Wrap<W>>, ts: seq<Token<W>>) returns (items: seq<Item<W>>)
    requires Redirs(ws, ts).Ok?
    ensures ArgsOf(items) == [] && ts == ItemsText(items) + Redirs(ws, ts).rest && Redirs(ws, ts).v == ws + WrapsOf(items)
    decreases |ts|
  {
    hide ItemsText, ItemText, ArgsOf, WrapsOf;
    NoItems<W>();
    if Ahead(ts, REDIRS) {
      var x, tail := FirstRedir(ws, ts);
      hide Redirs;
      RedirItem(ws, x, tail);
      var more := RedirsTyped(ws + [Wrap(x.To?, x.w)], tail);
      items := [x] + more;
      ItemsCons(x, more);
      Regroup(ItemText(x), ItemsText(more), Redirs(ws, ts).rest);
      Regroup(ws, [Wrap(x.To?, x.w)], WrapsOf(more));
    } else {
      items := [];
      assert ws + [] == ws && [] + ts == ts;
    }
  }

  lemma {:induction false} ArgsTyped<W>(args: seq<W>, ws: seq<Wrap<W>>, ts: seq<Token<W>>) returns (items: seq<Item<W>>)
    requires Args(args, ws, ts).Ok? && |args| < MAXARGS
    ensures var r := Args(args, ws, ts);
            ts == ItemsText(items) + r.rest && r.v == (args + ArgsOf(items), ws + WrapsOf(items)) && |args| + |ArgsOf(items)| < MAXARGS
    decreases |ts|
  {
    hide Args, ItemsText, ItemText, ArgsOf, WrapsOf;
    NoItems<W>();
    if Follows(ts, STOPS) {
      StopStep(args, ws, ts);
      items := [];
      assert ws + [] == ws && args + [] == args && [] + ts == ts;
    } else {
      var x, tail := FirstItem(args, ws, ts);
      ItemStep(args, ws, x, tail);
      var more;
      if x.Arg? {
        more := ArgsTyped(args + [x.w], ws, tail);
        Regroup(args, [x.w], ArgsOf(more));
      } else {
        more := ArgsTyped(args, ws + [Wrap(x.To?, x.w)], tail);
        Regroup(ws, [Wrap(x.To?, x.w)], WrapsOf(more));
      }
      items := [x] + more;
      ItemsCons(x, more);
      Regroup(ItemText(x), ItemsText(more), Args(args, ws, ts).rest);
    }
  }

  lemma {:induction false} SimpTyped<W>(ts: seq<Token<W>>) returns (c: Simp<W>)
    requires Simple(ts).Ok?
    ensures SimpOk(c) && ts == SimpText(c) + Simple(ts).rest && Simple(ts).v == SimpCmd(c)
    decreases |ts|, 0
  {
    hide Args, Redirs, ItemsText, Wrapped, ArgsOf, WrapsOf;
    if Ahead(ts, {'('}) {
      var line := LineTyped(ts[1..]);
      var r := Line(ts[1..]).rest;
      var redirs := RedirsTyped([], r[1..]);
      c := Paren(line, redirs);
      assert [] + WrapsOf(redirs) == WrapsOf(redirs);
      assert ts == [Sym('(')] + ts[1..] && r == [Sym(')')] + r[1..];
      assert SimpText(c) + Redirs([], r[1..]).rest == [Sym('(')] + (LineText(line) + ([Sym(')')] + (ItemsText(redirs) + Redirs([], r[1..]).rest)));
    } else {
      var items := ArgsTyped([], [], ts);
      assert [] + ArgsOf(items) == ArgsOf(items) && [] + WrapsOf(items) == WrapsOf(items);
      c := Plain(items);
    }
  }

  lemma {:induction false} PipeTyped<W>(ts: seq<Token<W>>) returns (p: Piping<W>)
    requires Pipes(ts).Ok?
    ensures PipeOk(p) && ts == PipeText(p) + Pipes(ts).rest && Pipes(ts).v == PipeCmd(p)
    decreases |ts|, 1
  {
    hide Simple, SimpText, SimpCmd, SimpOk;
    var c := SimpTyped(ts);
    var r := Simple(ts).rest;
    if Ahead(r, {'|'}) {
      var more := PipeTyped(r[1..]);
      p := Piped(c, more);
      assert r == [Sym('|')] + r[1..];
      assert PipeText(p) + Pipes(r[1..]).rest == SimpText(c) + ([Sym('|')] + (PipeText(more) + Pipes(r[1..]).rest));
    } else {
      p := One(c);
    }
  }

  lemma {:induction false} BacksTyped<W>(c: Cmd<W>, ts: seq<Token<W>>) returns (n: nat)
    ensures ts == Amps(n) + Backs(c, ts).1 && Backs(c, ts).0 == Nest(c, n)
    decreases |ts|
  {
    if Ahead(ts, {'&'}) {
      var m := BacksTyped(Back(c), ts[1..]);
      n := m + 1;
      assert ts == [Sym('&')] + ts[1..];
    } else {
      n := 0;
    }
  }

  lemma ThenText<W>(p: Piping<W>, n: nat, more: Typed<W>, rest: seq<Token<W>>)
    ensures LineText(Then(p, n, more)) + rest == PipeText(p) + (Amps(n) + ([Sym(';')] + (LineText(more) + rest)))
  {
    hide PipeText, Amps;
    Regroup(PipeText(p) + Amps(n) + [Sym(';')], LineText(more), rest);
    Regroup(PipeText(p) + Amps(n), [Sym(';')], LineText(more) + rest);
    Regroup(PipeText(p), Amps(n), [Sym(';')] + (LineText(more) + rest));
  }

  lemma {:induction false} LineTyped<W>(ts: seq<Token<W>>) returns (l: Typed<W>)
    requires Line(ts).Ok?
    ensures LineOk(l) && ts == LineText(l) + Line(ts).rest && Line(ts).v == LineCmd(l)
    decreases |ts|, 2
  {
    hide Pipes, PipeText, PipeCmd, PipeOk, Amps, Nest, Backs;
    var p := PipeTyped(ts);
    var r := Pipes(ts);
    var n := BacksTyped(r.v, r.rest);
    var b := Backs(r.v, r.rest);
    if Ahead(b.1, {';'}) {
      var more := LineTyped(b.1[1..]);
      l := Then(p, n, more);
      assert b.1 == [Sym(';')] + b.1[1..];
      ThenText(p, n, more, Line(b.1[1..]).rest);
    } else {
      l := Last(p, n);
      Regroup(PipeText(p), Amps(n), b.1);
    }
  }

  /** l is a way to type the tokens, and means c. */
  ghost predicate Says<W>(l: Typed<W>, ts: seq<Token<W>>, c: Cmd<W>) {
    LineOk(l) && LineText(l) == ts && LineCmd(l) == c
  }

  /** The shell accepts exactly the typed lines, and makes of each the command it means. */
  lemma ParsesExactly<W(!new)>(ts: seq<Token<W>>, c: Cmd<W>)
    ensures Command(ts) == Ok(c, []) <==> exists l :: Says(l, ts, c)
  {
    hide Line, LineOk, LineText, LineCmd;
    if Command(ts) == Ok(c, []) {
      var l := LineTyped(ts);
      assert LineText(l) + [] == LineText(l);
      assert Says(l, ts, c);
    }
    if l: Typed<W> :| Says(l, ts, c) {
      LineRead(l, []);
      assert ts + [] == ts;
    }
  }

  /** It panics on every other line. */
  lemma PanicsExactly<W(!new)>(ts: seq<Token<W>>)
    ensures Command(ts).Err? <==> !exists l, c :: Says(l, ts, c)
  {
    hide Line, LineOk, LineText, LineCmd;
    if Command(ts).Ok? {
      var l := LineTyped(ts);
      assert LineText(l) + [] == LineText(l);
      assert Says(l, ts, LineCmd(l));
    }
    if l: Typed<W>, c: Cmd<W> :| Says(l, ts, c) {
      LineRead(l, []);
      assert ts + [] == ts;
    }
  }

  // ---- `>>` ----

  /** The line with `>` for `>>`. */
  function Straight<W>(ts: seq<Token<W>>): (r: seq<Token<W>>)
    ensures |r| == |ts| && forall i :: 0 <= i < |ts| ==> r[i] == if ts[i] == Sym('+') then Sym('>') else ts[i]
  {
    seq(|ts|, i requires 0 <= i < |ts| => if ts[i] == Sym('+') then Sym('>') else ts[i])
  }

  lemma AheadStraight<W>(ts: seq<Token<W>>, cs: set<char>)
    requires '+' in cs <==> '>' in cs
    ensures Ahead(Straight(ts), cs) == Ahead(ts, cs)
  {
  }

  lemma DropStraight<W>(ts: seq<Token<W>>, n: nat)
    requires n <= |ts|
    ensures Straight(ts)[n..] == Straight(ts[n..])
  {
  }

  /** The same result, and what is left differs in `>` for `>>` only. */
  ghost predicate Alike<T, W>(r: Parse<T, W>, r': Parse<T, W>) {
    r.Ok? == r'.Ok? && (r.Ok? ==> r'.v == r.v && r'.rest == Straight(r.rest))
  }

  lemma {:induction false} RedirsStraight<W>(ws: seq<Wrap<W>>, ts: seq<Token<W>>)
    ensures Alike(Redirs(ws, ts), Redirs(ws, Straight(ts)))
    decreases |ts|
  {
    hide Straight;
    AheadStraight(ts, REDIRS);
    if Ahead(ts, REDIRS) && |ts| > 1 && ts[1].Word? {
      RedirsStraight(ws + [Wrap(ts[0].c != '<', ts[1].w)], ts[2..]);
      DropStraight(ts, 2);
    }
  }

  lemma {:induction false} ArgsStraight<W>(args: seq<W>, ws: seq<Wrap<W>>, ts: seq<Token<W>>)
    ensures Alike(Args(args, ws, ts), Args(args, ws, Straight(ts)))
    decreases |ts|
  {
    hide Redirs, Straight;
    RedirsStraight(ws, ts);
    if Redirs(ws, ts).Ok? {
      var r := Redirs(ws, ts).rest;
      AheadStraight(r, STOPS);
      if !Follows(r, STOPS) && r[0].Word? && |args| + 1 < MAXARGS {
        ArgsStraight(args + [r[0].w], Redirs(ws, ts).v, r[1..]);
        DropStraight(r, 1);
      }
    }
  }

  lemma BlockStraight<W>(ts: seq<Token<W>>)
    requires Alike(Line(ts), Line(Straight(ts)))
    ensures Alike(Block(ts), Block(Straight(ts)))
  {
    hide Line, Redirs, Straight;
    var l := Line(ts);
    if l.Ok? {
      AheadStraight(l.rest, {')'});
      if Ahead(l.rest, {')'}) {
        DropStraight(l.rest, 1);
        RedirsStraight([], l.rest[1..]);
      }
    }
  }

  lemma {:induction false} SimpleStraight<W>(ts: seq<Token<W>>)
    ensures Alike(Simple(ts), Simple(Straight(ts)))
    decreases |ts|, 0
  {
    hide Block, Args, Straight;
    AheadStraight(ts, {'('});
    if Ahead(ts, {'('}) {
      DropStraight(ts, 1);
      LineStraight(ts[1..]);
      BlockStraight(ts[1..]);
    } else {
      ArgsStraight([], [], ts);
    }
  }

  lemma {:induction false} PipesStraight<W>(ts: seq<Token<W>>)
    ensures Alike(Pipes(ts), Pipes(Straight(ts)))
    decreases |ts|, 1
  {
    hide Simple, Straight;
    SimpleStraight(ts);
    var r := Simple(ts);
    if r.Ok? {
      AheadStraight(r.rest, {'|'});
      if Ahead(r.rest, {'|'}) {
        DropStraight(r.rest, 1);
        PipesStraight(r.rest[1..]);
      }
    }
  }

  lemma {:induction false} BacksStraight<W>(c: Cmd<W>, ts: seq<Token<W>>)
    ensures Backs(c, Straight(ts)) == (Backs(c, ts).0, Straight(Backs(c, ts).1))
    decreases |ts|
  {
    hide Straight;
    AheadStraight(ts, {'&'});
    if Ahead(ts, {'&'}) {
      DropStraight(ts, 1);
      BacksStraight(Back(c), ts[1..]);
    }
  }

  lemma {:induction false} LineStraight<W>(ts: seq<Token<W>>)
    ensures Alike(Line(ts), Line(Straight(ts)))
    decreases |ts|, 2
  {
    hide Pipes, Straight;
    PipesStraight(ts);
    var r := Pipes(ts);
    if r.Ok? {
      BacksStraight(r.v, r.rest);
      var b := Backs(r.v, r.rest);
      AheadStraight(b.1, {';'});
      if Ahead(b.1, {';'}) {
        DropStraight(b.1, 1);
        LineStraight(b.1[1..]);
      }
    }
  }

  /** `>>` is `>`: no line tells them apart, neither by its command nor by a panic. */
  lemma AppendIsOutput<W>(ts: seq<Token<W>>)
    ensures Command(Straight(ts)) == Command(ts)
  {
    hide Line;
    LineStraight(ts);
  }

  // ---- when a simple command panics ----

  /** The tokens up to the first that ends a simple command. */
  function Upto<W>(ts: seq<Token<W>>): (r: seq<Token<W>>)
    ensures |r| <= |ts| && r == ts[..|r|] && Follows(ts[|r|..], STOPS) && forall i :: 0 <= i < |r| ==> !(r[i].Sym? && r[i].c in STOPS)
  {
    if Follows(ts, STOPS) then []
    else
      var r := Upto(ts[1..]);
      assert ts[1..][|r|..] == ts[|r| + 1..];
      [ts[0]] + r
  }

  /** A symbol that is no redirection, or a redirection without a file name behind it. */
  predicate BadAt<W>(ts: seq<Token<W>>, k: nat) {
    k < |ts| && ts[k].Sym? && !(ts[k].c in REDIRS && k + 1 < |ts| && ts[k + 1].Word?)
  }

  ghost predicate Broken<W>(ts: seq<Token<W>>) {
    exists k: nat :: BadAt(ts, k)
  }

  /** How many words are not right behind a symbol. */
  function FreeWords<W>(ts: seq<Token<W>>, afterSym: bool): (n: nat) {
    if ts == [] then 0
    else if ts[0].Word? then (if afterSym then 0 else 1) + FreeWords(ts[1..], false)
    else FreeWords(ts[1..], true)
  }

  lemma BrokenCons<W>(x: Token<W>, ts: seq<Token<W>>)
    ensures x.Word? ==> (Broken([x] + ts) <==> Broken(ts))
    ensures x.Sym? ==> (Broken([x] + ts) <==> !(x.c in REDIRS && |ts| > 0 && ts[0].Word?) || Broken(ts))
  {
    var all := [x] + ts;
    if Broken(ts) {
      var k: nat :| BadAt(ts, k);
      assert BadAt(all, k + 1);
    }
    if Broken(all) {
      var k: nat :| BadAt(all, k);
      assert k > 0 ==> BadAt(ts, k - 1);
    }
    assert BadAt(all, 0) <==> x.Sym? && !(x.c in REDIRS && |ts| > 0 && ts[0].Word?);
  }

  lemma UptoCons<W>(ts: seq<Token<W>>)
    requires !Follows(ts, STOPS)
    ensures Upto(ts) == [ts[0]] + Upto(ts[1..])
  {
  }

  lemma WordsCons<W>(x: Token<W>, ts: seq<Token<W>>, afterSym: bool)
    ensures FreeWords([x] + ts, afterSym) == if x.Sym? then FreeWords(ts, true) else (if afterSym then 0 else 1) + FreeWords(ts, false)
  {
    assert ([x] + ts)[1..] == ts;
  }

  lemma {:induction false} ArgsErr<W>(args: seq<W>, ws: seq<Wrap<W>>, ts: seq<Token<W>>)
    requires |args| < MAXARGS
    ensures Args(args, ws, ts).Err? <==> Broken(Upto(ts)) || |args| + FreeWords(Upto(ts), false) >= MAXARGS
    decreases |ts|
  {
    hide Args, Broken, Upto, FreeWords;
    if Follows(ts, STOPS) {
      StopStep(args, ws, ts);
      NothingBroken(ts);
    } else {
      UptoCons(ts);
      var more := Upto(ts[1..]);
      BrokenCons(ts[0], more);
      WordsCons(ts[0], more, false);
      if ts[0].Word? {
        WordStep(args, ws, ts);
        if |args| + 1 < MAXARGS {
          ArgsErr(args + [ts[0].w], ws, ts[1..]);
        }
      } else if ts[0].c in REDIRS {
        RedirStep(args, ws, ts);
        if |ts| > 1 && ts[1].Word? {
          var file := ts[1..];
          UptoCons(file);
          assert file[1..] == ts[2..];
          BrokenCons(ts[1], Upto(ts[2..]));
          WordsCons(ts[1], Upto(ts[2..]), true);
          ArgsErr(args, ws + [Wrap(ts[0].c != '<', ts[1].w)], ts[2..]);
        } else {
          assert |more| > 0 ==> more[0] == ts[1];
        }
      } else {
        OtherStep(args, ws, ts);
      }
    }
  }

  lemma NothingBroken<W>(ts: seq<Token<W>>)
    requires Follows(ts, STOPS)
    ensures Upto(ts) == [] && !Broken(Upto(ts)) && FreeWords(Upto(ts), false) == 0
  {
  }

  /** A simple command outside parentheses panics exactly if before its end there is a symbol that is no
      redirection, or a redirection without a file name, or ten words that are no file names. */
  lemma SimplePanics<W>(ts: seq<Token<W>>)
    requires !Ahead(ts, {'('})
    ensures Simple(ts).Err? <==> Broken(Upto(ts)) || FreeWords(Upto(ts), false) >= MAXARGS
  {
    ArgsErr([], [], ts);
  }
}
