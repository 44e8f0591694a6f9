/**
Console line editing (console.c): a ring of 128 characters with read, write and
edit indices that are 32-bit counters and wrap.  Each method is what one caller
does between taking input.lock and giving it up.
*/
module Console {
  const INPUT_BUF: nat := 128
  const WORD: nat := 0x1_0000_0000

  const CTRL_P := 16 as char
  const CTRL_U := 21 as char
  const CTRL_H := 8 as char
  const CTRL_D := 4 as char
  const DEL := 127 as char
  const NUL := 0 as char

  /** ready: committed and not yet read; edit: the line being typed. */
  datatype View = View(ready: seq<char>, edit: seq<char>)

  function Translated(c: char): (r: char) {
    if c == '\r' then '\n' else c
  }

  /** What one keystroke does to the line. */
  function Key(v: View, c: char): (r: View) {
    if c == CTRL_P then v
    else if c == CTRL_U then View(v.ready, [])
    else if c == CTRL_H || c == DEL then View(v.ready, if v.edit == [] then [] else v.edit[..|v.edit| - 1])
    else if c == NUL || |v.ready| + |v.edit| >= INPUT_BUF then v
    else
      var e := v.edit + [Translated(c)];
      if Translated(c) == '\n' || c == CTRL_D || |v.ready| + |e| == INPUT_BUF then View(v.ready + e, []) else View(v.ready, e)
  }

  function Keys(v: View, cs: seq<char>): (r: View) {
    if cs == [] then v else Key(Keys(v, cs[..|cs| - 1]), cs[|cs| - 1])
  }

  lemma {:induction false} KeysAppend(v: View, a: seq<char>, b: seq<char>)
    ensures Keys(v, a + b) == Keys(Keys(v, a), b)
    decreases |b|
  {
    if b == [] {
      assert a + b == a;
    } else {
      var n := |b| - 1;
      KeysAppend(v, a, b[..n]);
      assert (a + b)[..|a + b| - 1] == a + b[..n] && (a + b)[|a + b| - 1] == b[n];
    }
  }

  predicate Plain(c: char) {
    c !in {CTRL_P, CTRL_U, CTRL_H, CTRL_D, DEL, NUL, '\n', '\r'}
  }

  /** Ordinary characters only lengthen the line. */
  lemma {:induction false} Typing(v: View, cs: seq<char>)
    requires |v.ready| + |v.edit| + |cs| < INPUT_BUF && forall i :: 0 <= i < |cs| ==> Plain(cs[i])
    ensures Keys(v, cs) == View(v.ready, v.edit + cs)
    decreases |cs|
  {
    if cs != [] {
      Typing(v, cs[..|cs| - 1]);
      assert cs == cs[..|cs| - 1] + [cs[|cs| - 1]];
    }
  }

  /** k backspaces take back the last k characters, and stop at the start of the line. */
  lemma {:induction false} Backspaces(v: View, k: nat)
    ensures Keys(v, seq(k, _ => CTRL_H)) == View(v.ready, v.edit[..if k <= |v.edit| then |v.edit| - k else 0])
    decreases k
  {
    if k == 0 {
      assert seq(0, _ => CTRL_H) == [];
      assert v.edit[..|v.edit|] == v.edit;
    } else {
      var b := seq(k, _ => CTRL_H);
      assert b[..k - 1] == seq(k - 1, _ => CTRL_H);
      Backspaces(v, k - 1);
    }
  }

  lemma OneKey(v: View, c: char)
    ensures Keys(v, [c]) == Key(v, c)
  {
    assert [c][..0] == [];
  }

  lemma Return(ready: seq<char>, line: seq<char>)
    requires |ready| + |line| < INPUT_BUF
    ensures Keys(View(ready, line), ['\r']) == View(ready + line + ['\n'], [])
  {
    OneKey(View(ready, line), '\r');
    assert ready + line + ['\n'] == ready + (line + ['\n']);
  }

  /** Type a line, take back its last k characters, press return: the rest of the line is delivered. */
  lemma EditedLine(v: View, line: seq<char>, k: nat)
    requires v.edit == [] && k <= |line| && |v.ready| + |line| < INPUT_BUF && forall i :: 0 <= i < |line| ==> Plain(line[i])
    ensures Keys(v, line + seq(k, _ => CTRL_H) + ['\r']) == View(v.ready + line[..|line| - k] + ['\n'], [])
  {
    hide Keys, Plain;
    KeysAppend(v, line + seq(k, _ => CTRL_H), ['\r']);
    KeysAppend(v, line, seq(k, _ => CTRL_H));
    Typing(v, line);
    assert v.edit + line == line;
    Backspaces(View(v.ready, line), k);
    Return(v.ready, line[..|line| - k]);
  }

  /** Ctrl-D commits the line with itself at the end. */
  lemma EndedLine(v: View, line: seq<char>)
    requires v.edit == [] && |v.ready| + |line| < INPUT_BUF && forall i :: 0 <= i < |line| ==> Plain(line[i])
    ensures Keys(v, line + [CTRL_D]) == View(v.ready + line + [CTRL_D], [])
  {
    hide Keys, Plain;
    KeysAppend(v, line, [CTRL_D]);
    Typing(v, line);
    assert v.edit + line == line;
    OneKey(View(v.ready, line), CTRL_D);
    assert v.ready + line + [CTRL_D] == v.ready + (line + [CTRL_D]);
  }

  /** The character that fills the buffer commits the line without a line end, and from then on until something is
      read every keystroke is dropped. */
  lemma FullBuffer(v: View, line: seq<char>, more: seq<char>)
    requires v.edit == [] && line != [] && |v.ready| + |line| == INPUT_BUF && forall i :: 0 <= i < |line| ==> Plain(line[i])
    ensures Keys(v, line + more) == View(v.ready + line, [])
  {
    hide Keys, Plain;
    var n := |line| - 1;
    assert line == line[..n] + [line[n]] && Plain(line[n]);
    KeysAppend(v, line, more);
    KeysAppend(v, line[..n], [line[n]]);
    Typing(v, line[..n]);
    assert v.edit + line[..n] == line[..n];
    OneKey(View(v.ready, line[..n]), line[n]);
    LastRoom(View(v.ready, line[..n]), line[n]);
    assert v.ready + (line[..n] + [line[n]]) == v.ready + line;
    Dropped(View(v.ready + line, []), more);
  }

  lemma LastRoom(v: View, c: char)
    requires |v.ready| + |v.edit| == INPUT_BUF - 1 && Plain(c)
    ensures Key(v, c) == View(v.ready + (v.edit + [c]), [])
  {
  }

  lemma {:induction false} Dropped(v: View, cs: seq<char>)
    requires v.edit == [] && |v.ready| == INPUT_BUF
    ensures Keys(v, cs) == v
    decreases |cs|
  {
    if cs != [] {
      Dropped(v, cs[..|cs| - 1]);
    }
  }

  /** Ctrl-P and NUL leave the line alone, rubout is backspace and line feed is return. */
  lemma OtherKeys(v: View, a: seq<char>, b: seq<char>)
    ensures Keys(v, a + [CTRL_P] + b) == Keys(v, a + [NUL] + b) == Keys(v, a + b)
    ensures Keys(v, a + [DEL] + b) == Keys(v, a + [CTRL_H] + b)
    ensures Keys(v, a + ['\n'] + b) == Keys(v, a + ['\r'] + b)
  {
    hide Keys;
    KeysAppend(v, a, b);
    forall c: char ensures Keys(v, a + [c] + b) == Keys(Key(Keys(v, a), c), b) {
      KeysAppend(v, a + [c], b);
      KeysAppend(v, a, [c]);
      OneKey(Keys(v, a), c);
    }
  }

  /** Ctrl-U makes the line as if it had never been typed, however it was edited. */
  lemma KilledLine(v: View, junk: seq<char>, cs: seq<char>)
    requires v.edit == [] && Keys(v, junk).ready == v.ready
    ensures Keys(v, junk + [CTRL_U] + cs) == Keys(v, cs)
  {
    KeysAppend(v, junk + [CTRL_U], cs);
    KeysAppend(v, junk, [CTRL_U]);
    OneKey(Keys(v, junk), CTRL_U);
  }

  // ---- reading ----

  /** How many characters of ready one read delivers. */
  function Delivered(ready: seq<char>, n: nat): (k: nat)
    ensures k <= n && k <= |ready|
    ensures forall i :: 0 <= i < k ==> ready[i] != CTRL_D
    ensures forall i :: 0 <= i < k - 1 ==> ready[i] != '\n'
    ensures k == n || k == |ready| || ready[k] == CTRL_D || (k > 0 && ready[k - 1] == '\n')
  {
    if n == 0 || ready == [] || ready[0] == CTRL_D then 0
    else if ready[0] == '\n' then 1
    else 1 + Delivered(ready[1..], n - 1)
  }

  /** A read that stops at a Ctrl-D with nothing delivered eats it; otherwise it stays for the next read. */
  function Eaten(ready: seq<char>, n: nat): (k: nat)
    ensures Delivered(ready, n) <= k <= |ready|
  {
    var d := Delivered(ready, n);
    if n > 0 && d == 0 && ready != [] then 1 else d
  }

  /** Lines come out one read at a time, and a line ended by Ctrl-D is followed by an empty read. */
  lemma {:induction false} ReadsLine(line: seq<char>, rest: seq<char>, n: nat)
    requires n > |line| && forall i :: 0 <= i < |line| ==> line[i] != '\n' && line[i] != CTRL_D
    ensures Delivered(line + ['\n'] + rest, n) == Eaten(line + ['\n'] + rest, n) == |line| + 1
    ensures Delivered(line + [CTRL_D] + rest, n) == |line|
    ensures line != [] ==> Eaten(line + [CTRL_D] + rest, n) == |line|
    ensures Delivered([CTRL_D] + rest, n) == 0 && Eaten([CTRL_D] + rest, n) == 1
    decreases |line|
  {
    if line != [] {
      ReadsLine(line[1..], rest, n - 1);
      assert (line + ['\n'] + rest)[1..] == line[1..] + ['\n'] + rest;
      assert (line + [CTRL_D] + rest)[1..] == line[1..] + [CTRL_D] + rest;
    } else {
      assert line + ['\n'] + rest == ['\n'] + rest && line + [CTRL_D] + rest == [CTRL_D] + rest;
    }
  }

  // ---- the ring ----

  /** A count as the 32-bit unsigned value that stands for it. */
  function U(x: nat): (r: nat)
    ensures r < WORD
  {
    x % WORD
  }

  function Up(u: nat): (r: nat) {
    (u + 1) % WORD
  }

  function Down(u: nat): (r: nat) {
    (u + WORD - 1) % WORD
  }

  function Gap(e: nat, r: nat): (d: nat)
    requires r < WORD
  {
    (e + WORD - r) % WORD
  }

  lemma UpU(x: nat)
    ensures Up(U(x)) == U(x + 1) && Down(U(x + 1)) == U(x)
  {
  }

  lemma Slot(x: nat)
    ensures U(x) % INPUT_BUF == x % INPUT_BUF
  {
    assert x == x / WORD * WORD + x % WORD;
    assert x == x / WORD * 33554432 * INPUT_BUF + x % WORD;
    Multiple(x / WORD * 33554432, x % WORD);
  }

  lemma Multiple(q: nat, r: nat)
    ensures (q * INPUT_BUF + r) % INPUT_BUF == r % INPUT_BUF
  {
  }

  lemma Apart(x: nat, y: nat)
    requires x < y < x + INPUT_BUF
    ensures x % INPUT_BUF != y % INPUT_BUF
  {
  }

  /** The ring holds s from count at on. */
  ghost predicate Holds(buf: seq<char>, at: nat, s: seq<char>) {
    |buf| == INPUT_BUF && |s| <= INPUT_BUF && forall i :: 0 <= i < |s| ==> buf[(at + i) % INPUT_BUF] == s[i]
  }

  lemma PutHolds(buf: seq<char>, at: nat, s: seq<char>, c: char)
    requires Holds(buf, at, s) && |s| < INPUT_BUF
    ensures Holds(buf[(at + |s|) % INPUT_BUF := c], at, s + [c])
  {
    forall i | 0 <= i < |s| ensures buf[(at + |s|) % INPUT_BUF := c][(at + i) % INPUT_BUF] == s[i] {
      Apart(at + i, at + |s|);
    }
  }

  lemma HoldsPart(buf: seq<char>, at: nat, s: seq<char>, i: nat, j: nat)
    requires Holds(buf, at, s) && i <= j <= |s|
    ensures Holds(buf, at + i, s[i..j])
  {
    forall k | 0 <= k < j - i ensures buf[(at + i + k) % INPUT_BUF] == s[i..j][k] {
      assert at + i + k == at + (i + k);
    }
  }

  /** Wrapped counters still tell how much is between them. */
  lemma Counters(x: nat, d: nat)
    requires d <= INPUT_BUF
    ensures U(x) == U(x + d) <==> d == 0
    ensures Gap(U(x + d), U(x)) == d
    ensures U(x + d) == (U(x) + INPUT_BUF) % WORD <==> d == INPUT_BUF
  {
  }

  /** No line end is left in the line being typed. */
  ghost predicate Unfinished(edit: seq<char>) {
    forall i :: 0 <= i < |edit| ==> edit[i] != '\n' && edit[i] != CTRL_D
  }

  class Input {
    const buf: array<char>
    var r: nat
    var w: nat
    var e: nat
    /** Everything ever committed, how much of it readers have taken, and the line being typed. */
    ghost var committed: seq<char>
    ghost var taken: nat
    ghost var edit: seq<char>

    ghost function Now(): (v: View)
      requires taken <= |committed|
      reads this
    {
      View(committed[taken..], edit)
    }

    ghost predicate Valid()
      reads this, buf
    {
      && buf.Length == INPUT_BUF && taken <= |committed| && Unfinished(edit)
      && Holds(buf[..], taken, committed[taken..] + edit)
      && r == U(taken) && w == U(|committed|) && e == U(|committed| + |edit|)
    }

    constructor ()
      ensures Valid() && fresh(buf) && committed == [] && taken == 0 && edit == []
    {
      buf := new char[INPUT_BUF];
      r, w, e, committed, taken, edit := 0, 0, 0, [], 0, [];
    }

    /** Drop the last character typed. */
    method Back()
      requires Valid() && edit != []
      modifies this`e, this`edit
      ensures Valid() && edit == old(edit)[..|old(edit)| - 1]
    {
      hide Holds, U, Up, Down, Gap;
      ghost var s := committed[taken..] + edit;
      HoldsPart(buf[..], taken, s, 0, |s| - 1);
      assert s[0..|s| - 1] == committed[taken..] + edit[..|edit| - 1];
      UpU(|committed| + |edit| - 1);
      e := Down(e);
      edit := edit[..|edit| - 1];
    }

    /** Ctrl-U */
    method KillLine()
      requires Valid()
      modifies this`e, this`edit
      ensures Valid() && edit == []
    {
      hide Holds, U, Up, Down, Gap;
      while true
        invariant Valid()
        decreases |edit|
      {
        Room(committed, taken, edit, buf[..]);
        Counters(|committed|, |edit|);
        if e == w {
          break;
        }
        LastTyped(buf[..], committed, taken, edit, e);
        if buf[Down(e) % INPUT_BUF] == '\n' {
          break;
        }
        Back();
      }
    }

    /** Store a character at e. */
    method Store(x: char)
      requires Valid() && |committed| - taken + |edit| < INPUT_BUF
      modifies this`e, buf
      ensures e == U(|committed| + |edit| + 1) && Holds(buf[..], taken, committed[taken..] + edit + [x])
    {
      hide Holds, U, Up, Down, Gap, Unfinished;
      ghost var s := committed[taken..] + edit;
      PutHolds(buf[..], taken, s, x);
      Slot(taken + |s|);
      ghost var b := buf[..];
      buf[e % INPUT_BUF] := x;
      assert buf[..] == b[(taken + |s|) % INPUT_BUF := x];
      UpU(|committed| + |edit|);
      e := Up(e);
    }

    /** The default case of consoleintr. */
    method Type(c: char) returns (woke: bool)
      requires Valid() && c != CTRL_P && c != CTRL_U && c != CTRL_H && c != DEL
      modifies this`e, this`w, this`edit, this`committed, buf
      ensures Valid() && Now() == Key(old(Now()), c)
      ensures woke <==> |committed| > |old(committed)|
    {
      hide Holds, U, Up, Down, Gap, Unfinished;
      ghost var n := |committed| - taken + |edit|;
      Room(committed, taken, edit, buf[..]);
      Counters(taken, n);
      if c == NUL || Gap(e, r) >= INPUT_BUF {
        return false;
      }
      var x := Translated(c);
      Store(x);
      Counters(taken, n + 1);
      assert committed[taken..] + edit + [x] == committed[taken..] + (edit + [x]);
      if x == '\n' || x == CTRL_D || e == (r + INPUT_BUF) % WORD {
        w := e;
        assert committed[taken..] + edit + [x] == (committed + (edit + [x]))[taken..] + [];
        committed, edit := committed + (edit + [x]), [];
        Ends(edit);
        return true;
      }
      Longer(edit, x);
      edit := edit + [x];
      return false;
    }

    /** consoleintr, for the characters getc gives it. */
    method Interrupt(cs: seq<char>)
      requires Valid()
      modifies this`e, this`w, this`edit, this`committed, buf
      ensures Valid() && Now() == Keys(old(Now()), cs)
    {
      hide Holds, U, Up, Down, Gap, Unfinished, Key;
      var i := 0;
      while i < |cs|
        invariant i <= |cs| && Valid() && Now() == Keys(old(Now()), cs[..i])
      {
        ghost var v := Now();
        Press(cs[i]);
        assert cs[..i + 1][..i] == cs[..i];
        i := i + 1;
      }
      assert cs[..|cs|] == cs;
    }

    method Press(c: char)
      requires Valid()
      modifies this`e, this`w, this`edit, this`committed, buf
      ensures Valid() && Now() == Key(old(Now()), c)
    {
      hide Holds, U, Up, Down, Gap, Unfinished;
      if c == CTRL_P {
      } else if c == CTRL_U {
        KillLine();
      } else if c == CTRL_H || c == DEL {
        Room(committed, taken, edit, buf[..]);
        Counters(|committed|, |edit|);
        if e != w {
          Back();
        }
      } else {
        var woke := Type(c);
      }
    }

    /** One character out. */
    method Take() returns (c: char)
      requires Valid() && taken < |committed|
      modifies this`r, this`taken
      ensures Valid() && taken == old(taken) + 1 && c == committed[old(taken)]
    {
      hide Holds, U, Up, Down, Gap;
      FirstReady(buf[..], committed, taken, edit);
      c := buf[r % INPUT_BUF];
      UpU(taken);
      r := Up(r);
      taken := taken + 1;
    }

    /** The one character just taken goes back. */
    method PutBack(ghost before: nat)
      requires Valid() && taken == before + 1 && Holds(buf[..], before, committed[before..] + edit)
      modifies this`r, this`taken
      ensures Valid() && taken == before
    {
      hide Holds, U, Up, Down, Gap;
      UpU(before);
      r := Down(r);
      taken := taken - 1;
    }

    /** consoleread with n of target characters still to deliver, up to its return or its next sleep. */
    method Read(n: nat, target: nat, killed: bool) returns (o: Outcome, out: seq<char>)
      requires Valid() && n <= target
      modifies this`r, this`taken
      ensures Valid() && old(taken) + |out| <= |committed| && out == committed[old(taken)..old(taken) + |out|]
      ensures |out| == Delivered(old(committed[taken..]), n)
      ensures taken == old(taken) + (if n == target then Eaten(old(committed[taken..]), n) else |out|)
      ensures o.Finished? <==> |out| == n || (out != [] && out[|out| - 1] == '\n') || (old(taken) + |out| < |committed| && committed[old(taken) + |out|] == CTRL_D)
      ensures o.Failed? <==> !o.Finished? && killed
    {
      hide Holds, U, Up, Down, Gap, Unfinished, Copied, Delivered;
      ghost var ready := committed[taken..];
      ghost var t0 := taken;
      var m := n;
      out := [];
      CopiedStarts(ready, n);
      while m > 0
        invariant 0 <= m && Valid() && taken == t0 + |out| && Copied(ready, out, n, m)
      {
        CopiedStops(ready, out, n, m);
        Room(committed, taken, edit, buf[..]);
        Counters(taken, |committed| - taken);
        if r == w {
          return if killed then Failed else Asleep, out;
        }
        var c := Take();
        assert c == ready[|out|];
        CopiedNext(ready, out, n, m);
        if c == CTRL_D {
          if m < target {
            PutBack(t0 + |out|);
          }
          return Finished, out;
        }
        out := out + [c];
        m := m - 1;
        if c == '\n' {
          return Finished, out;
        }
      }
      CopiedStops(ready, out, n, m);
      return Finished, out;
    }
  }

  /** A read that has delivered out and has m characters to go. */
  ghost predicate Copied(ready: seq<char>, out: seq<char>, n: nat, m: nat) {
    && m + |out| == n && out <= ready && |out| + Delivered(ready[|out|..], m) == Delivered(ready, n)
    && forall i :: 0 <= i < |out| ==> out[i] != '\n'
  }

  lemma CopiedStarts(ready: seq<char>, n: nat)
    ensures Copied(ready, [], n, n)
  {
    assert ready[0..] == ready;
  }

  lemma CopiedStops(ready: seq<char>, out: seq<char>, n: nat, m: nat)
    requires Copied(ready, out, n, m)
    ensures m + |out| == n && out <= ready && |out| <= Delivered(ready, n) && (out == [] || out[|out| - 1] != '\n')
    ensures m == 0 || out == ready ==> Delivered(ready, n) == |out|
  {
  }

  lemma CopiedNext(ready: seq<char>, out: seq<char>, n: nat, m: nat)
    requires Copied(ready, out, n, m) && m > 0 && |out| < |ready|
    ensures var c := ready[|out|];
            && out + [c] <= ready
            && (c == CTRL_D ==> Delivered(ready, n) == |out|)
            && (c == '\n' ==> Delivered(ready, n) == |out| + 1)
            && (c != CTRL_D && c != '\n' ==> Copied(ready, out + [c], n, m - 1))
  {
    assert ready[|out|..][1..] == ready[|out| + 1..];
  }

  datatype Outcome = Finished | Failed | Asleep

  lemma FirstReady(buf: seq<char>, committed: seq<char>, taken: nat, edit: seq<char>)
    requires taken < |committed| && Holds(buf, taken, committed[taken..] + edit)
    ensures |buf| == INPUT_BUF && buf[U(taken) % INPUT_BUF] == committed[taken]
    ensures Holds(buf, taken + 1, committed[taken + 1..] + edit)
  {
    var s := committed[taken..] + edit;
    Slot(taken);
    assert buf[(taken + 0) % INPUT_BUF] == s[0];
    HoldsPart(buf, taken, s, 1, |s|);
    assert s[1..|s|] == committed[taken + 1..] + edit;
  }

  lemma Room(committed: seq<char>, taken: nat, edit: seq<char>, buf: seq<char>)
    requires taken <= |committed| && Holds(buf, taken, committed[taken..] + edit)
    ensures |committed| - taken + |edit| <= INPUT_BUF
  {
  }

  lemma Ends(edit: seq<char>)
    requires edit == []
    ensures Unfinished(edit)
  {
  }

  lemma Longer(edit: seq<char>, x: char)
    requires Unfinished(edit) && x != '\n' && x != CTRL_D
    ensures Unfinished(edit + [x])
  {
  }

  /** The slot before e holds the last character typed, which is no line end. */
  lemma LastTyped(buf: seq<char>, committed: seq<char>, taken: nat, edit: seq<char>, e: nat)
    requires taken <= |committed| && Holds(buf, taken, committed[taken..] + edit) && edit != [] && Unfinished(edit)
    requires e == U(|committed| + |edit|)
    ensures |buf| == INPUT_BUF && buf[Down(e) % INPUT_BUF] == edit[|edit| - 1] != '\n'
  {
    hide Holds, U, Up, Down, Gap;
    HoldsSize(buf, taken, committed[taken..] + edit);
    var s := committed[taken..] + edit;
    var x := |committed| + |edit| - 1;
    Slot(x);
    UpU(x);
    HoldsAt(buf, taken, s, |s| - 1);
    assert x == taken + (|s| - 1);
  }

  lemma HoldsSize(buf: seq<char>, at: nat, s: seq<char>)
    requires Holds(buf, at, s)
    ensures |buf| == INPUT_BUF
  {
  }

  lemma HoldsAt(buf: seq<char>, at: nat, s: seq<char>, i: nat)
    requires Holds(buf, at, s) && i < |s|
    ensures (at + i) % INPUT_BUF < |buf| && buf[(at + i) % INPUT_BUF] == s[i]
  {
  }
}
