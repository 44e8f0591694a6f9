/**
The regular-expression matcher of grep.c, against a denotation of patterns.  A
string stands for the characters before the terminating NUL, and an index into
it for a pointer.
*/
module Grep {
  /** Char(c) is one character and Star(c) any number of them, '.' standing for every character. */
  datatype Atom = Char(c: char) | Star(c: char) | End

  predicate Fits(c: char, x: char) {
    c == '.' || c == x
  }

  /** The pattern text from position a on, as atoms. */
  function Parse(re: string, a: nat): (r: seq<Atom>)
    requires a <= |re|
    decreases |re| - a
  {
    if a == |re| then []
    else if a + 1 < |re| && re[a + 1] == '*' then [Star(re[a])] + Parse(re, a + 2)
    else if a + 1 == |re| && re[a] == '$' then [End]
    else [Char(re[a])] + Parse(re, a + 1)
  }

  function Print(atoms: seq<Atom>): (s: string) {
    if atoms == [] then ""
    else (match atoms[0] case Char(c) => [c] case Star(c) => [c, '*'] case End => "$") + Print(atoms[1..])
  }

  /** Parsing loses nothing of the pattern. */
  lemma {:induction false} PrintParse(re: string, a: nat)
    requires a <= |re|
    ensures Print(Parse(re, a)) == re[a..]
    decreases |re| - a
  {
    var r := Parse(re, a);
    if a == |re| {
    } else if a + 1 < |re| && re[a + 1] == '*' {
      PrintParse(re, a + 2);
      assert r[1..] == Parse(re, a + 2);
    } else if a + 1 == |re| && re[a] == '$' {
      assert Print(r) == "$" + Print([]) == re[a..];
    } else {
      PrintParse(re, a + 1);
      assert r[1..] == Parse(re, a + 1);
    }
  }

  // ---- the denotation ----

  ghost predicate AllFit(c: char, t: string, i: nat, k: nat) {
    i <= k <= |t| && forall m :: i <= m < k ==> Fits(c, t[m])
  }

  /** The atom takes t[i..k]. */
  ghost predicate Takes(x: Atom, t: string, i: nat, k: nat) {
    match x
    case Char(c) => k == i + 1 <= |t| && Fits(c, t[i])
    case Star(c) => AllFit(c, t, i, k)
    case End => k == i == |t|
  }

  /** The atoms take t[i..j] one after the other. */
  ghost predicate Denotes(atoms: seq<Atom>, t: string, i: nat, j: nat) {
    if atoms == [] then i == j <= |t|
    else exists k :: i <= k <= j && Takes(atoms[0], t, i, k) && Denotes(atoms[1..], t, k, j)
  }

  /** Some stretch of t from i on is denoted. */
  ghost predicate Ahead(atoms: seq<Atom>, t: string, i: nat) {
    exists j :: Denotes(atoms, t, i, j)
  }

  ghost predicate Somewhere(atoms: seq<Atom>, t: string) {
    exists i :: 0 <= i <= |t| && Ahead(atoms, t, i)
  }

  /** What grep looks for in a line. */
  ghost predicate Found(re: string, t: string) {
    if |re| > 0 && re[0] == '^' then Ahead(Parse(re, 1), t, 0) else Somewhere(Parse(re, 0), t)
  }

  lemma Joined(x: seq<Atom>, t: string, i: nat, k: nat, j: nat)
    requires x != [] && i <= k <= j && Takes(x[0], t, i, k) && Denotes(x[1..], t, k, j)
    ensures Denotes(x, t, i, j)
  {
  }

  /** What a concatenation denotes splits into what its two parts denote, and back. */
  lemma {:induction false} AppendSplits(x: seq<Atom>, y: seq<Atom>, t: string, i: nat, j: nat) returns (m: nat)
    requires Denotes(x + y, t, i, j)
    ensures i <= m <= j && Denotes(x, t, i, m) && Denotes(y, t, m, j)
    decreases |x|
  {
    DenotesBounds(x + y, t, i, j);
    if x == [] {
      assert x + y == y;
      m := i;
    } else {
      var z := x + y;
      assert z[0] == x[0] && z[1..] == x[1..] + y;
      var k :| i <= k <= j && Takes(z[0], t, i, k) && Denotes(z[1..], t, k, j);
      m := AppendSplits(x[1..], y, t, k, j);
      Joined(x, t, i, k, m);
    }
  }

  lemma {:induction false} AppendJoins(x: seq<Atom>, y: seq<Atom>, t: string, i: nat, m: nat, j: nat)
    requires i <= m <= j && Denotes(x, t, i, m) && Denotes(y, t, m, j)
    ensures Denotes(x + y, t, i, j)
    decreases |x|
  {
    if x == [] {
      assert x + y == y;
    } else {
      var z := x + y;
      assert z[0] == x[0] && z[1..] == x[1..] + y;
      var k :| i <= k <= m && Takes(x[0], t, i, k) && Denotes(x[1..], t, k, m);
      AppendJoins(x[1..], y, t, k, m, j);
      Joined(z, t, i, k, j);
    }
  }

  lemma {:induction false} DenotesBounds(x: seq<Atom>, t: string, i: nat, j: nat)
    requires Denotes(x, t, i, j)
    ensures i <= j <= |t|
    decreases |x|
  {
    if x != [] {
      var k :| i <= k <= j && Takes(x[0], t, i, k) && Denotes(x[1..], t, k, j);
      DenotesBounds(x[1..], t, k, j);
    }
  }

  /** Without '$' a match looks only at the stretch it takes. */
  lemma {:induction false} DenotesLocal(x: seq<Atom>, t: string, i: nat, j: nat, u: string, d: int)
    requires End !in x && 0 <= i + d && j + d <= |u| && i <= j <= |t| && forall m :: i <= m < j ==> 0 <= m + d < |u| && t[m] == u[m + d]
    requires Denotes(x, t, i, j)
    ensures Denotes(x, u, i + d, j + d)
    decreases |x|
  {
    if x != [] {
      var k :| i <= k <= j && Takes(x[0], t, i, k) && Denotes(x[1..], t, k, j);
      if x[0].Star? {
        forall m | i + d <= m < k + d ensures Fits(x[0].c, u[m]) { assert t[m - d] == u[m]; }
      }
      assert Takes(x[0], u, i + d, k + d);
      DenotesLocal(x[1..], t, k, j, u, d);
    }
  }

  // ---- the matcher ----

  /** A star at the front takes some number of fitting characters first. */
  lemma StarAhead(c: char, rest: seq<Atom>, t: string, i: nat)
    ensures Ahead([Star(c)] + rest, t, i) <==> exists k :: AllFit(c, t, i, k) && Ahead(rest, t, k)
  {
    var x := [Star(c)] + rest;
    assert x[0] == Star(c) && x[1..] == rest;
    if j :| Denotes(x, t, i, j) {
      var k :| i <= k <= j && Takes(x[0], t, i, k) && Denotes(x[1..], t, k, j);
      assert AllFit(c, t, i, k) && Ahead(rest, t, k);
    }
    if k :| AllFit(c, t, i, k) && Ahead(rest, t, k) {
      var j :| Denotes(rest, t, k, j);
      DenotesBounds(rest, t, k, j);
      Joined(x, t, i, k, j);
    }
  }

  lemma CharAhead(c: char, rest: seq<Atom>, t: string, i: nat)
    ensures Ahead([Char(c)] + rest, t, i) <==> i < |t| && Fits(c, t[i]) && Ahead(rest, t, i + 1)
  {
    var x := [Char(c)] + rest;
    assert x[0] == Char(c) && x[1..] == rest;
    if j :| Denotes(x, t, i, j) {
      var k :| i <= k <= j && Takes(x[0], t, i, k) && Denotes(x[1..], t, k, j);
      assert k == i + 1 && Denotes(rest, t, k, j);
    }
    if i < |t| && Fits(c, t[i]) && Ahead(rest, t, i + 1) {
      var j :| Denotes(rest, t, i + 1, j);
      DenotesBounds(rest, t, i + 1, j);
      Joined(x, t, i, i + 1, j);
    }
  }

  lemma EndAhead(t: string, i: nat)
    ensures Ahead([End], t, i) <==> i == |t|
  {
    if i == |t| {
      Joined([End], t, i, i, i);
    }
  }

  lemma NilAhead(t: string, i: nat)
    requires i <= |t|
    ensures Ahead([], t, i)
  {
    assert Denotes([], t, i, i);
  }

  /** match */
  method Match(re: string, t: string) returns (r: bool)
    ensures r <==> Found(re, t)
  {
    if |re| > 0 && re[0] == '^' {
      r := MatchHere(re, 1, t, 0);
      return;
    }
    var i := 0;
    while true
      invariant 0 <= i <= |t| && forall k :: 0 <= k < i ==> !Ahead(Parse(re, 0), t, k)
      decreases |t| - i
    {
      r := MatchHere(re, 0, t, i);
      if r {
        return;
      }
      if i == |t| {
        return;
      }
      i := i + 1;
    }
  }

  /** matchhere */
  method MatchHere(re: string, a: nat, t: string, i: nat) returns (r: bool)
    requires a <= |re| && i <= |t|
    ensures r <==> Ahead(Parse(re, a), t, i)
    decreases |re| - a, 0
  {
    if a == |re| {
      NilAhead(t, i);
      return true;
    }
    if a + 1 < |re| && re[a + 1] == '*' {
      r := MatchStar(re[a], re, a + 2, t, i);
      return;
    }
    if re[a] == '$' && a + 1 == |re| {
      EndAhead(t, i);
      return i == |t|;
    }
    CharAhead(re[a], Parse(re, a + 1), t, i);
    if i < |t| && (re[a] == '.' || re[a] == t[i]) {
      r := MatchHere(re, a + 1, t, i + 1);
      return;
    }
    return false;
  }

  /** matchstar */
  method MatchStar(c: char, re: string, a: nat, t: string, i: nat) returns (r: bool)
    requires a <= |re| && i <= |t|
    ensures r <==> Ahead([Star(c)] + Parse(re, a), t, i)
    decreases |re| - a, 1
  {
    hide Parse, Denotes, Ahead;
    StarAhead(c, Parse(re, a), t, i);
    var j := i;
    while true
      invariant AllFit(c, t, i, j) && forall k :: i <= k < j ==> !Ahead(Parse(re, a), t, k)
      decreases |t| - j
    {
      r := MatchHere(re, a, t, j);
      if r {
        return;
      }
      if !(j < |t| && (t[j] == c || c == '.')) {
        return;
      }
      j := j + 1;
    }
  }

  // ---- what a search finds ----

  lemma {:induction false} ParseShift(re1: string, re2: string, b: nat)
    requires b <= |re2|
    ensures Parse(re1 + re2, |re1| + b) == Parse(re2, b)
    decreases |re2| - b
  {
    var re, a := re1 + re2, |re1| + b;
    if b < |re2| {
      if b + 1 < |re2| {
        assert re[a + 1] == re2[b + 1];
        if re2[b + 1] == '*' {
          ParseShift(re1, re2, b + 2);
        } else {
          ParseShift(re1, re2, b + 1);
        }
      } else {
        ParseShift(re1, re2, b + 1);
      }
    }
  }

  lemma ParseStep(re: string, a: nat)
    requires a < |re|
    ensures a + 1 < |re| && re[a + 1] == '*' ==> Parse(re, a) == [Star(re[a])] + Parse(re, a + 2)
    ensures a + 1 == |re| && re[a] == '$' ==> Parse(re, a) == [End]
    ensures !(a + 1 < |re| && re[a + 1] == '*') && !(a + 1 == |re| && re[a] == '$') ==> Parse(re, a) == [Char(re[a])] + Parse(re, a + 1)
  {
  }

  /** Two patterns written one after the other are read as the one and then the other. */
  lemma {:induction false} ParseConcat(re1: string, re2: string, a: nat)
    requires a <= |re1| && End !in Parse(re1, a) && (re2 == "" || re2[0] != '*')
    ensures Parse(re1 + re2, a) == Parse(re1, a) + Parse(re2, 0)
    decreases |re1| - a
  {
    var re := re1 + re2;
    if a == |re1| {
      ParseShift(re1, re2, 0);
      assert Parse(re1, a) == [];
    } else {
      hide Parse;
      assert re[a] == re1[a] && (a + 1 < |re| ==> re[a + 1] == if a + 1 < |re1| then re1[a + 1] else re2[a + 1 - |re1|]);
      ParseStep(re1, a);
      ParseStep(re, a);
      var n := if a + 1 < |re1| && re1[a + 1] == '*' then a + 2 else a + 1;
      assert Parse(re1, a)[1..] == Parse(re1, n);
      ParseConcat(re1, re2, n);
    }
  }

  /** A stretch of y follows one of x. */
  ghost predicate Follows(x: seq<Atom>, y: seq<Atom>, t: string, i: nat, m: nat, j: nat) {
    Denotes(x, t, i, m) && Denotes(y, t, m, j)
  }

  lemma SomewhereSplits(x: seq<Atom>, y: seq<Atom>, t: string)
    ensures Somewhere(x + y, t) <==> exists i, m, j :: Follows(x, y, t, i, m, j)
  {
    hide Denotes;
    if Somewhere(x + y, t) {
      var i: nat :| 0 <= i <= |t| && Ahead(x + y, t, i);
      var j :| Denotes(x + y, t, i, j);
      var m := AppendSplits(x, y, t, i, j);
      assert Follows(x, y, t, i, m, j);
    }
    if i, m, j :| Follows(x, y, t, i, m, j) {
      DenotesBounds(x, t, i, m);
      DenotesBounds(y, t, m, j);
      AppendJoins(x, y, t, i, m, j);
      assert Ahead(x + y, t, i);
    }
  }

  /** Searching for two patterns in a row finds a line where a stretch of the second follows one of the first. */
  lemma ConcatFound(re1: string, re2: string, t: string)
    requires re1 != "" && re1[0] != '^' && End !in Parse(re1, 0) && (re2 == "" || re2[0] != '*')
    ensures Found(re1 + re2, t) <==> exists i, m, j :: Follows(Parse(re1, 0), Parse(re2, 0), t, i, m, j)
  {
    hide Parse, Somewhere, Follows;
    ParseConcat(re1, re2, 0);
    SomewhereSplits(Parse(re1, 0), Parse(re2, 0), t);
    assert (re1 + re2)[0] == re1[0];
  }

  /** Without '$' a line that is found is found in any longer one, after '^' if it only goes on to the right. */
  lemma FoundInLonger(re: string, left: string, t: string, right: string)
    requires Found(re, t) && End !in Parse(re, if re != "" && re[0] == '^' then 1 else 0) && (re != "" && re[0] == '^' ==> left == "")
    ensures Found(re, left + t + right)
  {
    var u := left + t + right;
    if re != "" && re[0] == '^' {
      var j :| Denotes(Parse(re, 1), t, 0, j);
      DenotesBounds(Parse(re, 1), t, 0, j);
      DenotesLocal(Parse(re, 1), t, 0, j, u, 0);
    } else {
      var i :| 0 <= i <= |t| && Ahead(Parse(re, 0), t, i);
      var j :| Denotes(Parse(re, 0), t, i, j);
      DenotesBounds(Parse(re, 0), t, i, j);
      DenotesLocal(Parse(re, 0), t, i, j, u, |left|);
      assert Ahead(Parse(re, 0), u, i + |left|);
    }
  }

  /** Letters and dots only. */
  ghost predicate Letters(re: string) {
    forall k :: 0 <= k < |re| ==> re[k] !in {'*', '^', '$'}
  }

  /** At place i the line has the pattern's letters, and any character for a dot. */
  ghost predicate Occurs(re: string, t: string, i: nat) {
    i + |re| <= |t| && forall k :: 0 <= k < |re| ==> re[k] == '.' || t[i + k] == re[k]
  }

  lemma CharDenotes(c: char, rest: seq<Atom>, t: string, i: nat, j: nat)
    ensures Denotes([Char(c)] + rest, t, i, j) <==> i < |t| && Fits(c, t[i]) && Denotes(rest, t, i + 1, j)
  {
    var x := [Char(c)] + rest;
    assert x[1..] == rest;
    if i < |t| && Fits(c, t[i]) && Denotes(rest, t, i + 1, j) {
      DenotesBounds(rest, t, i + 1, j);
      Joined(x, t, i, i + 1, j);
    }
  }

  lemma OccursStep(re: string, a: nat, t: string, i: nat)
    requires a < |re|
    ensures Occurs(re[a..], t, i) <==> i < |t| && (re[a] == '.' || t[i] == re[a]) && Occurs(re[a + 1..], t, i + 1)
  {
    var x, y := re[a..], re[a + 1..];
    assert x[0] == re[a] && forall k :: 0 <= k < |y| ==> y[k] == x[k + 1];
    if Occurs(x, t, i) {
      forall k | 0 <= k < |y| ensures y[k] == '.' || t[i + 1 + k] == y[k] {
        assert x[k + 1] == '.' || t[i + (k + 1)] == x[k + 1];
      }
    }
    if i < |t| && (re[a] == '.' || t[i] == re[a]) && Occurs(y, t, i + 1) {
      forall k | 0 <= k < |x| ensures x[k] == '.' || t[i + k] == x[k] {
        assert k > 0 ==> y[k - 1] == x[k];
      }
    }
  }

  lemma {:induction false} LettersDenote(re: string, a: nat, t: string, i: nat, j: nat)
    requires Letters(re) && a <= |re|
    ensures Denotes(Parse(re, a), t, i, j) <==> j == i + |re| - a && Occurs(re[a..], t, i)
    decreases |re| - a
  {
    if a < |re| {
      ParseStep(re, a);
      hide Parse, Denotes, Occurs;
      CharDenotes(re[a], Parse(re, a + 1), t, i, j);
      OccursStep(re, a, t, i);
      LettersDenote(re, a + 1, t, i + 1, j);
    }
  }

  /** A search for letters and dots finds the lines that have the letters in a row, with any one character for each
      dot. */
  lemma LettersFound(re: string, t: string)
    requires Letters(re)
    ensures Found(re, t) <==> exists i :: Occurs(re, t, i)
  {
    assert re[0..] == re;
    if Found(re, t) {
      var i :| 0 <= i <= |t| && Ahead(Parse(re, 0), t, i);
      var j :| Denotes(Parse(re, 0), t, i, j);
      LettersDenote(re, 0, t, i, j);
    }
    if i: nat :| Occurs(re, t, i) {
      LettersDenote(re, 0, t, i, i + |re|);
      assert Ahead(Parse(re, 0), t, i);
    }
  }

  predicate PartAt(s: string, t: string, i: nat) {
    i + |s| <= |t| && t[i..i + |s|] == s
  }

  /** A search for a pattern without special characters finds the lines it is part of. */
  lemma PlainIsSubstring(re: string, t: string)
    requires Letters(re) && '.' !in re
    ensures Found(re, t) <==> exists i :: PartAt(re, t, i)
  {
    hide Found;
    LettersFound(re, t);
    if i: nat :| Occurs(re, t, i) {
      assert forall k :: 0 <= k < |re| ==> t[i..i + |re|][k] == re[k] by {
        assert forall k :: 0 <= k < |re| ==> re[k] in re;
      }
      assert PartAt(re, t, i);
    }
    if i: nat :| PartAt(re, t, i) {
      forall k | 0 <= k < |re| ensures t[i + k] == re[k] {
        assert t[i..i + |re|][k] == re[k];
      }
      assert Occurs(re, t, i);
    }
  }

  /** `^c*$`: the line has no character but c, or any characters if c is a dot. */
  lemma StarFound(c: char, t: string)
    ensures Found(['^', c, '*', '$'], t) <==> c == '.' || forall k :: 0 <= k < |t| ==> t[k] == c
  {
    var re := ['^', c, '*', '$'];
    assert Parse(re, 3) == [End];
    assert Parse(re, 1) == [Star(c), End];
    assert [Star(c), End][1..] == [End];
    if Found(re, t) {
      var j :| Denotes([Star(c), End], t, 0, j);
      var k :| 0 <= k <= j && Takes(Star(c), t, 0, k) && Denotes([End], t, k, j);
      EndOnly(t, k, j);
    }
    if c == '.' || forall k :: 0 <= k < |t| ==> t[k] == c {
      EndOnly(t, |t|, |t|);
      assert Takes(Star(c), t, 0, |t|);
      Joined([Star(c), End], t, 0, |t|, |t|);
      assert Ahead([Star(c), End], t, 0);
    }
  }

  /** `^` in front: the line begins with the pattern. */
  lemma CaretFound(re: string, t: string)
    requires Letters(re)
    ensures Found(['^'] + re, t) <==> Occurs(re, t, 0)
  {
    hide Parse, Denotes, Occurs;
    ParseShift(['^'], re, 0);
    assert re[0..] == re;
    if Found(['^'] + re, t) {
      var j :| Denotes(Parse(re, 0), t, 0, j);
      LettersDenote(re, 0, t, 0, j);
    }
    if Occurs(re, t, 0) {
      LettersDenote(re, 0, t, 0, |re|);
    }
  }

  lemma {:induction false} LettersParse(re: string, a: nat)
    requires Letters(re) && a <= |re|
    ensures End !in Parse(re, a)
    decreases |re| - a
  {
    if a < |re| {
      ParseStep(re, a);
      LettersParse(re, a + 1);
    }
  }

  /** `$` behind: the line ends with the pattern. */
  lemma DollarFound(re: string, t: string)
    requires Letters(re) && re != ""
    ensures Found(re + ['$'], t) <==> |re| <= |t| && Occurs(re, t, |t| - |re|)
  {
    hide Occurs, Found;
    LettersParse(re, 0);
    ConcatFound(re, ['$'], t);
    assert re[0..] == re;
    assert Parse(['$'], 0) == [End];
    if i, m, j :| Follows(Parse(re, 0), [End], t, i, m, j) {
      LettersDenote(re, 0, t, i, m);
      EndOnly(t, m, j);
    }
    if |re| <= |t| && Occurs(re, t, |t| - |re|) {
      LettersDenote(re, 0, t, |t| - |re|, |t|);
      EndOnly(t, |t|, |t|);
      assert Follows(Parse(re, 0), [End], t, |t| - |re|, |t|, |t|);
    }
  }

  lemma EndOnly(t: string, i: nat, j: nat)
    ensures Denotes([End], t, i, j) <==> i == j == |t|
  {
    assert [End][1..] == [];
    if i == j == |t| {
      assert Denotes([], t, j, j);
      Joined([End], t, i, j, j);
    }
  }
}
