/**
Sequences of logged writes: what they make of a disk, and which blocks they
name.
*/
module Journal {
  import opened Blocks

  /** One log_write: operation op put data in block bn. */
  datatype Write = Write(op: nat, bn: nat, data: Block)

  /** The disk after the writes, in order, and nothing else. */
  ghost function Replay(d: Disk, ws: seq<Write>): (r: Disk)
    ensures |r| == |d|
  {
    if ws == [] then d
    else
      var e := Replay(d, ws[..|ws| - 1]);
      var w := ws[|ws| - 1];
      if w.bn < |e| then e[w.bn := w.data] else e
  }

  lemma {:induction false} ReplayAppends(d: Disk, ws: seq<Write>, more: seq<Write>)
    ensures Replay(d, ws + more) == Replay(Replay(d, ws), more)
  {
    if more == [] {
      assert ws + more == ws;
    } else {
      var last := |more| - 1;
      assert (ws + more)[..|ws + more| - 1] == ws + more[..last];
      ReplayAppends(d, ws, more[..last]);
    }
  }

  lemma {:induction false} ReplayUntouched(d: Disk, ws: seq<Write>, bn: nat)
    requires bn < |d| && forall i :: 0 <= i < |ws| ==> ws[i].bn != bn
    ensures Replay(d, ws)[bn] == d[bn]
  {
    if ws != [] {
      ReplayUntouched(d, ws[..|ws| - 1], bn);
    }
  }

  /** The blocks named. */
  ghost function Logged(ws: seq<Write>): (r: set<nat>) {
    set i | 0 <= i < |ws| :: ws[i].bn
  }

  lemma LoggedAppends(ws: seq<Write>, more: seq<Write>)
    ensures Logged(ws + more) == Logged(ws) + Logged(more)
  {
    forall x | x in Logged(ws) + Logged(more) ensures x in Logged(ws + more) {
      if x in Logged(ws) {
        var i :| 0 <= i < |ws| && ws[i].bn == x;
        assert (ws + more)[i].bn == x;
      } else {
        var i :| 0 <= i < |more| && more[i].bn == x;
        assert (ws + more)[|ws| + i].bn == x;
      }
    }
  }

  lemma LoggedOne(w: Write)
    ensures Logged([w]) == {w.bn} && Logged([]) == {}
  {
    assert [w][0] == w;
  }

  /** ws is ws0 and then the writes that take the disk from d0 to d. */
  ghost predicate Extends(ws0: seq<Write>, d0: Disk, ws: seq<Write>, d: Disk) {
    ws0 <= ws && Replay(d0, Since(ws0, ws)) == d
  }

  ghost function Since(ws0: seq<Write>, ws: seq<Write>): (r: seq<Write>) {
    if ws0 <= ws then ws[|ws0|..] else []
  }

  lemma ExtendsNone(ws: seq<Write>, d: Disk)
    ensures Extends(ws, d, ws, d) && Since(ws, ws) == [] && Logged(Since(ws, ws)) == {}
  {
  }

  lemma ExtendsOne(ws: seq<Write>, d: Disk, w: Write)
    requires w.bn < |d|
    ensures Extends(ws, d, ws + [w], d[w.bn := w.data]) && Since(ws, ws + [w]) == [w] && Logged(Since(ws, ws + [w])) == {w.bn}
  {
    assert (ws + [w])[|ws|..] == [w];
    assert [w][..0] == [];
    LoggedOne(w);
  }

  lemma ExtendsTwice(ws0: seq<Write>, d0: Disk, ws1: seq<Write>, d1: Disk, ws2: seq<Write>, d2: Disk)
    requires Extends(ws0, d0, ws1, d1) && Extends(ws1, d1, ws2, d2)
    ensures Extends(ws0, d0, ws2, d2) && Since(ws0, ws2) == Since(ws0, ws1) + Since(ws1, ws2)
    ensures Logged(Since(ws0, ws2)) == Logged(Since(ws0, ws1)) + Logged(Since(ws1, ws2))
  {
    hide Logged;
    assert ws2[|ws0|..] == ws1[|ws0|..] + ws2[|ws1|..];
    ReplayAppends(d0, ws1[|ws0|..], ws2[|ws1|..]);
    LoggedAppends(ws1[|ws0|..], ws2[|ws1|..]);
  }
}
