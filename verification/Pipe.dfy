/**
Pipes (pipe.c): a ring of 512 bytes indexed by two 32-bit counters that wrap.
Each method is what one process does between taking p->lock and giving it up,
which it does on return and in sleep.
*/
module Pipe {
  const PIPESIZE: nat := 512
  const WORD: nat := 0x1_0000_0000

  datatype Outcome = Done | Failed | Slept

  /** PIPESIZE divides the counters' range, so wrapping does not move a byte. */
  lemma Slot(x: nat)
    ensures x % WORD % PIPESIZE == x % PIPESIZE
  {
    assert x == x / WORD * WORD + x % WORD;
    assert x == x / WORD * 8388608 * PIPESIZE + x % WORD;
    Multiple(x / WORD * 8388608, x % WORD);
  }

  lemma Multiple(q: nat, r: nat)
    ensures (q * PIPESIZE + r) % PIPESIZE == r % PIPESIZE
  {
  }

  lemma Apart(x: nat, y: nat)
    requires x < y < x + PIPESIZE
    ensures x % PIPESIZE != y % PIPESIZE
  {
  }

  /** Wrapped counters still tell how many bytes are in the ring. */
  lemma Counters(got: nat, sent: nat)
    requires got <= sent <= got + PIPESIZE
    ensures got % WORD == sent % WORD <==> got == sent
    ensures sent % WORD == (got % WORD + PIPESIZE) % WORD <==> sent == got + PIPESIZE
  {
  }

  /** The ring holds the bytes sent and not yet got. */
  ghost predicate Holds(data: seq<char>, sent: seq<char>, got: nat) {
    && |data| == PIPESIZE && got <= |sent| <= got + PIPESIZE
    && forall i :: got <= i < |sent| ==> data[i % PIPESIZE] == sent[i]
  }

  lemma PutHolds(data: seq<char>, sent: seq<char>, got: nat, b: char)
    requires Holds(data, sent, got) && |sent| < got + PIPESIZE
    ensures Holds(data[|sent| % PIPESIZE := b], sent + [b], got)
  {
    forall i | got <= i < |sent| ensures i % PIPESIZE != |sent| % PIPESIZE {
      Apart(i, |sent|);
    }
  }

  lemma HeldCount(data: seq<char>, sent: seq<char>, got: nat)
    requires Holds(data, sent, got)
    ensures got <= |sent| <= got + PIPESIZE
  {
  }

  class Ring {
    const data: array<char>
    var nread: nat
    var nwrite: nat
    var readopen: bool
    var writeopen: bool
    /** Every byte ever written, and every byte ever read. */
    ghost var sent: seq<char>
    ghost var taken: seq<char>

    /** What has been read is a prefix of what has been written, and the ring holds the rest. */
    ghost predicate Valid()
      reads this, data
    {
      && data.Length == PIPESIZE && taken <= sent && Holds(data[..], sent, |taken|)
      && nread == |taken| % WORD && nwrite == |sent| % WORD
    }

    /** pipealloc */
    constructor ()
      ensures Valid() && fresh(data) && sent == [] && taken == [] && readopen && writeopen
    {
      data := new char[PIPESIZE];
      nread, nwrite, readopen, writeopen, sent, taken := 0, 0, true, true, [], [];
    }

    method Put(b: char)
      requires Valid() && |sent| < |taken| + PIPESIZE
      modifies this`nwrite, this`sent, data
      ensures Valid() && sent == old(sent) + [b]
    {
      PutHolds(data[..], sent, |taken|, b);
      Slot(|sent|);
      ghost var d := data[..];
      data[nwrite % PIPESIZE] := b;
      assert data[..] == d[|sent| % PIPESIZE := b];
      nwrite := (nwrite + 1) % WORD;
      sent := sent + [b];
    }

    /** pipewrite from byte i on, up to its return or its next sleep. */
    method Write(addr: seq<char>, i: nat, killed: bool) returns (o: Outcome, j: nat)
      requires Valid() && i <= |addr|
      modifies this`nwrite, this`sent, data
      ensures Valid() && i <= j <= |addr| && sent == old(sent) + addr[i..j]
      ensures o.Done? <==> |addr| - i <= old(|taken| + PIPESIZE - |sent|)
      ensures o.Done? ==> j == |addr|
      ensures !o.Done? ==> |sent| == |taken| + PIPESIZE && j < |addr|
      ensures o.Failed? <==> !o.Done? && (!readopen || killed)
    {
      j := i;
      while j < |addr|
        invariant i <= j <= |addr| && Valid() && sent == old(sent) + addr[i..j]
      {
        Counters(|taken|, |sent|);
        if nwrite == (nread + PIPESIZE) % WORD {
          if !readopen || killed {
            return Failed, j;
          }
          return Slept, j;
        }
        Put(addr[j]);
        j := j + 1;
      }
      return Done, j;
    }

    method Get() returns (b: char)
      requires Valid() && |taken| < |sent|
      modifies this`nread, this`taken
      ensures Valid() && taken == old(taken) + [b]
    {
      Slot(|taken|);
      b := data[nread % PIPESIZE];
      assert b == sent[|taken|];
      nread := (nread + 1) % WORD;
      taken := taken + [b];
    }

    /** piperead, up to its return or its next sleep. */
    method Read(n: nat, killed: bool) returns (o: Outcome, out: seq<char>)
      requires Valid()
      modifies this`nread, this`taken
      ensures Valid() && taken == old(taken) + out
      ensures o.Done? <==> old(taken) != sent || !writeopen
      ensures o.Done? ==> |out| == n || (|out| < n && taken == sent)
      ensures !o.Done? ==> out == []
      ensures o.Failed? <==> !o.Done? && killed
    {
      hide Holds;
      HeldCount(data[..], sent, |taken|);
      Counters(|taken|, |sent|);
      out := [];
      if nread == nwrite && writeopen {
        return if killed then Failed else Slept, out;
      }
      while |out| < n
        invariant |out| <= n && Valid() && taken == old(taken) + out
        decreases n - |out|
      {
        HeldCount(data[..], sent, |taken|);
        Counters(|taken|, |sent|);
        if nread == nwrite {
          break;
        }
        var b := Get();
        out := out + [b];
      }
      return Done, out;
    }

    /** pipeclose; the pipe is freed when both ends are closed. */
    method Close(writable: bool) returns (freed: bool)
      requires Valid()
      modifies this`readopen, this`writeopen
      ensures Valid()
      ensures readopen == (old(readopen) && writable) && writeopen == (old(writeopen) && !writable)
      ensures freed <==> !readopen && !writeopen
    {
      if writable {
        writeopen := false;
      } else {
        readopen := false;
      }
      freed := !readopen && !writeopen;
    }
  }
}
