// Pipes (pipe.c): a ring of 512 bytes with two 32-bit counters that wrap around.  The methods are the
// stretches of pipewrite and piperead that run under the pipe's lock, from taking it to releasing it
// or going to sleep.
module Pipe {
  import opened Blocks

  const PIPESIZE: nat := 512

  // How a stretch of pipewrite or piperead ends.
  datatype End = Returned(value: int) | Asleep

  // What one stretch does: how many bytes move, and whether it goes to sleep and wakes the other side.
  datatype Stretch = Stretch(moved: nat, asleep: bool, woken: bool)

  // pipewrite with `left` bytes to go and room for `room`.
  function WriteStretch(left: nat, room: nat, readopen: bool, killed: bool): Stretch {
    if left <= room then Stretch(left, false, true)
    else Stretch(room, readopen && !killed, readopen && !killed)
  }

  // piperead of n bytes with `queued` in the pipe.
  function ReadStretch(n: nat, queued: nat, writeopen: bool, killed: bool): Stretch {
    if queued == 0 && writeopen then Stretch(0, !killed, false)
    else Stretch(if n < queued then n else queued, false, true)
  }

  class Pipe {
    const data: array<Byte>
    var nread: Word
    var nwrite: Word
    var readopen: bool
    var writeopen: bool
    ghost var written: seq<Byte>     // all bytes ever put in
    ghost var got: seq<Byte>         // all bytes ever taken out

    // pipealloc
    constructor ()
      ensures Valid() && Queue() == [] && written == [] && got == [] && readopen && writeopen && fresh(data)
    {
      data := new Byte[PIPESIZE];
      nread, nwrite, readopen, writeopen := 0, 0, true, true;
      written, got := [], [];
    }

    // The counters are the numbers of bytes, wrapped; the ring holds the bytes in between.
    ghost predicate Valid()
      reads this, data
    {
      && data.Length == PIPESIZE
      && |got| <= |written| <= |got| + PIPESIZE && got == written[..|got|]
      && nread == |got| % TWO32 && nwrite == |written| % TWO32
      && forall k :: |got| <= k < |written| ==> data[k % PIPESIZE] == written[k]
    }

    // What was written and not yet read.
    ghost function Queue(): (q: seq<Byte>)
      requires |got| <= |written|
      reads this
      ensures |q| == |written| - |got|
    {
      written[|got|..]
    }

    // pipewrite's test for a full ring, on the wrapped counters.
    predicate IsFull()
      reads this
    {
      nwrite == (nread + PIPESIZE) % TWO32
    }

    // One byte goes in.
    method Put(c: Byte)
      requires Valid() && |written| < |got| + PIPESIZE
      modifies this`nwrite, this`written, data
      ensures Valid() && written == old(written) + [c]
    {
      Wraps(|written|);
      Slots(|got|, |written|);
      data[nwrite % PIPESIZE] := c;
      nwrite := (nwrite + 1) % TWO32;
      written := written + [c];
    }

    // One byte comes out.
    method Take() returns (c: Byte)
      requires Valid() && |got| < |written|
      modifies this`nread, this`got
      ensures Valid() && c == old(Queue())[0] && got == old(got) + [c]
    {
      Wraps(|got|);
      c := data[nread % PIPESIZE];
      nread := (nread + 1) % TWO32;
      got := got + [c];
    }

    // pipewrite from byte i on, under the lock.  woken says whether the sleeping readers were woken.
    method WriteOn(addr: seq<Byte>, i0: nat, n: int, killed: bool) returns (i: nat, end: End, woken: bool)
      requires Valid() && (i0 <= n <= |addr| || (n < 0 && i0 == 0))
      modifies this`nwrite, this`written, data
      ensures Valid() && i0 <= i && (i <= n || i == i0)
      ensures written == old(written) + addr[i0..i] && got == old(got)
      ensures Queue() == old(Queue()) + addr[i0..i]
      ensures var s := WriteStretch(if n < i0 then 0 else n - i0, PIPESIZE - |old(Queue())|, readopen, killed);
        && i == i0 + s.moved && woken == s.woken
        && end == if s.asleep then Asleep else Returned(if s.woken then n else -1)
      ensures i < n ==> |Queue()| == PIPESIZE
      ensures woken <==> i >= n || (readopen && !killed)
      ensures end == if i >= n then Returned(n) else if readopen && !killed then Asleep else Returned(-1)
    {
      i := i0;
      woken := false;
      while i < n
        invariant Valid() && i0 <= i && (i <= n || i == i0) && i <= |addr|
        invariant written == old(written) + addr[i0..i] && got == old(got)
      {
        FullMeans(|got|, |written|);
        if IsFull() {
          if !readopen || killed {
            return i, Returned(-1), woken;
          }
          woken := true;
          return i, Asleep, woken;
        }
        Put(addr[i]);
        i := i + 1;
      }
      woken := true;
      end := Returned(n);
    }

    // piperead, under the lock.  woken says whether the sleeping writers were woken.
    method ReadOn(n: int, killed: bool) returns (dst: seq<Byte>, end: End, woken: bool)
      requires Valid()
      modifies this`nread, this`got
      ensures Valid() && got == old(got) + dst
      ensures Queue() == old(Queue())[|dst|..] && dst == old(Queue())[..|dst|]
      ensures var s := ReadStretch(if n <= 0 then 0 else n, |old(Queue())|, writeopen, killed);
        && |dst| == s.moved && woken == s.woken
        && end == if s.asleep then Asleep else Returned(if s.woken then |dst| else -1)
      ensures (end.Asleep? <==> old(Queue()) == [] && writeopen && !killed) && (end == Returned(-1) <==> old(Queue()) == [] && writeopen && killed)
      ensures |dst| <= (if n < 0 then 0 else n)
      ensures end.Returned? && end != Returned(-1) ==> end.value == |dst| && (|dst| >= n || Queue() == []) && woken
    {
      dst := [];
      EmptyMeans(|got|, |written|);
      if nread == nwrite && writeopen {
        if killed {
          return dst, Returned(-1), false;
        }
        return dst, Asleep, false;
      }
      var i := 0;
      while i < n
        invariant 0 <= i && (i <= n || i == 0) && i == |dst| <= |old(Queue())| && Valid()
        invariant got == old(got) + dst && dst == old(Queue())[..i]
      {
        EmptyMeans(|got|, |written|);
        if nread == nwrite {
          break;
        }
        var c := Take();
        dst := dst + [c];
        i := i + 1;
      }
      return dst, Returned(i), true;
    }

    // pipeclose, up to giving the page back when both ends are closed.
    method Close(writable: bool) returns (free: bool)
      requires Valid()
      modifies this`readopen, this`writeopen
      ensures Valid()
      ensures writeopen == (old(writeopen) && !writable) && readopen == (old(readopen) && writable)
      ensures free <==> !readopen && !writeopen
    {
      if writable {
        writeopen := false;
      } else {
        readopen := false;
      }
      free := !readopen && !writeopen;
    }
  }

  // The wrapped counter indexes the ring like the real one: 512 divides 2^32.
  lemma Wraps(n: nat)
    ensures n % TWO32 % PIPESIZE == n % PIPESIZE
    ensures (n % TWO32 + 1) % TWO32 == (n + 1) % TWO32
  {
    var q, r := n / TWO32, n % TWO32;
    assert n == TWO32 * q + r;
    assert n == PIPESIZE * (0x80_0000 * q) + r;
    ModAdd512(0x80_0000 * q, r);
    if r + 1 == TWO32 {
      assert n + 1 == TWO32 * (q + 1);
    }
  }

  lemma ModAdd512(q: nat, r: nat)
    ensures (512 * q + r) % 512 == r % 512
  {
  }

  lemma ModAdd32(q: nat, r: nat)
    ensures (0x1_0000_0000 * q + r) % 0x1_0000_0000 == r % 0x1_0000_0000
  {
  }

  // Different bytes in the ring have different places.
  lemma Slots(lo: nat, hi: nat)
    requires lo <= hi < lo + PIPESIZE
    ensures forall k :: lo <= k < hi ==> k % PIPESIZE != hi % PIPESIZE
  {
  }

  // Comparing wrapped counters is comparing the real difference, as long as it is at most 512.
  lemma FullMeans(got: nat, written: nat)
    requires got <= written <= got + PIPESIZE
    ensures written % TWO32 == (got % TWO32 + PIPESIZE) % TWO32 <==> written == got + PIPESIZE
  {
    var d := written - got;
    var q, r := got / TWO32, got % TWO32;
    assert written == TWO32 * q + (r + d);
    ModAdd32(q, r + d);
  }

  lemma EmptyMeans(got: nat, written: nat)
    requires got <= written <= got + PIPESIZE
    ensures got % TWO32 == written % TWO32 <==> written == got
  {
    var d := written - got;
    var q, r := got / TWO32, got % TWO32;
    assert written == TWO32 * q + (r + d);
    ModAdd32(q, r + d);
  }
}
