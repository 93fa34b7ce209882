/** The pipe of pipe.c and the sleep/wakeup protocol (proc.c) it is built on. */
module Pipe {
  import opened Param

  const PIPESIZE: nat := 512


  /** The two 32-bit counters' tests, as the C code computes them. */
  predicate Full(nread: Word, nwrite: Word) {
    nwrite == (nread + PIPESIZE) % U32
  }

  predicate Empty(nread: Word, nwrite: Word) {
    nread == nwrite
  }

  /** The buffered bytes, read off the ring from nread up to nwrite. */
  function Buffered(data: seq<Byte>, nread: Word, nwrite: Word): (r: seq<Byte>)
    requires |data| == PIPESIZE
    ensures |r| == (nwrite - nread) % U32
    decreases (nwrite - nread) % U32
  {
    if nread == nwrite then [] else [data[nread % PIPESIZE]] + Buffered(data, (nread + 1) % U32, nwrite)
  }

  /** Slot of the k-th byte ever written holds it, for the bytes not yet read; the counters wrap at 2^32. */
  ghost predicate PipeOk(data: seq<Byte>, nread: Word, nwrite: Word, accepted: seq<Byte>, delivered: seq<Byte>) {
    && |data| == PIPESIZE && delivered <= accepted && |accepted| - |delivered| <= PIPESIZE
    && nread == |delivered| % U32 && nwrite == |accepted| % U32
    && forall k :: |delivered| <= k < |accepted| ==> SlotHolds(data, accepted, k)
  }

  predicate SlotHolds(data: seq<Byte>, accepted: seq<Byte>, k: nat)
    requires |data| == PIPESIZE && k < |accepted|
  {
    data[k % PIPESIZE] == accepted[k]
  }

  /** PIPESIZE divides 2^32, so a wrapped counter finds the same slot. */
  lemma WrapKeepsSlot(k: nat)
    ensures k % U32 % PIPESIZE == k % PIPESIZE
    ensures (k % U32 + 1) % U32 == (k + 1) % U32
  {
    var q := k / U32;
    assert k == U32 * q + k % U32;
    assert U32 == PIPESIZE * 8388608;
    assert k % PIPESIZE == (PIPESIZE * (8388608 * q) + k % U32) % PIPESIZE;
    ModShift(8388608 * q, k % U32);
  }

  lemma {:induction false} ModShift(m: nat, x: nat)
    ensures (PIPESIZE * m + x) % PIPESIZE == x % PIPESIZE
  {
    if m > 0 {
      ModShift(m - 1, x);
      assert PIPESIZE * m + x == (PIPESIZE * (m - 1) + x) + PIPESIZE;
    }
  }

  /** The tests are exact: within PIPESIZE of each other, wrapped counters compare like the true counts. */
  lemma TestsExact(data: seq<Byte>, nread: Word, nwrite: Word, accepted: seq<Byte>, delivered: seq<Byte>)
    requires PipeOk(data, nread, nwrite, accepted, delivered)
    ensures Full(nread, nwrite) <==> |accepted| - |delivered| == PIPESIZE
    ensures Empty(nread, nwrite) <==> accepted == delivered
    ensures (nwrite - nread) % U32 == |accepted| - |delivered| <= PIPESIZE
  {
    var d := |accepted| - |delivered|;
    WrapAdd(|delivered|, d);
    assert |accepted| == |delivered| + d;
    if d == 0 {
      assert accepted == delivered;
    }
  }

  lemma WrapAdd(x: nat, d: nat)
    requires d <= PIPESIZE
    ensures ((x + d) % U32 - x % U32) % U32 == d
    ensures (x + d) % U32 == (x % U32 + PIPESIZE) % U32 <==> d == PIPESIZE
    ensures (x + d) % U32 == x % U32 <==> d == 0
  {
    var r := x % U32;
    assert (x + d) % U32 == if r + d < U32 then r + d else r + d - U32;
  }

  /** One byte into a pipe with room. */
  lemma PutOk(data: seq<Byte>, nread: Word, nwrite: Word, accepted: seq<Byte>, delivered: seq<Byte>, c: Byte)
    requires PipeOk(data, nread, nwrite, accepted, delivered) && !Full(nread, nwrite)
    ensures PipeOk(data[nwrite % PIPESIZE := c], nread, (nwrite + 1) % U32, accepted + [c], delivered)
  {
    TestsExact(data, nread, nwrite, accepted, delivered);
    WrapKeepsSlot(|accepted|);
    var data', accepted' := data[nwrite % PIPESIZE := c], accepted + [c];
    forall k | |delivered| <= k < |accepted'|
      ensures SlotHolds(data', accepted', k)
    {
      if k < |accepted| {
        assert SlotHolds(data, accepted, k);
        SlotsApart(k, |accepted|);
      }
    }
  }

  lemma SlotsApart(j: nat, k: nat)
    requires j < k < j + PIPESIZE
    ensures j % PIPESIZE != k % PIPESIZE
  {
  }

  /** One byte out of a pipe that is not empty: the oldest accepted byte not yet delivered. */
  lemma GetOk(data: seq<Byte>, nread: Word, nwrite: Word, accepted: seq<Byte>, delivered: seq<Byte>)
    requires PipeOk(data, nread, nwrite, accepted, delivered) && !Empty(nread, nwrite)
    ensures PipeOk(data, (nread + 1) % U32, nwrite, accepted, delivered + [data[nread % PIPESIZE]])
  {
    TestsExact(data, nread, nwrite, accepted, delivered);
    WrapKeepsSlot(|delivered|);
    assert SlotHolds(data, accepted, |delivered|);
    var delivered' := delivered + [data[nread % PIPESIZE]];
    assert delivered' == accepted[..|delivered| + 1];
    forall k | |delivered'| <= k < |accepted|
      ensures SlotHolds(data, accepted, k)
    {
    }
  }

  /** The stream property: bytes delivered followed by bytes buffered are the bytes accepted, in order. */
  lemma {:induction false} StreamIntact(data: seq<Byte>, nread: Word, nwrite: Word, accepted: seq<Byte>, delivered: seq<Byte>)
    requires PipeOk(data, nread, nwrite, accepted, delivered)
    ensures delivered + Buffered(data, nread, nwrite) == accepted
    decreases |accepted| - |delivered|
  {
    TestsExact(data, nread, nwrite, accepted, delivered);
    if nread != nwrite {
      var c := data[nread % PIPESIZE];
      GetOk(data, nread, nwrite, accepted, delivered);
      StreamIntact(data, (nread + 1) % U32, nwrite, accepted, delivered + [c]);
      assert delivered + ([c] + Buffered(data, (nread + 1) % U32, nwrite)) == (delivered + [c]) + Buffered(data, (nread + 1) % U32, nwrite);
    }
  }

  // ----- the imperative code, between one sleep and the next

  datatype WriteResult = MustSleep(i: nat) | BrokenPipe(i: nat) | Wrote(n: nat)
  datatype ReadResult = WaitForData | Read(bytes: seq<Byte>)

  class Ring {
    const data: array<Byte>
    var nread: Word
    var nwrite: Word
    var readopen: bool
    var writeopen: bool
    ghost var accepted: seq<Byte>
    ghost var delivered: seq<Byte>

    ghost predicate Valid()
      reads this, data
    {
      data.Length == PIPESIZE && PipeOk(data[..], nread, nwrite, accepted, delivered)
    }

    /** pipealloc's initialisation. */
    constructor ()
      ensures Valid() && accepted == [] && readopen && writeopen && fresh(data)
    {
      data := new Byte[PIPESIZE](_ => 0);
      readopen, writeopen, nwrite, nread := true, true, 0, 0;
      accepted, delivered := [], [];
    }

    /** pipewrite from index i on, with p->lock held, up to a sleep or the end.  killed is not set. */
    method WriteRun(addr: seq<Byte>, i: nat) returns (r: WriteResult)
      requires Valid() && i <= |addr|
      modifies this`nwrite, this`accepted, data
      ensures Valid()
      ensures var j := (match r case MustSleep(j) => j case BrokenPipe(j) => j case Wrote(j) => j);
        && i <= j <= |addr| && accepted == old(accepted) + addr[i..j]
        && (r.Wrote? <==> j == |addr|)
      ensures !r.Wrote? ==> Full(nread, nwrite) && (r.BrokenPipe? <==> !readopen)
    {
      var k := i;
      while k < |addr|
        invariant i <= k <= |addr| && Valid() && accepted == old(accepted) + addr[i..k]
      {
        if nwrite == (nread + PIPESIZE) % U32 {
          return if !readopen then BrokenPipe(k) else MustSleep(k);
        }
        PutOk(data[..], nread, nwrite, accepted, delivered, addr[k]);
        data[nwrite % PIPESIZE] := addr[k];
        nwrite := (nwrite + 1) % U32;
        accepted := accepted + [addr[k]];
        k := k + 1;
      }
      r := Wrote(|addr|);
    }

    /** piperead of up to n bytes, with p->lock held, up to a sleep or the end.  killed is not set. */
    method ReadRun(n: nat) returns (r: ReadResult)
      requires Valid()
      modifies this`nread, this`delivered
      ensures Valid()
      ensures r.WaitForData? <==> old(Empty(nread, nwrite)) && writeopen
      ensures r.WaitForData? ==> nread == old(nread) && delivered == old(delivered)
      ensures r.Read? ==> delivered == old(delivered) + r.bytes && |r.bytes| == Min(n, |old(accepted)| - |old(delivered)|)
    {
      if nread == nwrite && writeopen {
        return WaitForData;
      }
      var out: seq<Byte>, i := [], 0;
      TestsExact(data[..], nread, nwrite, accepted, delivered);
      while i < n
        invariant 0 <= i <= n && Valid() && |out| == i && delivered == old(delivered) + out
      {
        TestsExact(data[..], nread, nwrite, accepted, delivered);
        if nread == nwrite {
          break;
        }
        GetOk(data[..], nread, nwrite, accepted, delivered);
        out := out + [data[nread % PIPESIZE]];
        delivered := delivered + [data[nread % PIPESIZE]];
        nread := (nread + 1) % U32;
        i := i + 1;
      }
      r := Read(out);
    }
  }
}
