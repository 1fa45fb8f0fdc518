/** struct pipe and the code that runs under its lock. */
module Pipe {
  import opened Blocks
  import opened PipeRing

  class Pipe {
    const data: array<Byte>
    var nread: Word
    var nwrite: Word
    var readopen: bool
    var writeopen: bool

    ghost predicate Valid()
      reads this
    {
      data.Length == PIPESIZE
    }

    ghost function Value(): Ring
      reads this, data
    {
      Ring(data[..], nread, nwrite)
    }

    constructor ()
      ensures Valid() && fresh(data) && readopen && writeopen && nread == nwrite == 0 && Holds(Value(), [])
    {
      data := new Byte[PIPESIZE](_ => 0);
      nread, nwrite, readopen, writeopen := 0, 0, true, true;
    }

    /** pipeclose: the end is closed for good, and the pipe goes back to kalloc once both are. */
    method Close(writable: bool) returns (wakesReaders: bool, freed: bool)
      requires Valid()
      modifies this`readopen, this`writeopen
      ensures if writable then !writeopen && readopen == old(readopen) else !readopen && writeopen == old(writeopen)
      ensures wakesReaders == writable && (freed <==> !readopen && !writeopen)
    {
      if writable {
        writeopen := false;
      } else {
        readopen := false;
      }
      return writable, !readopen && !writeopen;
    }

    /** pipewrite from taking p->lock, with the first i bytes already written, to releasing it. */
    method Write(addr: seq<Byte>, i: nat, killed: bool) returns (j: nat, out: Outcome, wakes: bool)
      requires Valid() && i <= |addr|
      modifies this`nwrite, data
      ensures i <= j <= |addr|
      ensures WriterTurn(Value(), j - i, out, wakes) == old(TakeWriterTurn(Value(), readopen, killed, addr[i..]))
    {
      j := i;
      ghost var r0 := Value();
      while j < |addr|
        invariant i <= j <= |addr| && nread == r0.nread
        invariant WriteRun(r0, addr[i..]).0 == WriteRun(Value(), addr[j..]).0
        invariant WriteRun(r0, addr[i..]).1 == j - i + WriteRun(Value(), addr[j..]).1
      {
        if nwrite == (nread + PIPESIZE) % WRAP {
          if !readopen || killed {
            return j, Fails, false;
          }
          return j, Sleeps, true;
        }
        ghost var r := Value();
        data[nwrite % PIPESIZE] := addr[j];
        nwrite := (nwrite + 1) % WRAP;
        assert Value() == Put(r, addr[j]);
        assert addr[j..][1..] == addr[j + 1..];
        j := j + 1;
      }
      return j, Returned, true;
    }

    /** piperead from taking p->lock to releasing it. */
    method Read(n: nat, killed: bool) returns (bytes: seq<Byte>, out: Outcome, wakes: bool)
      requires Valid()
      modifies this`nread
      ensures ReaderTurn(Value(), bytes, out, wakes) == old(TakeReaderTurn(Value(), writeopen, killed, n))
    {
      bytes := [];
      if nread == nwrite && writeopen {
        if killed {
          return bytes, Fails, false;
        }
        return bytes, Sleeps, false;
      }
      ghost var r0 := Value();
      var i := 0;
      while i < n
        invariant 0 <= i <= n && data[..] == r0.data && nwrite == r0.nwrite
        invariant ReadRun(r0, n).0 == ReadRun(Value(), n - i).0
        invariant ReadRun(r0, n).1 == bytes + ReadRun(Value(), n - i).1
      {
        if nread == nwrite {
          break;
        }
        bytes := bytes + [data[nread % PIPESIZE]];
        nread := (nread + 1) % WRAP;
        i := i + 1;
      }
      return bytes, Returned, true;
    }
  }
}
