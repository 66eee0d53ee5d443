/** The sampler's loop over the ring it shares with the kernel, on the buffer itself. */
module PerfRing {
  import opened Modular
  import opened PerfModel

  const SAMPLES_PER_ITERATION := 50000

  /** How a round ends: with nothing to read, in `exit(-1)`, or with a record taken. */
  datatype Status = Drained | Exited | Accepted

  class SamplerRing {
    const data: array<byte>
    const receiver: Receiver
    var dataHead: int
    var dataTail: int
    /** The callbacks invoked so far. */
    var calls: seq<Call>
    ghost var produced: seq<seq<byte>>
    ghost var consumed: nat

    ghost function Abs(crashed: bool): Ring
      reads this, data
    {
      Ring(data[..], dataHead, dataTail, receiver, calls, crashed, produced, consumed)
    }

    ghost predicate Valid()
      reads this, data
    {
      Inv(Abs(false))
    }

    constructor (data: array<byte>, receiver: Receiver)
      requires 0 < data.Length < U64 && data.Length % 8 == 0
      ensures Valid() && this.data == data && Abs(false) == Initial(data[..], receiver)
    {
      this.data := data;
      this.receiver := receiver;
      dataHead, dataTail, calls, produced, consumed := 0, 0, [], [], 0;
    }

    // ----- The kernel -----

    /** The kernel writes one record, byte by byte, and then advances the head. */
    method Write(r: seq<byte>)
      requires Valid() && Fits(Abs(false), r)
      modifies data, `dataHead, `produced
      ensures Valid() && Abs(false) == Step(old(Abs(false)), Produce(r))
    {
      hide Inv, WriteAt, Flatten, Fits, Dispatch;
      ghost var s := Abs(false);
      AppendInv(s, r);
      WriteRoom(s, r);
      WriteAtNone(s.buf, dataHead, r);
      var n := data.Length;
      var j := 0;
      while j < |r|
        modifies data
        invariant j <= |r| && data[..] == WriteAt(s.buf, dataHead, r[..j])
      {
        WriteAtNext(s.buf, dataHead, r, j);
        data[(dataHead + j) % n] := r[j];
        j := j + 1;
      }
      dataHead := (dataHead + |r|) % U64;
      produced := produced + [r];
    }

    /** Whatever the kernel does while the sampler is between two of its own steps. */
    method Kernel() returns (ghost acts: seq<Action>)
      requires Valid()
      modifies data, `dataHead, `produced
      ensures Valid() && Abs(false) == Exec(old(Abs(false)), acts)
      ensures old(produced) <= produced
      ensures Polls(acts) == 0
    {
      hide Inv, Exec, Step, Polls, Fits, Flatten;
      acts := [];
      ExecNone(Abs(false));
      var attempts: nat := *;
      while attempts > 0
        invariant Valid() && Abs(false) == Exec(old(Abs(false)), acts)
        invariant old(produced) <= produced
        invariant Polls(acts) == 0
      {
        var r: seq<byte> := *;
        var fits := FitsTest(r);
        if fits {
          WrittenLast(Abs(false), r);
          ExecStep(old(Abs(false)), acts, Produce(r));
          Write(r);
          acts := acts + [Produce(r)];
        }
        attempts := attempts - 1;
      }
    }

    /** The kernel's own check for room. */
    method FitsTest(r: seq<byte>) returns (fits: bool)
      requires Valid()
      ensures fits == Fits(Abs(false), r)
    {
      hide Inv, Fits, Flatten, IsRecord, Dispatch;
      FitsIs(Abs(false), r);
      fits := IsRecord(r) && (dataHead - dataTail) % U64 + |r| <= data.Length
              && (U64 % data.Length == 0 || dataHead + |r| < U64);
    }

    /** `memcpy` out of the ring. */
    method Copy(temp: array<byte>, at: nat, from: nat, count: nat)
      requires temp != data && at + count <= temp.Length && from + count <= data.Length
      modifies temp
      ensures temp[at..at + count] == data[from..from + count]
      ensures temp[..at] == old(temp[..at])
    {
      for i := 0 to count
        invariant temp[at..at + i] == data[from..from + i]
        invariant temp[..at] == old(temp[..at])
      {
        temp[at + i] := data[from + i];
      }
    }

    /** The callback for the record's type, if there is one, and then the new tail. */
    method Accept(record: seq<byte>)
      requires Valid() && consumed < |produced| && record == produced[consumed]
      modifies `calls, `dataTail, `consumed
      ensures Valid() && Abs(false) == Taken(old(Abs(false)))
    {
      hide Inv, IsRecord, Dispatch, Flatten, Deliver;
      NextFits(Abs(false));
      TakenInv(Abs(false));
      calls := calls + Deliver(receiver, record);
      dataTail := (dataTail + |record|) % U64;
      consumed := consumed + 1;
    }

    /** Reads the emptiness test and, on a non-empty ring, the length in the next header. */
    method Header() returns (empty: bool, size: nat)
      requires Valid()
      ensures empty <==> dataHead == dataTail
      ensures empty <==> consumed == |produced|
      ensures !empty ==> consumed < |produced| && size == |produced[consumed]|
    {
      hide Inv, HeaderSize;
      EmptyTest(Abs(false));
      if dataHead == dataTail {
        return true, 0;
      }
      NextFits(Abs(false));
      NextHeader(Abs(false));
      var offset := dataTail % data.Length;
      HeaderAt(data[..], offset);
      assert data[..][offset..offset + 8] == data[offset..offset + 8];
      empty, size := false, HeaderSize(data[offset..offset + 8]);
    }

    /** Puts a record that runs past the end of the buffer together, with the kernel free to write
        between the two copies. */
    method Join(temp: array<byte>, offset: nat, left: nat, size: nat) returns (ghost acts: seq<Action>)
      requires Valid() && temp.Length == MAX_PERF_EVENT_LENGTH && temp != data && consumed < |produced|
      requires size == |produced[consumed]| <= MAX_PERF_EVENT_LENGTH
      requires offset == dataTail % data.Length && left == data.Length - offset < size
      modifies data, `dataHead, `produced, temp
      ensures Valid() && Abs(false) == Exec(old(Abs(false)), acts) && Polls(acts) == 0
      ensures old(produced) <= produced && temp[..size] == produced[consumed]
    {
      hide Inv, Exec, Polls, Flatten;
      ghost var r := produced[consumed];
      NextFits(Abs(false));
      NextWrapped(Abs(false));
      Halves(data[..], r, offset);
      Copy(temp, 0, offset, left);
      assert temp[..left] == r[..left];
      acts := Kernel();
      NextWrapped(Abs(false));
      Halves(data[..], r, offset);
      Copy(temp, left, 0, size - left);
      assert temp[left..size] == r[left..];
      Joined(temp[..], r, left);
    }

    /** Hands the oldest unread record over, with the kernel free to write while it is put together and
        before it is read by the callback. */
    method Record(temp: array<byte>, size: nat) returns (exited: bool, ghost acts: seq<Action>)
      requires Valid() && temp.Length == MAX_PERF_EVENT_LENGTH && temp != data
      requires consumed < |produced| && size == |produced[consumed]|
      modifies `calls, `dataTail, `consumed, data, `dataHead, `produced, temp
      ensures Valid() && Abs(exited) == Exec(old(Abs(false)), acts) && Polls(acts) == 1
    {
      hide Inv, Step, Taken, Exec, Polls, Flatten;
      NextHeader(Abs(false));
      NextFits(Abs(false));
      var offset := dataTail % data.Length;
      var left := data.Length - offset;
      acts := [];
      ExecNone(Abs(false));
      if left < 8 {
        // The first `exit(-1)`.
        assert false;
      }
      if left < size {
        if size > MAX_PERF_EVENT_LENGTH {
          PollIs(Abs(false));
          ExecStep(old(Abs(false)), acts, Poll);
          return true, acts + [Poll];
        }
        acts := Join(temp, offset, left, size);
        ghost var more := Kernel();
        ExecConcat(old(Abs(false)), acts, more);
        PollsConcat(acts, more);
        acts := acts + more;
        PollIs(Abs(false));
        ExecStep(old(Abs(false)), acts, Poll);
        Accept(temp[..size]);
      } else {
        acts := Kernel();
        PollIs(Abs(false));
        ExecStep(old(Abs(false)), acts, Poll);
        NextInPlace(Abs(false));
        assert data[..][offset..offset + size] == data[offset..offset + size];
        Accept(data[offset..offset + size]);
      }
      exited, acts := false, acts + [Poll];
    }

    /** One round of the loop in `sampler_worker_iteration_core`, with the kernel free to write
        before the counters are read, between reading the header and the record, between the
        two copies of a record that runs past the end, and before the callback. */
    method Round(temp: array<byte>) returns (status: Status, ghost acts: seq<Action>)
      requires Valid() && temp.Length == MAX_PERF_EVENT_LENGTH && temp != data
      modifies this, data, temp
      ensures Abs(status == Exited) == Exec(old(Abs(false)), acts)
      ensures Valid()
      ensures status == Drained ==> dataHead == dataTail && consumed == |produced|
      ensures Polls(acts) == if status == Drained then 0 else 1
    {
      hide Inv, Step, Exec, Polls;
      acts := Kernel();
      var empty, size := Header();
      if empty {
        return Drained, acts;
      }
      ghost var more := Kernel();
      ExecConcat(old(Abs(false)), acts, more);
      PollsConcat(acts, more);
      acts := acts + more;
      var exited;
      ghost var last;
      exited, last := Record(temp, size);
      ExecConcat(old(Abs(false)), acts, last);
      PollsConcat(acts, last);
      acts := acts + last;
      status := if exited then Exited else Accepted;
    }

    /** `sampler_worker_iteration_core`: everything it does is some interleaving of kernel writes
        and at most 50000 rounds, and if it stops sooner without exiting, the ring is empty. */
    method IterationCore() returns (exited: bool, ghost acts: seq<Action>)
      requires Valid()
      modifies this, data
      ensures Valid() && Abs(exited) == Exec(old(Abs(false)), acts)
      ensures Polls(acts) <= 50000
      ensures !exited && Polls(acts) < 50000 ==> dataHead == dataTail && consumed == |produced|
    {
      hide Inv, Step, Exec, Polls;
      var tempBuffer := new byte[MAX_PERF_EVENT_LENGTH];
      acts := [];
      ExecNone(Abs(false));
      var samples := 0;
      while samples < SAMPLES_PER_ITERATION
        invariant Valid() && Abs(false) == Exec(old(Abs(false)), acts)
        invariant samples <= SAMPLES_PER_ITERATION && Polls(acts) == samples
      {
        var status;
        ghost var more;
        status, more := Round(tempBuffer);
        ExecConcat(old(Abs(false)), acts, more);
        PollsConcat(acts, more);
        acts := acts + more;
        if status == Drained {
          return false, acts;
        }
        if status == Exited {
          return true, acts;
        }
        samples := samples + 1;
      }
      exited := false;
    }
  }

  /** The two parts of a record that runs past the end of the buffer. */
  lemma Halves(buf: seq<byte>, r: seq<byte>, offset: nat)
    requires offset <= |buf| && 0 <= offset + |r| - |buf| <= |buf|
    requires buf[offset..] + buf[..offset + |r| - |buf|] == r
    ensures buf[offset..] == r[..|buf| - offset] && buf[..offset + |r| - |buf|] == r[|buf| - offset..]
  {
  }

  /** The scratch buffer after the two copies. */
  lemma Joined(temp: seq<byte>, r: seq<byte>, left: nat)
    requires left <= |r| <= |temp| && temp[..left] == r[..left] && temp[left..|r|] == r[left..]
    ensures temp[..|r|] == r
  {
    assert temp[..|r|] == temp[..left] + temp[left..|r|];
  }

  /** `Fits` in terms of the counters. */
  lemma FitsIs(s: Ring, r: seq<byte>)
    requires Inv(s)
    ensures 0 < |s.buf|
    ensures Fits(s, r) <==>
            IsRecord(r) && (s.head - s.tail) % U64 + |r| <= |s.buf| && (U64 % |s.buf| == 0 || s.head + |r| < U64)
  {
    hide Inv, Exact, Flatten;
    TailBeforeHead(s);
    InvParts(s);
    UnreadLength(s);
    ExactNext(|s.buf|, s.Head(), |r|, s.head);
  }

  lemma ExactNext(size: nat, position: nat, k: nat, wrapped: int)
    requires 0 < size && Exact(size, position) && wrapped == position % U64
    ensures Exact(size, position + k) <==> U64 % size == 0 || wrapped + k < U64
  {
  }

  lemma HeaderAt(buf: seq<byte>, offset: nat)
    requires offset + 8 <= |buf|
    ensures HeaderSize(buf[offset..offset + 8]) == HeaderSize(buf[offset..])
  {
    assert buf[offset..offset + 8][6] == buf[offset..][6] && buf[offset..offset + 8][7] == buf[offset..][7];
  }

  lemma PollIs(s: Ring)
    requires Inv(s) && !s.crashed && s.consumed < |s.produced|
    ensures 0 < |s.buf|
    ensures Step(s, Poll) ==
            if |s.buf| - s.tail % |s.buf| < |s.produced[s.consumed]| && MAX_PERF_EVENT_LENGTH < |s.produced[s.consumed]|
            then s.(crashed := true) else Taken(s)
  {
    hide Inv, Consume, Taken;
    NextFits(s);
    ConsumeIs(s);
  }

  lemma {:induction false} PollsConcat(a: seq<Action>, b: seq<Action>)
    ensures Polls(a + b) == Polls(a) + Polls(b)
  {
    if b == [] {
      assert a + b == a;
    } else {
      PollsConcat(a, b[..|b| - 1]);
      assert (a + b)[..|a + b| - 1] == a + b[..|b| - 1];
    }
  }

  lemma ExecNone(s: Ring)
    requires Inv(s)
    ensures Exec(s, []) == s && Polls([]) == 0
  {
  }

  lemma ExecStep(s: Ring, acts: seq<Action>, a: Action)
    requires Inv(s)
    ensures Exec(s, acts + [a]) == Step(Exec(s, acts), a)
    ensures Polls(acts + [a]) == Polls(acts) + if a.Poll? then 1 else 0
  {
    assert (acts + [a])[..|acts|] == acts;
  }

  lemma WrittenLast(s: Ring, r: seq<byte>)
    requires Inv(s) && Fits(s, r) && !s.crashed
    ensures Step(s, Produce(r)).produced == s.produced + [r]
  {
  }

  /** How many rounds of the sampler a run contains. */
  function Polls(acts: seq<Action>): nat {
    if acts == [] then 0 else Polls(acts[..|acts| - 1]) + if acts[|acts| - 1].Poll? then 1 else 0
  }

  lemma WriteRoom(s: Ring, r: seq<byte>)
    requires Inv(s) && Fits(s, r)
    ensures 0 < |s.buf| && |r| <= |s.buf|
  {
    TailBeforeHead(s);
  }

  lemma WriteAtNone(buf: seq<byte>, at: int, r: seq<byte>)
    requires 0 < |buf|
    ensures WriteAt(buf, at, r[..0]) == buf && r[..|r|] == r
  {
  }

  lemma WriteAtNext(buf: seq<byte>, at: int, r: seq<byte>, j: nat)
    requires 0 < |buf| && j < |r| <= |buf|
    ensures WriteAt(buf, at, r[..j + 1]) == WriteAt(buf, at, r[..j])[(at + j) % |buf| := r[j]]
  {
    var n := |buf|;
    forall i | 0 <= i < n
      ensures Offset(i, at, n) == j <==> i == (at + j) % n
    {
      OffsetBack(i, at, j, n);
    }
  }

  /** `i` is `j` places after `at` exactly when `at + j` falls on `i`. */
  lemma OffsetBack(i: int, at: int, j: int, n: int)
    requires 0 <= i < n && 0 <= j < n
    ensures (i - at) % n == j <==> i == (at + j) % n
  {
    if (i - at) % n == j {
      ModAddWrap(i - at, at, n);
      ModUnique(0, i, n);
    }
    if i == (at + j) % n {
      ModAddWrap(at + j, -at, n);
      ModUnique(0, j, n);
    }
  }
}
