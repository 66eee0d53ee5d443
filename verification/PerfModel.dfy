/** The perf event ring shared with the kernel, as a state machine over plain values: the
    kernel appends records, the sampler takes one record per round. */
module PerfModel {
  import opened Modular

  type byte = x: int | 0 <= x < 256

  /** `data_head` and `data_tail` are 64-bit counters. */
  const U64 := 0x1_0000_0000_0000_0000

  const MAX_PERF_EVENT_LENGTH := 64

  const PERF_RECORD_LOST := 2
  const PERF_RECORD_THROTTLE := 5
  const PERF_RECORD_UNTHROTTLE := 6
  const PERF_RECORD_SAMPLE := 9

  // ----- Records -----

  /** `struct perf_event_header`: u32 type, u16 misc, u16 size, little-endian. */
  function HeaderType(r: seq<byte>): int
    requires |r| >= 8
  {
    var b0: int, b1: int, b2: int, b3: int := r[0], r[1], r[2], r[3];
    b0 + 256 * b1 + 65536 * b2 + 16777216 * b3
  }

  function HeaderSize(r: seq<byte>): nat
    requires |r| >= 8
  {
    var low: int, high: int := r[6], r[7];
    low + 256 * high
  }

  /** The type is the first four bytes and the size the last two of the header, least significant
      byte first, and each stands for one number only. */
  lemma HeaderIs(kind: nat, size: nat, misc0: byte, misc1: byte, rest: seq<byte>)
    requires kind < 0x1_0000_0000 && size < 0x1_0000
    ensures var r: seq<byte> := [kind % 0x100, kind / 0x100 % 0x100, kind / 0x1_0000 % 0x100, kind / 0x100_0000,
                                 misc0, misc1, size % 0x100, size / 0x100] + rest;
            HeaderType(r) == kind && HeaderSize(r) == size
  {
  }

  /** What the kernel writes: records whose header states their length, in multiples of 8. */
  predicate IsRecord(r: seq<byte>) {
    |r| >= 8 && |r| % 8 == 0 && HeaderSize(r) == |r|
  }

  // ----- Delivery -----

  datatype Callback = Lost | Throttle | Unthrottle | Sample

  datatype Call = Call(callback: Callback, record: seq<byte>)

  /** Which callbacks of the `sampler_receiver` are not NULL. */
  datatype Receiver = Receiver(lost: bool, throttle: bool, unthrottle: bool, sample: bool)

  function Deliver(receiver: Receiver, r: seq<byte>): seq<Call>
    requires |r| >= 8
  {
    var kind := HeaderType(r);
    if kind == PERF_RECORD_LOST && receiver.lost then [Call(Lost, r)]
    else if kind == PERF_RECORD_THROTTLE && receiver.throttle then [Call(Throttle, r)]
    else if kind == PERF_RECORD_UNTHROTTLE && receiver.unthrottle then [Call(Unthrottle, r)]
    else if kind == PERF_RECORD_SAMPLE && receiver.sample then [Call(Sample, r)]
    else []
  }

  predicate AllRecords(rs: seq<seq<byte>>) {
    forall i :: 0 <= i < |rs| ==> IsRecord(rs[i])
  }

  /** The calls that a sequence of records should lead to. */
  function Dispatch(receiver: Receiver, rs: seq<seq<byte>>): seq<Call>
    requires AllRecords(rs)
  {
    if rs == [] then []
    else Dispatch(receiver, rs[..|rs| - 1]) + Deliver(receiver, rs[|rs| - 1])
  }

  function TypeOf(c: Callback): int {
    match c
    case Lost => PERF_RECORD_LOST
    case Throttle => PERF_RECORD_THROTTLE
    case Unthrottle => PERF_RECORD_UNTHROTTLE
    case Sample => PERF_RECORD_SAMPLE
  }

  predicate Enabled(receiver: Receiver, c: Callback) {
    match c
    case Lost => receiver.lost
    case Throttle => receiver.throttle
    case Unthrottle => receiver.unthrottle
    case Sample => receiver.sample
  }

  /** What one callback was given. */
  function GivenTo(calls: seq<Call>, c: Callback): seq<seq<byte>> {
    if calls == [] then []
    else GivenTo(calls[..|calls| - 1], c) + if calls[|calls| - 1].callback == c then [calls[|calls| - 1].record] else []
  }

  /** The records of one type. */
  function OfType(rs: seq<seq<byte>>, kind: int): seq<seq<byte>>
    requires AllRecords(rs)
  {
    if rs == [] then []
    else OfType(rs[..|rs| - 1], kind) + if HeaderType(rs[|rs| - 1]) == kind then [rs[|rs| - 1]] else []
  }

  lemma {:induction false} GivenConcat(a: seq<Call>, b: seq<Call>, c: Callback)
    ensures GivenTo(a + b, c) == GivenTo(a, c) + GivenTo(b, c)
  {
    if b == [] {
      assert a + b == a;
    } else {
      GivenConcat(a, b[..|b| - 1], c);
      assert (a + b)[..|a + b| - 1] == a + b[..|b| - 1];
    }
  }

  lemma DeliverByType(receiver: Receiver, r: seq<byte>, c: Callback)
    requires |r| >= 8
    ensures GivenTo(Deliver(receiver, r), c) == if Enabled(receiver, c) && HeaderType(r) == TypeOf(c) then [r] else []
  {
    hide HeaderType;
    if Deliver(receiver, r) != [] {
      var call := Deliver(receiver, r)[0];
      assert [call][..0] == [];
    }
  }

  /** Each callback that is set is given exactly the records of its type, in order and as they
      are; a callback that is not set is never invoked. */
  lemma {:induction false} DispatchByType(receiver: Receiver, rs: seq<seq<byte>>, c: Callback)
    requires AllRecords(rs)
    ensures GivenTo(Dispatch(receiver, rs), c) == if Enabled(receiver, c) then OfType(rs, TypeOf(c)) else []
  {
    hide Deliver, HeaderType, TypeOf, Enabled, HeaderSize;
    if rs != [] {
      var front, r := rs[..|rs| - 1], rs[|rs| - 1];
      DispatchByType(receiver, front, c);
      assert IsRecord(r);
      GivenConcat(Dispatch(receiver, front), Deliver(receiver, r), c);
      DeliverByType(receiver, r, c);
    }
  }

  /** The records that start with these four bytes. */
  function Starting(rs: seq<seq<byte>>, start: seq<byte>): seq<seq<byte>> {
    if rs == [] then []
    else Starting(rs[..|rs| - 1], start) + if start <= rs[|rs| - 1] then [rs[|rs| - 1]] else []
  }

  lemma TypeStarts(r: seq<byte>, kind: byte)
    requires |r| >= 8
    ensures HeaderType(r) == kind <==> [kind, 0, 0, 0] <= r
  {
    if [kind, 0, 0, 0] <= r {
      assert r[0] == [kind, 0, 0, 0][0] && r[1] == [kind, 0, 0, 0][1];
      assert r[2] == [kind, 0, 0, 0][2] && r[3] == [kind, 0, 0, 0][3];
    }
  }

  lemma {:induction false} OfTypeStarts(rs: seq<seq<byte>>, kind: byte)
    requires AllRecords(rs)
    ensures OfType(rs, kind) == Starting(rs, [kind, 0, 0, 0])
  {
    if rs != [] {
      OfTypeStarts(rs[..|rs| - 1], kind);
      assert IsRecord(rs[|rs| - 1]);
      TypeStarts(rs[|rs| - 1], kind);
    }
  }

  /** The same in terms of the bytes the kernel writes: types 2, 5, 6 and 9 of perf_event_open(2). */
  lemma DispatchByBytes(receiver: Receiver, rs: seq<seq<byte>>)
    requires AllRecords(rs)
    ensures var calls := Dispatch(receiver, rs);
            && GivenTo(calls, Lost) == (if receiver.lost then Starting(rs, [2, 0, 0, 0]) else [])
            && GivenTo(calls, Throttle) == (if receiver.throttle then Starting(rs, [5, 0, 0, 0]) else [])
            && GivenTo(calls, Unthrottle) == (if receiver.unthrottle then Starting(rs, [6, 0, 0, 0]) else [])
            && GivenTo(calls, Sample) == (if receiver.sample then Starting(rs, [9, 0, 0, 0]) else [])
  {
    DispatchByType(receiver, rs, Lost);
    DispatchByType(receiver, rs, Throttle);
    DispatchByType(receiver, rs, Unthrottle);
    DispatchByType(receiver, rs, Sample);
    OfTypeStarts(rs, 2);
    OfTypeStarts(rs, 5);
    OfTypeStarts(rs, 6);
    OfTypeStarts(rs, 9);
  }

  /** With a callback for samples only, as the program has it, every sample is a call of its own, in
      order, and nothing else is. */
  lemma {:induction false} SamplesDelivered(rs: seq<seq<byte>>)
    requires AllRecords(rs)
    ensures var calls, samples := Dispatch(Receiver(false, false, false, true), rs), Starting(rs, [9, 0, 0, 0]);
            |calls| == |samples| && forall i :: 0 <= i < |calls| ==> calls[i] == Call(Sample, samples[i])
  {
    if rs != [] {
      SamplesDelivered(rs[..|rs| - 1]);
      assert IsRecord(rs[|rs| - 1]);
      TypeStarts(rs[|rs| - 1], 9);
    }
  }

  // ----- The byte stream -----

  function Flatten(rs: seq<seq<byte>>): seq<byte> {
    if rs == [] then [] else Flatten(rs[..|rs| - 1]) + rs[|rs| - 1]
  }

  lemma {:induction false} FlattenConcat(a: seq<seq<byte>>, b: seq<seq<byte>>)
    ensures Flatten(a + b) == Flatten(a) + Flatten(b)
  {
    if b == [] {
      assert a + b == a;
    } else {
      FlattenConcat(a, b[..|b| - 1]);
      assert (a + b)[..|a + b| - 1] == a + b[..|b| - 1];
    }
  }

  /** Where record `c` lies in the stream. */
  lemma FlattenAt(rs: seq<seq<byte>>, c: nat)
    requires c < |rs|
    ensures Flatten(rs[..c + 1]) == Flatten(rs[..c]) + rs[c]
    ensures Flatten(rs) == Flatten(rs[..c]) + rs[c] + Flatten(rs[c + 1..])
    ensures |Flatten(rs[..c])| + |rs[c]| <= |Flatten(rs)|
  {
    assert rs[..c + 1][..c] == rs[..c];
    assert rs == rs[..c + 1] + rs[c + 1..];
    FlattenConcat(rs[..c + 1], rs[c + 1..]);
  }

  lemma SumEight(a: int, b: int)
    requires a % 8 == 0 && b % 8 == 0
    ensures (a + b) % 8 == 0
  {
  }

  lemma {:induction false} FlattenEight(rs: seq<seq<byte>>)
    requires AllRecords(rs)
    ensures |Flatten(rs)| % 8 == 0
  {
    if rs != [] {
      FlattenEight(rs[..|rs| - 1]);
      SumEight(|Flatten(rs[..|rs| - 1])|, |rs[|rs| - 1]|);
    }
  }

  // ----- The machine -----

  /** `produced` records every record the kernel has written and `consumed` counts those the
      sampler has taken; the program itself sees only the buffer and the two counters. */
  datatype Ring = Ring(
    buf: seq<byte>,
    head: int,
    tail: int,
    receiver: Receiver,
    calls: seq<Call>,
    crashed: bool,
    produced: seq<seq<byte>>,
    consumed: nat)
  {
    /** The counters as they would be without wrapping. */
    function Head(): nat {
      |Flatten(produced)|
    }

    function Tail(): nat
      requires consumed <= |produced|
    {
      |Flatten(produced[..consumed])|
    }
  }

  /** The counters stay exact as long as they do not wrap, or for ever if they wrap at a multiple
      of the buffer size. */
  predicate Exact(size: nat, head: nat)
    requires size > 0
  {
    U64 % size == 0 || head < U64
  }

  predicate Inv(s: Ring) {
    var size := |s.buf|;
    && 0 < size < U64 && size % 8 == 0
    && AllRecords(s.produced) && s.consumed <= |s.produced|
    && s.Head() - s.Tail() <= size && Exact(size, s.Head())
    && s.head == s.Head() % U64 && s.tail == s.Tail() % U64
    && (forall p :: s.Tail() <= p < s.Head() ==> s.buf[p % size] == Flatten(s.produced)[p])
    && s.calls == Dispatch(s.receiver, s.produced[..s.consumed])
  }

  function Initial(buf: seq<byte>, receiver: Receiver): Ring {
    Ring(buf, 0, 0, receiver, [], false, [], 0)
  }

  // ----- The kernel -----

  /** How many places after `at` buffer index `i` comes. */
  function Offset(i: int, at: int, size: nat): nat
    requires 0 < size
  {
    (i - at) % size
  }

  /** The buffer after writing `r` from offset `at` on, around the end if need be. */
  function WriteAt(buf: seq<byte>, at: int, r: seq<byte>): (w: seq<byte>)
    requires 0 < |buf|
    ensures |w| == |buf|
  {
    seq(|buf|, i requires 0 <= i < |buf| => if Offset(i, at, |buf|) < |r| then r[Offset(i, at, |buf|)] else buf[i])
  }

  lemma WriteAtNew(buf: seq<byte>, at: int, r: seq<byte>, j: nat)
    requires 0 < |buf| && j < |r| <= |buf|
    ensures WriteAt(buf, at, r)[(at + j) % |buf|] == r[j]
  {
    var n := |buf|;
    var q := (at + j) / n;
    assert (at + j) % n - at == -q * n + j;
    ModUnique(-q, j, n);
  }

  /** Bytes up to `|buf| - |r|` positions back are left alone. */
  lemma WriteAtOld(buf: seq<byte>, at: int, r: seq<byte>, p: int)
    requires 0 < |buf| && p < at && at + |r| <= p + |buf|
    ensures WriteAt(buf, at, r)[p % |buf|] == buf[p % |buf|]
  {
    var n := |buf|;
    var q := p / n;
    assert p % n - at == (-q - 1) * n + (n - (at - p)) by {
      assert (-q - 1) * n == -q * n - n;
    }
    ModUnique(-q - 1, n - (at - p), n);
  }

  /** The kernel does not overwrite unread data; a record that does not fit is not written. */
  predicate Fits(s: Ring, r: seq<byte>)
    requires Inv(s)
  {
    && IsRecord(r)
    && s.Head() - s.Tail() + |r| <= |s.buf|
    && Exact(|s.buf|, s.Head() + |r|)
  }

  function Append(s: Ring, r: seq<byte>): Ring
    requires Inv(s)
  {
    if Fits(s, r) then
      s.(buf := WriteAt(s.buf, s.head, r), head := (s.head + |r|) % U64, produced := s.produced + [r])
    else s
  }

  // ----- The sampler -----

  datatype Fetched = HeaderSplit | TooLong | Record(bytes: seq<byte>)

  /** What a round reads at the tail: the record is taken in place, or put together from the end
      and the start of the buffer; two layouts are not supported. */
  function Fetch(buf: seq<byte>, tail: int): Fetched
    requires 0 < |buf|
    requires var left := |buf| - tail % |buf|;
             left >= 8 ==> HeaderSize(buf[tail % |buf|..]) - left <= |buf|
  {
    var offset := tail % |buf|;
    var left := |buf| - offset;
    if left < 8 then HeaderSplit
    else
      var size := HeaderSize(buf[offset..]);
      if left < size then
        if size > MAX_PERF_EVENT_LENGTH then TooLong
        else Record(buf[offset..] + buf[..size - left])
      else Record(buf[offset..offset + size])
  }

  /** The next record runs past the end of the buffer and is too long to be put together. */
  predicate Unsupported(s: Ring)
    requires Inv(s)
  {
    && s.consumed < |s.produced|
    && |s.buf| - s.tail % |s.buf| < |s.produced[s.consumed]|
    && MAX_PERF_EVENT_LENGTH < |s.produced[s.consumed]|
  }

  // ----- What the invariant says about the tail -----

  lemma ExactOffset(size: nat, wrapped: int, position: nat)
    requires 0 < size && wrapped == position % U64 && Exact(size, position)
    ensures wrapped % size == position % size
  {
    if position >= U64 {
      ModMod(position, U64, size);
    }
  }

  /** Wrapping 64-bit counters give the right offset at every position exactly when the buffer
      size divides 2^64. */
  lemma WrapExact(size: nat)
    requires 0 < size
    ensures (forall x: nat :: WrappedOffset(x, size) == x % size) <==> 0x1_0000_0000_0000_0000 % size == 0
  {
    if U64 % size == 0 {
      forall x: nat
        ensures WrappedOffset(x, size) == x % size
      {
        ModMod(x, U64, size);
      }
    } else {
      assert WrappedOffset(U64, size) == 0;
    }
  }

  function WrappedOffset(x: nat, size: nat): nat
    requires 0 < size
  {
    (x % U64) % size
  }

  /** An aligned tail leaves room for at least a header. */
  lemma AlignedRoom(size: nat, wrapped: int, position: nat)
    requires 0 < size && size % 8 == 0 && wrapped == position % U64 && Exact(size, position) && position % 8 == 0
    ensures wrapped % size == position % size && size - wrapped % size >= 8
  {
    ExactOffset(size, wrapped, position);
    ModEight(position, size);
    EightApart(size, position % size);
  }

  lemma EightApart(a: int, b: int)
    requires a % 8 == 0 && b % 8 == 0 && b < a
    ensures a - b >= 8
  {
  }

  lemma Offsets(s: Ring)
    requires Inv(s)
    ensures 0 <= s.Tail() <= s.Head()
    ensures s.tail % |s.buf| == s.Tail() % |s.buf| && s.head % |s.buf| == s.Head() % |s.buf|
    ensures |s.buf| - s.tail % |s.buf| >= 8
  {
    hide Inv, Flatten, Exact;
    TailBeforeHead(s);
    InvParts(s);
    ExactOffset(|s.buf|, s.head, s.Head());
    TailAligned(s);
    AlignedRoom(|s.buf|, s.tail, s.Tail());
  }

  lemma InvParts(s: Ring)
    requires Inv(s) && s.Tail() <= s.Head()
    ensures 0 < |s.buf| < U64 && |s.buf| % 8 == 0
    ensures Exact(|s.buf|, s.Head()) && Exact(|s.buf|, s.Tail())
    ensures s.head == s.Head() % U64 && s.tail == s.Tail() % U64
  {
  }

  lemma TailBeforeHead(s: Ring)
    requires Inv(s)
    ensures 0 < |s.buf| && s.consumed <= |s.produced| && s.Tail() <= s.Head()
  {
    FlattenConcat(s.produced[..s.consumed], s.produced[s.consumed..]);
    assert s.produced == s.produced[..s.consumed] + s.produced[s.consumed..];
  }

  lemma TailAligned(s: Ring)
    requires Inv(s)
    ensures s.Tail() % 8 == 0
  {
    FlattenEight(s.produced[..s.consumed]);
  }

  /** The program's emptiness test is right despite the wrapping counters. */
  lemma EmptyTest(s: Ring)
    requires Inv(s)
    ensures s.consumed <= |s.produced|
    ensures s.head == s.tail <==> s.consumed == |s.produced|
  {
    TailBeforeHead(s);
    if s.consumed < |s.produced| {
      FlattenAt(s.produced, s.consumed);
      assert s.Tail() < s.Head() <= s.Tail() + |s.buf| < s.Tail() + U64;
      ModDistinct(s.Tail(), s.Head(), U64);
    } else {
      assert s.produced[..s.consumed] == s.produced;
    }
  }

  /** Byte `k` of the oldest unread record, `k` places after the tail. */
  lemma NextByte(s: Ring, k: nat)
    requires Inv(s) && s.consumed < |s.produced| && k < |s.produced[s.consumed]|
    ensures s.buf[(s.Tail() + k) % |s.buf|] == s.produced[s.consumed][k]
  {
    FlattenAt(s.produced, s.consumed);
    assert Flatten(s.produced)[s.Tail() + k] == s.produced[s.consumed][k];
  }

  lemma NextFits(s: Ring)
    requires Inv(s) && s.consumed < |s.produced|
    ensures 8 <= |s.produced[s.consumed]| <= |s.buf|
  {
    FlattenAt(s.produced, s.consumed);
  }

  /** Byte `k` of the oldest unread record, in terms of the offset the program computes. */
  lemma NextByteAt(s: Ring, k: nat)
    requires Inv(s) && s.consumed < |s.produced| && k < |s.produced[s.consumed]|
    ensures var n, offset := |s.buf|, s.tail % |s.buf|;
            && (offset + k < n ==> s.buf[offset + k] == s.produced[s.consumed][k])
            && (offset + k >= n ==> 0 <= offset + k - n < n && s.buf[offset + k - n] == s.produced[s.consumed][k])
  {
    hide Inv;
    NextByte(s, k);
    NextFits(s);
    Offsets(s);
    ModAdd(s.Tail(), k, |s.buf|);
  }

  /** The header is never split, and it states the length of the oldest unread record. */
  lemma NextHeader(s: Ring)
    requires Inv(s) && s.consumed < |s.produced|
    ensures |s.buf| - s.tail % |s.buf| >= 8
    ensures HeaderSize(s.buf[s.tail % |s.buf|..]) == |s.produced[s.consumed]|
  {
    Offsets(s);
    NextFits(s);
    NextByteAt(s, 6);
    NextByteAt(s, 7);
    assert IsRecord(s.produced[s.consumed]);
  }

  lemma NextInPlace(s: Ring)
    requires Inv(s) && s.consumed < |s.produced|
    requires s.tail % |s.buf| + |s.produced[s.consumed]| <= |s.buf|
    ensures s.buf[s.tail % |s.buf|..s.tail % |s.buf| + |s.produced[s.consumed]|] == s.produced[s.consumed]
  {
    hide Inv;
    NextFits(s);
    var offset, r := s.tail % |s.buf|, s.produced[s.consumed];
    forall k | 0 <= k < |r|
      ensures s.buf[offset + k] == r[k]
    {
      NextByteAt(s, k);
    }
    assert s.buf[offset..offset + |r|] == r;
  }

  lemma NextWrapped(s: Ring)
    requires Inv(s) && s.consumed < |s.produced|
    requires s.tail % |s.buf| + |s.produced[s.consumed]| > |s.buf|
    ensures var offset, r := s.tail % |s.buf|, s.produced[s.consumed];
            && 0 <= offset + |r| - |s.buf| <= |s.buf|
            && s.buf[offset..] + s.buf[..offset + |r| - |s.buf|] == r
  {
    hide Inv;
    NextFits(s);
    var n, offset, r := |s.buf|, s.tail % |s.buf|, s.produced[s.consumed];
    forall k | 0 <= k < |r|
      ensures offset + k < n ==> s.buf[offset + k] == r[k]
      ensures offset + k >= n ==> s.buf[offset + k - n] == r[k]
    {
      NextByteAt(s, k);
    }
    var joined := s.buf[offset..] + s.buf[..offset + |r| - n];
    forall k | 0 <= k < |r|
      ensures joined[k] == r[k]
    {
      assert offset + k < n ==> joined[k] == s.buf[offset + k];
      assert offset + k >= n ==> joined[k] == s.buf[offset + k - n];
    }
    assert joined == r;
  }

  /** A round reads exactly the oldest unread record, byte for byte and across the end of the
      buffer, unless that record is of the one kind that is not supported. */
  lemma FetchIsNext(s: Ring)
    requires Inv(s) && s.consumed < |s.produced|
    ensures |s.buf| - s.tail % |s.buf| >= 8
    ensures HeaderSize(s.buf[s.tail % |s.buf|..]) - (|s.buf| - s.tail % |s.buf|) <= |s.buf|
    ensures Fetch(s.buf, s.tail) == if Unsupported(s) then TooLong else Record(s.produced[s.consumed])
  {
    hide Inv;
    NextHeader(s);
    NextFits(s);
    var left, r := |s.buf| - s.tail % |s.buf|, s.produced[s.consumed];
    if left < |r| {
      NextWrapped(s);
    } else {
      NextInPlace(s);
    }
  }

  /** One round of the sampler's loop; `crashed` stands for `exit(-1)`. */
  function Consume(s: Ring): Ring
    requires Inv(s)
  {
    if s.head == s.tail then s
    else
      EmptyTest(s); FetchIsNext(s);
      match Fetch(s.buf, s.tail)
      case Record(r) =>
        s.(tail := (s.tail + |r|) % U64,
           calls := s.calls + Deliver(s.receiver, r),
           consumed := s.consumed + 1)
      case _ => s.(crashed := true)
  }

  lemma DispatchStep(receiver: Receiver, rs: seq<seq<byte>>, c: nat)
    requires AllRecords(rs) && c < |rs|
    ensures Dispatch(receiver, rs[..c + 1]) == Dispatch(receiver, rs[..c]) + Deliver(receiver, rs[c])
  {
    assert rs[..c + 1][..c] == rs[..c] && rs[..c + 1][c] == rs[c];
  }

  /** The ring after a round has taken the oldest unread record. */
  function Taken(s: Ring): Ring
    requires Inv(s) && s.consumed < |s.produced|
  {
    var r := s.produced[s.consumed];
    s.(tail := (s.tail + |r|) % U64,
       calls := s.calls + Deliver(s.receiver, r),
       consumed := s.consumed + 1)
  }

  lemma TakenInv(s: Ring)
    requires Inv(s) && s.consumed < |s.produced|
    ensures Inv(Taken(s))
  {
    hide Flatten, Dispatch, Deliver, IsRecord, Exact;
    FlattenAt(s.produced, s.consumed);
    DispatchStep(s.receiver, s.produced, s.consumed);
    ModAddWrap(s.Tail(), |s.produced[s.consumed]|, U64);
  }

  /** A round does nothing on an empty ring, crashes exactly when the oldest unread record is
      unsupported, and otherwise takes that record. */
  lemma ConsumeIs(s: Ring)
    requires Inv(s)
    ensures Consume(s) ==
            if s.consumed == |s.produced| then s
            else if Unsupported(s) then s.(crashed := true)
            else Taken(s)
  {
    hide Inv, Fetch, Deliver, Dispatch;
    EmptyTest(s);
    if s.head != s.tail {
      FetchIsNext(s);
    }
  }

  /** Appending keeps the invariant and leaves everything unread where it is. */
  lemma AppendInv(s: Ring, r: seq<byte>)
    requires Inv(s)
    ensures Inv(Append(s, r))
  {
    if Fits(s, r) {
      var t := Append(s, r);
      TailBeforeHead(s);
      Offsets(s);
      assert t.produced[..s.consumed] == s.produced[..s.consumed];
      assert t.produced[..|s.produced|] == s.produced;
      ModAddWrap(s.Head(), |r|, U64);
      AppendBytes(s, r);
    }
  }

  lemma AppendBytes(s: Ring, r: seq<byte>)
    requires Inv(s) && Fits(s, r) && 0 <= s.Tail() <= s.Head()
    requires s.head % |s.buf| == s.Head() % |s.buf|
    ensures var w, stream := WriteAt(s.buf, s.head, r), Flatten(s.produced) + r;
            forall p :: s.Tail() <= p < s.Head() + |r| ==> w[p % |s.buf|] == stream[p]
  {
    hide Flatten;
    var n, h := |s.buf|, s.Head();
    SameOffset(s.buf, s.head, h, r);
    forall p | s.Tail() <= p < h + |r|
      ensures WriteAt(s.buf, s.head, r)[p % n] == (Flatten(s.produced) + r)[p]
    {
      if p < h {
        WriteAtOld(s.buf, h, r, p);
        assert s.buf[p % n] == Flatten(s.produced)[p];
      } else {
        WriteAtNew(s.buf, h, r, p - h);
      }
    }
  }

  /** Only the offset of the write position matters. */
  lemma SameOffset(buf: seq<byte>, at: int, at': int, r: seq<byte>)
    requires 0 < |buf| && at % |buf| == at' % |buf|
    ensures WriteAt(buf, at, r) == WriteAt(buf, at', r)
  {
    forall i: int
      ensures Offset(i, at, |buf|) == Offset(i, at', |buf|)
    {
      ModSubWrap(i, at, |buf|);
      ModSubWrap(i, at', |buf|);
    }
    assert WriteAt(buf, at, r) == WriteAt(buf, at', r);
  }

  /** A record the kernel writes during a round does not change what the round reads. */
  lemma AppendKeepsFetch(s: Ring, r: seq<byte>)
    requires Inv(s) && s.consumed < |s.produced|
    ensures |s.buf| - s.tail % |s.buf| >= 8
    ensures HeaderSize(s.buf[s.tail % |s.buf|..]) - (|s.buf| - s.tail % |s.buf|) <= |s.buf|
    ensures Inv(Append(s, r)) && Append(s, r).tail == s.tail && |Append(s, r).buf| == |s.buf|
    ensures HeaderSize(Append(s, r).buf[s.tail % |s.buf|..]) - (|s.buf| - s.tail % |s.buf|) <= |s.buf|
    ensures Fetch(Append(s, r).buf, s.tail) == Fetch(s.buf, s.tail)
  {
    AppendInv(s, r);
    FetchIsNext(s);
    FetchIsNext(Append(s, r));
  }

  // ----- Runs -----

  datatype Action = Produce(record: seq<byte>) | Poll

  /** The sampler stops for good when it crashes. */
  function Step(s: Ring, a: Action): (t: Ring)
    requires Inv(s)
    ensures Inv(t)
  {
    if s.crashed then s
    else
      match a
      case Produce(r) => AppendInv(s, r); Append(s, r)
      case Poll => ConsumeIs(s); PollInv(s); Consume(s)
  }

  lemma PollInv(s: Ring)
    requires Inv(s)
    ensures Inv(Consume(s))
  {
    hide Consume, Taken;
    ConsumeIs(s);
    if s.consumed < |s.produced| && !Unsupported(s) {
      TakenInv(s);
    } else {
      assert Inv(s.(crashed := true));
    }
  }

  function Exec(s: Ring, acts: seq<Action>): (t: Ring)
    requires Inv(s)
    ensures Inv(t)
  {
    if acts == [] then s else Step(Exec(s, acts[..|acts| - 1]), acts[|acts| - 1])
  }

  lemma {:induction false} ExecConcat(s: Ring, a: seq<Action>, b: seq<Action>)
    requires Inv(s)
    ensures Exec(s, a + b) == Exec(Exec(s, a), b)
  {
    if b == [] {
      assert a + b == a;
    } else {
      ExecConcat(s, a, b[..|b| - 1]);
      assert (a + b)[..|a + b| - 1] == a + b[..|b| - 1];
    }
  }

  /** The bytes between tail and head, as the buffer and the counters give them. */
  function Unread(s: Ring): seq<byte>
    requires Inv(s)
  {
    seq((s.head - s.tail) % U64, j requires 0 <= j => s.buf[(s.tail + j) % |s.buf|])
  }

  lemma UnreadIs(s: Ring)
    requires Inv(s)
    ensures Unread(s) == Flatten(s.produced[s.consumed..])
  {
    hide Inv, Flatten;
    TailBeforeHead(s);
    Offsets(s);
    UnreadLength(s);
    forall j | 0 <= j < |Unread(s)|
      ensures Unread(s)[j] == Flatten(s.produced[s.consumed..])[j]
    {
      SameSum(s.tail, s.Tail(), j, |s.buf|);
      UnreadByte(s, j);
    }
    assert Unread(s) == Flatten(s.produced[s.consumed..]);
  }

  lemma UnreadLength(s: Ring)
    requires Inv(s)
    ensures (s.head - s.tail) % U64 == |Flatten(s.produced[s.consumed..])| == s.Head() - s.Tail()
  {
    TailBeforeHead(s);
    FlattenConcat(s.produced[..s.consumed], s.produced[s.consumed..]);
    assert s.produced == s.produced[..s.consumed] + s.produced[s.consumed..];
    ModDistance(s.Head(), s.Tail(), U64);
  }

  lemma UnreadByte(s: Ring, j: nat)
    requires Inv(s) && j < |Flatten(s.produced[s.consumed..])|
    ensures s.buf[(s.Tail() + j) % |s.buf|] == Flatten(s.produced[s.consumed..])[j]
  {
    FlattenConcat(s.produced[..s.consumed], s.produced[s.consumed..]);
    assert s.produced == s.produced[..s.consumed] + s.produced[s.consumed..];
    assert s.buf[(s.Tail() + j) % |s.buf|] == Flatten(s.produced)[s.Tail() + j];
  }

  lemma SameSum(a: int, b: int, j: int, n: int)
    requires n > 0 && a % n == b % n
    ensures (a + j) % n == (b + j) % n
  {
    ModAddWrap(a, j, n);
    ModAddWrap(b, j, n);
  }

  /** In every interleaving of kernel and sampler, from an empty ring of any size: the calls
      made so far are those the oldest records lead to, each record once, in order and byte for
      byte, and the bytes still between tail and head are exactly the later records. */
  lemma EveryRecordOnce(buf: seq<byte>, receiver: Receiver, acts: seq<Action>)
    requires 0 < |buf| < U64 && |buf| % 8 == 0
    ensures Inv(Initial(buf, receiver))
    ensures var t := Exec(Initial(buf, receiver), acts);
            && AllRecords(t.produced) && t.consumed <= |t.produced|
            && t.calls == Dispatch(t.receiver, t.produced[..t.consumed])
            && Unread(t) == Flatten(t.produced[t.consumed..])
            && t.tail == |Flatten(t.produced[..t.consumed])| % U64
  {
    UnreadIs(Exec(Initial(buf, receiver), acts));
  }

  /** The sampler exits only on a record that runs past the end of the buffer and is longer
      than the scratch buffer. */
  lemma {:induction false} CrashCause(s: Ring, acts: seq<Action>)
    requires Inv(s) && !s.crashed
    ensures var t := Exec(s, acts);
            t.crashed ==>
              && t.consumed < |t.produced| && 64 < |t.produced[t.consumed]|
              && |t.buf| - t.tail % |t.buf| < |t.produced[t.consumed]|
  {
    if acts != [] {
      CrashCause(s, acts[..|acts| - 1]);
      ConsumeIs(Exec(s, acts[..|acts| - 1]));
    }
  }

  /** And it does exit on every such record. */
  lemma CrashCertain(s: Ring)
    requires Inv(s) && !s.crashed && s.consumed < |s.produced|
    requires 64 < |s.produced[s.consumed]| && |s.buf| - s.tail % |s.buf| < |s.produced[s.consumed]|
    ensures Step(s, Poll) == s.(crashed := true)
  {
    ConsumeIs(s);
  }

  predicate Short(rs: seq<seq<byte>>) {
    forall i :: 0 <= i < |rs| ==> |rs[i]| <= 64
  }

  lemma {:induction false} ShortKept(s: Ring, acts: seq<Action>)
    requires Inv(s) && Short(s.produced)
    requires forall i :: 0 <= i < |acts| && acts[i].Produce? ==> |acts[i].record| <= 64
    ensures Short(Exec(s, acts).produced)
  {
    if acts != [] {
      ShortKept(s, acts[..|acts| - 1]);
    }
  }

  /** With records of at most 64 bytes neither `exit(-1)` is ever reached. */
  lemma NeverExits(buf: seq<byte>, receiver: Receiver, acts: seq<Action>)
    requires 0 < |buf| < U64 && |buf| % 8 == 0
    requires forall i :: 0 <= i < |acts| && acts[i].Produce? ==> |acts[i].record| <= 64
    ensures Inv(Initial(buf, receiver)) && !Exec(Initial(buf, receiver), acts).crashed
  {
    CrashCause(Initial(buf, receiver), acts);
    ShortKept(Initial(buf, receiver), acts);
  }

  // ----- A run that exits -----

  /** A record of 72 bytes. */
  function LongRecord(): (r: seq<byte>)
    ensures |r| == 72 && IsRecord(r)
  {
    seq(72, i requires 0 <= i => if i == 6 then 72 else 0)
  }

  /** What a ring of 128 bytes looks like once `n` long records were written and `c` taken. */
  ghost predicate LongRun(s: Ring, n: nat, c: nat) {
    && Inv(s) && |s.buf| == 128 && !s.crashed && s.consumed == c <= n == |s.produced|
    && s.Head() == 72 * n && s.Tail() == 72 * c && forall i :: 0 <= i < n ==> s.produced[i] == LongRecord()
  }

  lemma LongWritten(s: Ring, n: nat)
    requires LongRun(s, n, n) && n < 2
    ensures LongRun(Step(s, Produce(LongRecord())), n + 1, n)
  {
    hide Inv, LongRecord, WriteAt;
    var r, t := LongRecord(), Step(s, Produce(LongRecord()));
    LongFits(s, n);
    assert s.produced[..n] == s.produced;
    assert (s.produced + [r])[..n] == s.produced && (s.produced + [r])[..n + 1] == s.produced + [r];
  }

  lemma LongFits(s: Ring, n: nat)
    requires LongRun(s, n, n) && n < 2
    ensures Fits(s, LongRecord())
  {
  }

  lemma LongTaken(s: Ring)
    requires LongRun(s, 1, 0)
    ensures LongRun(Step(s, Poll), 1, 1)
  {
    hide Inv, LongRecord, Dispatch, Deliver, Consume;
    ConsumeIs(s);
    TakenInv(s);
    Offsets(s);
    assert s.produced[..1] == s.produced && s.tail % 128 == 0;
  }

  lemma LongExits(s: Ring)
    requires LongRun(s, 2, 1)
    ensures Step(s, Poll).crashed
  {
    hide Inv, LongRecord, Dispatch, Deliver, Consume;
    ConsumeIs(s);
    Offsets(s);
  }

  /** On a ring of 128 bytes the second record of 72 bytes runs past the end, and the sampler
      exits. */
  lemma ExitReached(buf: seq<byte>, receiver: Receiver)
    requires |buf| == 128
    ensures var r := LongRecord();
            && Inv(Initial(buf, receiver))
            && Exec(Initial(buf, receiver), [Produce(r), Poll, Produce(r), Poll]).crashed
  {
    var s, r := Initial(buf, receiver), LongRecord();
    assert LongRun(s, 0, 0);
    hide LongRun, Inv, Step, LongRecord;
    var a, b, c, d := Produce(r), Poll, Produce(r), Poll;
    var s1 := Step(s, a);
    LongWritten(s, 0);
    LongTaken(s1);
    var s2 := Step(s1, b);
    LongWritten(s2, 1);
    var s3 := Step(s2, c);
    LongExits(s3);
    ExecFour(s, a, b, c, d);
  }

  lemma ExecFour(s: Ring, a: Action, b: Action, c: Action, d: Action)
    requires Inv(s)
    ensures Exec(s, [a, b, c, d]) == Step(Step(Step(Step(s, a), b), c), d)
  {
    hide Inv, Step;
    assert [a, b, c, d][..3] == [a, b, c] && [a, b, c][..2] == [a, b] && [a, b][..1] == [a] && [a][..0] == [];
    assert Exec(s, []) == s;
    assert Exec(s, [a]) == Step(s, a);
    assert Exec(s, [a, b]) == Step(Step(s, a), b);
    assert Exec(s, [a, b, c]) == Step(Step(Step(s, a), b), c);
  }
}
