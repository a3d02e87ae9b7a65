/**
  `sendfile` (kernel/src/syscall/sendfile.rs): copying between two files under any pattern of short
  reads, short writes and errors. The pattern is an arbitrary function that says, for each turn of the
  loop, how much the input is willing to give and the output willing to take, or with what error they
  refuse. Everything below holds for every such function.
 */
module Sendfile {
  import opened Basics
  import opened Wrappers

  datatype Errno = EINVAL | EBADF | EFAULT | EIO

  const MAX_COUNT: nat := 0x7fff_f000
  const BUFFER_SIZE: nat := 4096
  const ISIZE_MAX: int := 0x7fff_ffff_ffff_ffff

  /** The bytes of `content` from `from` on, at most `n` of them. */
  function Slice(content: seq<Byte>, from: nat, n: nat): seq<Byte> {
    if from + n <= |content| then content[from..from + n]
    else if from <= |content| then content[from..]
    else []
  }

  /** What the two files do in one turn of the loop. */
  datatype Turn = Turn(read: Result<nat, Errno>, write: Result<nat, Errno>)

  /** A seekable input file. */
  class InputFile {
    const content: seq<Byte>
    var position: nat

    constructor (content: seq<Byte>)
      ensures this.content == content && position == 0
    {
      this.content := content;
      position := 0;
    }

    /** Reads up to `max` bytes at the given offset and leaves the position alone. */
    method ReadBytesAt(offset: nat, max: nat, willing: Result<nat, Errno>) returns (r: Result<seq<Byte>, Errno>)
      ensures r == match willing
                   case Err(e) => Err(e)
                   case Ok(n) => Ok(Slice(content, offset, Min(n, max)))
    {
      if willing.Err? {
        return Err(willing.error);
      }
      return Ok(Slice(content, offset, Min(willing.value, max)));
    }

    /** Reads up to `max` bytes at the position and moves it past them. */
    method ReadBytes(max: nat, willing: Result<nat, Errno>) returns (r: Result<seq<Byte>, Errno>)
      modifies `position
      ensures r == match willing
                   case Err(e) => Err(e)
                   case Ok(n) => Ok(Slice(content, old(position), Min(n, max)))
      ensures position == old(position) + if r.Ok? then |r.value| else 0
    {
      r := ReadBytesAt(position, max, willing);
      if r.Ok? {
        position := position + |r.value|;
      }
    }

    method Seek(offset: nat)
      modifies `position
      ensures position == offset
    {
      position := offset;
    }
  }

  class OutputFile {
    var content: seq<Byte>

    constructor ()
      ensures content == []
    {
      content := [];
    }

    /** Appends as much of `data` as the file is willing to take. */
    method WriteBytes(data: seq<Byte>, willing: Result<nat, Errno>) returns (r: Result<nat, Errno>)
      modifies `content
      ensures r == match willing case Err(e) => Err(e) case Ok(n) => Ok(Min(n, |data|))
      ensures content == old(content) + data[..if r.Ok? then r.value else 0]
    {
      if willing.Err? {
        return Err(willing.error);
      }
      var n := Min(willing.value, |data|);
      content := content + data[..n];
      return Ok(n);
    }
  }

  /** What the call finds out about its files before it moves any data. */
  datatype Access = Access(
    inSeekable: bool, inReadable: bool, outWritable: bool, inIsDirectory: bool, outAppendsAndIsNoPipe: bool)

  /** The checks before the transfer, in the order the kernel makes them. */
  function Rejected(offset: Option<int>, count: int, access: Access): Option<Errno> {
    if offset.Some? && offset.value < 0 then Some(EINVAL)
    else if offset.Some? && offset.value + count > ISIZE_MAX then Some(EINVAL)
    else if count < 0 then Some(EINVAL)
    else if offset.None? && !access.inSeekable then Some(EINVAL)
    else if !access.inReadable then Some(EBADF)
    else if !access.outWritable then Some(EBADF)
    else if access.inIsDirectory then Some(EINVAL)
    else if access.outAppendsAndIsNoPipe then Some(EINVAL)
    else None
  }

  /** The arguments make sense: no negative number, no overflow, and a position to read from. */
  predicate Sensible(offset: Option<int>, count: int, access: Access) {
    && count >= 0
    && match offset
       case None => access.inSeekable
       case Some(start) => 0 <= start <= ISIZE_MAX - count
  }

  /** When a call is refused and why: bad arguments come before missing access, and that before the rest. */
  lemma RejectedExactlyWhen(offset: Option<int>, count: int, access: Access)
    ensures Rejected(offset, count, access) == Some(EBADF) <==>
            Sensible(offset, count, access) && !(access.inReadable && access.outWritable)
    ensures Rejected(offset, count, access) == None <==>
            && Sensible(offset, count, access) && access.inReadable && access.outWritable
            && !access.inIsDirectory && !access.outAppendsAndIsNoPipe
    ensures Rejected(offset, count, access) in {None, Some(EBADF), Some(EINVAL)}
  {
  }

  lemma {:induction false} SliceExtends(content: seq<Byte>, from: nat, n: nat, m: nat)
    requires |Slice(content, from, n)| == n && |Slice(content, from + n, m)| == m
    ensures Slice(content, from, n) + Slice(content, from + n, m) == Slice(content, from, n + m)
    ensures |Slice(content, from, n + m)| == n + m
  {
  }

  lemma SlicePrefix(content: seq<Byte>, from: nat, n: nat, k: nat)
    requires k <= |Slice(content, from, n)|
    ensures Slice(content, from, n)[..k] == Slice(content, from, k) && |Slice(content, from, k)| == k
  {
  }

  // ---------------------------------------------------------------------------
  // How far a transfer gets
  // ---------------------------------------------------------------------------

  /** The outcome of the transfer loop: it broke off or finished, or failed before sending anything. */
  datatype Transfer = Moved(total: nat, shortWrite: bool) | FailedAtStart(error: Errno)

  /** The number of bytes of the input from `from` on. */
  function Available(size: nat, from: nat): nat {
    if from <= size then size - from else 0
  }

  /** One turn of the loop either ends it or moves some bytes. */
  datatype Progress = Stop(result: Transfer) | Continue(len: nat)

  function AfterTurn(size: nat, from: nat, count: nat, total: nat, turn: Turn): (p: Progress)
    requires total < count
    ensures p.Continue? ==> 0 < p.len <= count - total
  {
    match turn.read
    case Err(e) => Stop(if total > 0 then Moved(total, false) else FailedAtStart(e))
    case Ok(n) =>
      var got := Min(Min(n, Min(BUFFER_SIZE, count - total)), Available(size, from + total));
      if got == 0 then Stop(Moved(total, false)) else AfterRead(total, got, turn.write)
  }

  /** The second half of a turn, once `got` bytes have been read. */
  function AfterRead(total: nat, got: nat, write: Result<nat, Errno>): (p: Progress)
    ensures p.Continue? ==> p.len == got
  {
    match write
    case Err(e) => Stop(if total > 0 then Moved(total, true) else FailedAtStart(e))
    case Ok(m) => if m < got then Stop(Moved(total + m, true)) else Continue(got)
  }

  /** How a transfer from `from` ends that has moved `total` of `count` bytes before turn `k`. */
  function Outcome(size: nat, from: nat, count: nat, total: nat, turns: nat -> Turn, k: nat): Transfer
    requires total <= count
    decreases count - total
  {
    if total == count then Moved(total, false)
    else
      match AfterTurn(size, from, count, total, turns(k))
      case Stop(result) => result
      case Continue(len) => Outcome(size, from, count, total + len, turns, k + 1)
  }

  /** Both files do what they are asked for in turn `k`. */
  predicate Willing(turn: Turn) {
    && turn.read.Ok? && turn.read.value >= BUFFER_SIZE
    && turn.write.Ok? && turn.write.value >= BUFFER_SIZE
  }

  /** If the files never refuse or fall short, everything asked for is sent that the input has. */
  lemma {:induction false} WillingFilesSendAll(size: nat, from: nat, count: nat, total: nat, turns: nat -> Turn, k: nat)
    requires total <= count && total <= Available(size, from) && forall j: nat | j >= k :: Willing(turns(j))
    ensures Outcome(size, from, count, total, turns, k) == Moved(Min(count, Available(size, from)), false)
    decreases count - total
  {
    assert Willing(turns(k));
    if total < count && total < Available(size, from) {
      var got := Min(Min(BUFFER_SIZE, count - total), Available(size, from + total));
      WillingFilesSendAll(size, from, count, total + got, turns, k + 1);
    }
  }

  /** A transfer never moves more than asked for or than there is, and fails only with nothing moved. */
  lemma {:induction false} OutcomeInRange(size: nat, from: nat, count: nat, total: nat, turns: nat -> Turn, k: nat)
    requires total <= count && total <= Available(size, from)
    ensures var r := Outcome(size, from, count, total, turns, k);
      && (r.Moved? ==> total <= r.total <= Min(count, Available(size, from)))
      && (r.FailedAtStart? ==> total == 0)
    decreases count - total
  {
    if total < count {
      var progress := AfterTurn(size, from, count, total, turns(k));
      if progress.Continue? {
        OutcomeInRange(size, from, count, total + progress.len, turns, k + 1);
      }
    }
  }

  // ---------------------------------------------------------------------------
  // Where a transfer stops, from what the files do in each turn
  // ---------------------------------------------------------------------------

  /** The bytes a turn reads after `total` bytes: what the input gives of what is asked for and there. */
  function Gets(size: nat, from: nat, count: nat, total: nat, turn: Turn): (n: nat)
    requires total <= count
    ensures n <= count - total
  {
    if turn.read.Err? then 0
    else Min(turn.read.value, Min(Min(BUFFER_SIZE, count - total), Available(size, from + total)))
  }

  /** The bytes that the turns before turn `k` read together. */
  function ReadBefore(size: nat, from: nat, count: nat, turns: nat -> Turn, k: nat): (n: nat)
    ensures n <= count
  {
    if k == 0 then 0
    else
      var total := ReadBefore(size, from, count, turns, k - 1);
      total + Gets(size, from, count, total, turns(k - 1))
  }

  /** Turn `k` does not do all it is meant to: an error, an empty read or a short write. */
  predicate Trouble(size: nat, from: nat, count: nat, turns: nat -> Turn, k: nat) {
    var got := Gets(size, from, count, ReadBefore(size, from, count, turns, k), turns(k));
    turns(k).read.Err? || got == 0 || turns(k).write.Err? || turns(k).write.value < got
  }

  /** There is something left to do before turn `k`, and turn `k` does all it is meant to. */
  predicate GoesOn(size: nat, from: nat, count: nat, turns: nat -> Turn, k: nat) {
    ReadBefore(size, from, count, turns, k) < count && !Trouble(size, from, count, turns, k)
  }

  /** Turn `k` is the first that has nothing left to do or meets trouble. */
  ghost predicate StopsAt(size: nat, from: nat, count: nat, turns: nat -> Turn, k: nat) {
    && (forall j: nat | j < k :: GoesOn(size, from, count, turns, j))
    && !GoesOn(size, from, count, turns, k)
  }

  /** What is left of turn `k` although it met trouble: a short write. */
  function Partial(size: nat, from: nat, count: nat, turns: nat -> Turn, k: nat): nat {
    var got := Gets(size, from, count, ReadBefore(size, from, count, turns, k), turns(k));
    if got > 0 && turns(k).write.Ok? && turns(k).write.value < got then turns(k).write.value else 0
  }

  /** The error of the very first read, or of the first write if that read gave anything. */
  function FirstError(size: nat, from: nat, count: nat, turn: Turn): Option<Errno> {
    if turn.read.Err? then Some(turn.read.error)
    else if Gets(size, from, count, 0, turn) > 0 && turn.write.Err? then Some(turn.write.error)
    else None
  }

  /** The transfer that stops at turn `k` fails or has moved as much as it can have. */
  ghost predicate EndsAt(r: Transfer, size: nat, from: nat, count: nat, turns: nat -> Turn, k: nat) {
    && StopsAt(size, from, count, turns, k)
    && (r.FailedAtStart? <==> count > 0 && FirstError(size, from, count, turns(0)).Some?)
    && (r.FailedAtStart? ==> k == 0 && FirstError(size, from, count, turns(0)) == Some(r.error))
    && (r.Moved? ==>
          r.total == ReadBefore(size, from, count, turns, k)
                     + if ReadBefore(size, from, count, turns, k) == count then 0
                       else Partial(size, from, count, turns, k))
  }

  /** Every transfer ends at the first turn in trouble, or with everything moved. */
  lemma {:induction false} OutcomeEnds(size: nat, from: nat, count: nat, turns: nat -> Turn, k: nat, total: nat)
    returns (stop: nat)
    requires total == ReadBefore(size, from, count, turns, k) && (k > 0 <==> total > 0)
    requires forall j: nat | j < k :: GoesOn(size, from, count, turns, j)
    ensures stop >= k && EndsAt(Outcome(size, from, count, total, turns, k), size, from, count, turns, stop)
    decreases count - total
  {
    stop := k;
    if GoesOn(size, from, count, turns, k) {
      TurnGoesOn(size, from, count, total, turns(k));
      stop := OutcomeEnds(size, from, count, turns, k + 1, total + Gets(size, from, count, total, turns(k)));
    } else {
      EndsHere(size, from, count, turns, k, total);
    }
  }

  lemma TurnGoesOn(size: nat, from: nat, count: nat, total: nat, turn: Turn)
    requires total < count && turn.read.Ok? && turn.write.Ok?
    requires var got := Gets(size, from, count, total, turn); 0 < got <= turn.write.value
    ensures AfterTurn(size, from, count, total, turn) == Continue(Gets(size, from, count, total, turn))
  {
  }

  lemma TurnStops(size: nat, from: nat, count: nat, total: nat, turn: Turn, got: nat)
    requires total < count && got == Gets(size, from, count, total, turn)
    requires turn.read.Err? || got == 0 || turn.write.Err? || turn.write.value < got
    ensures var p := AfterTurn(size, from, count, total, turn);
      && p.Stop?
      && (p.result.FailedAtStart? <==> total == 0 && (turn.read.Err? || (got > 0 && turn.write.Err?)))
      && (p.result.FailedAtStart? ==>
            p.result.error == if turn.read.Err? then turn.read.error else turn.write.error)
      && (p.result.Moved? ==>
            p.result.total ==
              total + if got > 0 && turn.write.Ok? && turn.write.value < got then turn.write.value else 0)
  {
  }

  lemma {:induction false} EndsHere(size: nat, from: nat, count: nat, turns: nat -> Turn, k: nat, total: nat)
    requires total == ReadBefore(size, from, count, turns, k) && (k > 0 <==> total > 0)
    requires forall j: nat | j < k :: GoesOn(size, from, count, turns, j)
    requires !GoesOn(size, from, count, turns, k)
    ensures EndsAt(Outcome(size, from, count, total, turns, k), size, from, count, turns, k)
  {
    FirstTurnGoesWell(size, from, count, turns, k);
    if total < count {
      TurnStops(size, from, count, total, turns(k), Gets(size, from, count, total, turns(k)));
    }
  }

  lemma FirstTurnGoesWell(size: nat, from: nat, count: nat, turns: nat -> Turn, k: nat)
    requires forall j: nat | j < k :: GoesOn(size, from, count, turns, j)
    ensures k > 0 ==> FirstError(size, from, count, turns(0)).None?
  {
    if k > 0 {
      assert GoesOn(size, from, count, turns, 0);
    }
  }

  // ---------------------------------------------------------------------------
  // The transfer loop
  // ---------------------------------------------------------------------------

  /** One read, at the caller's offset or at the position of the file. */
  method ReadNext(input: InputFile, offset: Option<nat>, total: nat, max: nat, willing: Result<nat, Errno>)
    returns (r: Result<seq<Byte>, Errno>)
    modifies input
    ensures var from := if offset.Some? then offset.value + total else old(input.position);
      r == match willing case Err(e) => Err(e) case Ok(n) => Ok(Slice(input.content, from, Min(n, max)))
    ensures input.position == old(input.position) + if r.Ok? && offset.None? then |r.value| else 0
  {
    if offset.Some? {
      r := input.ReadBytesAt(offset.value + total, max, willing);
    } else {
      r := input.ReadBytes(max, willing);
    }
  }

  /** The next `len` bytes, of which `data` is what was read, belong after the `total` bytes sent already. */
  lemma Appended(content: seq<Byte>, sent: seq<Byte>, origin: nat, total: nat, n: nat, len: nat)
    requires |Slice(content, origin, total)| == total && len <= |Slice(content, origin + total, n)|
    ensures |Slice(content, origin, total + len)| == total + len
    ensures (sent + Slice(content, origin, total)) + Slice(content, origin + total, n)[..len]
            == sent + Slice(content, origin, total + len)
  {
    SlicePrefix(content, origin + total, n, len);
    SliceExtends(content, origin, total, len);
  }

  lemma SliceSize(content: seq<Byte>, from: nat, n: nat)
    ensures |Slice(content, from, n)| == Min(n, Available(|content|, from))
  {
  }

  /** What the loop leaves behind when it ends with `r`. */
  ghost predicate Left(
      r: Transfer, content: seq<Byte>, offset: Option<nat>,
      position: nat, position': nat, sent: seq<Byte>, sent': seq<Byte>)
  {
    var origin := if offset.Some? then offset.value else position;
    match r
    case Moved(total, shortWrite) =>
      && |Slice(content, origin, total)| == total && sent' == sent + Slice(content, origin, total)
      && (offset.Some? ==> position' == position)
      && (offset.None? && !shortWrite ==> position' == position + total)
    case FailedAtStart(_) => sent' == sent && position' == position
  }

  /** Before a turn: `total` bytes have been sent, and the position has moved along unless an offset is used. */
  ghost predicate Underway(
      content: seq<Byte>, offset: Option<nat>,
      position: nat, position': nat, sent: seq<Byte>, sent': seq<Byte>, total: nat)
  {
    var origin := if offset.Some? then offset.value else position;
    && |Slice(content, origin, total)| == total
    && sent' == sent + Slice(content, origin, total)
    && position' == position + if offset.Some? then 0 else total
  }

  /** After a failed write: a partial transfer counts; with nothing sent the position is restored. */
  method GiveUp(
      input: InputFile, offset: Option<nat>, originPosition: nat, total: nat, error: Errno,
      ghost sent: seq<Byte>, ghost sent': seq<Byte>)
    returns (p: Progress)
    requires var origin := if offset.Some? then offset.value else originPosition;
      |Slice(input.content, origin, total)| == total && sent' == sent + Slice(input.content, origin, total)
    requires offset.Some? ==> input.position == originPosition
    requires total == 0 ==> sent' == sent
    modifies input
    ensures p == AfterRead(total, 0, Err(error)) && p.Stop?
    ensures Left(p.result, input.content, offset, originPosition, input.position, sent, sent')
  {
    if total > 0 {
      return Stop(Moved(total, true));
    }
    if offset.None? {
      input.Seek(originPosition);
    }
    return Stop(FailedAtStart(error));
  }

  /** The second half of a turn: writes what was read after the `total` bytes sent already. */
  method WriteNext(
      input: InputFile, output: OutputFile, offset: Option<nat>, originPosition: nat, total: nat, data: seq<Byte>,
      write: Result<nat, Errno>, ghost sent: seq<Byte>, ghost n: nat)
    returns (p: Progress)
    requires input as object != output
    requires Underway(input.content, offset, originPosition, originPosition + if offset.Some? then 0 else total,
                      sent, output.content, total)
    requires input.position == originPosition + if offset.Some? then 0 else total + |data|
    requires data == Slice(input.content, (if offset.Some? then offset.value else originPosition) + total, n)
    modifies input, output
    ensures p == AfterRead(total, |data|, write)
    ensures p.Continue? ==>
              Underway(input.content, offset, originPosition, input.position, sent, output.content, total + p.len)
    ensures p.Stop? ==>
              Left(p.result, input.content, offset, originPosition, input.position, sent, output.content)
  {
    ghost var origin := if offset.Some? then offset.value else originPosition;
    var written := output.WriteBytes(data, write);
    if written.Err? {
      NothingWritten(output.content, sent, input.content, origin, total, data);
      p := GiveUp(input, offset, originPosition, total, written.error, sent, output.content);
      return;
    }
    var len := written.value;
    Appended(input.content, sent, origin, total, n, len);
    return if len < |data| then Stop(Moved(total + len, true)) else Continue(len);
  }

  lemma NothingWritten(after: seq<Byte>, sent: seq<Byte>, content: seq<Byte>, origin: nat, total: nat, data: seq<Byte>)
    requires after == (sent + Slice(content, origin, total)) + data[..0]
    ensures after == sent + Slice(content, origin, total) && (total == 0 ==> after == sent)
  {
  }

  /** One turn of the loop. */
  method TakeTurn(
      input: InputFile, output: OutputFile, offset: Option<nat>, count: nat, originPosition: nat, total: nat,
      turn: Turn, ghost sent: seq<Byte>)
    returns (p: Progress)
    requires input as object != output && total < count
    requires Underway(input.content, offset, originPosition, input.position, sent, output.content, total)
    modifies input, output
    ensures p == AfterTurn(|input.content|, if offset.Some? then offset.value else originPosition, count, total, turn)
    ensures p.Continue? ==>
              Underway(input.content, offset, originPosition, input.position, sent, output.content, total + p.len)
    ensures p.Stop? ==>
              Left(p.result, input.content, offset, originPosition, input.position, sent, output.content)
  {
    ghost var origin := if offset.Some? then offset.value else originPosition;
    var maxReadLen := Min(BUFFER_SIZE, count - total);
    var read := ReadNext(input, offset, total, maxReadLen, turn.read);
    if read.Err? {
      if total > 0 {
        return Stop(Moved(total, false));
      }
      NothingWritten(output.content, sent, input.content, origin, total, []);
      return Stop(FailedAtStart(read.error));
    }
    var data := read.value;
    ghost var n := Min(turn.read.value, maxReadLen);
    SliceSize(input.content, origin + total, n);
    if data == [] {
      return Stop(Moved(total, false));
    }
    p := WriteNext(input, output, offset, originPosition, total, data, turn.write, sent, n);
  }

  method TransferLoop(input: InputFile, output: OutputFile, offset: Option<nat>, count: nat, turns: nat -> Turn)
    returns (r: Transfer)
    requires input as object != output
    modifies input, output
    ensures var origin := if offset.Some? then offset.value else old(input.position);
      r == Outcome(|input.content|, origin, count, 0, turns, 0)
    ensures Left(r, input.content, offset, old(input.position), input.position, old(output.content), output.content)
  {
    var originPosition := input.position;
    ghost var origin := if offset.Some? then offset.value else input.position;
    ghost var sent, size := output.content, |input.content|;
    var total, k := 0, 0;
    assert sent + Slice(input.content, origin, 0) == sent;
    while total < count
      invariant total <= count
      invariant Underway(input.content, offset, originPosition, input.position, sent, output.content, total)
      invariant Outcome(size, origin, count, 0, turns, 0) == Outcome(size, origin, count, total, turns, k)
      decreases count - total
    {
      var progress := TakeTurn(input, output, offset, count, originPosition, total, turns(k), sent);
      if progress.Stop? {
        return progress.result;
      }
      total, k := total + progress.len, k + 1;
    }
    return Moved(total, false);
  }

  /** Exactly the `n` bytes of the input from `start` on have been appended to the output. */
  ghost predicate Sent(content: seq<Byte>, start: nat, n: nat, before: seq<Byte>, after: seq<Byte>) {
    if n == 0 then after == before
    else start + n <= |content| && after == before + content[start..start + n]
  }

  /**
    An accepted call fails exactly with the error of its first read, or of its first write if that read
    gave anything. Else it sends what the turns before the first trouble read, and the part of a short
    write; less than `count` means that there was trouble.
   */
  ghost predicate Explained(
      r: Result<nat, Errno>, size: nat, from: nat, count: nat, turns: nat -> Turn, stop: nat)
  {
    && StopsAt(size, from, count, turns, stop)
    && (r.Err? <==> count > 0 && FirstError(size, from, count, turns(0)).Some?)
    && (r.Err? ==> FirstError(size, from, count, turns(0)) == Some(r.error))
    && (r.Ok? && r.value == count ==>
          ReadBefore(size, from, count, turns, stop) == count)
    && (r.Ok? && r.value != count ==>
          && r.value < count && Trouble(size, from, count, turns, stop)
          && r.value == ReadBefore(size, from, count, turns, stop) + Partial(size, from, count, turns, stop))
  }

  /**
    The system call. A call that reports `n` has appended exactly `input[start..start + n]`, and the
    input position (or the caller's offset) has moved by exactly `n`. A call that fails has sent
    nothing and left the position alone, unless the offset could not be written back at the end.
   */
  method SysSendfile(
      input: InputFile, output: OutputFile, offset: Option<int>, count: int, access: Access, offsetWritable: bool,
      turns: nat -> Turn)
    returns (r: Result<nat, Errno>, newOffset: Option<int>, ghost stop: nat)
    requires input as object != output
    requires offset.Some? ==> offset.value <= ISIZE_MAX
    requires count <= ISIZE_MAX
    modifies input, output
    ensures Rejected(offset, count, access).Some? ==>
              r == Err(Rejected(offset, count, access).value) && output.content == old(output.content)
    ensures Rejected(offset, count, access).None? ==>
              var start := if offset.Some? then offset.value else old(input.position);
              match Outcome(|input.content|, start, Min(MAX_COUNT, count), 0, turns, 0)
              case FailedAtStart(e) => r == Err(e) && output.content == old(output.content)
              case Moved(n, _) =>
                && Sent(input.content, start, n, old(output.content), output.content)
                && r == if offset.Some? && !offsetWritable then Err(EFAULT) else Ok(n)
    ensures Rejected(offset, count, access).None? && (offset.None? || offsetWritable) ==>
              var start := if offset.Some? then offset.value else old(input.position);
              Explained(r, |input.content|, start, Min(MAX_COUNT, count), turns, stop)
    ensures input.position == old(input.position) + if r.Ok? && offset.None? then r.value else 0
    ensures newOffset == if r.Ok? && offset.Some? then Some(offset.value + r.value) else None
    ensures newOffset.Some? ==> newOffset.value <= ISIZE_MAX
  {
    newOffset, stop := None, 0;
    var rejected := Rejected(offset, count, access);
    if rejected.Some? {
      r := Err(rejected.value);
      return;
    }
    var origin := input.position;
    var limited := Min(MAX_COUNT, count);
    var from := if offset.Some? then Some(offset.value as nat) else None;
    OutcomeInRange(|input.content|, if offset.Some? then offset.value else origin, limited, 0, turns, 0);
    stop := OutcomeEnds(|input.content|, if offset.Some? then offset.value else origin, limited, turns, 0, 0);
    var transfer := TransferLoop(input, output, from, limited, turns);
    if transfer.FailedAtStart? {
      r := Err(transfer.error);
      return;
    }
    var total := transfer.total;
    if offset.Some? {
      if !offsetWritable {
        r := Err(EFAULT);
        return;
      }
      newOffset := Some(offset.value + total);
    } else if transfer.shortWrite {
      input.Seek(origin + total);
    }
    r := Ok(total);
  }
}
