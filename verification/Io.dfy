/**
  The byte streams under the protocol layers. `Pipe` is one direction of a
  connection: a FIFO of bytes whose every poll may come back short, Pending,
  failed, or (for reads) at end of stream. `ReadStep` and `WriteStep` are all
  that a layer above may rely on.
 */
module Io {
  import opened Bytes

  datatype IoError =
    | Inner          // reported by the stream below
    | WriteZero
    | UnexpectedEof
    | InvalidData
    | Exhausted      // the transport has no nonce left
    | TooLarge       // a length above the protocol's limit
    | Malformed      // a frame body that does not decode

  /** `Poll<io::Result<T>>` with the two layers flattened. */
  datatype Poll<+T> = Pending | Ready(value: T) | Failed(error: IoError)

  datatype Result<+T> = Ok(value: T) | Err(error: IoError)

  /** What the last poll of a stream during one call came back with. */
  datatype Event = Untouched | Moved | SawEof | SawPending | SawError

  /** One read of at most `max` bytes from a FIFO of which `before` bytes were already taken. */
  ghost predicate ReadStep(content: seq<byte>, before: nat, after: nat, max: nat,
                           r: Poll<seq<byte>>, event: Event)
  {
    && before <= after <= |content|
    && match r
       case Pending => after == before && event == SawPending
       case Failed(e) => after == before && event == SawError && e == Inner
       case Ready(bytes) =>
         && |bytes| <= max
         && bytes == content[before..after]
         && (event == Moved || event == SawEof)
         && (bytes != [] ==> event == Moved)
         && (bytes == [] && max > 0 ==> event == SawEof)
  }

  /** One write of some prefix of `src` to the end of a FIFO. */
  ghost predicate WriteStep(before: seq<byte>, after: seq<byte>, src: seq<byte>,
                            r: Poll<nat>, event: Event)
  {
    match r
    case Pending => after == before && event == SawPending
    case Failed(e) => after == before && event == SawError && e == Inner
    case Ready(n) => n <= |src| && after == before + src[..n] && event == Moved
  }

  class Pipe {
    var content: seq<byte>  // every byte the writer has handed over
    var taken: nat          // how many of them the reader has taken
    var closed: bool        // the writer has shut its side down
    ghost var flushed: nat  // how many bytes the last flush pushed out
    ghost var readEvent: Event
    ghost var writeEvent: Event

    ghost predicate Valid()
      reads `content, `taken
    {
      taken <= |content|
    }

    constructor ()
      ensures Valid() && content == [] && taken == 0 && !closed && flushed == 0
      ensures readEvent == Untouched && writeEvent == Untouched
    {
      content, taken, closed, flushed := [], 0, false, 0;
      readEvent, writeEvent := Untouched, Untouched;
    }

    method PollRead(max: nat) returns (r: Poll<seq<byte>>)
      requires Valid()
      modifies `taken, `readEvent
      ensures Valid()
      ensures ReadStep(content, old(taken), taken, max, r, readEvent)
    {
      if * {
        r, readEvent := Pending, SawPending;
      } else if * {
        r, readEvent := Failed(Inner), SawError;
      } else if * {
        r, readEvent := Ready([]), SawEof;
      } else {
        var n: nat :| n <= max && n <= |content| - taken;
        r, readEvent := Ready(content[taken..taken + n]), if n == 0 then SawEof else Moved;
        taken := taken + n;
      }
    }

    method PollWrite(src: seq<byte>) returns (r: Poll<nat>)
      requires Valid()
      modifies `content, `writeEvent
      ensures Valid()
      ensures WriteStep(old(content), content, src, r, writeEvent)
    {
      if * {
        r, writeEvent := Pending, SawPending;
      } else if * {
        r, writeEvent := Failed(Inner), SawError;
      } else {
        var n: nat :| n <= |src|;
        content := content + src[..n];
        r, writeEvent := Ready(n), Moved;
      }
    }

    /** Flushing adds no payload byte; once ready, all there are have been pushed out. */
    method PollFlush() returns (r: Poll<()>)
      modifies `writeEvent, `flushed
      ensures flushed == if r.Ready? then |content| else old(flushed)
      ensures r.Pending? ==> writeEvent == SawPending
      ensures r.Failed? ==> writeEvent == SawError && r.error == Inner
      ensures r.Ready? ==> writeEvent == Moved
    {
      if * {
        r, writeEvent := Pending, SawPending;
      } else if * {
        r, writeEvent := Failed(Inner), SawError;
      } else {
        r, writeEvent, flushed := Ready(()), Moved, |content|;
      }
    }

    /** A flush that is awaited until it is ready. */
    method Flush() returns (r: Result<()>)
      modifies `writeEvent, `flushed
      ensures flushed == if r.Ok? then |content| else old(flushed)
      ensures r.Err? ==> r.error == Inner && writeEvent == SawError
    {
      if * {
        r, writeEvent := Err(Inner), SawError;
      } else {
        r, writeEvent, flushed := Ok(()), Moved, |content|;
      }
    }

    method PollShutdown() returns (r: Poll<()>)
      modifies `closed, `writeEvent, `flushed
      ensures flushed == if r.Ready? then |content| else old(flushed)
      ensures r.Pending? ==> writeEvent == SawPending
      ensures r.Failed? ==> writeEvent == SawError && r.error == Inner
      ensures r.Ready? ==> writeEvent == Moved && closed
    {
      r := PollFlush();
      closed := true;
    }

    /** A poll that is awaited until it is ready. */
    method Read(max: nat) returns (r: Result<seq<byte>>)
      requires Valid()
      modifies `taken, `readEvent
      ensures Valid()
      ensures r.Ok? ==> ReadStep(content, old(taken), taken, max, Ready(r.value), readEvent)
      ensures r.Err? ==> taken == old(taken) && r.error == Inner && readEvent == SawError
    {
      if * {
        r, readEvent := Err(Inner), SawError;
      } else if * {
        r, readEvent := Ok([]), SawEof;
      } else {
        var n: nat :| n <= max && n <= |content| - taken;
        r, readEvent := Ok(content[taken..taken + n]), if n == 0 then SawEof else Moved;
        taken := taken + n;
      }
    }

    /** Tokio's `read_exact`: short reads are repeated until `n` bytes are in. */
    method ReadExact(n: nat) returns (r: Result<seq<byte>>)
      requires Valid()
      modifies `taken, `readEvent
      ensures Valid() && old(taken) <= taken <= old(taken) + n
      ensures r.Ok? ==> taken == old(taken) + n && r.value == content[old(taken)..taken]
      ensures r.Err? ==> n > 0 && taken < old(taken) + n
      ensures r.Err? ==>
                || (r.error == Inner && readEvent == SawError)
                || (r.error == UnexpectedEof && readEvent == SawEof)
    {
      var buf: seq<byte> := [];
      while |buf| < n
        invariant Valid() && taken == old(taken) + |buf| && |buf| <= n
        invariant buf == content[old(taken)..taken]
      {
        ghost var before := taken;
        var got := Read(n - |buf|);
        if got.Err? {
          return Err(got.error);
        }
        if got.value == [] {
          return Err(UnexpectedEof);
        }
        SliceJoin(content, old(taken), before, taken);
        buf := buf + got.value;
      }
      r := Ok(buf);
    }

    /** Tokio's `write_all`: short writes are repeated until everything is in. */
    method WriteAll(src: seq<byte>) returns (r: Result<()>)
      requires Valid()
      modifies `content, `writeEvent
      ensures Valid() && old(content) <= content <= old(content) + src
      ensures r.Ok? ==> content == old(content) + src
      ensures r.Err? ==>
                || (r.error == Inner && writeEvent == SawError)
                || (r.error == WriteZero && writeEvent == Moved)
    {
      var pos := 0;
      while pos < |src|
        invariant Valid() && pos <= |src|
        invariant content == old(content) + src[..pos]
      {
        if * {
          writeEvent := SawError;
          return Err(Inner);
        }
        var n: nat :| n <= |src| - pos;
        content := content + src[pos..pos + n];
        writeEvent := Moved;
        if n == 0 {
          return Err(WriteZero);
        }
        assert src[..pos] + src[pos..pos + n] == src[..pos + n];
        pos := pos + n;
      }
      r := Ok(());
    }
  }

  /** A connected datagram socket: it takes a datagram whole or refuses it. */
  class Socket {
    var sent: seq<seq<byte>>
    ghost var refused: bool

    constructor ()
      ensures sent == [] && !refused
    {
      sent, refused := [], false;
    }

    method Send(datagram: seq<byte>) returns (ok: bool)
      modifies this
      ensures ok ==> sent == old(sent) + [datagram] && refused == old(refused)
      ensures !ok ==> sent == old(sent) && refused
    {
      if * {
        ok, refused := false, true;
      } else {
        ok, sent := true, sent + [datagram];
      }
    }
  }
}
