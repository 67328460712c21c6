/** Length-prefixed control frames and datagrams on a byte stream. */
module Proto {
  import opened Bytes
  import opened Io

  /** Upper bound of a control frame and of a datagram. */
  const MAX_FRAME := 64 * 1024

  /** First frame of a data substream: the proxy it serves, by its UTF-8 name. */
  datatype DataHead = DataHead(proxy: seq<byte>)

  datatype CodecRaw = CodecRaw(
    encode: DataHead -> seq<byte>,
    decode: seq<byte> -> Option<DataHead>)

  /** The message codec: all that is asked of it is that decoding undoes encoding. */
  type Codec = c: CodecRaw | forall h: DataHead :: c.decode(c.encode(h)) == Some(h)
    ghost witness CodecRaw((h: DataHead) => h.proxy, (b: seq<byte>) => Some(DataHead(b)))

  function Prefixed(payload: seq<byte>): seq<byte> {
    U32ToBe(AsU32(|payload|)) + payload
  }

  /** What stands at the front of a byte string. */
  datatype Front = Part | Oversized | Frame(payload: seq<byte>, rest: seq<byte>)

  function FrontOf(bytes: seq<byte>): (f: Front)
    ensures f.Frame? ==> |f.rest| < |bytes|
  {
    if |bytes| < 4 then Part
    else
      var len := U32FromBe(bytes[..4]);
      if len > MAX_FRAME then Oversized
      else if |bytes| < 4 + len then Part
      else Frame(bytes[4..4 + len], bytes[4 + len..])
  }

  /** A frame on the wire: the length as four bytes, most significant first, and the payload behind it. */
  lemma PrefixedOnTheWire(payload: seq<byte>)
    requires |payload| <= MAX_FRAME
    ensures |Prefixed(payload)| == 4 + |payload| && Prefixed(payload)[4..] == payload
    ensures BigEndian(Prefixed(payload)[..4]) == |payload|
  {
    U32IsBigEndian(|payload|, []);
    assert Prefixed(payload)[..4] == U32ToBe(|payload|);
  }

  lemma PrefixedIsLonger(payload: seq<byte>)
    ensures |Prefixed(payload)| == 4 + |payload|
  {
  }

  lemma FrontOfNothing()
    ensures FrontOf([]) == Part
  {
  }

  lemma FrontOfPrefixed(payload: seq<byte>, tail: seq<byte>)
    requires |payload| <= MAX_FRAME
    ensures FrontOf(Prefixed(payload) + tail) == Frame(payload, tail)
  {
    var bytes := Prefixed(payload) + tail;
    U32RoundTrip(|payload|);
    assert bytes[..4] == U32ToBe(|payload|);
    assert bytes[4..4 + |payload|] == payload;
    assert bytes[4 + |payload|..] == tail;
  }

  lemma FrontOfPartPrefixed(payload: seq<byte>, seen: seq<byte>)
    requires |payload| <= MAX_FRAME
    requires seen < Prefixed(payload)
    ensures FrontOf(seen) == Part
  {
    hide U32ToBe, U32FromBe;
    U32RoundTrip(|payload|);
    var prefix := U32ToBe(|payload|);
    assert Prefixed(payload) == prefix + payload;
    if |seen| >= 4 {
      assert seen[..4] == Prefixed(payload)[..4] == prefix;
    }
  }

  // ---- writing and reading one frame ----

  method WritePrefixed(w: Pipe, payload: seq<byte>) returns (r: Result<()>)
    requires w.Valid()
    modifies w`content, w`writeEvent, w`flushed
    ensures w.Valid()
    ensures |payload| > MAX_FRAME <==> r == Err(TooLarge)
    ensures |payload| > MAX_FRAME ==> w.content == old(w.content)
    ensures r.Ok? ==> w.content == old(w.content) + Prefixed(payload) && w.flushed == |w.content|
    ensures old(w.content) <= w.content <= old(w.content) + Prefixed(payload)
    ensures r.Err? ==>
              || r.error == TooLarge
              || (r.error == Inner && w.writeEvent == SawError)
              || (r.error == WriteZero && w.writeEvent == Moved)
  {
    if |payload| > MAX_FRAME {
      return Err(TooLarge);
    }
    var prefix := U32ToBe(AsU32(|payload|));
    assert old(w.content) + prefix + payload == old(w.content) + Prefixed(payload);
    r := w.WriteAll(prefix);
    if r.Err? {
      return;
    }
    r := w.WriteAll(payload);
    if r.Err? {
      return;
    }
    r := w.Flush();
  }

  method WriteDatagram(w: Pipe, data: seq<byte>) returns (r: Result<()>)
    requires w.Valid()
    modifies w`content, w`writeEvent, w`flushed
    ensures w.Valid()
    ensures |data| > 65536 <==> r == Err(TooLarge)
    ensures r == Err(TooLarge) ==> w.content == old(w.content)
    ensures r.Ok? ==> w.content == old(w.content) + Prefixed(data) && w.flushed == |w.content|
    ensures old(w.content) <= w.content <= old(w.content) + Prefixed(data)
    ensures r.Err? ==>
              || r.error == TooLarge
              || (r.error == Inner && w.writeEvent == SawError)
              || (r.error == WriteZero && w.writeEvent == Moved)
  {
    r := WritePrefixed(w, data);
  }

  method WriteHead(w: Pipe, codec: Codec, head: DataHead) returns (r: Result<()>)
    requires w.Valid()
    modifies w`content, w`writeEvent, w`flushed
    ensures w.Valid()
    ensures |codec.encode(head)| > 65536 <==> r == Err(TooLarge)
    ensures r == Err(TooLarge) ==> w.content == old(w.content)
    ensures r.Ok? ==> w.content == old(w.content) + Prefixed(codec.encode(head)) && w.flushed == |w.content|
    ensures old(w.content) <= w.content <= old(w.content) + Prefixed(codec.encode(head))
    ensures r.Err? ==>
              || r.error == TooLarge
              || (r.error == Inner && w.writeEvent == SawError)
              || (r.error == WriteZero && w.writeEvent == Moved)
  {
    r := WritePrefixed(w, codec.encode(head));
  }

  /** Reads exactly one frame, or reports why there is none: what it took is then the front of a frame. */
  method ReadDatagram(s: Pipe) returns (r: Result<seq<byte>>)
    requires s.Valid()
    modifies s`taken, s`readEvent
    ensures s.Valid() && s.taken >= old(s.taken)
    ensures r.Ok? ==>
              && |r.value| <= MAX_FRAME
              && s.content[old(s.taken)..s.taken] == Prefixed(r.value)
    ensures r.Err? ==>
              FrontOf(s.content[old(s.taken)..s.taken]) == if r.error == TooLarge then Oversized else Part
    ensures r.Err? ==>
              || (r.error == TooLarge && s.taken == old(s.taken) + 4)
              || (r.error == Inner && s.readEvent == SawError)
              || (r.error == UnexpectedEof && s.readEvent == SawEof)
  {
    hide Prefixed, FrontOf, U32FromBe;
    var head := s.ReadExact(4);
    if head.Err? {
      FrontOfShort(s.content[old(s.taken)..s.taken]);
      return head;
    }
    var len := U32FromBe(head.value);
    ghost var middle := s.taken;
    if len > MAX_FRAME {
      FrontOfTaken(head.value, []);
      assert head.value + [] == head.value;
      return Err(TooLarge);
    }
    r := s.ReadExact(len);
    SliceJoin(s.content, old(s.taken), middle, s.taken);
    FrontOfTaken(head.value, s.content[middle..s.taken]);
  }

  lemma FrontOfShort(seen: seq<byte>)
    requires |seen| < 4
    ensures FrontOf(seen) == Part
  {
  }

  /** A length and as much of the body as has come in. */
  lemma FrontOfTaken(head: seq<byte>, body: seq<byte>)
    requires |head| == 4
    ensures U32FromBe(head) > MAX_FRAME ==> FrontOf(head + body) == Oversized
    ensures |body| < U32FromBe(head) <= MAX_FRAME ==> FrontOf(head + body) == Part
    ensures |body| == U32FromBe(head) <= MAX_FRAME ==> head + body == Prefixed(body)
  {
    assert (head + body)[..4] == head;
    U32FromBeInjective(head);
  }

  method ReadHead(s: Pipe, codec: Codec) returns (r: Result<DataHead>)
    requires s.Valid()
    modifies s`taken, s`readEvent
    ensures s.Valid() && s.taken >= old(s.taken)
    ensures r.Ok? || r.error == Malformed ==>
              var f := FrontOf(s.content[old(s.taken)..s.taken]);
              f.Frame? && f.rest == [] && codec.decode(f.payload) == if r.Ok? then Some(r.value) else None
    ensures r.Err? && r.error != Malformed ==>
              FrontOf(s.content[old(s.taken)..s.taken]) == if r.error == TooLarge then Oversized else Part
    ensures r.Err? ==>
              || r.error == Malformed || r.error == TooLarge
              || (r.error == Inner && s.readEvent == SawError)
              || (r.error == UnexpectedEof && s.readEvent == SawEof)
  {
    hide Prefixed, FrontOf;
    var body := ReadDatagram(s);
    if body.Err? {
      return Err(body.error);
    }
    FrontOfPrefixed(body.value, []);
    assert Prefixed(body.value) + [] == Prefixed(body.value);
    match codec.decode(body.value) {
      case None => r := Err(Malformed);
      case Some(head) => r := Ok(head);
    }
  }

  // ---- a stream of datagrams ----

  function Stream(datagrams: seq<seq<byte>>): seq<byte> {
    if datagrams == [] then [] else Prefixed(datagrams[0]) + Stream(datagrams[1..])
  }

  lemma StreamNothing()
    ensures Stream([]) == []
  {
  }

  lemma StreamCons(datagrams: seq<seq<byte>>)
    requires datagrams != []
    ensures Stream(datagrams) == Prefixed(datagrams[0]) + Stream(datagrams[1..])
  {
  }

  lemma StreamOne(datagram: seq<byte>)
    ensures Stream([datagram]) == Prefixed(datagram)
  {
    var one := [datagram];
    assert one[1..] == [];
  }

  lemma {:induction false} StreamAppend(a: seq<seq<byte>>, b: seq<seq<byte>>)
    ensures Stream(a + b) == Stream(a) + Stream(b)
  {
    if a == [] {
      assert a + b == b;
    } else {
      assert (a + b)[1..] == a[1..] + b;
      StreamAppend(a[1..], b);
    }
  }

  lemma StreamSnoc(a: seq<seq<byte>>, datagram: seq<byte>)
    ensures Stream(a + [datagram]) == Stream(a) + Prefixed(datagram)
  {
    hide Stream, Prefixed;
    StreamAppend(a, [datagram]);
    StreamOne(datagram);
  }

  lemma StreamPrefix(datagrams: seq<seq<byte>>, n: nat)
    requires n <= |datagrams|
    ensures Stream(datagrams[..n]) <= Stream(datagrams)
  {
    hide Stream;
    StreamAppend(datagrams[..n], datagrams[n..]);
    assert datagrams == datagrams[..n] + datagrams[n..];
  }

  lemma StreamNext(datagrams: seq<seq<byte>>, n: nat)
    requires n < |datagrams|
    ensures Stream(datagrams[..n + 1]) == Stream(datagrams[..n]) + Prefixed(datagrams[n])
    ensures Stream(datagrams[..n + 1]) <= Stream(datagrams)
  {
    hide Stream, Prefixed;
    TakeNext(datagrams, n);
    StreamSnoc(datagrams[..n], datagrams[n]);
    StreamPrefix(datagrams, n + 1);
  }

  /** `ok` is false from the first length above the limit. */
  datatype Datagrams = Datagrams(list: seq<seq<byte>>, rest: seq<byte>, ok: bool)

  function Unframe(bytes: seq<byte>): Datagrams
    decreases |bytes|
  {
    match FrontOf(bytes)
    case Part => Datagrams([], bytes, true)
    case Oversized => Datagrams([], bytes, false)
    case Frame(payload, rest) =>
      var d := Unframe(rest);
      Datagrams([payload] + d.list, d.rest, d.ok)
  }

  lemma UnframeStep(bytes: seq<byte>, payload: seq<byte>, rest: seq<byte>)
    requires FrontOf(bytes) == Frame(payload, rest)
    ensures Unframe(bytes) == Datagrams([payload] + Unframe(rest).list, Unframe(rest).rest, Unframe(rest).ok)
    ensures |rest| < |bytes|
  {
  }

  lemma UnframePart(bytes: seq<byte>)
    requires FrontOf(bytes) == Part
    ensures Unframe(bytes) == Datagrams([], bytes, true)
  {
  }

  predicate Framable(datagrams: seq<seq<byte>>) {
    forall i :: 0 <= i < |datagrams| ==> |datagrams[i]| <= MAX_FRAME
  }

  /** Reading any part of the stream gives the first datagrams, whole and apart; all of it gives all. */
  lemma {:induction false} UnframeOfPrefix(datagrams: seq<seq<byte>>, seen: seq<byte>)
    requires Framable(datagrams)
    requires seen <= Stream(datagrams)
    ensures Unframe(seen).ok
    ensures Unframe(seen).list <= datagrams
    ensures seen == Stream(datagrams) ==> Unframe(seen) == Datagrams(datagrams, [], true)
    decreases |datagrams|
  {
    hide Unframe, FrontOf;
    if datagrams == [] {
      assert seen == [];
      FrontOfNothing();
      UnframePart(seen);
    } else {
      var first := Prefixed(datagrams[0]);
      if |seen| < |first| {
        assert seen < first;
        FrontOfPartPrefixed(datagrams[0], seen);
        UnframePart(seen);
      } else {
        var tail := seen[|first|..];
        assert seen == first + tail;
        FrontOfPrefixed(datagrams[0], tail);
        UnframeStep(seen, datagrams[0], tail);
        UnframeOfPrefix(datagrams[1..], tail);
        assert datagrams == [datagrams[0]] + datagrams[1..];
      }
    }
  }

  /** A stream cut anywhere after some datagrams. */
  lemma {:induction false} UnframeOfStream(datagrams: seq<seq<byte>>, tail: seq<byte>)
    requires Framable(datagrams)
    ensures var d := Unframe(tail);
            Unframe(Stream(datagrams) + tail) == Datagrams(datagrams + d.list, d.rest, d.ok)
    decreases |datagrams|
  {
    hide Unframe, FrontOf, Stream, Prefixed;
    if datagrams == [] {
      StreamNothing();
      assert Stream([]) + tail == tail;
    } else {
      var first, others := datagrams[0], datagrams[1..];
      var more := Stream(others) + tail;
      StreamCons(datagrams);
      assert Stream(datagrams) + tail == Prefixed(first) + more;
      FrontOfPrefixed(first, more);
      UnframeStep(Prefixed(first) + more, first, more);
      UnframeOfStream(others, tail);
      assert [first] + (others + Unframe(tail).list) == datagrams + Unframe(tail).list;
    }
  }
}
