/** The whole path of a UDP session: head and datagrams through frames, Noise records and WebSocket messages. */
module UdpPath {
  import opened Bytes
  import opened Io
  import Proto
  import Records
  import opened NoiseSession
  import opened Session
  import opened WsAdapter

  /** What one side writes into a data substream that serves a UDP proxy. */
  function Text(codec: Proto.Codec, head: Proto.DataHead, datagrams: seq<seq<byte>>): seq<byte> {
    Proto.Prefixed(codec.encode(head)) + Proto.Stream(datagrams)
  }

  /** What the other side makes of the bytes that have come in. */
  datatype Reading = Reading(head: Option<Proto.DataHead>, datagrams: seq<seq<byte>>)

  function Read(codec: Proto.Codec, text: seq<byte>): Reading {
    match Proto.FrontOf(text)
    case Part => Reading(None, [])
    case Oversized => Reading(None, [])
    case Frame(payload, rest) =>
      match codec.decode(payload)
      case None => Reading(None, [])
      case Some(head) => Reading(Some(head), Proto.Unframe(rest).list)
  }

  ghost predicate Faithful(r: Reading, head: Proto.DataHead, datagrams: seq<seq<byte>>) {
    && (r.head == None ==> r.datagrams == [])
    && (r.head == None || r.head == Some(head))
    && r.datagrams <= datagrams
  }

  lemma ReadOfPrefix(codec: Proto.Codec, head: Proto.DataHead, datagrams: seq<seq<byte>>, text: seq<byte>)
    requires Proto.Framable(datagrams) && |codec.encode(head)| <= Proto.MAX_FRAME
    requires text <= Text(codec, head, datagrams)
    ensures Faithful(Read(codec, text), head, datagrams)
    ensures text == Text(codec, head, datagrams) ==> Read(codec, text) == Reading(Some(head), datagrams)
  {
    hide Proto.Unframe, Proto.Stream, Proto.FrontOf;
    var first := Proto.Prefixed(codec.encode(head));
    if |text| < |first| {
      assert text < first;
      Proto.FrontOfPartPrefixed(codec.encode(head), text);
    } else {
      var tail := text[|first|..];
      assert text == first + tail;
      Proto.FrontOfPrefixed(codec.encode(head), tail);
      Proto.UnframeOfPrefix(datagrams, tail);
    }
  }

  /**
    The multiplexer between a substream and its session: what it makes of the
    session's bytes for a substream. All that is asked of it is that bytes that
    come in later take nothing back.
   */
  type Yamux = mux: (seq<byte>, nat) -> seq<byte> |
    forall x: seq<byte>, y: seq<byte>, id: nat :: x <= y ==> mux(x, id) <= mux(y, id)
    ghost witness (x: seq<byte>, id: nat) => x

  /**
    The layers composed: the session's plaintext carries, for substream `id`, the
    text or the part of it written so far; `chunks` is any cutting of that
    plaintext into records, `messages` any segmentation of the records into
    WebSocket messages, with other messages in between, and `taken` how far the
    receiver has read. It has the head and the first datagrams, whole and apart;
    when everything has arrived it has all of them.
   */
  lemma EndToEnd(codec: Proto.Codec, key: Records.Aead, mux: Yamux, id: nat,
                 head: Proto.DataHead, datagrams: seq<seq<byte>>,
                 chunks: seq<seq<byte>>, messages: seq<Message>, taken: nat)
    requires Proto.Framable(datagrams) && |codec.encode(head)| <= Proto.MAX_FRAME
    requires mux(Flatten(chunks), id) <= Text(codec, head, datagrams)
    requires Records.Sealable(0, chunks)
    requires Payload(messages) <= Records.Wire(key, 0, chunks)
    requires taken <= |Payload(messages)|
    ensures var parsed := Records.Parse(key, 0, Payload(messages)[..taken]);
            && parsed.ok
            && Faithful(Read(codec, mux(Flatten(parsed.records), id)), head, datagrams)
    ensures mux(Flatten(chunks), id) == Text(codec, head, datagrams)
         && taken == |Records.Wire(key, 0, chunks)|
        ==> Read(codec, mux(Flatten(Records.Parse(key, 0, Payload(messages)[..taken]).records), id))
            == Reading(Some(head), datagrams)
  {
    hide Records.Parse, Records.Wire, Flatten, Payload, Text, Read;
    var seen := Payload(messages)[..taken];
    Records.ParseOfWirePrefix(key, 0, chunks, seen);
    var records := Records.Parse(key, 0, seen).records;
    FlattenPrefix(records, chunks);
    ReadOfPrefix(codec, head, datagrams, mux(Flatten(records), id));
  }

  /**
    The same for two live ends of a session, whatever polls have brought them
    where they are, and a reader that has `got` any part of its substream.
   */
  lemma OverSession(codec: Proto.Codec, mux: Yamux, id: nat, head: Proto.DataHead, datagrams: seq<seq<byte>>,
                    a: NoiseStream, b: NoiseStream, got: seq<byte>)
    requires Linked(a, b) && b.epoch == 0
    requires Proto.Framable(datagrams) && |codec.encode(head)| <= Proto.MAX_FRAME
    requires mux(Flatten(a.committed), id) <= Text(codec, head, datagrams)
    requires got <= mux(b.delivered, id)
    ensures Faithful(Read(codec, got), head, datagrams)
    ensures mux(Flatten(a.committed), id) == Text(codec, head, datagrams) && Drained(a, b)
         && got == mux(b.delivered, id)
        ==> Read(codec, got) == Reading(Some(head), datagrams)
  {
    hide Linked, Flatten, Text, Read;
    DeliveredIsPrefixOfCommitted(a, b);
    ReadOfPrefix(codec, head, datagrams, got);
  }

  datatype Ending = ReadFailed(error: IoError) | SendFailed

  /**
    The reading loop of a UDP session: every datagram in the bytes it has taken
    goes to the local socket, in order, but for one the socket refused. Only that,
    an oversized prefix, or an end or error of the substream stops it.
   */
  method TunnelToLocal(s: Pipe, local: Socket) returns (handed: seq<seq<byte>>, ending: Ending)
    requires s.Valid()
    modifies s`taken, s`readEvent, local
    ensures s.Valid() && s.taken >= old(s.taken)
    ensures local.sent == old(local.sent) + handed
    ensures var got := Proto.Unframe(s.content[old(s.taken)..s.taken]);
            match ending
            case SendFailed => local.refused && |got.list| > 0 && handed == got.list[..|got.list| - 1]
            case ReadFailed(e) =>
              && handed == got.list && local.refused == old(local.refused)
              && (got.ok <==> e != TooLarge)
              && (|| e == TooLarge
                  || (e == Inner && s.readEvent == SawError)
                  || (e == UnexpectedEof && s.readEvent == SawEof))
  {
    hide Proto.Unframe, Proto.FrontOf, Proto.Stream, Proto.Prefixed;
    handed := [];
    Proto.StreamNothing();
    while true
      invariant s.Valid() && s.taken >= old(s.taken)
      invariant s.content[old(s.taken)..s.taken] == Proto.Stream(handed) && Proto.Framable(handed)
      invariant local.sent == old(local.sent) + handed && local.refused == old(local.refused)
      decreases |s.content| - s.taken
    {
      ghost var before := s.taken;
      var dg := Proto.ReadDatagram(s);
      SliceJoin(s.content, old(s.taken), before, s.taken);
      if dg.Err? {
        StopsAt(handed, s.content[before..s.taken]);
        return handed, ReadFailed(dg.error);
      }
      Proto.StreamSnoc(handed, dg.value);
      Proto.PrefixedIsLonger(dg.value);
      var ok := local.Send(dg.value);
      if !ok {
        AllOf(handed + [dg.value]);
        return handed, SendFailed;
      }
      handed := handed + [dg.value];
    }
  }

  lemma StopsAt(datagrams: seq<seq<byte>>, tail: seq<byte>)
    requires Proto.Framable(datagrams) && !Proto.FrontOf(tail).Frame?
    ensures Proto.Unframe(Proto.Stream(datagrams) + tail)
         == Proto.Datagrams(datagrams, tail, Proto.FrontOf(tail) == Proto.Part)
  {
    hide Proto.Stream, Proto.FrontOf;
    Proto.UnframeOfStream(datagrams, tail);
  }

  lemma AllOf(datagrams: seq<seq<byte>>)
    requires Proto.Framable(datagrams)
    ensures Proto.Unframe(Proto.Stream(datagrams)) == Proto.Datagrams(datagrams, [], true)
  {
    Proto.UnframeOfPrefix(datagrams, Proto.Stream(datagrams));
  }
}
