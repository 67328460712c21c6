/** From the public UDP port to the local service: demultiplexer, session, multiplexer and relay loop joined. */
module UdpRelay {
  import opened Bytes
  import opened Io
  import opened NoiseSession
  import opened Session
  import opened UdpPath
  import opened UdpDemux
  import Proto

  /** Of what a source has had queued, each of its sessions holds a stretch, in the order of the sessions. */
  lemma {:induction false} QueuesInOrder(channels: seq<Channel>, k: nat, src: Address)
    requires k < |channels| && channels[k].src == src
    ensures QueuedFor(channels[..k], src) + channels[k].queued <= QueuedFor(channels, src)
    decreases |channels|
  {
    var n := |channels| - 1;
    if k < n {
      QueuesInOrder(channels[..n], k, src);
      assert channels[..n][..k] == channels[..k];
    }
  }

  /** What has come in of a substream starts with the head, and datagrams of its queue follow. */
  lemma BehindHead(codec: Proto.Codec, head: Proto.DataHead, queued: seq<Datagram>, front: seq<byte>, rest: seq<byte>)
    requires Proto.Framable(queued) && |codec.encode(head)| <= Proto.MAX_FRAME
    requires front + rest <= Text(codec, head, queued)
    requires var f := Proto.FrontOf(front);
             !f.Frame? || f.rest == []
    ensures match Proto.FrontOf(front)
            case Part => UdpPath.Read(codec, front) == Reading(None, [])
            case Oversized => false
            case Frame(payload, _) =>
              && payload == codec.encode(head)
              && UdpPath.Read(codec, front + rest) == Reading(Some(head), Proto.Unframe(rest).list)
    ensures Proto.FrontOf(front).Frame? ==>
              && rest <= Proto.Stream(queued)
              && (front + rest == Text(codec, head, queued) ==> rest == Proto.Stream(queued))
  {
    hide Proto.FrontOf, Proto.Stream, Proto.Prefixed, Proto.Unframe;
    var first := Proto.Prefixed(codec.encode(head));
    var text := Text(codec, head, queued);
    assert front <= text;
    if |front| < |first| {
      assert front < first;
      Proto.FrontOfPartPrefixed(codec.encode(head), front);
    } else {
      var tail := front[|first|..];
      assert front == first + tail;
      Proto.FrontOfPrefixed(codec.encode(head), tail);
      assert front == first;
      Proto.FrontOfPrefixed(codec.encode(head), rest);
      assert text[|first|..] == Proto.Stream(queued);
      assert (front + rest)[|first|..] == rest;
    }
  }

  /** Anything that has come through the session is part of what the proxy's session has written. */
  lemma Arrived(u: UdpProxy, k: nat, mux: Yamux, id: nat, a: NoiseStream, b: NoiseStream, content: seq<byte>)
    requires u.Valid() && k < |u.channels|
    requires Linked(a, b) && b.epoch == 0
    requires mux(Flatten(a.committed), id) <= u.channels[k].wire
    requires content <= mux(b.delivered, id)
    ensures content <= Text(u.codec, u.head, u.channels[k].queued)
    ensures Proto.Framable(u.channels[k].queued)
  {
    hide Linked, Flatten, QueuedFor, KeptFor, UdpProxy.TableOk, UdpProxy.Accounted;
    DeliveredIsPrefixOfCommitted(a, b);
    assert mux(b.delivered, id) <= mux(Flatten(a.committed), id);
    assert u.WellWritten(u.channels[k]);
  }

  /**
    The client's end of UDP session `k`: `s` is its substream, of which anything
    may have come through the session from `a` to `b` so far. It finds the head
    the proxy wrote, and hands to the local service datagrams that continue, in
    the order of the source, where its earlier sessions' queues ended: nothing is
    changed, repeated, reordered or taken from another source.
   */
  method Serve(u: UdpProxy, k: nat, mux: Yamux, id: nat, a: NoiseStream, b: NoiseStream, s: Pipe, local: Socket)
    returns (head: Result<Proto.DataHead>, handed: seq<Datagram>, ending: Ending)
    requires u.Valid() && k < |u.channels| && |u.codec.encode(u.head)| <= Proto.MAX_FRAME
    requires Linked(a, b) && b.epoch == 0
    requires mux(Flatten(a.committed), id) <= u.channels[k].wire
    requires s.Valid() && s.taken == 0 && s.content <= mux(b.delivered, id)
    modifies s`taken, s`readEvent, local
    ensures s.Valid() && local.sent == old(local.sent) + handed
    ensures var got := UdpPath.Read(u.codec, s.content[..s.taken]);
            && got.head == (if head.Ok? then Some(u.head) else None)
            && (head.Ok? ==> head.value == u.head)
            && match ending
               case SendFailed => local.refused && |got.datagrams| > 0 && handed == got.datagrams[..|got.datagrams| - 1]
               case ReadFailed(e) =>
                 && handed == got.datagrams && local.refused == old(local.refused)
                 && ((e == Inner && s.readEvent == SawError) || (e == UnexpectedEof && s.readEvent == SawEof))
    ensures handed <= u.channels[k].queued
    ensures var src := u.channels[k].src;
            QueuedFor(u.channels[..k], src) + handed <= KeptFor(u.log, src)
    ensures s.content == Text(u.codec, u.head, u.channels[k].queued) && s.taken == |s.content|
            && head.Ok? && ending != SendFailed
        ==> handed == u.channels[k].queued
  {
    hide Linked, Flatten, Text, UdpPath.Read, QueuedFor, KeptFor, UdpProxy.Valid;
    hide Proto.FrontOf, Proto.Unframe, Proto.Stream;
    ghost var c := u.channels[k];
    Arrived(u, k, mux, id, a, b, s.content);
    u.Concluded();
    QueuesInOrder(u.channels, k, c.src);
    head := Proto.ReadHead(s, u.codec);
    ghost var middle := s.taken;
    assert s.content[..middle] == s.content[0..middle] == s.content[0..middle] + [];
    BehindHead(u.codec, u.head, c.queued, s.content[0..middle], []);
    if head.Err? {
      return head, [], ReadFailed(head.error);
    }
    handed, ending := TunnelToLocal(s, local);
    SliceJoin(s.content, 0, middle, s.taken);
    assert s.content[..s.taken] == s.content[0..s.taken];
    BehindHead(u.codec, u.head, c.queued, s.content[0..middle], s.content[middle..s.taken]);
    Proto.UnframeOfPrefix(c.queued, s.content[middle..s.taken]);
  }
}
