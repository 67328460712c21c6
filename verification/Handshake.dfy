/** Length-prefixed handshake messages, and where the record stream starts after them. */
module Handshake {
  import opened Bytes
  import opened Io
  import opened Records
  import opened NoiseSession
  import opened Session

  function HsFrame(msg: seq<byte>): seq<byte> {
    U16ToBe(AsU16(|msg|)) + msg
  }

  method WriteHs(io: Pipe, msg: seq<byte>) returns (r: Result<()>)
    requires io.Valid()
    modifies io`content, io`writeEvent, io`flushed
    ensures io.Valid()
    ensures old(io.content) <= io.content <= old(io.content) + HsFrame(msg)
    ensures r.Ok? ==> io.content == old(io.content) + HsFrame(msg) && io.flushed == |io.content|
    ensures r.Err? ==>
              || (r.error == Inner && io.writeEvent == SawError)
              || (r.error == WriteZero && io.writeEvent == Moved)
  {
    r := io.WriteAll(U16ToBe(AsU16(|msg|)));
    if r.Err? {
      assert io.content <= old(io.content) + U16ToBe(AsU16(|msg|)) <= old(io.content) + HsFrame(msg);
      return;
    }
    assert old(io.content) + U16ToBe(AsU16(|msg|)) + msg == old(io.content) + HsFrame(msg);
    r := io.WriteAll(msg);
    if r.Err? {
      return;
    }
    r := io.Flush();
  }

  /** A message on the wire: its length as two bytes, most significant first, and the message behind it. */
  lemma HsFrameOnTheWire(msg: seq<byte>)
    requires |msg| <= MAX_MESSAGE
    ensures |HsFrame(msg)| == 2 + |msg| && HsFrame(msg)[2..] == msg
    ensures BigEndian(HsFrame(msg)[..2]) == |msg|
  {
    hide BigEndian, U16ToBe;
    U16IsBigEndian(|msg|, []);
    assert HsFrame(msg)[..2] == U16ToBe(|msg|);
  }

  /** What a reader makes of the bytes in front of it. */
  function Unframe(bytes: seq<byte>): Option<seq<byte>> {
    if |bytes| < 2 || |bytes| < 2 + U16FromBe(bytes[..2]) then None
    else Some(bytes[2..2 + U16FromBe(bytes[..2])])
  }

  method ReadHs(io: Pipe) returns (r: Result<seq<byte>>)
    requires io.Valid()
    modifies io`taken, io`readEvent
    ensures io.Valid() && io.taken >= old(io.taken)
    ensures r.Ok? ==>
              && Unframe(io.content[old(io.taken)..]) == Some(r.value)
              && io.taken == old(io.taken) + 2 + |r.value|
    ensures r.Err? ==>
              || (r.error == Inner && io.readEvent == SawError)
              || (r.error == UnexpectedEof && io.readEvent == SawEof)
  {
    var len := io.ReadExact(2);
    if len.Err? {
      return len;
    }
    assert io.content[old(io.taken)..][..2] == len.value;
    r := io.ReadExact(U16FromBe(len.value));
    if r.Ok? {
      assert io.content[old(io.taken)..][2..2 + |r.value|] == r.value;
    }
  }

  /**
    The reader gets the message written, and stops right behind it, exactly if
    the message's length survives the cast to sixteen bits.
   */
  lemma HsRoundTrip(msg: seq<byte>, tail: seq<byte>)
    ensures Unframe(HsFrame(msg) + tail) == Some(msg) <==> |msg| <= MAX_MESSAGE
  {
    var bytes := HsFrame(msg) + tail;
    var n := AsU16(|msg|);
    U16RoundTrip(n);
    assert bytes[..2] == U16ToBe(n);
    assert bytes[2..2 + n] == msg[..n];
    assert n == |msg| ==> msg[..n] == msg;
  }

  /** A failure has its cause in one of the two pipes. */
  ghost predicate Caused(e: IoError, p: Pipe, q: Pipe)
    reads p, q
  {
    match e
    case Inner => SawError in {p.readEvent, p.writeEvent, q.readEvent, q.writeEvent}
    case UnexpectedEof => SawEof in {p.readEvent, q.readEvent}
    case WriteZero => Moved in {p.writeEvent, q.writeEvent}
    case _ => false
  }

  /** First message across; the server has replied when this returns. */
  method Greet(p: Pipe, q: Pipe, m1: seq<byte>, m2: seq<byte>) returns (r: Result<()>)
    requires p != q && p.Valid() && q.Valid() && p.content == [] && q.content == []
    requires |m1| <= MAX_MESSAGE
    modifies p, q
    ensures p.Valid() && q.Valid()
    ensures r.Ok? ==> p.taken == |p.content| && q.content == HsFrame(m2) && q.taken == 0
    ensures r.Ok? ==> p.flushed == |p.content| && q.flushed == |q.content|
    ensures r.Err? ==> Caused(r.error, p, q)
  {
    r := WriteHs(p, m1);
    if r.Err? { return; }
    var got := ReadHs(p);
    if got.Err? { return Err(got.error); }
    HsRoundTrip(m1, []);
    assert p.content[0..] == HsFrame(m1) + [];
    r := WriteHs(q, m2);
  }

  /**
    Both handshake messages cross; the server may already send records before
    the client has read its reply. Each end's record stream starts exactly
    where the other end's handshake message stops. Only the pipes `p` and `q`
    can make it fail.
   */
  method Establish(m1: seq<byte>, m2: seq<byte>, clientKey: Aead, serverKey: Aead, early: seq<byte>)
    returns (r: Result<(NoiseStream, NoiseStream)>, p: Pipe, q: Pipe)
    requires |m1| <= MAX_MESSAGE && |m2| <= MAX_MESSAGE
    ensures r.Ok? ==> fresh({r.value.0, r.value.1}) && Duplex(r.value.0, r.value.1)
    ensures r.Ok? ==> r.value.0.inn == q && r.value.0.out == p
    ensures r.Err? ==> Caused(r.error, p, q)
  {
    p := new Pipe();
    q := new Pipe();
    var greeted := Greet(p, q, m1, m2);
    if greeted.Err? { return Err(greeted.error), p, q; }
    var s := new NoiseStream(serverKey, clientKey, p, q);
    r := Answer(s, clientKey, serverKey, m2, early);
  }

  method Answer(s: NoiseStream, clientKey: Aead, serverKey: Aead, m2: seq<byte>, early: seq<byte>)
    returns (r: Result<(NoiseStream, NoiseStream)>)
    requires s.Valid() && s.send == serverKey && s.recv == clientKey
    requires s.epoch == 0 && s.baseNonce == 0 && s.base == |s.inn.content| && s.inn.Valid()
    requires |m2| <= MAX_MESSAGE && s.out.content == HsFrame(m2) && s.outBase == |HsFrame(m2)| && s.out.taken == 0
    modifies s, s.out
    ensures r.Ok? ==> r.value.1 == s && fresh(r.value.0) && Duplex(r.value.0, s)
    ensures r.Err? ==> Caused(r.error, s.inn, s.out)
  {
    SendEarly(s, early);
    ghost var tail := s.out.content[|HsFrame(m2)|..];
    assert s.out.content == HsFrame(m2) + tail;
    HsRoundTrip(m2, tail);
    r := Join(s, clientKey, serverKey, m2);
  }

  method SendEarly(s: NoiseStream, early: seq<byte>)
    requires s.Valid()
    modifies s`writeBuf, s`writePos, s`sendNonce, s`committed, s.out`content, s.out`writeEvent
    ensures s.Valid() && old(s.out.content) <= s.out.content
  {
    hide NoiseStream.ReaderInvIn, NoiseStream.WriterInv;
    var _ := s.PollWrite(early);
  }

  /** The client reads its reply and starts its stream where the server's records start. */
  method Join(s: NoiseStream, clientKey: Aead, serverKey: Aead, m2: seq<byte>)
    returns (r: Result<(NoiseStream, NoiseStream)>)
    requires s.Valid() && s.send == serverKey && s.recv == clientKey
    requires s.epoch == 0 && s.baseNonce == 0 && s.base == |s.inn.content| && s.inn.Valid()
    requires s.outBase == |HsFrame(m2)| && s.out.taken == 0 && |m2| <= MAX_MESSAGE
    requires Unframe(s.out.content) == Some(m2)
    modifies s.out`taken, s.out`readEvent
    ensures r.Ok? ==> r.value.1 == s && fresh(r.value.0) && Duplex(r.value.0, s)
    ensures r.Err? ==> Caused(r.error, s.inn, s.out)
  {
    hide NoiseStream.ReaderInvIn, HsFrame, Unframe;
    var p, q := s.inn, s.out;
    assert q.content[0..] == q.content;
    var got := ReadHs(q);
    if got.Err? { return Err(got.error); }
    HsFrameLength(m2);
    assert q.taken == s.outBase;
    assert s.Valid();
    hide NoiseStream.Valid;
    var c := new NoiseStream(clientKey, serverKey, q, p);
    r := Ok((c, s));
  }

  lemma HsFrameLength(msg: seq<byte>)
    ensures |HsFrame(msg)| == 2 + |msg|
  {
  }
}
