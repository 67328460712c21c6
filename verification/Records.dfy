/**
  Noise transport records on the wire: the AEAD laws the session relies on,
  the record stream a sender produces, and the one-shot parser that says what
  a byte string means to a receiver.
 */
module Records {
  import opened Bytes

  const TAG := 16
  const MAX_MESSAGE := 65535
  const MAX_PLAINTEXT := MAX_MESSAGE - TAG
  /** Nonce 2^64 - 1 is reserved (section 5.1 of the Noise Protocol Framework, revision 34). */
  const NONCE_MAX := 0xFFFF_FFFF_FFFF_FFFF

  /** One direction of an established session: sealing and opening under its key. */
  datatype AeadRaw = AeadRaw(
    seal: (nat, seq<byte>) -> seq<byte>,
    open: (nat, seq<byte>) -> Option<seq<byte>>)

  ghost predicate Lawful(a: AeadRaw) {
    && (forall n: nat, p: seq<byte> :: |a.seal(n, p)| == |p| + TAG)
    && (forall n: nat, p: seq<byte> :: a.open(n, a.seal(n, p)) == Some(p))
    && (forall n: nat, c: seq<byte> ::
          a.open(n, c).Some? ==> |c| == |a.open(n, c).value| + TAG)
  }

  type Aead = a: AeadRaw | Lawful(a)
    ghost witness AeadRaw(
      (n: nat, p: seq<byte>) => p + seq(TAG, _ => 0),
      (n: nat, c: seq<byte>) => if |c| >= TAG then Some(c[..|c| - TAG]) else None)

  /** Decryption under nonce `nonce`; the reserved nonce opens nothing. */
  function Open(a: Aead, nonce: nat, c: seq<byte>): Option<seq<byte>> {
    if nonce >= NONCE_MAX then None else a.open(nonce, c)
  }

  function Frame(a: Aead, nonce: nat, chunk: seq<byte>): seq<byte>
    requires |chunk| <= MAX_PLAINTEXT
  {
    U16ToBe(|chunk| + TAG) + a.seal(nonce, chunk)
  }

  /** The length cast of the writer loses nothing exactly for the chunks it makes. */
  lemma CastIsLossless(a: Aead, nonce: nat, chunk: seq<byte>)
    ensures |chunk| <= MAX_PLAINTEXT <==> |a.seal(nonce, chunk)| <= 65535
    ensures |chunk| <= MAX_PLAINTEXT ==>
              U16ToBe(AsU16(|a.seal(nonce, chunk)|)) + a.seal(nonce, chunk) == Frame(a, nonce, chunk)
  {
    hide U16ToBe;
    var sealed := a.seal(nonce, chunk);
    assert |sealed| == |chunk| + TAG;
    if |chunk| <= MAX_PLAINTEXT {
      assert AsU16(|sealed|) == |chunk| + TAG;
    }
  }

  /** A record on the wire: the length of the sealed chunk, tag included, and the sealed chunk. */
  lemma FrameOnTheWire(a: Aead, nonce: nat, chunk: seq<byte>)
    requires |chunk| <= MAX_PLAINTEXT
    ensures var frame := Frame(a, nonce, chunk);
            |frame| == 2 + |chunk| + 16 && BigEndian(frame[..2]) == |chunk| + 16 && frame[2..] == a.seal(nonce, chunk)
  {
    hide BigEndian, U16ToBe;
    U16IsBigEndian(|chunk| + TAG, []);
    assert |a.seal(nonce, chunk)| == |chunk| + TAG;
    assert Frame(a, nonce, chunk)[..2] == U16ToBe(|chunk| + TAG);
  }

  /** Chunks that fit a record each, with a nonce for every one of them. */
  ghost predicate Sealable(first: nat, chunks: seq<seq<byte>>) {
    && first + |chunks| <= NONCE_MAX
    && forall i :: 0 <= i < |chunks| ==> |chunks[i]| <= MAX_PLAINTEXT
  }

  /** The records of `chunks` under consecutive nonces from `first`. */
  ghost function Wire(a: Aead, first: nat, chunks: seq<seq<byte>>): seq<byte>
    requires Sealable(first, chunks)
    decreases |chunks|
  {
    if |chunks| == 0 then [] else Frame(a, first, chunks[0]) + Wire(a, first + 1, chunks[1..])
  }

  /** What the front of a byte string holds: a part of a record, one that does not open, or one that does. */
  datatype Front = Part | Bad | Record(plaintext: seq<byte>, end: nat)

  function FrontOf(a: Aead, nonce: nat, bytes: seq<byte>): (f: Front)
    ensures f.Record? ==> 2 <= f.end <= |bytes|
  {
    if |bytes| < 2 || |bytes| < 2 + U16FromBe(bytes[..2]) then
      Part
    else
      var end := 2 + U16FromBe(bytes[..2]);
      match Open(a, nonce, bytes[2..end])
      case None => Bad
      case Some(p) => Record(p, end)
  }

  /** `rest` is what no complete record covers; `ok` is false from the first record that does not open. */
  datatype Parsed = Parsed(records: seq<seq<byte>>, rest: seq<byte>, ok: bool)

  ghost function Parse(a: Aead, first: nat, bytes: seq<byte>): Parsed
    decreases |bytes|
  {
    match FrontOf(a, first, bytes)
    case Part => Parsed([], bytes, true)
    case Bad => Parsed([], bytes, false)
    case Record(p, end) => Prepend([p], Parse(a, first + 1, bytes[end..]))
  }

  ghost function Prepend(records: seq<seq<byte>>, p: Parsed): Parsed {
    Parsed(records + p.records, p.rest, p.ok)
  }

  lemma ParseNothing(a: Aead, nonce: nat)
    ensures Parse(a, nonce, []) == Parsed([], [], true)
  {
  }

  lemma ParseStep(a: Aead, nonce: nat, bytes: seq<byte>, plaintext: seq<byte>, end: nat)
    requires FrontOf(a, nonce, bytes) == Record(plaintext, end)
    ensures Parse(a, nonce, bytes) == Prepend([plaintext], Parse(a, nonce + 1, bytes[end..]))
  {
  }

  lemma PrependNothing(p: Parsed)
    ensures Prepend([], p) == p
  {
  }

  lemma PrependToNothing(r: seq<seq<byte>>, part: seq<byte>)
    ensures Prepend(r, Parsed([], part, true)) == Parsed(r, part, true)
  {
  }

  lemma PrependPrepend(r: seq<seq<byte>>, s: seq<seq<byte>>, p: Parsed)
    ensures Prepend(r, Prepend(s, p)) == Prepend(r + s, p)
  {
    assert r + (s + p.records) == (r + s) + p.records;
  }

  lemma {:induction false} WireSnoc(a: Aead, first: nat, chunks: seq<seq<byte>>, chunk: seq<byte>)
    requires Sealable(first, chunks) && |chunk| <= MAX_PLAINTEXT
    requires first + |chunks| < NONCE_MAX
    ensures Sealable(first, chunks + [chunk])
    ensures Wire(a, first, chunks + [chunk])
         == Wire(a, first, chunks) + Frame(a, first + |chunks|, chunk)
    decreases |chunks|
  {
    hide Frame;
    if |chunks| == 0 {
      assert (chunks + [chunk])[1..] == [];
    } else {
      assert (chunks + [chunk])[1..] == chunks[1..] + [chunk];
      WireSnoc(a, first + 1, chunks[1..], chunk);
    }
  }

  lemma FrontExtends(a: Aead, nonce: nat, x: seq<byte>, y: seq<byte>)
    requires !FrontOf(a, nonce, x).Part?
    ensures FrontOf(a, nonce, x + y) == FrontOf(a, nonce, x)
  {
    var end := 2 + U16FromBe(x[..2]);
    assert (x + y)[..2] == x[..2];
    assert (x + y)[2..end] == x[2..end];
  }

  /** Parsing may be suspended anywhere: it resumes from the leftover and the next nonce. */
  lemma ParseResume(a: Aead, first: nat, x: seq<byte>, y: seq<byte>)
    requires Parse(a, first, x).ok
    ensures Parse(a, first, x + y)
         == Prepend(Parse(a, first, x).records,
                    Parse(a, first + |Parse(a, first, x).records|, Parse(a, first, x).rest + y))
  {
    hide Parse;
    ParseResumeAt(a, first, x, y, first + |Parse(a, first, x).records|, Parse(a, first, x).rest + y);
  }

  lemma {:induction false} ParseResumeAt(a: Aead, first: nat, x: seq<byte>, y: seq<byte>,
                                         next: nat, z: seq<byte>)
    requires Parse(a, first, x).ok
    requires next == first + |Parse(a, first, x).records| && z == Parse(a, first, x).rest + y
    ensures Parse(a, first, x + y) == Prepend(Parse(a, first, x).records, Parse(a, next, z))
    decreases |x|
  {
    match FrontOf(a, first, x)
    case Part =>
      PrependNothing(Parse(a, first, x + y));
    case Record(plaintext, end) =>
      FrontExtends(a, first, x, y);
      assert (x + y)[end..] == x[end..] + y;
      ParseResumeAt(a, first + 1, x[end..], y, next, z);
      PrependPrepend([plaintext], Parse(a, first + 1, x[end..]).records, Parse(a, next, z));
  }

  lemma FrontOfFrame(a: Aead, nonce: nat, chunk: seq<byte>, tail: seq<byte>)
    requires |chunk| <= MAX_PLAINTEXT && nonce < NONCE_MAX
    ensures FrontOf(a, nonce, Frame(a, nonce, chunk) + tail)
         == Record(chunk, |Frame(a, nonce, chunk)|)
  {
    var bytes := Frame(a, nonce, chunk) + tail;
    U16RoundTrip(|chunk| + TAG);
    assert bytes[..2] == U16ToBe(|chunk| + TAG);
    assert bytes[2..2 + |chunk| + TAG] == a.seal(nonce, chunk);
  }

  lemma FrontOfPartFrame(a: Aead, nonce: nat, chunk: seq<byte>, seen: seq<byte>)
    requires |chunk| <= MAX_PLAINTEXT && nonce < NONCE_MAX
    requires seen < Frame(a, nonce, chunk)
    ensures FrontOf(a, nonce, seen) == Part
  {
    U16RoundTrip(|chunk| + TAG);
    if |seen| >= 2 {
      assert seen[..2] == Frame(a, nonce, chunk)[..2] == U16ToBe(|chunk| + TAG);
    }
  }

  lemma {:induction false} ParseOfWire(a: Aead, first: nat, chunks: seq<seq<byte>>)
    requires Sealable(first, chunks)
    ensures Parse(a, first, Wire(a, first, chunks)) == Parsed(chunks, [], true)
    decreases |chunks|
  {
    hide Parse, FrontOf, Frame;
    if |chunks| == 0 {
      ParseNothing(a, first);
    } else {
      var frame := Frame(a, first, chunks[0]);
      var tail := Wire(a, first + 1, chunks[1..]);
      FrontOfFrame(a, first, chunks[0], tail);
      assert (frame + tail)[|frame|..] == tail;
      ParseStep(a, first, frame + tail, chunks[0], |frame|);
      ParseOfWire(a, first + 1, chunks[1..]);
      assert [chunks[0]] + chunks[1..] == chunks;
    }
  }

  /** Where a prefix of the wire ends: after `k` records, `part` of the next one. */
  lemma {:induction false} CutOfWire(a: Aead, first: nat, chunks: seq<seq<byte>>, seen: seq<byte>)
    returns (k: nat, part: seq<byte>)
    requires Sealable(first, chunks)
    requires seen <= Wire(a, first, chunks)
    ensures k <= |chunks| && seen == Wire(a, first, chunks[..k]) + part
    ensures part != [] ==> k < |chunks| && part < Frame(a, first + k, chunks[k])
    decreases |chunks|
  {
    if |chunks| == 0 {
      return 0, [];
    }
    var frame := Frame(a, first, chunks[0]);
    if |seen| < |frame| {
      assert seen < frame;
      return 0, seen;
    }
    var tail := seen[|frame|..];
    assert seen == frame + tail;
    k, part := CutOfWire(a, first + 1, chunks[1..], tail);
    assert chunks[..k + 1][1..] == chunks[1..][..k];
    k := k + 1;
  }

  lemma ParseOfCut(a: Aead, first: nat, chunks: seq<seq<byte>>, k: nat, part: seq<byte>)
    requires Sealable(first, chunks) && k <= |chunks|
    requires part != [] ==> k < |chunks| && part < Frame(a, first + k, chunks[k])
    ensures Parse(a, first, Wire(a, first, chunks[..k]) + part) == Parsed(chunks[..k], part, true)
  {
    ParseOfWire(a, first, chunks[..k]);
    if part == [] {
      assert Wire(a, first, chunks[..k]) + part == Wire(a, first, chunks[..k]);
    } else {
      FrontOfPartFrame(a, first + k, chunks[k], part);
      assert Parse(a, first + k, part) == Parsed([], part, true);
      ParseResumeAt(a, first, Wire(a, first, chunks[..k]), part, first + k, part);
      PrependToNothing(chunks[..k], part);
    }
  }

  /**
    Whatever prefix of an honest wire the receiver has seen, it parses without
    an error to the first few of the sender's chunks and a part of the next
    record; on the whole wire it parses to all of them.
   */
  lemma ParseOfWirePrefix(a: Aead, first: nat, chunks: seq<seq<byte>>, seen: seq<byte>)
    requires Sealable(first, chunks)
    requires seen <= Wire(a, first, chunks)
    ensures Parse(a, first, seen).ok
    ensures Parse(a, first, seen).records <= chunks
    ensures Parse(a, first, seen).rest == []
       <==> exists k :: 0 <= k <= |chunks| && seen == Wire(a, first, chunks[..k])
    ensures seen == Wire(a, first, chunks) ==> Parse(a, first, seen) == Parsed(chunks, [], true)
  {
    var p := Parse(a, first, seen);
    var k, part := CutOfWire(a, first, chunks, seen);
    ParseOfCut(a, first, chunks, k, part);
    if part == [] {
      assert seen == Wire(a, first, chunks[..k]);
    }
    if j :| 0 <= j <= |chunks| && seen == Wire(a, first, chunks[..j]) {
      ParseOfWire(a, first, chunks[..j]);
    }
    if seen == Wire(a, first, chunks) {
      ParseOfWire(a, first, chunks);
    }
  }
}
