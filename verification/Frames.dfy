/** The wire format: 16-bit network-order id and length, then the body.
    `Decode` is what the receiving side makes of a whole byte stream; it knows
    nothing about reads, buffers or partial nodes. */
module Frames {
  type Byte = b: int | 0 <= b < 256
  type Short = x: int | -32768 <= x <= 32767

  const MAX_LENGTH := 2048
  const HEAD_TOTAL_LEN := 4

  datatype Message = Message(id: Short, body: seq<Byte>)

  /** Reading: more bytes are welcome.  Rejected: a head was refused and the session
      was removed from the server.  Stalled: a head announced a negative length; no node
      can be allocated for it, and the session never reads again. */
  datatype Status = Reading | Rejected | Stalled

  datatype Decoded = Decoded(posted: seq<Message>, rest: seq<Byte>, status: Status)

  const NOTHING := Decoded([], [], Reading)

  // ---------- network byte order ----------

  function HostShort(hi: Byte, lo: Byte): Short {
    var u := hi * 256 + lo;
    if u >= 32768 then u - 65536 else u
  }

  function NetworkShort(x: Short): (r: seq<Byte>)
    ensures |r| == 2
  {
    var u := if x < 0 then x + 65536 else x;
    [u / 256, u % 256]
  }

  /** What is left of a length passed where a short is expected. */
  function CastShort(n: nat): Short {
    var u := n % 65536;
    if u >= 32768 then u - 65536 else u
  }

  /** The longest body a node has room for: its total length is a short, too. */
  const MAX_BODY := 32763

  /** The part of a message a frame carries: as many bytes as the cast length says. */
  function Carried(msg: seq<Byte>): (r: seq<Byte>)
    ensures |r| <= MAX_BODY
    ensures |msg| <= MAX_BODY ==> r == msg
  {
    var n := CastShort(|msg|);
    if 0 <= n <= MAX_BODY then msg[..n] else []
  }

  /** A length is cast by dropping whole multiples of 65536 and then reading the upper half as negative. */
  lemma CastShortIs(q: nat, r: nat)
    requires r < 65536
    ensures CastShort(65536 * q + r) == if r <= 32767 then r else r - 65536
  {
    assert (65536 * q + r) % 65536 == r;
  }

  /** Of a message longer than a short can say only the beginning is carried, and where the cast length leaves
      no room for a node, nothing. */
  lemma CarriedIs(msg: seq<Byte>, q: nat, r: nat)
    requires |msg| == 65536 * q + r && r < 65536
    ensures Carried(msg) == if r <= 32763 then msg[..r] else []
  {
    CastShortIs(q, r);
  }

  lemma ShortRoundTrip(x: Short, hi: Byte, lo: Byte)
    ensures HostShort(NetworkShort(x)[0], NetworkShort(x)[1]) == x
    ensures NetworkShort(HostShort(hi, lo)) == [hi, lo]
  {
    assert (hi * 256 + lo) / 256 == hi && (hi * 256 + lo) % 256 == lo;
  }

  // ---------- decoding ----------

  function HeadId(s: seq<Byte>): Short
    requires |s| >= HEAD_TOTAL_LEN
  {
    HostShort(s[0], s[1])
  }

  function HeadLen(s: seq<Byte>): Short
    requires |s| >= HEAD_TOTAL_LEN
  {
    HostShort(s[2], s[3])
  }

  /** The test applied to a complete head.  Ids and lengths are signed, so a negative id passes. */
  function Verdict(s: seq<Byte>): Status
    requires |s| >= HEAD_TOTAL_LEN
  {
    if HeadId(s) > MAX_LENGTH || HeadLen(s) > MAX_LENGTH then Rejected
    else if HeadLen(s) < 0 then Stalled
    else Reading
  }

  predicate HasFrame(s: seq<Byte>) {
    |s| >= HEAD_TOTAL_LEN && Verdict(s) == Reading && |s| >= HEAD_TOTAL_LEN + HeadLen(s)
  }

  function FirstFrame(s: seq<Byte>): Message
    requires HasFrame(s)
  {
    Message(HeadId(s), s[HEAD_TOTAL_LEN..HEAD_TOTAL_LEN + HeadLen(s)])
  }

  function AfterFrame(s: seq<Byte>): seq<Byte>
    requires HasFrame(s)
  {
    s[HEAD_TOTAL_LEN + HeadLen(s)..]
  }

  function Prepend(ms: seq<Message>, d: Decoded): Decoded {
    d.(posted := ms + d.posted)
  }

  function Decode(s: seq<Byte>): Decoded
    decreases |s|
  {
    if |s| < HEAD_TOTAL_LEN then Decoded([], s, Reading)
    else if Verdict(s) != Reading then Decoded([], s[..HEAD_TOTAL_LEN], Verdict(s))
    else if !HasFrame(s) then Decoded([], s, Reading)
    else Prepend([FirstFrame(s)], Decode(AfterFrame(s)))
  }

  /** Continue from what is already known when `chunk` arrives. */
  function Resume(d: Decoded, chunk: seq<Byte>): Decoded {
    if d.status == Reading then Prepend(d.posted, Decode(d.rest + chunk)) else d
  }

  predicate AmountsTo(d: Decoded, more: seq<Byte>, goal: Decoded) {
    Resume(d, more) == goal
  }

  function ResumeAll(d: Decoded, chunks: seq<seq<Byte>>): Decoded
    decreases |chunks|
  {
    if chunks == [] then d else ResumeAll(Resume(d, chunks[0]), chunks[1..])
  }

  function Concat(chunks: seq<seq<Byte>>): seq<Byte> {
    if chunks == [] then [] else chunks[0] + Concat(chunks[1..])
  }

  lemma {:induction false} DecodeAppend(s: seq<Byte>, t: seq<Byte>)
    ensures Decode(s + t) == Resume(Decode(s), t)
    decreases |s|
  {
    if |s| < HEAD_TOTAL_LEN {
    } else {
      assert (s + t)[..HEAD_TOTAL_LEN] == s[..HEAD_TOTAL_LEN];
      if HasFrame(s) {
        assert FirstFrame(s + t) == FirstFrame(s);
        assert AfterFrame(s + t) == AfterFrame(s) + t;
        DecodeAppend(AfterFrame(s), t);
        var d := Decode(AfterFrame(s));
        if d.status == Reading {
          assert [FirstFrame(s)] + (d.posted + Decode(d.rest + t).posted)
              == ([FirstFrame(s)] + d.posted) + Decode(d.rest + t).posted;
        }
      }
    }
  }

  /** How the stream was cut into reads cannot be observed: any chunking gives the decoding of the whole. */
  lemma {:induction false} ChunkingUnobservable(s: seq<Byte>, chunks: seq<seq<Byte>>)
    ensures ResumeAll(Decode(s), chunks) == Decode(s + Concat(chunks))
    decreases |chunks|
  {
    if chunks == [] {
      assert s + Concat(chunks) == s;
    } else {
      var t := s + chunks[0];
      assert s + Concat(chunks) == t + Concat(chunks[1..]);
      assert Resume(Decode(s), chunks[0]) == Decode(t) by { DecodeAppend(s, chunks[0]); }
      ChunkingUnobservable(t, chunks[1..]);
    }
  }

  lemma AnyTwoChunkingsAgree(a: seq<seq<Byte>>, b: seq<seq<Byte>>)
    requires Concat(a) == Concat(b)
    ensures ResumeAll(NOTHING, a) == ResumeAll(NOTHING, b) == Decode(Concat(a))
  {
    ChunkingUnobservable([], a);
    ChunkingUnobservable([], b);
    assert [] + Concat(a) == Concat(a);
  }

  /** What has been posted is never taken back, and after a refusal nothing is posted any more:
      a stream is refused at the same frame however it arrives. */
  lemma PostedGrows(s: seq<Byte>, t: seq<Byte>)
    ensures Decode(s).posted <= Decode(s + t).posted
    ensures Decode(s).status != Reading ==> Decode(s + t) == Decode(s)
  {
    DecodeAppend(s, t);
  }

  /** One round of decoding: the new state, and the bytes of `more` still to be looked at. */
  function Step(d: Decoded, more: seq<Byte>): (Decoded, seq<Byte>) {
    var s := d.rest + more;
    if |s| >= HEAD_TOTAL_LEN && Verdict(s) != Reading then (Decoded(d.posted, s[..HEAD_TOTAL_LEN], Verdict(s)), [])
    else if !HasFrame(s) then (d.(rest := s), [])
    else (Decoded(d.posted + [FirstFrame(s)], [], Reading), AfterFrame(s))
  }

  /** No complete or refused frame is waiting among the pending bytes. */
  predicate Settled(d: Decoded) {
    d.status == Reading ==> !HasFrame(d.rest) && (|d.rest| >= HEAD_TOTAL_LEN ==> Verdict(d.rest) == Reading)
  }

  lemma StepResumes(d: Decoded, more: seq<Byte>)
    requires d.status == Reading
    ensures var (next, left) := Step(d, more); Resume(d, more) == Resume(next, left) && Settled(next)
  {
    var s := d.rest + more;
    var (next, left) := Step(d, more);
    if HasFrame(s) {
      assert [] + left == left;
      var tail := Decode(left).posted;
      assert d.posted + ([FirstFrame(s)] + tail) == (d.posted + [FirstFrame(s)]) + tail;
    } else {
      assert d.posted + [] == d.posted && s + [] == s;
    }
  }

  lemma ResumeNothing(d: Decoded)
    requires Settled(d)
    ensures Resume(d, []) == d
  {
    assert d.rest + [] == d.rest && d.posted + [] == d.posted;
  }

  // ---------- heads, byte by byte ----------

  /** Two bytes as a signed number, the higher one first. */
  function Signed(hi: Byte, lo: Byte): Short {
    if hi < 128 then 256 * hi + lo else 256 * hi + lo - 65536
  }

  /** Id or length is positive and more than 2048. */
  predicate Oversize(head: seq<Byte>)
    requires |head| == 4
  {
    || (head[0] < 128 && 256 * (head[0] as int) + head[1] > 2048)
    || (head[2] < 128 && 256 * (head[2] as int) + head[3] > 2048)
  }

  lemma HeadDecided(head: seq<Byte>, tail: seq<Byte>)
    requires |head| == 4
    ensures Oversize(head) ==> Decode(head + tail) == Decoded([], head, Rejected)
    ensures !Oversize(head) && head[2] >= 128 ==> Decode(head + tail) == Decoded([], head, Stalled)
    ensures !Oversize(head) && head[2] < 128 ==> Verdict(head + tail) == Reading
    ensures HeadId(head + tail) == Signed(head[0], head[1]) && HeadLen(head + tail) == Signed(head[2], head[3])
  {
    var s := head + tail;
    assert s[0] == head[0] && s[1] == head[1] && s[2] == head[2] && s[3] == head[3];
    assert s[..HEAD_TOTAL_LEN] == head;
  }

  /** Behind complete frames: a head that is too large is refused, one with a negative length stalls the stream,
      and nothing behind it is looked at; any other head is accepted. */
  lemma HeadBehindFrames(ms: seq<Message>, head: seq<Byte>, tail: seq<Byte>)
    requires AllSendable(ms) && |head| == 4
    ensures Oversize(head) ==> Decode(EncodeAll(ms) + (head + tail)) == Decoded(ms, head, Rejected)
    ensures !Oversize(head) && head[2] >= 128 ==> Decode(EncodeAll(ms) + (head + tail)) == Decoded(ms, head, Stalled)
    ensures Decode(EncodeAll(ms) + head).status ==
            if Oversize(head) then Rejected else if head[2] >= 128 then Stalled else Reading
  {
    DecodeEncoded(ms);
    DecodeAppend(EncodeAll(ms), head + tail);
    DecodeAppend(EncodeAll(ms), head);
    HeadDecided(head, tail);
    HeadDecided(head, []);
    assert [] + (head + tail) == head + tail && [] + head == head + [] == head && ms + [] == ms;
  }

  /** An accepted head and as many bytes as it announces are a message with the id it names. */
  lemma BodyBehindHead(ms: seq<Message>, head: seq<Byte>, body: seq<Byte>)
    requires AllSendable(ms) && |head| == 4 && !Oversize(head) && |body| == Signed(head[2], head[3])
    ensures Decode(EncodeAll(ms) + (head + body)) ==
            Decoded(ms + [Message(Signed(head[0], head[1]), body)], [], Reading)
  {
    DecodeEncoded(ms);
    DecodeAppend(EncodeAll(ms), head + body);
    HeadAndBody(head, body);
    assert [] + (head + body) == head + body;
  }

  lemma HeadAndBody(head: seq<Byte>, body: seq<Byte>)
    requires |head| == 4 && !Oversize(head) && |body| == Signed(head[2], head[3])
    ensures Decode(head + body) == Decoded([Message(Signed(head[0], head[1]), body)], [], Reading)
  {
    HeadDecided(head, body);
    var s := head + body;
    assert HasFrame(s) && s[HEAD_TOTAL_LEN..HEAD_TOTAL_LEN + HeadLen(s)] == body && AfterFrame(s) == [];
    assert Decode([]) == NOTHING;
  }

  // ---------- encoding ----------

  function Encode(m: Message): seq<Byte>
    requires |m.body| <= 32767
  {
    NetworkShort(m.id) + NetworkShort(|m.body|) + m.body
  }

  /** What both ends accept: the receiver's limits on id and length. */
  predicate Sendable(m: Message) {
    m.id <= MAX_LENGTH && |m.body| <= MAX_LENGTH
  }

  predicate AllSendable(ms: seq<Message>) {
    forall i :: 0 <= i < |ms| ==> Sendable(ms[i])
  }

  function EncodeAll(ms: seq<Message>): seq<Byte>
    requires AllSendable(ms)
  {
    if ms == [] then [] else Encode(ms[0]) + EncodeAll(ms[1..])
  }

  lemma EncodedHead(m: Message, tail: seq<Byte>)
    requires Sendable(m)
    ensures HasFrame(Encode(m) + tail)
    ensures FirstFrame(Encode(m) + tail) == m
    ensures AfterFrame(Encode(m) + tail) == tail
  {
    ShortRoundTrip(m.id, 0, 0);
    ShortRoundTrip(|m.body|, 0, 0);
    var s := Encode(m) + tail;
    assert s[0..2] == NetworkShort(m.id) && s[2..4] == NetworkShort(|m.body|);
    assert s[0] == s[0..2][0] && s[1] == s[0..2][1] && s[2] == s[2..4][0] && s[3] == s[2..4][1];
  }

  /** A proper prefix of a sendable frame decodes to nothing yet: it is all kept as pending bytes. */
  lemma PartialFrame(m: Message, k: nat)
    requires Sendable(m) && k < |Encode(m)|
    ensures Decode(Encode(m)[..k]) == Decoded([], Encode(m)[..k], Reading)
  {
    EncodedHead(m, []);
    assert Encode(m) + [] == Encode(m);
  }

  lemma {:induction false} DecodeEncoded(ms: seq<Message>)
    requires AllSendable(ms)
    ensures Decode(EncodeAll(ms)) == Decoded(ms, [], Reading)
  {
    if ms != [] {
      EncodedHead(ms[0], EncodeAll(ms[1..]));
      DecodeEncoded(ms[1..]);
      assert [ms[0]] + ms[1..] == ms;
    }
  }

  lemma DecodeEncodedThen(ms: seq<Message>, p: seq<Byte>)
    requires AllSendable(ms) && Decode(p) == Decoded([], p, Reading)
    ensures Decode(EncodeAll(ms) + p) == Decoded(ms, p, Reading)
  {
    DecodeEncoded(ms);
    DecodeAppend(EncodeAll(ms), p);
    assert [] + p == p && ms + [] == ms;
  }

  /** Sender to receiver: after the frames of `ms` and `k` bytes of the next frame have crossed the
      connection in any chunks, exactly `ms` has been posted and exactly those `k` bytes are pending. */
  lemma RoundTrip(ms: seq<Message>, next: Message, k: nat, chunks: seq<seq<Byte>>)
    requires AllSendable(ms) && Sendable(next) && k < |Encode(next)|
    requires Concat(chunks) == EncodeAll(ms) + Encode(next)[..k]
    ensures ResumeAll(NOTHING, chunks) == Decoded(ms, Encode(next)[..k], Reading)
  {
    PartialFrame(next, k);
    DecodeEncodedThen(ms, Encode(next)[..k]);
    AnyTwoChunkingsAgree(chunks, chunks);
  }

  lemma EncodeFirst(s: seq<Byte>)
    requires HasFrame(s)
    ensures Sendable(FirstFrame(s)) && Encode(FirstFrame(s)) + AfterFrame(s) == s
  {
    var m := FirstFrame(s);
    ShortRoundTrip(0, s[0], s[1]);
    ShortRoundTrip(0, s[2], s[3]);
    EncodeParts(m, s[..2], s[2..4]);
    assert s == s[..2] + s[2..4] + m.body + AfterFrame(s);
  }

  lemma EncodeParts(m: Message, id: seq<Byte>, len: seq<Byte>)
    requires |m.body| <= 32767 && NetworkShort(m.id) == id && NetworkShort(|m.body|) == len
    ensures Encode(m) == id + len + m.body
  {
  }

  /** The other direction: nothing is invented and nothing is lost.  The posted messages, encoded again
      and followed by the pending bytes, are the received stream up to the point where reading stopped. */
  lemma {:induction false} DecodeConserves(s: seq<Byte>)
    ensures AllSendable(Decode(s).posted)
    ensures EncodeAll(Decode(s).posted) + Decode(s).rest <= s
    ensures Decode(s).status == Reading ==> EncodeAll(Decode(s).posted) + Decode(s).rest == s
    decreases |s|
  {
    if HasFrame(s) {
      EncodeFirst(s);
      DecodeConserves(AfterFrame(s));
      EncodePrepended(FirstFrame(s), Decode(AfterFrame(s)), AfterFrame(s));
    } else {
      assert EncodeAll([]) + Decode(s).rest == Decode(s).rest;
    }
  }

  lemma EncodePrepended(m: Message, d: Decoded, s: seq<Byte>)
    requires Sendable(m) && AllSendable(d.posted) && EncodeAll(d.posted) + d.rest <= s
    ensures AllSendable(Prepend([m], d).posted)
    ensures EncodeAll(Prepend([m], d).posted) + d.rest == Encode(m) + (EncodeAll(d.posted) + d.rest) <= Encode(m) + s
  {
    var all := [m] + d.posted;
    assert all[1..] == d.posted;
    assert Encode(m) + EncodeAll(d.posted) + d.rest == Encode(m) + (EncodeAll(d.posted) + d.rest);
  }
}
