/** What a session has agreed to send: the queue whose front is the write in flight. */
module Outbox {
  import opened Frames

  const MAX_SENDQUE := 1000

  /** Besides the queue, three histories: every message let into it, every message whose frame was handed
      to the socket, and every message whose frame was written completely. */
  datatype Outbox = Outbox(accepted: seq<Message>, started: seq<Message>, completed: seq<Message>,
                           queue: seq<Message>, writing: bool, failed: bool)

  const EMPTY := Outbox([], [], [], [], false, false)

  /** The queue is tested before the push, so it may hold one more than the limit. */
  function Push(o: Outbox, m: Message): Outbox {
    if |o.queue| > MAX_SENDQUE then o
    else
      var pushed := o.(accepted := o.accepted + [m], queue := o.queue + [m]);
      if o.queue == [] then pushed.(started := o.started + [m], writing := true) else pushed
  }

  function WriteDone(o: Outbox): Outbox
    requires o.queue != []
  {
    var popped := o.(completed := o.completed + [o.queue[0]], queue := o.queue[1..]);
    if popped.queue == [] then popped.(writing := false)
    else popped.(started := o.started + [popped.queue[0]])
  }

  function WriteFailed(o: Outbox): Outbox {
    o.(writing := false, failed := true)
  }

  ghost predicate Inv(o: Outbox) {
    && |o.queue| <= MAX_SENDQUE + 1
    && o.accepted == o.completed + o.queue
    && o.started == o.completed + o.queue[..if o.queue == [] then 0 else 1]
    && o.writing == (o.queue != [] && !o.failed)
    && (o.failed ==> o.queue != [])
  }

  // ---------- runs ----------

  datatype Event = Sent(m: Message) | Done | Error

  /** A completion can only be reported for a write in flight. */
  predicate Legal(o: Outbox, events: seq<Event>)
    decreases |events|
  {
    events == [] ||
    ((events[0].Sent? || (o.writing && o.queue != [])) && Legal(Apply(o, events[0]), events[1..]))
  }

  function Apply(o: Outbox, e: Event): Outbox {
    match e
    case Sent(m) => Push(o, m)
    case Done => if o.queue == [] then o else WriteDone(o)
    case Error => WriteFailed(o)
  }

  function Run(o: Outbox, events: seq<Event>): Outbox
    decreases |events|
  {
    if events == [] then o else Run(Apply(o, events[0]), events[1..])
  }

  /** A message is let in exactly if at most a thousand are waiting, a completion takes the front away, and
      nothing else is lost or added. */
  lemma StepKeepsInv(o: Outbox, e: Event)
    requires Inv(o) && Legal(o, [e])
    ensures Inv(Apply(o, e))
    ensures o.accepted <= Apply(o, e).accepted && o.started <= Apply(o, e).started
    ensures o.completed <= Apply(o, e).completed
    ensures o.failed ==> Apply(o, e).failed && Apply(o, e).started == o.started
    ensures Apply(o, e).accepted == o.accepted + if e.Sent? && |o.queue| <= 1000 then [e.m] else []
    ensures Apply(o, e).completed == o.completed + if e.Done? then [o.queue[0]] else []
    ensures Apply(o, e).failed == (o.failed || e.Error?)
  {
    match e
    case Sent(m) => PushKeepsInv(o, m);
    case Done => DoneKeepsInv(o);
    case Error =>
  }

  lemma PushKeepsInv(o: Outbox, m: Message)
    requires Inv(o)
    ensures Inv(Push(o, m))
    ensures o.started <= Push(o, m).started && (o.failed ==> Push(o, m).started == o.started)
  {
    var pushed := o.queue + [m];
    assert (o.completed + o.queue) + [m] == o.completed + pushed;
    assert pushed[..1] == if o.queue == [] then [m] else o.queue[..1];
    if o.queue == [] {
      assert o.started + [m] == o.completed + [m];
    }
  }

  lemma DoneKeepsInv(o: Outbox)
    requires Inv(o) && o.queue != []
    ensures !o.failed ==> Inv(WriteDone(o))
    ensures o.started <= WriteDone(o).started
  {
    var front, rest := [o.queue[0]], o.queue[1..];
    assert o.queue == front + rest && o.queue[..1] == front;
    assert o.completed + (front + rest) == (o.completed + front) + rest;
    if rest != [] {
      assert rest[..1] == [rest[0]];
    }
  }

  /** Over every run of sends and completions: accepted = completed followed by queued, the frames handed
      to the socket are the completed ones and the front, in order and each once, and a failure is final. */
  lemma {:induction false} RunKeepsInv(o: Outbox, events: seq<Event>)
    requires Inv(o) && Legal(o, events)
    ensures Inv(Run(o, events))
    ensures o.accepted <= Run(o, events).accepted && o.started <= Run(o, events).started
    ensures o.completed <= Run(o, events).completed
    ensures o.failed ==> Run(o, events).failed && Run(o, events).started == o.started
    decreases |events|
  {
    if events != [] {
      StepKeepsInv(o, events[0]);
      RunKeepsInv(Apply(o, events[0]), events[1..]);
    }
  }

  /** The bytes a connection has carried when `k` bytes of the frame in flight have been written. */
  function Wire(o: Outbox, k: nat): seq<Byte>
    requires AllSendable(o.completed)
    requires o.queue != [] ==> Sendable(o.queue[0]) && k < |Encode(o.queue[0])|
  {
    EncodeAll(o.completed) + if o.queue == [] then [] else Encode(o.queue[0])[..k]
  }

  /** Queue, wire and parser together: whatever was sent, however the writes completed and however the
      bytes were cut into reads, a peer that reads frames as this parser does has posted exactly the completed
      messages, in order. */
  lemma EndToEnd(events: seq<Event>, k: nat, chunks: seq<seq<Byte>>)
    requires Legal(EMPTY, events)
    requires var o := Run(EMPTY, events);
             && AllSendable(o.accepted) && AllSendable(o.completed)
             && (o.queue != [] ==> Sendable(o.queue[0]) && k < |Encode(o.queue[0])|)
             && Concat(chunks) == Wire(o, k)
    ensures var o := Run(EMPTY, events);
            && ResumeAll(NOTHING, chunks).status == Reading
            && ResumeAll(NOTHING, chunks).posted == o.completed <= o.accepted
            && (o.queue == [] ==> ResumeAll(NOTHING, chunks) == Decoded(o.accepted, [], Reading))
  {
    RunKeepsInv(EMPTY, events);
    var o := Run(EMPTY, events);
    if o.queue == [] {
      assert o.accepted == o.completed;
      DecodeEncodedThen(o.completed, []);
      AnyTwoChunkingsAgree(chunks, chunks);
    } else {
      RoundTrip(o.completed, o.queue[0], k, chunks);
    }
  }
}
