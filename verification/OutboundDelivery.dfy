/**
 The Host's outbound queue to one Client: bounded, in order, and coalescing only the latest value of a
 replaceable change.
 */
module OutboundDelivery {
  import opened Options
  import opened AuthorityTables

  /** What the Host sends: a set of changes, or anything else. */
  datatype ServerMessage = ChangeSet(changes: seq<Change>) | OtherMessage(text: string)

  /** Only a change set of one rename may be replaced by a later one. */
  function ReplaceableChangeKey(message: ServerMessage): Option<SessionId> {
    if message.ChangeSet? && |message.changes| == 1 && message.changes[0].SessionRenamed?
    then Some(message.changes[0].session) else None
  }

  /** A message and the bytes of its payload; a replace key says that only its latest value matters. */
  datatype Message = Message(content: ServerMessage, bytes: nat)
  {
    function Key(): Option<SessionId> { ReplaceableChangeKey(content) }
  }

  /** A Client's socket and its delivery state; `wire` is what the socket has been given, in order. */
  datatype Channel = Channel(
    outboundBytes: int, inFlight: Option<Message>, queue: seq<Message>, wire: seq<Message>,
    open: bool, overflowed: bool)

  const IDLE := Channel(0, None, [], [], true, false)

  // ---------------------------------------------------------------- what each call does

  function IndexOfKey(queue: seq<Message>, key: Option<SessionId>): (k: nat)
    ensures k <= |queue| && (k < |queue| ==> key.Some? && queue[k].Key() == key)
    ensures key.Some? ==> forall j :: 0 <= j < k ==> queue[j].Key() != key
    ensures key.None? ==> k == |queue|
  {
    if key.None? then |queue|
    else if queue == [] then 0
    else
      var k := IndexOfKey(queue[..|queue| - 1], key);
      if k < |queue| - 1 || queue[k].Key() == key then k else |queue|
  }

  function ProspectiveBytes(c: Channel, m: Message): int {
    var k := IndexOfKey(c.queue, m.Key());
    c.outboundBytes + m.bytes - if k < |c.queue| then c.queue[k].bytes else 0
  }

  function Drain(c: Channel): Channel {
    if c.inFlight.Some? || !c.open || c.queue == [] then c
    else c.(inFlight := Some(c.queue[0]), queue := c.queue[1..], wire := c.wire + [c.queue[0]])
  }

  /** The queue with a message put in place of the queued one of its key, or at the end. */
  function SendQueued(c: Channel, m: Message): Channel {
    var k := IndexOfKey(c.queue, m.Key());
    c.(outboundBytes := ProspectiveBytes(c, m), queue := if k < |c.queue| then c.queue[k := m] else c.queue + [m])
  }

  /** sendServerMessage. */
  function Send(c: Channel, m: Message, max: nat): Channel {
    if !c.open then c
    else if ProspectiveBytes(c, m) > max then c.(open := false, overflowed := true)
    else Drain(SendQueued(c, m))
  }

  /** The socket's completion callback for the message in flight. */
  function Complete(c: Channel, failed: bool): Channel {
    if c.inFlight.None? then c
    else
      var done := c.(inFlight := None, outboundBytes := c.outboundBytes - c.inFlight.value.bytes);
      if failed then done.(open := false) else Drain(done)
  }

  // ---------------------------------------------------------------- the object

  class ClientDelivery {
    const maxOutboundBytes: nat
    var outboundBytes: int
    var sending: Option<Message>
    var queue: seq<Message>
    var socket: seq<Message>
    var isOpen: bool
    var overflowed: bool

    /** The log of sends: the messages taken for delivery, in order. */
    ghost var taken: seq<Message>

    function State(): Channel reads this { Channel(outboundBytes, sending, queue, socket, isOpen, overflowed) }

    /** Within the bound, nothing waits behind an idle open socket, and the log is kept. */
    ghost predicate Valid() reads this {
      Bounded(State(), maxOutboundBytes) && Refines(State(), taken)
    }

    constructor (max: nat)
      ensures State() == IDLE && maxOutboundBytes == max && taken == [] && Valid()
    {
      maxOutboundBytes := max;
      outboundBytes, sending, queue, socket, isOpen, overflowed := 0, None, [], [], true, false;
      taken := [];
    }

    /** Takes a message unless the socket is closed, or closes it because the message would pass the bound. */
    method SendServerMessage(m: Message)
      requires Valid()
      modifies this
      ensures Valid() && State() == Send(old(State()), m, maxOutboundBytes)
      ensures taken == if old(isOpen) && isOpen then old(taken) + [m] else old(taken)
      ensures old(isOpen) && !isOpen ==> overflowed && socket == old(socket)
    {
      if !isOpen {
        return;
      }
      ghost var was := State();
      var at := 0;
      while at < |queue| && !(m.Key().Some? && queue[at].Key() == m.Key())
        invariant at <= |queue|
        invariant forall j :: 0 <= j < at && m.Key().Some? ==> queue[j].Key() != m.Key()
      {
        at := at + 1;
      }
      assert at == IndexOfKey(queue, m.Key());
      var prospective := outboundBytes + m.bytes - if at < |queue| then queue[at].bytes else 0;
      if prospective > maxOutboundBytes {
        overflowed := true;
        isOpen := false;
        return;
      }
      outboundBytes := prospective;
      if at < |queue| {
        queue := queue[at := m];
      } else {
        queue := queue + [m];
      }
      taken := taken + [m];
      assert State() == SendQueued(was, m);
      QueuedKeeps(was, old(taken), m, maxOutboundBytes);
      DrainDelivery();
    }

    /** Nothing is left waiting behind an idle open socket, and nothing overtakes. */
    method DrainDelivery()
      requires Counted(State(), maxOutboundBytes) && Refines(State(), taken)
      modifies this`queue, this`sending, this`socket
      ensures Valid() && State() == Drain(old(State()))
      ensures socket + queue == old(socket + queue)
    {
      hide Bounded, Counted, Refines;
      DrainKeeps(State(), taken, maxOutboundBytes);
      if sending.Some? || !isOpen || queue == [] {
        return;
      }
      var item := queue[0];
      queue := queue[1..];
      sending := Some(item);
      socket := socket + [item];
    }

    /** Only the bytes in flight are freed, and a failed send closes the socket with its queue as it was. */
    method OnSendCompleted(failed: bool)
      requires Valid()
      modifies this`outboundBytes, this`queue, this`sending, this`socket, this`isOpen
      ensures Valid() && State() == Complete(old(State()), failed)
      ensures outboundBytes == old(outboundBytes) - if old(sending).Some? then old(sending).value.bytes else 0
      ensures socket + queue == old(socket + queue)
      ensures failed && old(sending).Some? ==> !isOpen && queue == old(queue)
    {
      if sending.None? {
        return;
      }
      outboundBytes := outboundBytes - sending.value.bytes;
      sending := None;
      if failed {
        isOpen := false;
        return;
      }
      DrainDelivery();
    }
  }

  /** A change set of exactly one rename, of this Session. */
  ghost predicate IsRename(m: Message, s: SessionId) {
    exists summary :: m.content == ChangeSet([SessionRenamed(s, summary)])
  }

  /** Only a single rename may be replaced, and only by a later one of the same Session. */
  lemma OnlyRenamesAreReplaced(m: Message, s: SessionId)
    ensures m.Key() == Some(s) <==> IsRename(m, s)
  {
    if m.Key() == Some(s) {
      assert m.content == ChangeSet([SessionRenamed(s, m.content.changes[0].summary)]);
    }
  }

  /**
   What a taken message does to what waits: the one queued rename of its Session gives up its place to it, and
   otherwise it joins the end; nothing else waiting moves.
   */
  lemma TakenMessageReplacesItsRename(c: Channel, m: Message) returns (k: nat)
    ensures var queue := SendQueued(c, m).queue;
            if k < |c.queue| then
              && queue == c.queue[k := m] && exists s :: IsRename(m, s) && IsRename(c.queue[k], s)
            else
              && queue == c.queue + [m] && forall j, s :: 0 <= j < |c.queue| && IsRename(m, s) ==> !IsRename(c.queue[j], s)
  {
    k := IndexOfKey(c.queue, m.Key());
    hide IndexOfKey, IsRename;
    forall q: Message, s: SessionId
      ensures q.Key() == Some(s) <==> IsRename(q, s)
    {
      OnlyRenamesAreReplaced(q, s);
    }
    if k < |c.queue| {
      assert IsRename(m, m.Key().value) && IsRename(c.queue[k], m.Key().value);
    }
  }

  // ---------------------------------------------------------------- runs

  datatype Event = Sent(message: Message) | Completed(failed: bool)

  function Run(events: seq<Event>, max: nat): Channel {
    if events == [] then IDLE
    else
      var before := Run(events[..|events| - 1], max);
      match events[|events| - 1]
      case Sent(m) => Send(before, m, max)
      case Completed(failed) => Complete(before, failed)
  }

  /** The log of sends: the messages taken while the socket was open and the queue had room. */
  function Log(events: seq<Event>, max: nat): seq<Message> {
    if events == [] then []
    else
      var front := events[..|events| - 1];
      var before := Run(front, max);
      match events[|events| - 1]
      case Sent(m) => if before.open && ProspectiveBytes(before, m) <= max then Log(front, max) + [m] else Log(front, max)
      case Completed(_) => Log(front, max)
  }

  function Sum(messages: seq<Message>): nat {
    if messages == [] then 0 else Sum(messages[..|messages| - 1]) + messages[|messages| - 1].bytes
  }

  function Plain(messages: seq<Message>): seq<Message> {
    if messages == [] then []
    else
      var last := messages[|messages| - 1];
      Plain(messages[..|messages| - 1]) + if last.Key().None? then [last] else []
  }

  /** The last message of a replace key. */
  function Latest(messages: seq<Message>, key: SessionId): Option<Message> {
    if messages == [] then None
    else if messages[|messages| - 1].Key() == Some(key) then Some(messages[|messages| - 1])
    else Latest(messages[..|messages| - 1], key)
  }

  ghost predicate KeysDiffer(queue: seq<Message>) {
    forall i, j :: 0 <= i < j < |queue| && queue[i].Key().Some? ==> queue[i].Key() != queue[j].Key()
  }

  /** Counts bytes in flight and queued, within the bound, with one queued message for a key. */
  ghost predicate Counted(c: Channel, max: nat) {
    && c.outboundBytes == (if c.inFlight.Some? then c.inFlight.value.bytes else 0) + Sum(c.queue) <= max
    && KeysDiffer(c.queue)
  }

  /** And nothing waits behind an idle open socket. */
  ghost predicate Bounded(c: Channel, max: nat) {
    Counted(c, max) && (c.open && c.inFlight.None? ==> c.queue == [])
  }

  /** Delivered and queued messages against the log of sends. */
  ghost predicate Refines(c: Channel, log: seq<Message>) {
    && Plain(c.wire + c.queue) == Plain(log)
    && (forall key: SessionId :: Latest(c.wire + c.queue, key) == Latest(log, key))
    && (forall m :: m in c.wire + c.queue ==> m in log)
  }

  // ---------------------------------------------------------------- sums and subsequences

  lemma {:induction false} SumFront(queue: seq<Message>)
    requires queue != []
    ensures Sum(queue) == queue[0].bytes + Sum(queue[1..])
  {
    if |queue| > 1 {
      SumFront(queue[..|queue| - 1]);
      assert queue[..|queue| - 1][1..] == queue[1..][..|queue| - 2];
    }
  }

  lemma {:induction false} SumReplace(queue: seq<Message>, k: nat, m: Message)
    requires k < |queue|
    ensures Sum(queue[k := m]) == Sum(queue) + m.bytes - queue[k].bytes
  {
    var n := |queue| - 1;
    if k < n {
      SumReplace(queue[..n], k, m);
      assert queue[k := m][..n] == queue[..n][k := m];
    } else {
      assert queue[k := m][..n] == queue[..n];
    }
  }

  lemma SumAppend(queue: seq<Message>, m: Message)
    ensures Sum(queue + [m]) == Sum(queue) + m.bytes
  {
    assert (queue + [m])[..|queue|] == queue;
  }

  /** Replacing the one queued message of a key changes what is latest for that key only. */
  lemma {:induction false} ReplaceRefines(wire: seq<Message>, queue: seq<Message>, k: nat, m: Message)
    requires k < |queue| && m.Key().Some? && queue[k].Key() == m.Key() && KeysDiffer(queue)
    ensures Plain(wire + queue[k := m]) == Plain(wire + queue)
    ensures forall key: SessionId :: Latest(wire + queue[k := m], key)
                       == if m.Key() == Some(key) then Some(m) else Latest(wire + queue, key)
  {
    var n := |queue| - 1;
    var before, after := wire + queue, wire + queue[k := m];
    if k < n {
      assert KeysDiffer(queue[..n]);
      ReplaceRefines(wire, queue[..n], k, m);
      assert before[..|before| - 1] == wire + queue[..n];
      assert after[..|after| - 1] == wire + queue[..n][k := m];
      assert queue[n].Key() != m.Key();
    } else {
      assert before[..|before| - 1] == after[..|after| - 1];
    }
  }

  lemma AppendRefines(log: seq<Message>, m: Message)
    ensures Plain(log + [m]) == Plain(log) + if m.Key().None? then [m] else []
    ensures forall key: SessionId :: Latest(log + [m], key) == if m.Key() == Some(key) then Some(m) else Latest(log, key)
  {
    assert (log + [m])[..|log|] == log;
  }

  // ---------------------------------------------------------------- each call keeps both

  lemma DrainKeeps(c: Channel, log: seq<Message>, max: nat)
    requires Refines(c, log) && Counted(c, max)
    ensures Bounded(Drain(c), max) && Refines(Drain(c), log)
  {
    var d := Drain(c);
    if c.inFlight.None? && c.open && c.queue != [] {
      SumFront(c.queue);
      assert d.wire + d.queue == c.wire + c.queue;
    }
  }

  lemma ReplaceKeeps(c: Channel, log: seq<Message>, k: nat, m: Message)
    requires Refines(c, log) && KeysDiffer(c.queue) && k == IndexOfKey(c.queue, m.Key()) < |c.queue|
    ensures Refines(SendQueued(c, m), log + [m]) && KeysDiffer(c.queue[k := m])
    ensures Sum(c.queue[k := m]) == Sum(c.queue) + m.bytes - c.queue[k].bytes
  {
    AppendRefines(log, m);
    SumReplace(c.queue, k, m);
    ReplaceRefines(c.wire, c.queue, k, m);
    hide Plain, Latest, Sum;
    forall any | any in c.wire + c.queue[k := m]
      ensures any in log + [m]
    {
      assert any == m || any in c.wire + c.queue;
    }
  }

  lemma KeysStayDifferent(queue: seq<Message>, m: Message)
    requires KeysDiffer(queue) && IndexOfKey(queue, m.Key()) == |queue|
    ensures KeysDiffer(queue + [m])
  {
    hide IndexOfKey;
  }

  lemma PushKeeps(c: Channel, log: seq<Message>, m: Message)
    requires Refines(c, log) && KeysDiffer(c.queue) && IndexOfKey(c.queue, m.Key()) == |c.queue|
    ensures Refines(SendQueued(c, m), log + [m]) && KeysDiffer(c.queue + [m])
    ensures Sum(c.queue + [m]) == Sum(c.queue) + m.bytes
  {
    hide Plain, Latest, Sum, IndexOfKey;
    SumAppend(c.queue, m);
    KeysStayDifferent(c.queue, m);
    var all := c.wire + c.queue;
    assert c.wire + (c.queue + [m]) == all + [m];
    AppendRefines(log, m);
    AppendRefines(all, m);
    hide KeysDiffer;
  }

  lemma QueuedKeeps(c: Channel, log: seq<Message>, m: Message, max: nat)
    requires Counted(c, max) && Refines(c, log) && ProspectiveBytes(c, m) <= max
    ensures Counted(SendQueued(c, m), max) && Refines(SendQueued(c, m), log + [m])
  {
    hide Plain, Latest, Sum, Refines, KeysDiffer;
    if IndexOfKey(c.queue, m.Key()) < |c.queue| {
      ReplaceKeeps(c, log, IndexOfKey(c.queue, m.Key()), m);
    } else {
      PushKeeps(c, log, m);
    }
  }

  lemma SendKeeps(c: Channel, log: seq<Message>, m: Message, max: nat)
    requires Bounded(c, max) && Refines(c, log) && c.open && ProspectiveBytes(c, m) <= max
    ensures Bounded(Send(c, m, max), max) && Refines(Send(c, m, max), log + [m])
  {
    hide Counted, Refines;
    QueuedKeeps(c, log, m, max);
    DrainKeeps(SendQueued(c, m), log + [m], max);
  }

  lemma CompleteKeeps(c: Channel, log: seq<Message>, failed: bool, max: nat)
    requires Bounded(c, max) && Refines(c, log)
    ensures Bounded(Complete(c, failed), max) && Refines(Complete(c, failed), log)
  {
    if c.inFlight.Some? {
      DrainKeeps(c.(inFlight := None, outboundBytes := c.outboundBytes - c.inFlight.value.bytes), log, max);
    }
  }

  /**
   The queue refines the log of sends. After any interleaving of sends and completions: outboundBytes
   counts exactly the bytes in flight and queued and stays within the bound; messages that may not be
   replaced are delivered or queued exactly once each, in the order sent; for each replace key the last
   message delivered or queued is the last one sent; and nothing else is ever delivered.
   */
  lemma {:induction false} QueueRefinesLog(events: seq<Event>, max: nat)
    ensures Bounded(Run(events, max), max) && Refines(Run(events, max), Log(events, max))
  {
    if events != [] {
      var front := events[..|events| - 1];
      QueueRefinesLog(front, max);
      var before := Run(front, max);
      match events[|events| - 1]
      case Sent(m) =>
        if before.open && ProspectiveBytes(before, m) <= max {
          SendKeeps(before, Log(front, max), m, max);
        }
      case Completed(failed) =>
        CompleteKeeps(before, Log(front, max), failed, max);
    }
  }

  /** Once an open socket is idle, everything sent has been delivered, the latest value for each key. */
  lemma IdleMeansDelivered(events: seq<Event>, max: nat)
    requires Run(events, max).open && Run(events, max).inFlight.None?
    ensures Plain(Run(events, max).wire) == Plain(Log(events, max))
    ensures forall key: SessionId :: Latest(Run(events, max).wire, key) == Latest(Log(events, max), key)
  {
    QueueRefinesLog(events, max);
    var c := Run(events, max);
    assert c.wire + c.queue == c.wire;
  }

  /** Completions drain an open queue: as many as there are messages in it make it idle. */
  lemma {:induction false} CompletionsDrain(c: Channel, max: nat, n: nat)
    requires Bounded(c, max) && c.open && n > |c.queue|
    ensures Completions(c, n).inFlight.None? && Completions(c, n).queue == [] && Completions(c, n).outboundBytes == 0
    decreases n
  {
    if c.inFlight.Some? {
      DrainBounded(c, max);
    }
    if n > 1 && c.inFlight.Some? && c.queue != [] {
      CompletionsDrain(Complete(c, false), max, n - 1);
    } else {
      IdleStays(Complete(c, false), n - 1);
    }
  }

  function Completions(c: Channel, n: nat): Channel
    decreases n
  {
    if n == 0 then c else Completions(Complete(c, false), n - 1)
  }

  lemma {:induction false} IdleStays(c: Channel, n: nat)
    requires c.inFlight.None?
    ensures Completions(c, n) == c
    decreases n
  {
    if n > 0 {
      IdleStays(c, n - 1);
    }
  }

  lemma DrainBounded(c: Channel, max: nat)
    requires Bounded(c, max) && c.inFlight.Some?
    ensures Bounded(Complete(c, false), max)
  {
    if c.open && c.queue != [] {
      SumFront(c.queue);
    }
  }

  /** The k-th event sends on an open socket what would pass the bound. */
  ghost predicate PassesBound(events: seq<Event>, k: nat, max: nat) {
    k < |events| && events[k].Sent? && Run(events[..k], max).open
    && ProspectiveBytes(Run(events[..k], max), events[k].message) > max
  }

  /** The socket is closed for overflow exactly by a send that would pass the bound. */
  lemma {:induction false} OverflowExactlyBeyondTheBound(events: seq<Event>, max: nat)
    ensures Run(events, max).overflowed <==> exists k: nat :: PassesBound(events, k, max)
  {
    if events != [] {
      var n := |events| - 1;
      var front, last := events[..n], events[n];
      OverflowExactlyBeyondTheBound(front, max);
      forall k: nat | k < n
        ensures PassesBound(front, k, max) <==> PassesBound(events, k, max)
      {
        assert front[..k] == events[..k];
      }
      assert Run(events, max).overflowed <==> Run(front, max).overflowed || PassesBound(events, n, max) by {
        hide ProspectiveBytes, SendQueued;
      }
      hide PassesBound, Run;
      assert forall k: nat :: PassesBound(front, k, max) ==> k < n by { PassesBoundWithin(front, max); }
      assert forall k: nat :: PassesBound(events, k, max) ==> k <= n by { PassesBoundWithin(events, max); }
    } else {
      PassesBoundWithin(events, max);
    }
  }

  lemma PassesBoundWithin(events: seq<Event>, max: nat)
    ensures forall k: nat :: PassesBound(events, k, max) ==> k < |events|
  {}
}
