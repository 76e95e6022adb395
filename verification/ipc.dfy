/** Message queues: a ring of 64 slots that refines a sequence in which
    consecutive mouse moves of one sender are coalesced. */
module Ipc {
  import opened Frames

  const QUEUE_SIZE: nat := 64
  const MSG_MOUSE_MOVE: nat := 0x41

  datatype Message = Message(sender: nat, kind: nat, arg1: nat, arg2: nat, arg3: nat, arg4: nat, arg5: nat, arg6: nat)

  /** A later message that replaces `older` while that one is still the newest in the queue. */
  predicate Replaces(older: Message, newer: Message) {
    newer.kind == MSG_MOUSE_MOVE && older.kind == MSG_MOUSE_MOVE && older.sender == newer.sender
  }

  predicate Coalesces(q: seq<Message>, m: Message) {
    q != [] && Replaces(q[|q| - 1], m)
  }

  predicate Accepts(q: seq<Message>, m: Message) {
    Coalesces(q, m) || |q| < QUEUE_SIZE
  }

  /** The queue after offering `m`. */
  function Pushed(q: seq<Message>, m: Message): seq<Message> {
    if Coalesces(q, m) then q[..|q| - 1] + [m]
    else if |q| < QUEUE_SIZE then q + [m]
    else q
  }

  /** The ring slot `i` places after `head`. */
  function Slot(head: nat, i: nat): (s: nat)
    ensures s < QUEUE_SIZE
  {
    (head + i) % QUEUE_SIZE
  }

  lemma SlotFacts(head: nat, i: nat)
    requires head < QUEUE_SIZE && i <= QUEUE_SIZE
    ensures Slot(head, i) == if head + i < QUEUE_SIZE then head + i else head + i - QUEUE_SIZE
  {
  }

  /** Moving the head on renumbers the slots. */
  lemma SlotShift(head: nat, i: nat)
    requires head < QUEUE_SIZE && i < QUEUE_SIZE
    ensures Slot((head + 1) % QUEUE_SIZE, i) == Slot(head, i + 1) < QUEUE_SIZE
    ensures Slot(head, 0) == head
  {
    SlotFacts(head, i + 1);
    SlotFacts(head, 0);
    SlotFacts((head + 1) % QUEUE_SIZE, i);
    assert (head + 1) % QUEUE_SIZE == if head == QUEUE_SIZE - 1 then 0 else head + 1;
  }

  lemma SlotsApart(head: nat, i: nat, j: nat)
    requires head < QUEUE_SIZE && i < QUEUE_SIZE && j < QUEUE_SIZE && i != j
    ensures Slot(head, i) != Slot(head, j)
  {
    hide Slot;
    SlotFacts(head, i);
    SlotFacts(head, j);
  }

  class MessageQueue {
    const messages: array<Option<Message>>
    var head: nat
    var tail: nat
    var count: nat

    ghost predicate Valid()
      reads this, messages
    {
      && messages.Length == QUEUE_SIZE
      && head < QUEUE_SIZE && count <= QUEUE_SIZE && tail == Slot(head, count)
      && forall i {:trigger Slot(head, i)} :: 0 <= i < count ==> messages[Slot(head, i)].Some?
    }

    ghost function Contents(): seq<Message>
      requires Valid()
      reads this, messages
    {
      seq(count, i requires 0 <= i < count && Valid() reads this, messages => messages[Slot(head, i)].value)
    }

    constructor ()
      ensures Valid() && Contents() == [] && fresh(messages)
    {
      messages := new Option<Message>[QUEUE_SIZE](_ => None);
      head, tail, count := 0, 0, 0;
    }

    method Push(msg: Message) returns (ok: bool)
      requires Valid()
      modifies this`tail, this`count, messages
      ensures Valid()
      ensures ok == old(Accepts(Contents(), msg))
      ensures Contents() == old(Pushed(Contents(), msg))
    {
      if msg.kind == MSG_MOUSE_MOVE && count > 0 {
        var last := (tail + QUEUE_SIZE - 1) % QUEUE_SIZE;
        assert last == Slot(head, count - 1) && messages[last] == Some(Contents()[count - 1]);
        match messages[last] {
          case Some(m) =>
            if m.kind == MSG_MOUSE_MOVE && m.sender == msg.sender {
              ReplaceLast(last, msg);
              return true;
            }
          case None =>
        }
      }
      if count >= QUEUE_SIZE {
        return false;
      }
      Append(msg);
      return true;
    }

    method ReplaceLast(last: nat, msg: Message)
      requires Valid() && count > 0 && last == Slot(head, count - 1)
      modifies messages
      ensures Valid() && Contents() == old(Contents()[..count - 1]) + [msg]
    {
      hide Slot;
      ghost var q := Contents();
      messages[last] := Some(msg);
      forall i | 0 <= i < count - 1
        ensures messages[Slot(head, i)] == Some(q[i])
      {
        SlotsApart(head, i, count - 1);
      }
    }

    method Append(msg: Message)
      requires Valid() && count < QUEUE_SIZE
      modifies this`tail, this`count, messages
      ensures Valid() && Contents() == old(Contents()) + [msg]
    {
      hide Slot;
      ghost var q := Contents();
      messages[tail] := Some(msg);
      forall i | 0 <= i < count
        ensures messages[Slot(head, i)] == Some(q[i])
      {
        SlotsApart(head, i, count);
      }
      SlotShift(head, count);
      SlotFacts(head, count);
      SlotFacts(head, count + 1);
      tail := (tail + 1) % QUEUE_SIZE;
      count := count + 1;
    }

    method Pop() returns (r: Option<Message>)
      requires Valid()
      modifies this`head, this`count, messages
      ensures Valid()
      ensures r.None? <==> old(Contents()) == []
      ensures r.None? ==> Contents() == []
      ensures r.Some? ==> [r.value] + Contents() == old(Contents())
    {
      hide Slot;
      if count == 0 {
        return None;
      }
      ghost var q, head0 := Contents(), head;
      SlotShift(head, 0);
      SlotShift(head, count - 1);
      r := messages[head];
      messages[head] := None;
      head := (head + 1) % QUEUE_SIZE;
      count := count - 1;
      forall i | 0 <= i < count
        ensures messages[Slot(head, i)] == Some(q[i + 1])
      {
        SlotShift(head0, i);
        SlotsApart(head0, i + 1, 0);
        assert old(messages[Slot(head, i + 1)]) == Some(q[i + 1]);
      }
      assert [r.value] + Contents() == q;
    }
  }

  // ---------- Runs ----------

  /** One use of a queue: a message offered to it, or the oldest one taken. */
  datatype QueueOp = Offer(msg: Message) | Take

  /** A queue with its history: what it accepted and what was taken from it. */
  datatype History = History(accepted: seq<Message>, taken: seq<Message>, queue: seq<Message>)

  function Use(h: History, op: QueueOp): History {
    match op
    case Offer(m) =>
      if Accepts(h.queue, m) then h.(accepted := h.accepted + [m], queue := Pushed(h.queue, m)) else h
    case Take =>
      if h.queue == [] then h else h.(taken := h.taken + [h.queue[0]], queue := h.queue[1..])
  }

  function UseAll(ops: seq<QueueOp>): History {
    if ops == [] then History([], [], [])
    else Use(UseAll(ops[..|ops| - 1]), ops[|ops| - 1])
  }

  /** `kept` is `accepted` without some messages, each of which was replaced by the
      very next accepted message, a move from the same sender. */
  ghost predicate OnlyReplaced(accepted: seq<Message>, kept: seq<Message>)
    decreases |accepted|
  {
    if accepted == [] then kept == []
    else
      var n := |accepted| - 1;
      && kept != [] && kept[|kept| - 1] == accepted[n]
      && var front := kept[..|kept| - 1];
        || OnlyReplaced(accepted[..n], front)
        || (n > 0 && Replaces(accepted[n - 1], accepted[n]) && OnlyReplaced(accepted[..n], front + [accepted[n - 1]]))
  }

  ghost predicate NoAdjacentMoves(q: seq<Message>) {
    forall i :: 0 <= i < |q| - 1 ==> !Replaces(q[i], q[i + 1])
  }

  function Plain(s: seq<Message>): seq<Message> {
    if s == [] then []
    else Plain(s[..|s| - 1]) + (if s[|s| - 1].kind != MSG_MOUSE_MOVE then [s[|s| - 1]] else [])
  }

  lemma NothingYet()
    ensures OnlyReplaced([], []) && NoAdjacentMoves([])
  {
  }

  lemma TakeKept(taken: seq<Message>, queue: seq<Message>)
    requires queue != [] && NoAdjacentMoves(queue)
    ensures taken + [queue[0]] + queue[1..] == taken + queue && NoAdjacentMoves(queue[1..])
  {
  }

  /** Over every run, the messages taken followed by those still queued are the
      accepted ones in order, less only moves that the next move replaced; the
      queue never overflows and never holds two adjacent moves of one sender. */
  lemma {:induction false} QueueRuns(ops: seq<QueueOp>)
    ensures var h := UseAll(ops);
      && OnlyReplaced(h.accepted, h.taken + h.queue)
      && NoAdjacentMoves(h.queue) && |h.queue| <= QUEUE_SIZE
  {
    hide OnlyReplaced, NoAdjacentMoves, Accepts, Pushed;
    if ops == [] {
      NothingYet();
      assert UseAll(ops).taken + UseAll(ops).queue == [];
    } else {
      var g, op := UseAll(ops[..|ops| - 1]), ops[|ops| - 1];
      QueueRuns(ops[..|ops| - 1]);
      match op
      case Offer(m) =>
        if Accepts(g.queue, m) {
          OfferKept(g, m);
        }
      case Take =>
        if g.queue != [] {
          TakeKept(g.taken, g.queue);
        }
    }
  }

  lemma OfferKept(g: History, m: Message)
    requires OnlyReplaced(g.accepted, g.taken + g.queue) && NoAdjacentMoves(g.queue) && Accepts(g.queue, m)
    requires |g.queue| <= QUEUE_SIZE
    ensures OnlyReplaced(g.accepted + [m], g.taken + Pushed(g.queue, m)) && NoAdjacentMoves(Pushed(g.queue, m))
    ensures |Pushed(g.queue, m)| <= QUEUE_SIZE
  {
    hide OnlyReplaced, NoAdjacentMoves;
    var k, whole := g.taken + Pushed(g.queue, m), g.taken + g.queue;
    PushKept(g.queue, m);
    if Coalesces(g.queue, m) {
      assert whole[|whole| - 1] == g.queue[|g.queue| - 1] && k == whole[..|whole| - 1] + [m];
      ReplacedOne(g.accepted, whole, m);
    } else {
      assert k == whole + [m];
      AcceptedOne(g.accepted, whole, m);
    }
  }

  lemma PushKept(queue: seq<Message>, m: Message)
    requires NoAdjacentMoves(queue) && Accepts(queue, m) && |queue| <= QUEUE_SIZE
    ensures NoAdjacentMoves(Pushed(queue, m)) && |Pushed(queue, m)| <= QUEUE_SIZE
  {
  }

  lemma AcceptedOne(accepted: seq<Message>, kept: seq<Message>, m: Message)
    requires OnlyReplaced(accepted, kept)
    ensures OnlyReplaced(accepted + [m], kept + [m])
  {
    assert (accepted + [m])[..|accepted|] == accepted && (kept + [m])[..|kept|] == kept;
  }

  lemma ReplacedOne(accepted: seq<Message>, kept: seq<Message>, m: Message)
    requires OnlyReplaced(accepted, kept) && kept != [] && Replaces(kept[|kept| - 1], m)
    ensures OnlyReplaced(accepted + [m], kept[..|kept| - 1] + [m])
  {
    var n, k := |accepted|, kept[..|kept| - 1] + [m];
    assert (accepted + [m])[..n] == accepted && k[..|k| - 1] == kept[..|kept| - 1];
    assert accepted[n - 1] == kept[|kept| - 1];
    assert k[..|k| - 1] + [accepted[n - 1]] == kept;
  }

  lemma {:induction false} ReplacedKeepsPlain(accepted: seq<Message>, kept: seq<Message>)
    requires OnlyReplaced(accepted, kept)
    ensures Plain(kept) == Plain(accepted)
    decreases |accepted|
  {
    if accepted != [] {
      var n, front := |accepted| - 1, kept[..|kept| - 1];
      if OnlyReplaced(accepted[..n], front) {
        ReplacedKeepsPlain(accepted[..n], front);
      } else {
        var held := front + [accepted[n - 1]];
        ReplacedKeepsPlain(accepted[..n], held);
        assert held[..|held| - 1] == front;
      }
    }
  }

  lemma {:induction false} PlainConcat(s: seq<Message>, t: seq<Message>)
    ensures Plain(s + t) == Plain(s) + Plain(t)
    decreases |t|
  {
    if t == [] {
      assert s + t == s;
    } else {
      var n := |t| - 1;
      PlainConcat(s, t[..n]);
      assert (s + t)[..|s + t| - 1] == s + t[..n];
    }
  }

  /** Messages other than moves leave in the order they were accepted, and none is
      lost: taken plus still queued is everything accepted. */
  lemma PlainMessagesAreFifo(ops: seq<QueueOp>)
    ensures var h := UseAll(ops); Plain(h.taken) + Plain(h.queue) == Plain(h.accepted)
  {
    var h := UseAll(ops);
    QueueRuns(ops);
    ReplacedKeepsPlain(h.accepted, h.taken + h.queue);
    PlainConcat(h.taken, h.queue);
  }

  lemma UseSnoc(ops: seq<QueueOp>, op: QueueOp)
    ensures UseAll(ops + [op]) == Use(UseAll(ops), op)
  {
    assert (ops + [op])[..|ops|] == ops;
  }

  /** After any run, a message is refused if and only if 64 messages are queued and it is no
      move right after a move of the same sender. */
  lemma RefusedIffFull(ops: seq<QueueOp>, m: Message)
    ensures var h := UseAll(ops);
      var follows := h.queue != [] && m.kind == MSG_MOUSE_MOVE
        && h.queue[|h.queue| - 1].kind == MSG_MOUSE_MOVE && h.queue[|h.queue| - 1].sender == m.sender;
      if |h.queue| == 64 && !follows then UseAll(ops + [Offer(m)]) == h
      else
        && UseAll(ops + [Offer(m)]).accepted == h.accepted + [m] && UseAll(ops + [Offer(m)]).taken == h.taken
        && UseAll(ops + [Offer(m)]).queue == (if follows then h.queue[..|h.queue| - 1] else h.queue) + [m]
  {
    hide OnlyReplaced, NoAdjacentMoves;
    QueueRuns(ops);
    UseSnoc(ops, Offer(m));
  }

  function Takes(n: nat): (ops: seq<QueueOp>)
    ensures |ops| == n
  {
    seq(n, _ => Take)
  }

  /** Taking as many messages as are queued takes them all, in order, and after that there
      is nothing to take. */
  lemma {:induction false} TakesEmpty(ops: seq<QueueOp>, n: nat)
    requires n <= |UseAll(ops).queue|
    ensures var h := UseAll(ops);
      UseAll(ops + Takes(n)) == History(h.accepted, h.taken + h.queue[..n], h.queue[n..])
  {
    hide Accepts, Pushed;
    var h := UseAll(ops);
    if n == 0 {
      assert ops + Takes(0) == ops;
      assert h.taken + h.queue[..0] == h.taken;
    } else {
      TakesEmpty(ops, n - 1);
      assert ops + Takes(n) == (ops + Takes(n - 1)) + [Take];
      UseSnoc(ops + Takes(n - 1), Take);
      assert h.taken + h.queue[..n - 1] + [h.queue[n - 1]] == h.taken + h.queue[..n];
    }
  }

  /** A receiver that takes until nothing is left has every accepted message but the
      replaced moves, in order of acceptance. */
  lemma DrainedQueueDelivers(ops: seq<QueueOp>)
    ensures var h := UseAll(ops); var d := UseAll(ops + Takes(|h.queue|));
      && d.queue == [] && d.accepted == h.accepted
      && OnlyReplaced(h.accepted, d.taken) && Plain(d.taken) == Plain(h.accepted)
  {
    hide OnlyReplaced;
    var h := UseAll(ops);
    QueueRuns(ops);
    TakesEmpty(ops, |h.queue|);
    assert h.queue[..|h.queue|] == h.queue;
    ReplacedKeepsPlain(h.accepted, h.taken + h.queue);
  }
}
