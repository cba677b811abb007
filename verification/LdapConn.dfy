/** The message loop of an LDAP connection. Callers, the reader, timers, the one call of
    Close and the loop interleave freely. One step is a look at a flag that is not locked,
    a section under the lock, counting a sender in or out, putting one message in the
    queue, what the loop does with one message, or closing one channel at its end. */
module LdapConn {
  import opened Wrappers

  /** A request in progress: its message id, and the channel its caller waits on. */
  datatype Context = Context(id: int, channel: nat)

  datatype Message =
    | Quit
    | Request(context: Context)
    | Response(id: int, packet: int)
    | Timeout(id: int)
    | Finish(id: int)

  /** What a caller receives. */
  datatype Delivery = Packet(packet: int) | SendFailed | TimedOut | ConnectionFailed

  /** How far the request with an id has come. One that is sending was not queued yet;
      it may be refused instead, or its sender crash at a closed queue. */
  datatype Stage = Unused | Begun | Sending | Refused | Crashed | Queued | Registered | Gone

  /** Whether its request was queued. */
  predicate Sent(s: Stage) {
    s.Queued? || Taken(s)
  }

  /** Whether the loop has taken it from the queue. */
  predicate Taken(s: Stage) {
    s.Registered? || s.Gone?
  }

  /** How far the one call of Close has come: the flag is set, the senders that were
      counted in are out, the last message is queued, the queue is closed. */
  datatype Closer = Idle | Flagged | Waited | QuitSent | QueueClosed

  /** The room in the queue. */
  const Capacity: nat := 10

  /** The contexts of the requests still in the queue. */
  function Requests(queue: seq<Message>): seq<Context> {
    if queue == [] then []
    else if queue[0].Request? then [queue[0].context] + Requests(queue[1..])
    else Requests(queue[1..])
  }

  ghost function With(ms: multiset<Message>, m: Message): multiset<Message> {
    ms + multiset{m}
  }

  ghost function Without(ms: multiset<Message>, m: Message): multiset<Message> {
    ms - multiset{m}
  }

  /** The ids of requests among messages. */
  ghost function RequestIds(ms: multiset<Message>): set<int> {
    set m | m in ms && m.Request? :: m.context.id
  }

  lemma {:induction false} RequestsSnoc(queue: seq<Message>, m: Message)
    ensures Requests(queue + [m]) == Requests(queue) + if m.Request? then [m.context] else []
  {
    if queue == [] {
      assert [m][1..] == [];
    } else {
      RequestsSnoc(queue[1..], m);
      assert (queue + [m])[1..] == queue[1..] + [m];
    }
  }

  ghost predicate DistinctIds(cs: seq<Context>) {
    forall i, j :: 0 <= i < j < |cs| ==> cs[i].id != cs[j].id
  }

  ghost predicate Increasing(ids: seq<int>) {
    forall i, j :: 0 <= i < j < |ids| ==> ids[i] < ids[j]
  }

  // ---- What the loop does to its table ----

  /** The registered contexts, the channels closed, and what was sent: on which channel,
      for which message id. */
  datatype Table = Table(contexts: map<int, Context>, closed: set<nat>, delivered: seq<(nat, int, Delivery)>)

  /** A request that was written. */
  function Entered(t: Table, c: Context): Table {
    t.(contexts := t.contexts[c.id := c])
  }

  /** One that could not be written is told so at once. */
  function Rejected(t: Table, c: Context): Table {
    t.(closed := t.closed + {c.channel}, delivered := t.delivered + [(c.channel, c.id, SendFailed)])
  }

  /** The request with the id, if there is one, and no other gets the answer. */
  function Answered(t: Table, id: int, d: Delivery): Table {
    if id in t.contexts then t.(delivered := t.delivered + [(t.contexts[id].channel, id, d)]) else t
  }

  function Dropped(t: Table, id: int): Table {
    if id in t.contexts then t.(contexts := t.contexts - {id}, closed := t.closed + {t.contexts[id].channel}) else t
  }

  /** What the loop makes of one message. `writeOk` is whether the network takes a request. */
  function Processed(t: Table, m: Message, writeOk: bool): Table {
    match m
    case Quit => t
    case Request(c) => if writeOk then Entered(t, c) else Rejected(t, c)
    case Response(id, packet) => Answered(t, id, Packet(packet))
    case Timeout(id) => Dropped(Answered(t, id, TimedOut), id)
    case Finish(id) => Dropped(t, id)
  }

  /** All channels are closed, and each who waits is told once of the error, if any. */
  ghost predicate Ended(t: Table, u: Table, failed: bool) {
    Emptied(t, {}, u, failed) && u.contexts == map[]
  }

  /** The same, but for some ids still to come. */
  ghost predicate Emptied(t: Table, ids: set<int>, u: Table, failed: bool) {
    && (forall id :: id in ids ==> id in t.contexts && id in u.contexts && u.contexts[id] == t.contexts[id])
    && u.closed == t.closed + (set id | id in t.contexts && id !in ids :: t.contexts[id].channel)
    && t.delivered <= u.delivered
    && |u.delivered| - |t.delivered| == (if failed then |t.contexts| - |ids| else 0)
    && (failed ==> forall id :: id in t.contexts && id !in ids ==>
         (t.contexts[id].channel, id, ConnectionFailed) in u.delivered[|t.delivered|..])
  }

  // ---- What holds at any time ----

  /** What has become of each request, the channel made for it, the id each channel was
      made for, and the channels closed. */
  datatype Book = Book(stage: map<int, Stage>, channelOf: map<int, nat>, owner: map<nat, int>, closed: set<nat>)

  /** A request comes to a stage. */
  function Moved(b: Book, id: int, s: Stage): Book {
    b.(stage := b.stage[id := s])
  }

  /** The channel of a request is closed. */
  function Shut(b: Book, c: Context): Book {
    b.(stage := b.stage[c.id := Gone], closed := b.closed + {c.channel})
  }

  /** The messages of senders past the look at the flag, of senders counted in, how many
      senders have queued theirs and how many found the queue closed. Then the requests
      past the look that were not counted in when the wait for senders ended, and those
      past the look that were not queued when the last message was. */
  datatype Way = Way(admitted: multiset<Message>, counted: multiset<Message>, leaving: nat, crashed: nat,
                     uncounted: set<int>, late: set<int>)

  /** The context of an id, at some stage, with its channel open. */
  ghost predicate At(b: Book, c: Context, s: Stage) {
    c.id in b.stage && b.stage[c.id] == s && c.id in b.channelOf && b.channelOf[c.id] == c.channel &&
    c.channel in b.owner && b.owner[c.channel] == c.id && c.channel !in b.closed
  }

  /** The sender of a request is past the look at the flag and has not queued it. */
  ghost predicate Pending(w: Way, c: Context) {
    Request(c) in w.admitted || Request(c) in w.counted
  }

  ghost predicate Ids(handedOut: seq<int>, messageID: int, b: Book) {
    && messageID > 0 && Increasing(handedOut)
    && (forall i :: 0 <= i < |handedOut| ==> 0 < handedOut[i] < messageID)
    && (forall id :: id in b.stage ==> id < messageID)
  }

  /** What the loop may still have to close is open. */
  ghost predicate Loop(b: Book, contexts: map<int, Context>, queue: seq<Message>) {
    && (forall id :: id in contexts ==> contexts[id].id == id && At(b, contexts[id], Registered))
    && (forall c :: c in Requests(queue) ==> At(b, c, Queued))
    && DistinctIds(Requests(queue))
  }

  /** No request gets lost: one that was queued is in the queue or in the table, until
      its channel is closed. */
  ghost predicate Kept(b: Book, contexts: map<int, Context>, queue: seq<Message>) {
    && (forall id :: id in b.stage && b.stage[id].Queued? ==>
          id in b.channelOf && Context(id, b.channelOf[id]) in Requests(queue))
    && (forall id :: id in b.stage && b.stage[id].Registered? ==> id in contexts)
    && (forall id :: id in b.stage && b.stage[id].Gone? ==> id in b.channelOf && b.channelOf[id] in b.closed)
  }

  /** A channel gets only what has the message id it was made for, and nothing before
      its request was taken from the queue. */
  ghost predicate Channels(b: Book, made: nat, delivered: seq<(nat, int, Delivery)>) {
    && (forall c :: c in b.closed ==> c < made) && (forall c :: c in b.owner ==> c < made)
    && (forall k :: 0 <= k < |delivered| ==>
          delivered[k].0 in b.owner && b.owner[delivered[k].0] == delivered[k].1 &&
          delivered[k].1 in b.stage && Taken(b.stage[delivered[k].1]))
  }

  ghost predicate Books(b: Book, contexts: map<int, Context>, queue: seq<Message>,
                        made: nat, delivered: seq<(nat, int, Delivery)>) {
    Channels(b, made, delivered) && Loop(b, contexts, queue) && Kept(b, contexts, queue)
  }

  /** Each sender that is counted in waits for room, leaves, or has crashed; a request
      has one sender. */
  ghost predicate Senders(w: Way, wgSender: nat, b: Book) {
    && wgSender == |w.counted| + w.leaving + w.crashed
    && Quit !in w.admitted && Quit !in w.counted
    && (forall c :: Pending(w, c) ==> At(b, c, Sending))
    && (forall c :: w.admitted[Request(c)] + w.counted[Request(c)] <= 1)
  }

  /** The late requests are queued behind the last message, if at all. */
  ghost predicate Lateness(k: Closer, w: Way, b: Book) {
    && (k.Idle? || k.Flagged? || k.Waited? ==> w.late == {})
    && (k.QuitSent? || k.QueueClosed? ==> (forall c :: Pending(w, c) ==> c.id in w.late))
    && (!k.Idle? && !k.Flagged? ==> (forall c :: Pending(w, c) ==> c.id in w.uncounted))
    && w.late <= w.uncounted
    && (forall id :: id in w.late ==> id in b.stage && id in b.channelOf && match b.stage[id]
          case Queued | Crashed => true
          case Sending => Pending(w, Context(id, b.channelOf[id]))
          case _ => false)
  }

  /** At most one message in the queue is the last, there just while the loop has yet to
      come to it, and the requests behind it are the late ones. */
  ghost predicate Line(queue: seq<Message>, late: set<int>, looping: bool, quitSent: bool) {
    && |queue| <= Capacity
    && (Quit in queue <==> looping && quitSent)
    && (forall i, j :: 0 <= i < j < |queue| ==> !(queue[i].Quit? && queue[j].Quit?))
    && (forall i, j :: 0 <= i < |queue| && 0 <= j < |queue| && queue[i].Quit? && queue[j].Request? ==>
          (queue[j].context.id in late <==> i < j))
    && (!looping ==> forall j :: 0 <= j < |queue| && queue[j].Request? ==> queue[j].context.id in late)
  }

  /** A caller that waits for ever: its request was refused by the queue, or is in it
      where the loop does not come. */
  ghost predicate Lost(b: Book, late: set<int>, c: Context) {
    At(b, c, Refused) || (At(b, c, Queued) && c.id in late)
  }

  /** One more request, with a channel of its own. */
  function Opened(b: Book, c: Context): Book {
    b.(stage := b.stage[c.id := Sending], channelOf := b.channelOf[c.id := c.channel],
       owner := b.owner[c.channel := c.id])
  }

  /** The sender of a message has queued it, or crashed. */
  ghost function Left(w: Way, m: Message, ok: bool): Way {
    w.(counted := Without(w.counted, m), leaving := w.leaving + if ok then 1 else 0,
       crashed := w.crashed + if ok then 0 else 1)
  }

  function BookOf(b: Book, m: Message, ok: bool): Book {
    if m.Request? then Moved(b, m.context.id, if ok then Queued else Crashed) else b
  }

  class Conn {
    var isClosing: bool
    var closeErr: bool
    var isStartingTLS: bool
    var outstandingRequests: nat
    var messageContexts: map<int, Context>
    var chanMessage: seq<Message>
    var wgSender: nat                   // senders counted in
    var closer: Closer
    var ending: bool                    // the loop has taken the last message
    var running: bool                   // it has not confirmed that it has ended
    var messageID: int
    var made: nat                       // channels are numbered as they are made

    ghost var handedOut: seq<int>       // all message ids so far
    ghost var unfinished: set<Context>  // requests whose caller has not finished
    ghost var finishing: set<Context>   // those whose caller is about to
    ghost var delivered: seq<(nat, int, Delivery)>   // channel, message id, and what was sent
    ghost var book: Book
    ghost var way: Way

    ghost predicate Counted()
      reads `outstandingRequests, `unfinished, `finishing, `isStartingTLS
    {
      finishing <= unfinished && outstandingRequests >= |unfinished| && (isStartingTLS ==> outstandingRequests == 1)
    }

    /** The loop ends with the one last message, and leaves nothing in the table. */
    ghost predicate Ending()
      reads `isClosing, `closer, `ending, `running, `chanMessage, `messageContexts, `way
    {
      && isClosing == !closer.Idle?
      && (ending ==> closer.QuitSent? || closer.QueueClosed?)
      && (!running ==> ending && messageContexts == map[])
      && (closer.QueueClosed? ==> !running)
      && Line(chanMessage, way.late, !ending, closer.QuitSent?)
    }

    /** What every step keeps. */
    ghost predicate Valid() reads this {
      && Ids(handedOut, messageID, book) && Counted() && Ending()
      && Books(book, messageContexts, chanMessage, made, delivered)
      && Senders(way, wgSender, book) && Lateness(closer, way, book)
    }

    ghost predicate Stranded(c: Context)
      reads `book, `way
    {
      Lost(book, way.late, c)
    }

    /** What the loop alone changes. */
    ghost function Now(): Table
      reads `messageContexts, `book, `delivered
    {
      Table(messageContexts, book.closed, delivered)
    }

    constructor ()
      ensures Valid() && running && !ending && !isClosing && !closeErr && !isStartingTLS && outstandingRequests == 0
      ensures messageContexts == map[] && chanMessage == [] && handedOut == [] && delivered == [] && unfinished == {}
      ensures closer.Idle? && wgSender == 0 && way == Way(multiset{}, multiset{}, 0, 0, {}, {})
      ensures book == Book(map[], map[], map[], {})
    {
      isClosing, closeErr, isStartingTLS, outstandingRequests := false, false, false, 0;
      messageContexts, chanMessage, ending, running, messageID := map[], [], false, true, 1;
      wgSender, closer, made := 0, Idle, 0;
      handedOut, unfinished, finishing, delivered := [], {}, {}, [];
      book := Book(map[], map[], map[], {});
      way := Way(multiset{}, multiset{}, 0, 0, {}, {});
    }

    // ---- A caller ----

    /** The next message id, from the loop, or 0 once that has ended. */
    method NextMessageID() returns (id: int)
      requires Valid() && (ending ==> !running)
      modifies `messageID, `handedOut, `book
      ensures Valid() && (running ==> book == Moved(old(book), id, Unused))
      ensures if running then handedOut == old(handedOut) + [id] else id == 0 && handedOut == old(handedOut)
      ensures running ==> forall i :: 0 <= i < |old(handedOut)| ==> old(handedOut)[i] < id
      ensures !running ==> book == old(book)
      ensures forall c :: old(Stranded(c)) ==> Stranded(c)
    {
      hide Counted, Ending, Books, Senders, Lateness, Lost;
      if !running { return 0; }
      id := messageID;
      StepsAside(book, id, Unused, messageContexts, chanMessage, made, delivered, way.late);
      SenderAside(book, id, Unused, way, wgSender, closer);
      messageID := messageID + 1;
      handedOut := handedOut + [id];
      book := Moved(book, id, Unused);
    }

    /** A caller looks whether the connection is closing. */
    method BeginSend(id: int) returns (open: bool)
      requires Valid() && (running ==> id in book.stage && book.stage[id].Unused?)
      modifies `book
      ensures Valid() && open == !isClosing && book == if open then Moved(old(book), id, Begun) else old(book)
      ensures forall c :: old(Stranded(c)) ==> Stranded(c)
    {
      hide Counted, Line, Increasing, Books, Senders, Lateness, Lost;
      if isClosing { return false; }
      StepsAside(book, id, Begun, messageContexts, chanMessage, made, delivered, way.late);
      SenderAside(book, id, Begun, way, wgSender, closer);
      book := Moved(book, id, Begun);
      return true;
    }

    /** Registers a request under the lock. It is refused while TLS is being started,
        and TLS only starts when nothing is outstanding. */
    method EnterRequest(id: int, startTLS: bool) returns (c: Option<Context>)
      requires Valid() && id in book.stage && book.stage[id].Begun?
      modifies `isStartingTLS, `outstandingRequests, `book, `unfinished, `made
      ensures Valid()
      ensures c.Some? <==> !old(isStartingTLS) && (startTLS ==> old(outstandingRequests) == 0)
      ensures c.Some? ==> c.value == Context(id, old(made)) && At(book, c.value, Sending) && !Pending(way, c.value)
      ensures c.Some? ==> unfinished == old(unfinished) + {c.value}
      ensures c.Some? ==> isStartingTLS == startTLS && outstandingRequests == old(outstandingRequests) + 1
      ensures c.None? ==> isStartingTLS == old(isStartingTLS) && outstandingRequests == old(outstandingRequests)
      ensures c.None? ==> unfinished == old(unfinished) && book == old(book)
      ensures forall c :: old(Stranded(c)) ==> Stranded(c)
    {
      hide Ids, Ending, Books, Senders, Lateness, Lost, At, Opened, Pending;
      if isStartingTLS { return None; }
      if startTLS {
        if outstandingRequests != 0 { return None; }
        isStartingTLS := true;
      }
      outstandingRequests := outstandingRequests + 1;
      var context := Context(id, made);
      NewContext(book, context, messageContexts, chanMessage, made, delivered);
      NewSender(book, context, way, wgSender, closer, way.late);
      IdsKept(handedOut, messageID, book, Opened(book, context));
      book := Opened(book, context);
      made := made + 1;
      unfinished := unfinished + {context};
      return Some(context);
    }

    /** A caller that is done with its request looks whether the connection is closing;
        then that is all. */
    method BeginFinish(c: Context) returns (open: bool)
      requires Valid() && c in unfinished && c !in finishing
      modifies `unfinished, `finishing
      ensures Valid() && open == !isClosing
      ensures if open then unfinished == old(unfinished) && finishing == old(finishing) + {c}
              else unfinished == old(unfinished) - {c} && finishing == old(finishing)
    {
      hide Ids, Books, Senders, Lateness, Ending;
      if isClosing {
        ghost var before := unfinished;
        unfinished := unfinished - {c};
        assert |unfinished| == |before| - 1;
        return false;
      }
      finishing := finishing + {c};
      return true;
    }

    /** Otherwise there is, under the lock, one request fewer, and the loop is to be told. */
    method FinishMessage(c: Context) returns (m: Message)
      requires Valid() && c in finishing
      modifies `unfinished, `finishing, `outstandingRequests, `isStartingTLS
      ensures Valid() && unfinished == old(unfinished) - {c} && finishing == old(finishing) - {c}
      ensures outstandingRequests == old(outstandingRequests) - 1 && !isStartingTLS && m == Finish(c.id)
    {
      hide Ids, Books, Senders, Lateness, Ending;
      ghost var before := unfinished;
      unfinished, finishing := unfinished - {c}, finishing - {c};
      assert |unfinished| == |before| - 1;
      outstandingRequests := outstandingRequests - 1;
      if isStartingTLS { isStartingTLS := false; }
      return Finish(c.id);
    }

    /** The reader passes on a packet; after it, when TLS is being started, it stops. */
    method Receive(id: int, packet: int) returns (m: Message, cleanstop: bool)
      requires Valid()
      ensures m == Response(id, packet) && cleanstop == isStartingTLS
      ensures cleanstop ==> outstandingRequests == 1 && |unfinished| <= 1
    {
      return Response(id, packet), isStartingTLS;
    }

    // ---- A sender of messages, in four steps ----

    /** It looks whether the connection is closing. A request that is refused leaves its
        caller waiting, for the result is ignored. */
    method SendProcessMessage(m: Message) returns (open: bool)
      requires Valid() && !m.Quit? && (m.Request? ==> At(book, m.context, Sending) && !Pending(way, m.context))
      modifies `way, `book
      ensures Valid() && open == !isClosing
      ensures way == if open then old(way).(admitted := With(old(way).admitted, m)) else old(way)
      ensures book == if open || !m.Request? then old(book) else Moved(old(book), m.context.id, Refused)
      ensures m.Request? ==> if open then Pending(way, m.context) else Stranded(m.context)
      ensures forall c :: old(Stranded(c)) ==> Stranded(c)
    {
      hide Counted, Line, Increasing, Books, Senders, Lateness, Lost, With;
      if !isClosing {
        Admitted(way, m, wgSender, book, closer);
        way := way.(admitted := With(way.admitted, m));
        return true;
      }
      if m.Request? {
        StepsAside(book, m.context.id, Refused, messageContexts, chanMessage, made, delivered, way.late);
        SenderAside(book, m.context.id, Refused, way, wgSender, closer);
        NowLost(book, m.context, way.late);
        book := Moved(book, m.context.id, Refused);
      }
      return false;
    }

    /** It is counted in. */
    method CountIn(m: Message)
      requires Valid() && m in way.admitted
      modifies `wgSender, `way
      ensures Valid() && wgSender == old(wgSender) + 1
      ensures way == old(way).(admitted := Without(old(way).admitted, m), counted := With(old(way).counted, m))
      ensures forall c :: old(Stranded(c)) ==> Stranded(c)
    {
      hide Ids, Books, Counted, Line, Senders, Lateness, With, Without;
      CountedIn(way, m, wgSender, book, closer);
      wgSender := wgSender + 1;
      way := way.(admitted := Without(way.admitted, m), counted := With(way.counted, m));
    }

    /** It puts its message in the queue when there is room, or crashes if the queue is
        closed. A request that is late is queued where the loop does not come. */
    method Enqueue(m: Message) returns (ok: bool)
      requires Valid() && m in way.counted && (|chanMessage| < Capacity || closer.QueueClosed?)
      modifies `chanMessage, `book, `way
      ensures Valid() && ok == !closer.QueueClosed?
      ensures way == Left(old(way), m, ok) && chanMessage == if ok then old(chanMessage) + [m] else old(chanMessage)
      ensures m.Request? ==> At(book, m.context, if ok then Queued else Crashed)
      ensures m.Request? ==> (m.context.id in way.late <==> closer.QuitSent? || closer.QueueClosed?)
      ensures forall c :: old(Stranded(c)) ==> Stranded(c)
    {
      hide Ids, Counted, Line, Books, Senders, Lateness, Lost, At, Without, BookOf;
      ok := !closer.QueueClosed?;
      FromSender(way, m, wgSender, book, closer);
      if ok { LineSnoc(chanMessage, m, way.late, !ending, closer.QuitSent?); }
      SenderLeft(way, m, ok, wgSender, book, closer);
      BookLeft(book, m, ok, messageContexts, chanMessage, made, delivered, way.late);
      IdsKept(handedOut, messageID, book, BookOf(book, m, ok));
      way := Left(way, m, ok);
      book := BookOf(book, m, ok);
      if ok { chanMessage := chanMessage + [m]; }
    }

    /** It is counted out. */
    method CountOut()
      requires Valid() && way.leaving > 0
      modifies `wgSender, `way
      ensures Valid() && wgSender == old(wgSender) - 1 && way == old(way).(leaving := old(way).leaving - 1)
      ensures forall c :: old(Stranded(c)) ==> Stranded(c)
    {
      hide Ids, Books, Counted, Line;
      wgSender, way := wgSender - 1, way.(leaving := way.leaving - 1);
    }

    // ---- The loop ----

    /** Closes a channel, which must be open. */
    ghost method CloseChannel(c: Context)
      requires c.channel !in book.closed
      modifies `book
      ensures book == Shut(old(book), c)
    {
      book := Shut(book, c);
    }

    /** Sends what a message with an id is for on a channel, which must be open; the
        caller may have stopped listening. */
    ghost method SendResponse(c: Context, id: int, d: Delivery)
      requires c.channel !in book.closed
      modifies `delivered
      ensures delivered == old(delivered) + [(c.channel, id, d)]
    {
      delivered := delivered + [(c.channel, id, d)];
    }

    /** The loop takes one message. `writeOk` is whether the network takes a request. */
    method ProcessMessage(writeOk: bool)
      requires Valid() && !ending && chanMessage != []
      modifies `chanMessage, `messageContexts, `book, `delivered, `ending
      ensures Valid() && chanMessage == old(chanMessage)[1..] && ending == old(chanMessage)[0].Quit?
      ensures Now() == Processed(old(Now()), old(chanMessage)[0], writeOk)
      ensures forall c :: old(Stranded(c)) ==> Stranded(c)
    {
      hide Ids, Channels, Counted, Line, Kept, Senders, Lateness, Lost, Ended;
      var message := chanMessage[0];
      if message.Request? {
        WriteRequest(message.context, writeOk);
        return;
      }
      LineFront(chanMessage, way.late, closer.QuitSent?);
      BookNext(book, messageContexts, chanMessage, made, delivered);
      chanMessage, ending := chanMessage[1..], message.Quit?;
      match message
      case Quit =>
      case Response(id, packet) =>
        if id in messageContexts { Answer(id, Packet(packet)); }
      case Timeout(id) =>
        if id in messageContexts {
          Answer(id, TimedOut);
          Remove(id);
        }
      case Finish(id) =>
        if id in messageContexts { Remove(id); }
    }

    /** Takes a request from the queue and writes it; only one that was written is
        registered. */
    method WriteRequest(c: Context, writeOk: bool)
      requires Valid() && !ending && chanMessage != [] && chanMessage[0] == Request(c)
      modifies `chanMessage, `messageContexts, `book, `delivered
      ensures Valid() && chanMessage == old(chanMessage)[1..]
      ensures Now() == if writeOk then Entered(old(Now()), c) else Rejected(old(Now()), c)
      ensures forall c :: old(Stranded(c)) ==> Stranded(c)
    {
      hide Ids, Books, Counted, Line, Senders, Lateness, Lost;
      InTime(chanMessage, way, closer, book);
      LineFront(chanMessage, way.late, closer.QuitSent?);
      BookWritten(book, c, writeOk, messageContexts, chanMessage, made, delivered, way.late);
      SenderTaken(book, c, !writeOk, way, wgSender, closer);
      IdsKept(handedOut, messageID, book, if writeOk then Moved(book, c.id, Registered) else Shut(book, c));
      chanMessage := chanMessage[1..];
      if writeOk {
        messageContexts := messageContexts[c.id := c];
        book := Moved(book, c.id, Registered);
      } else {
        SendResponse(c, c.id, SendFailed);
        CloseChannel(c);
      }
    }

    /** Sends to the caller of a registered request. */
    method Answer(id: int, d: Delivery)
      requires Valid() && id in messageContexts
      modifies `delivered
      ensures Valid() && Now() == Answered(old(Now()), id, d)
    {
      hide Ids, Counted, Line, Kept, Senders, Lateness, DistinctIds;
      SendResponse(messageContexts[id], id, d);
    }

    /** Takes a context out and closes its channel, which is open. */
    method Remove(id: int)
      requires Valid() && running && id in messageContexts
      modifies `messageContexts, `book
      ensures Valid() && Now() == Dropped(old(Now()), id)
      ensures forall c :: old(Stranded(c)) ==> Stranded(c)
    {
      hide Ids, Books, Counted, Line, Senders, Lateness, Lost;
      ghost var c := messageContexts[id];
      BookShut(book, id, messageContexts, chanMessage, made, delivered, way.late);
      SenderTaken(book, c, true, way, wgSender, closer);
      IdsKept(handedOut, messageID, book, Shut(book, c));
      messageContexts := messageContexts - {id};
      CloseChannel(c);
    }

    // ---- The end of the loop ----

    /** Tells whoever waits of the error the connection is closing for, if any. */
    method CloseContext(id: int)
      requires Valid() && running && ending && id in messageContexts
      modifies `messageContexts, `book, `delivered
      ensures Valid()
      ensures Now() == Dropped(if closeErr then Answered(old(Now()), id, ConnectionFailed) else old(Now()), id)
      ensures forall c :: old(Stranded(c)) ==> Stranded(c)
    {
      hide Ids, Books, Counted, Line, Senders, Lateness, Lost;
      if isClosing && closeErr { Answer(id, ConnectionFailed); }
      Remove(id);
    }

    /** When none is left, the loop confirms that it has ended. */
    method ConfirmEnd()
      requires Valid() && running && ending && messageContexts == map[]
      modifies `running
      ensures Valid() && !running
    {
      hide Ids, Books, Counted, Line, Senders, Lateness;
      running := false;
    }

    /** With no other step in between, the channels of all contexts left are closed, and
        those who wait are told if it was for an error. */
    method EndLoop()
      requires Valid() && running && ending
      modifies `messageContexts, `book, `delivered, `running
      ensures Valid() && !running && Ended(old(Now()), Now(), closeErr)
      ensures forall c :: old(Stranded(c)) ==> Stranded(c)
    {
      hide Ids, Books, Counted, Line, Senders, Lateness, Lost, Emptied, Dropped, Answered;
      NothingEmptied(Now(), closeErr);
      var ids := messageContexts.Keys;
      ghost var before := Now();
      while ids != {}
        invariant Valid() && running && ids == messageContexts.Keys && Emptied(before, ids, Now(), closeErr)
        invariant forall c :: old(Stranded(c)) ==> Stranded(c)
        decreases |ids|
      {
        AnElement(ids);
        var id :| id in ids;
        label Before:
        CloseContext(id);
        OneLess(before, old@Before(Now()), id, Now(), closeErr);
        ids := ids - {id};
      }
      ConfirmEnd();
    }

    // ---- Close, in four steps, and what comes of it ----

    /** The reader cannot go on. That is an error if it found the connection open when it
        looked, which may be closing by now. */
    method ReadFailed(open: bool)
      requires Valid()
      modifies `closeErr
      ensures Valid() && closeErr == (old(closeErr) || open)
    {
      hide Ids, Books, Counted, Ending, Senders, Lateness;
      if open { closeErr := true; }
    }

    /** Only the first call of Close does anything. It sets the flag. */
    method BeginClose() returns (first: bool)
      requires Valid()
      modifies `isClosing, `closer
      ensures Valid() && isClosing && first == old(closer).Idle? && closer == if first then Flagged else old(closer)
    {
      hide Ids, Books, Counted, Senders, Line;
      first := closer.Idle?;
      if first { isClosing, closer := true, Flagged; }
    }

    /** It waits until no sender is counted in; some may be past the look at the flag. */
    method WaitForSenders()
      requires Valid() && closer.Flagged? && wgSender == 0
      modifies `closer, `way
      ensures Valid() && closer.Waited? && way.counted == multiset{}
      ensures way == old(way).(uncounted := RequestIds(old(way).admitted))
      ensures forall c :: old(Stranded(c)) ==> Stranded(c)
    {
      hide Ids, Books, Counted, Line;
      closer, way := Waited, way.(uncounted := RequestIds(way.admitted));
    }

    /** It queues the last message. */
    method SendQuit()
      requires Valid() && closer.Waited? && |chanMessage| < Capacity
      modifies `chanMessage, `closer, `way
      ensures Valid() && closer.QuitSent? && chanMessage == old(chanMessage) + [Quit]
      ensures way == old(way).(late := RequestIds(old(way).admitted + old(way).counted))
      ensures forall c :: old(Stranded(c)) ==> Stranded(c)
    {
      hide Ids, Channels, Counted, Line, Senders, Lateness;
      ghost var pending := RequestIds(way.admitted + way.counted);
      SentLast(book, messageContexts, chanMessage, made, delivered, way, wgSender, pending);
      chanMessage, closer, way := chanMessage + [Quit], QuitSent, way.(late := pending);
    }

    /** When the loop has ended it closes the queue. */
    method CloseMessages()
      requires Valid() && closer.QuitSent? && !running
      modifies `closer
      ensures Valid() && closer.QueueClosed?
    {
      hide Ids, Books, Counted, Senders;
      closer := QueueClosed;
    }

    /** Once the loop has ended, the channel of a request that was queued is closed if and
        only if the request is not left in the queue, and it is left there if and only if
        it is late: its sender was past the look at the flag and had not queued it when
        the last message was queued. */
    lemma ClosedUnlessLate()
      requires Valid() && !running
      ensures forall id :: id in book.stage && Sent(book.stage[id]) ==>
                id in book.channelOf &&
                (book.channelOf[id] in book.closed <==> Request(Context(id, book.channelOf[id])) !in chanMessage) &&
                (book.channelOf[id] in book.closed <==> id !in way.late)
    {
      hide Ids, Channels, Senders, DistinctIds;
      forall id | id in book.stage && Sent(book.stage[id])
        ensures id in book.channelOf
        ensures book.channelOf[id] in book.closed <==> Request(Context(id, book.channelOf[id])) !in chanMessage
        ensures book.channelOf[id] in book.closed <==> id !in way.late
      {
        var c := Context(id, book.channelOf[id]);
        if book.stage[id].Queued? { RequestQueued(chanMessage, c); }
        if Request(c) in chanMessage { QueueHolds(chanMessage, c); }
      }
    }

    /** A late request was not counted in when the wait for senders ended. Its sender has
        yet to queue it, or has crashed, or it is in the queue and its caller waits for ever. */
    lemma LateRequest(id: int)
      requires Valid() && id in way.late
      ensures id in way.uncounted && id in book.channelOf && (closer.QuitSent? || closer.QueueClosed?)
      ensures var c := Context(id, book.channelOf[id]);
              if Request(c) in chanMessage then Stranded(c) else Pending(way, c) || book.stage[id].Crashed?
    {
      hide Ids, Channels, DistinctIds;
      var c := Context(id, book.channelOf[id]);
      if book.stage[id].Queued? { RequestQueued(chanMessage, c); }
      if Request(c) in chanMessage { QueueHolds(chanMessage, c); }
    }

    /** A caller that waits for ever: its channel is open and nothing was sent on it. */
    lemma NothingComes(c: Context)
      requires Valid() && Stranded(c)
      ensures c.channel !in book.closed && forall k :: 0 <= k < |delivered| ==> delivered[k].0 != c.channel
    {
      hide Ids, Senders, Lateness, Ending, Loop, Kept;
    }
  }

  /** A sender past the look at the flag when the last message is queued leaves its
      request behind it, and the channel of the request is never closed. */
  method LeftInQueue() returns (l: Conn, c: Context)
    ensures l.Valid() && !l.running && l.closer.QueueClosed? && l.chanMessage == [Request(c)] && l.Stranded(c)
  {
    hide Ids, Books, Senders, Lateness, Line;
    l, c := PastTheLook();
    l.CountIn(Request(c));
    var ok := l.Enqueue(Request(c));
    l.CountOut();
    l.ProcessMessage(true);
    l.EndLoop();
    l.CloseMessages();
  }

  /** Or it comes when the queue is closed, and crashes. */
  method QueueGone() returns (l: Conn, c: Context, ok: bool)
    ensures l.Valid() && l.closer.QueueClosed? && !ok && At(l.book, c, Crashed)
  {
    hide Ids, Books, Senders, Lateness, Line;
    l, c := PastTheLook();
    l.ProcessMessage(true);
    l.EndLoop();
    l.CloseMessages();
    l.CountIn(Request(c));
    ok := l.Enqueue(Request(c));
  }

  /** A sender looks at the flag, and Close goes on to queue the last message. */
  method PastTheLook() returns (l: Conn, c: Context)
    ensures fresh(l) && l.Valid() && l.running && !l.ending && l.closer.QuitSent? && l.chanMessage == [Quit]
    ensures Request(c) in l.way.admitted && At(l.book, c, Sending)
  {
    hide Ids, Books, Senders, Lateness, Line;
    l, c := NewRequest();
    var open := l.SendProcessMessage(Request(c));
    var first := l.BeginClose();
    l.WaitForSenders();
    l.SendQuit();
  }

  method NewRequest() returns (l: Conn, c: Context)
    ensures fresh(l) && l.Valid() && l.closer.Idle? && l.running && !l.ending && l.chanMessage == []
    ensures l.wgSender == 0 && l.way == Way(multiset{}, multiset{}, 0, 0, {}, {}) && At(l.book, c, Sending)
  {
    hide Ids, Books, Senders, Lateness, Line;
    l := new Conn();
    var id := l.NextMessageID();
    var open := l.BeginSend(id);
    var r := l.EnterRequest(id, false);
    c := r.value;
  }

  // ---- Each step keeps it ----

  lemma IdsKept(handedOut: seq<int>, messageID: int, b: Book, b': Book)
    requires Ids(handedOut, messageID, b) && b'.stage.Keys <= b.stage.Keys
    ensures Ids(handedOut, messageID, b')
  {
    hide Increasing;
    assert forall id :: id in b'.stage ==> id in b'.stage.Keys;
  }

  lemma StepsAside(b: Book, id: int, s: Stage, contexts: map<int, Context>, queue: seq<Message>,
                   made: nat, delivered: seq<(nat, int, Delivery)>, late: set<int>)
    requires Books(b, contexts, queue, made, delivered)
    requires !Sent(s) && (id in b.stage ==> !Sent(b.stage[id]) && !b.stage[id].Refused?)
    ensures Books(Moved(b, id, s), contexts, queue, made, delivered)
    ensures forall c :: Lost(b, late, c) ==> Lost(Moved(b, id, s), late, c)
  {
    hide DistinctIds, Requests;
  }

  lemma SenderAside(b: Book, id: int, s: Stage, w: Way, wgSender: nat, k: Closer)
    requires Senders(w, wgSender, b) && Lateness(k, w, b)
    requires id in b.stage && !b.stage[id].Unused? && !b.stage[id].Begun? ==>
               b.stage[id].Sending? && id in b.channelOf && !Pending(w, Context(id, b.channelOf[id]))
    ensures Senders(w, wgSender, Moved(b, id, s)) && Lateness(k, w, Moved(b, id, s))
  {
    hide Pending;
    forall c | Pending(w, c) ensures c.id != id {
      assert c == Context(c.id, b.channelOf[c.id]);
    }
  }

  lemma NowLost(b: Book, c: Context, late: set<int>)
    requires At(b, c, Sending)
    ensures Lost(Moved(b, c.id, Refused), late, c)
  {
  }

  lemma NewContext(b: Book, c: Context, contexts: map<int, Context>, queue: seq<Message>,
                   made: nat, delivered: seq<(nat, int, Delivery)>)
    requires Books(b, contexts, queue, made, delivered)
    requires c.id in b.stage && b.stage[c.id].Begun? && c.channel == made
    ensures Books(Opened(b, c), contexts, queue, made + 1, delivered) && At(Opened(b, c), c, Sending)
    ensures c.channel !in b.owner && Opened(b, c).stage.Keys == b.stage.Keys
  {
    hide DistinctIds, Requests;
  }

  lemma NewSender(b: Book, c: Context, w: Way, wgSender: nat, k: Closer, late: set<int>)
    requires Senders(w, wgSender, b) && Lateness(k, w, b)
    requires c.id in b.stage && b.stage[c.id].Begun? && c.channel !in b.owner
    ensures Senders(w, wgSender, Opened(b, c)) && Lateness(k, w, Opened(b, c)) && !Pending(w, c)
    ensures forall d :: Lost(b, late, d) ==> Lost(Opened(b, c), late, d)
  {
    hide Pending;
  }

  lemma Admitted(w: Way, m: Message, wgSender: nat, b: Book, k: Closer)
    requires Senders(w, wgSender, b) && Lateness(k, w, b) && k.Idle? && !m.Quit?
    requires m.Request? ==> At(b, m.context, Sending) && !Pending(w, m.context)
    ensures Senders(w.(admitted := With(w.admitted, m)), wgSender, b)
    ensures Lateness(k, w.(admitted := With(w.admitted, m)), b)
    ensures m.Request? ==> Pending(w.(admitted := With(w.admitted, m)), m.context)
  {
    assert m.Request? ==> m == Request(m.context);
  }

  lemma CountedIn(w: Way, m: Message, wgSender: nat, b: Book, k: Closer)
    requires Senders(w, wgSender, b) && Lateness(k, w, b) && m in w.admitted
    ensures var v := w.(admitted := Without(w.admitted, m), counted := With(w.counted, m));
            Senders(v, wgSender + 1, b) && Lateness(k, v, b)
  {
  }

  lemma FromSender(w: Way, m: Message, wgSender: nat, b: Book, k: Closer)
    requires Senders(w, wgSender, b) && Lateness(k, w, b) && m in w.counted
    ensures !m.Quit? && (m.Request? ==> At(b, m.context, Sending) && Pending(w, m.context))
    ensures m.Request? ==> (m.context.id in w.late <==> k.QuitSent? || k.QueueClosed?)
  {
    assert m.Quit? ==> m == Quit;
    assert m.Request? ==> m == Request(m.context);
  }

  lemma SenderLeft(w: Way, m: Message, ok: bool, wgSender: nat, b: Book, k: Closer)
    requires Senders(w, wgSender, b) && Lateness(k, w, b) && m in w.counted
    ensures Senders(Left(w, m, ok), wgSender, BookOf(b, m, ok)) && Lateness(k, Left(w, m, ok), BookOf(b, m, ok))
  {
    TakenOut(w.admitted, w.counted, m);
    assert m.Request? ==> m == Request(m.context) && Pending(w, m.context);
    forall c | Pending(Left(w, m, ok), c) ensures Pending(w, c) && (m.Request? ==> c.id != m.context.id) {
      assert Pending(w, c) && Request(c) != m;
    }
  }

  lemma BookLeft(b: Book, m: Message, ok: bool, contexts: map<int, Context>, queue: seq<Message>,
                 made: nat, delivered: seq<(nat, int, Delivery)>, late: set<int>)
    requires Books(b, contexts, queue, made, delivered)
    requires m.Request? ==> At(b, m.context, Sending)
    ensures Books(BookOf(b, m, ok), contexts, if ok then queue + [m] else queue, made, delivered)
    ensures m.Request? ==> At(BookOf(b, m, ok), m.context, if ok then Queued else Crashed)
    ensures BookOf(b, m, ok).stage.Keys == b.stage.Keys
    ensures forall c :: Lost(b, late, c) ==> Lost(BookOf(b, m, ok), late, c)
  {
    hide DistinctIds, Requests;
    RequestsSnoc(queue, m);
    if m.Request? { DistinctSnoc(Requests(queue), m.context); }
    assert Requests(queue) + [] == Requests(queue);
  }

  lemma BookNext(b: Book, contexts: map<int, Context>, queue: seq<Message>,
                 made: nat, delivered: seq<(nat, int, Delivery)>)
    requires Books(b, contexts, queue, made, delivered) && queue != [] && !queue[0].Request?
    ensures Books(b, contexts, queue[1..], made, delivered)
  {
    hide DistinctIds, Requests;
    QueueFront(queue);
    assert [] + Requests(queue[1..]) == Requests(queue[1..]);
  }

  lemma InTime(queue: seq<Message>, w: Way, k: Closer, b: Book)
    requires Line(queue, w.late, true, k.QuitSent?) && Lateness(k, w, b) && !k.QueueClosed?
    requires queue != [] && queue[0].Request?
    ensures queue[0].context.id !in w.late
  {
    hide Line;
    LineFront(queue, w.late, k.QuitSent?);
  }

  lemma BookWritten(b: Book, c: Context, writeOk: bool, contexts: map<int, Context>, queue: seq<Message>,
                    made: nat, delivered: seq<(nat, int, Delivery)>, late: set<int>)
    requires Books(b, contexts, queue, made, delivered)
    requires queue != [] && queue[0] == Request(c)
    ensures At(b, c, Queued)
    ensures writeOk ==> Books(Moved(b, c.id, Registered), contexts[c.id := c], queue[1..], made, delivered)
    ensures !writeOk ==> Books(Shut(b, c), contexts, queue[1..], made, delivered + [(c.channel, c.id, SendFailed)])
    ensures c.id !in late ==> forall d :: Lost(b, late, d) ==>
              Lost(if writeOk then Moved(b, c.id, Registered) else Shut(b, c), late, d)
  {
    hide DistinctIds, Requests;
    QueueFront(queue);
  }

  /** A request that is not in its sender's hands is taken up by the loop. */
  lemma SenderTaken(b: Book, c: Context, shut: bool, w: Way, wgSender: nat, k: Closer)
    requires Senders(w, wgSender, b) && Lateness(k, w, b)
    requires (At(b, c, Queued) && c.id !in w.late) || At(b, c, Registered)
    ensures var b' := if shut then Shut(b, c) else Moved(b, c.id, Registered);
            Senders(w, wgSender, b') && Lateness(k, w, b')
  {
    hide Pending;
  }

  lemma BookShut(b: Book, id: int, contexts: map<int, Context>, queue: seq<Message>,
                 made: nat, delivered: seq<(nat, int, Delivery)>, late: set<int>)
    requires Books(b, contexts, queue, made, delivered) && id in contexts
    ensures At(b, contexts[id], Registered)
    ensures Books(Shut(b, contexts[id]), contexts - {id}, queue, made, delivered)
    ensures forall d :: Lost(b, late, d) ==> Lost(Shut(b, contexts[id]), late, d)
  {
    hide DistinctIds, Requests;
  }

  lemma SentLast(b: Book, contexts: map<int, Context>, queue: seq<Message>, made: nat,
                 delivered: seq<(nat, int, Delivery)>, w: Way, wgSender: nat, late: set<int>)
    requires Books(b, contexts, queue, made, delivered) && Senders(w, wgSender, b) && Lateness(Waited, w, b)
    requires Line(queue, w.late, true, false) && |queue| < Capacity && late == RequestIds(w.admitted + w.counted)
    ensures Books(b, contexts, queue + [Quit], made, delivered) && Line(queue + [Quit], late, true, true)
    ensures Senders(w.(late := late), wgSender, b) && Lateness(QuitSent, w.(late := late), b)
    ensures forall c :: Lost(b, w.late, c) ==> Lost(b, late, c)
  {
    hide DistinctIds, Requests, Line;
    RequestsSnoc(queue, Quit);
    assert Requests(queue) + [] == Requests(queue);
    forall id | id in late
      ensures id in b.channelOf && At(b, Context(id, b.channelOf[id]), Sending)
      ensures Pending(w, Context(id, b.channelOf[id]))
    {
      var m :| m in w.admitted + w.counted && m.Request? && m.context.id == id;
      assert m == Request(m.context) && Pending(w, m.context);
    }
    forall c | Pending(w, c) ensures c.id in late {
      assert Request(c) in w.admitted + w.counted;
    }
    forall j | 0 <= j < |queue| && queue[j].Request? ensures queue[j].context.id !in late {
      assert queue[j] == Request(queue[j].context);
      QueueHolds(queue, queue[j].context);
    }
    LineQuit(queue, late);
  }

  lemma LineSnoc(queue: seq<Message>, m: Message, late: set<int>, looping: bool, quitSent: bool)
    requires Line(queue, late, looping, quitSent) && |queue| < Capacity && !m.Quit? && (looping || quitSent)
    requires m.Request? ==> (m.context.id in late <==> quitSent)
    ensures Line(queue + [m], late, looping, quitSent)
  {
    var q := queue + [m];
    assert forall k :: 0 <= k < |q| ==> q[k] == if k < |queue| then queue[k] else m;
    if Quit in queue { assert exists k :: 0 <= k < |queue| && q[k] == Quit; }
  }

  lemma LineQuit(queue: seq<Message>, late: set<int>)
    requires Line(queue, {}, true, false) && |queue| < Capacity
    requires forall j :: 0 <= j < |queue| && queue[j].Request? ==> queue[j].context.id !in late
    ensures Line(queue + [Quit], late, true, true)
  {
    var q := queue + [Quit];
    assert q[|queue|] == Quit;
    assert forall k :: 0 <= k < |queue| ==> q[k] == queue[k] && q[k] in queue;
  }

  lemma LineFront(queue: seq<Message>, late: set<int>, quitSent: bool)
    requires Line(queue, late, true, quitSent) && queue != []
    ensures Line(queue[1..], late, !queue[0].Quit?, quitSent) && (queue[0].Quit? ==> quitSent)
    ensures quitSent && queue[0].Request? ==> queue[0].context.id !in late
  {
    var q := queue[1..];
    assert forall k :: 0 <= k < |q| ==> q[k] == queue[k + 1];
    assert queue[0].Quit? ==> queue[0] == Quit;
    if Quit in q { assert Quit in queue; }
    if quitSent {
      var i :| 0 <= i < |queue| && queue[i] == Quit;
      if i > 0 { assert q[i - 1] == Quit; }
    }
  }

  lemma TakenOut(admitted: multiset<Message>, counted: multiset<Message>, m: Message)
    requires m in counted
    ensures |Without(counted, m)| == |counted| - 1
    ensures admitted[m] + counted[m] <= 1 ==> m !in admitted && m !in Without(counted, m)
    ensures forall x :: Without(counted, m)[x] <= counted[x]
    ensures forall x :: x in Without(counted, m) ==> x in counted
  {
  }

  lemma {:induction false} QueueHolds(queue: seq<Message>, c: Context)
    requires Request(c) in queue
    ensures c in Requests(queue)
  {
    if queue[0] != Request(c) { QueueHolds(queue[1..], c); }
  }

  lemma {:induction false} RequestQueued(queue: seq<Message>, c: Context)
    requires c in Requests(queue)
    ensures Request(c) in queue
  {
    if queue[0] != Request(c) { RequestQueued(queue[1..], c); }
  }

  lemma NothingEmptied(t: Table, failed: bool)
    ensures Emptied(t, t.contexts.Keys, t, failed)
  {
  }

  lemma OneLess(t: Table, u: Table, id: int, v: Table, failed: bool)
    requires Emptied(t, u.contexts.Keys, u, failed) && id in u.contexts
    requires v == Dropped(if failed then Answered(u, id, ConnectionFailed) else u, id)
    ensures v.contexts.Keys == u.contexts.Keys - {id} && Emptied(t, v.contexts.Keys, v, failed)
  {
    var ids := u.contexts.Keys;
    assert |ids - {id}| == |ids| - 1;
    assert (set i | i in t.contexts && i !in ids - {id} :: t.contexts[i].channel) ==
           (set i | i in t.contexts && i !in ids :: t.contexts[i].channel) + {t.contexts[id].channel};
    if failed {
      var told := u.delivered[|t.delivered|..];
      assert v.delivered[|t.delivered|..] == told + [(t.contexts[id].channel, id, ConnectionFailed)];
    }
  }

  lemma DistinctSnoc(cs: seq<Context>, c: Context)
    requires DistinctIds(cs) && forall d :: d in cs ==> d.id != c.id
    ensures DistinctIds(cs + [c])
  {
    assert forall k :: 0 <= k < |cs| ==> (cs + [c])[k] == cs[k] && cs[k] in cs;
  }

  lemma AnElement(s: set<int>)
    requires s != {}
    ensures exists x :: x in s
  {
    assert (forall x :: x !in s) ==> s == {};
  }

  lemma {:induction false} QueueFront(queue: seq<Message>)
    requires queue != []
    ensures Requests(queue) == (if queue[0].Request? then [queue[0].context] else []) + Requests(queue[1..])
    ensures forall c :: c in Requests(queue[1..]) ==> c in Requests(queue)
    ensures queue[0].Request? ==> queue[0].context in Requests(queue)
    ensures DistinctIds(Requests(queue)) ==>
              DistinctIds(Requests(queue[1..])) &&
              (queue[0].Request? ==> forall c :: c in Requests(queue[1..]) ==> c.id != queue[0].context.id)
  {
    hide DistinctIds;
    var b := Requests(queue[1..]);
    assert [] + b == b;
    if queue[0].Request? {
      assert queue[0].context in [queue[0].context] + b;
      if DistinctIds([queue[0].context] + b) { DistinctTail(queue[0].context, b); }
    }
  }

  lemma DistinctTail(c: Context, cs: seq<Context>)
    requires DistinctIds([c] + cs)
    ensures DistinctIds(cs) && forall d :: d in cs ==> d.id != c.id
  {
    var a := [c] + cs;
    assert a[0] == c && forall k :: 0 <= k < |cs| ==> a[k + 1] == cs[k];
    forall d | d in cs ensures d.id != c.id {
      var k :| 0 <= k < |cs| && cs[k] == d;
      assert a[0].id != a[k + 1].id;
    }
    forall i, j | 0 <= i < j < |cs| ensures cs[i].id != cs[j].id {
      assert a[i + 1].id != a[j + 1].id;
    }
  }
}
