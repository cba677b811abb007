/** What the caller of a request hears, told from the messages the loop takes and no table. */
module LdapAnswers {
  import opened LdapConn

  /** A message that the loop takes, and whether the network takes it if it is a request. */
  type Taken = (Message, bool)

  ghost function Run(t: Table, ms: seq<Taken>): Table
    decreases |ms|
  {
    if ms == [] then t else Run(Processed(t, ms[0].0, ms[0].1), ms[1..])
  }

  /** What was sent on a channel, in order. */
  function OnChannel(ds: seq<(nat, int, Delivery)>, channel: nat): seq<Delivery> {
    if ds == [] then []
    else OnChannel(ds[..|ds| - 1], channel) + if ds[|ds| - 1].0 == channel then [ds[|ds| - 1].2] else []
  }

  predicate Ends(m: Message, id: int) {
    m == Timeout(id) || m == Finish(id)
  }

  /** The request with an id has timed out or its caller has finished. */
  predicate Over(id: int, ms: seq<Taken>) {
    exists k :: 0 <= k < |ms| && Ends(ms[k].0, id)
  }

  /** What a message is to the caller of a request. */
  function Answer(id: int, m: Message): seq<Delivery> {
    match m
    case Response(i, packet) => if i == id then [Packet(packet)] else []
    case Timeout(i) => if i == id then [TimedOut] else []
    case _ => []
  }

  /** The answers to an id until it times out or its caller has finished. */
  function Answers(id: int, ms: seq<Taken>): seq<Delivery>
    decreases |ms|
  {
    if ms == [] then []
    else Answer(id, ms[0].0) + if Ends(ms[0].0, id) then [] else Answers(id, ms[1..])
  }

  /** Neither the id nor the channel of a context is used for another. */
  ghost predicate Apart(c: Context, d: Context) {
    d.id != c.id && d.channel != c.channel
  }

  ghost predicate Alone(t: Table, c: Context, ms: seq<Taken>) {
    && (forall id :: id in t.contexts && id != c.id ==> t.contexts[id].channel != c.channel)
    && (forall k :: 0 <= k < |ms| && ms[k].0.Request? ==> Apart(c, ms[k].0.context))
  }

  lemma {:induction false} OnChannelSnoc(ds: seq<(nat, int, Delivery)>, d: (nat, int, Delivery), channel: nat)
    ensures OnChannel(ds + [d], channel) == OnChannel(ds, channel) + if d.0 == channel then [d.2] else []
  {
    assert (ds + [d])[..|ds|] == ds;
  }

  lemma Next(t: Table, c: Context, m: Message, writeOk: bool, ms: seq<Taken>)
    requires Alone(t, c, [(m, writeOk)] + ms)
    ensures Alone(Processed(t, m, writeOk), c, ms) && (m.Request? ==> Apart(c, m.context))
  {
    var all := [(m, writeOk)] + ms;
    assert all[0] == (m, writeOk) && forall k :: 0 <= k < |ms| ==> all[k + 1] == ms[k];
  }

  /** What one message sends on the channel of a registered request, or of one that is not
      any more. */
  lemma OneMessage(t: Table, c: Context, m: Message, writeOk: bool)
    requires forall id :: id in t.contexts && id != c.id ==> t.contexts[id].channel != c.channel
    requires c.id in t.contexts ==> t.contexts[c.id] == c
    requires m.Request? ==> Apart(c, m.context)
    ensures var u := Processed(t, m, writeOk);
            && (c.id in u.contexts <==> c.id in t.contexts && !Ends(m, c.id))
            && (c.id in u.contexts ==> u.contexts[c.id] == c)
            && (c.channel in u.closed <==> c.channel in t.closed || (c.id in t.contexts && Ends(m, c.id)))
            && OnChannel(u.delivered, c.channel) == OnChannel(t.delivered, c.channel) +
               if c.id in t.contexts then Answer(c.id, m) else []
  {
    hide OnChannel;
    match m
    case Request(d) => OnChannelSnoc(t.delivered, (d.channel, d.id, SendFailed), c.channel);
    case Response(id, p) =>
      if id in t.contexts { OnChannelSnoc(t.delivered, (t.contexts[id].channel, id, Packet(p)), c.channel); }
    case Timeout(id) =>
      if id in t.contexts { OnChannelSnoc(t.delivered, (t.contexts[id].channel, id, TimedOut), c.channel); }
    case _ =>
  }

  /** The channel of a registered request gets the answers to its id, all of them, in
      order, and no others. It is closed, and the request forgotten, once it is over. */
  lemma {:induction false} HearsAnswers(t: Table, c: Context, ms: seq<Taken>)
    requires c.id in t.contexts && t.contexts[c.id] == c && c.channel !in t.closed && Alone(t, c, ms)
    ensures OnChannel(Run(t, ms).delivered, c.channel) == OnChannel(t.delivered, c.channel) + Answers(c.id, ms)
    ensures c.id in Run(t, ms).contexts <==> !Over(c.id, ms)
    ensures c.channel in Run(t, ms).closed <==> Over(c.id, ms)
    decreases |ms|
  {
    hide Processed, OnChannel, Ends, Over, Answer;
    if ms == [] {
      NotOver(c.id);
    } else {
      var (m, ok) := ms[0];
      var u := Processed(t, m, ok);
      assert [(m, ok)] + ms[1..] == ms;
      Next(t, c, m, ok, ms[1..]);
      OneMessage(t, c, m, ok);
      OverNext(c.id, ms);
      if Ends(m, c.id) { HearsNothing(u, c, ms[1..]); } else { HearsAnswers(u, c, ms[1..]); }
      Splits(OnChannel(t.delivered, c.channel), Answer(c.id, m), Answers(c.id, ms[1..]));
    }
  }

  lemma Splits<T>(a: seq<T>, b: seq<T>, c: seq<T>)
    ensures a + b + c == a + (b + c) && a + b + [] == a + b
  {
  }

  lemma NotOver(id: int)
    ensures !Over(id, [])
  {
  }

  lemma OverNext(id: int, ms: seq<Taken>)
    requires ms != []
    ensures Over(id, ms) <==> Ends(ms[0].0, id) || Over(id, ms[1..])
  {
    if Over(id, ms) {
      var k :| 0 <= k < |ms| && Ends(ms[k].0, id);
      if k > 0 { assert ms[1..][k - 1] == ms[k]; }
    }
    if Over(id, ms[1..]) {
      var k :| 0 <= k < |ms| - 1 && Ends(ms[1..][k].0, id);
      assert ms[k + 1] == ms[1..][k];
    }
  }

  /** Afterwards nothing is sent on it any more. */
  lemma {:induction false} HearsNothing(t: Table, c: Context, ms: seq<Taken>)
    requires c.id !in t.contexts && Alone(t, c, ms)
    ensures OnChannel(Run(t, ms).delivered, c.channel) == OnChannel(t.delivered, c.channel)
    ensures c.id !in Run(t, ms).contexts && (c.channel in Run(t, ms).closed <==> c.channel in t.closed)
    decreases |ms|
  {
    hide Processed, Answer, OnChannel, Ends;
    if ms != [] {
      var (m, ok) := ms[0];
      assert [(m, ok)] + ms[1..] == ms;
      Next(t, c, m, ok, ms[1..]);
      OneMessage(t, c, m, ok);
      HearsNothing(Processed(t, m, ok), c, ms[1..]);
    }
  }

  /** The caller of a request on a new channel hears all the answers to its id and nothing
      else if the network takes the request, and otherwise just that it does not. */
  lemma {:induction false} CallerHears(t: Table, c: Context, writeOk: bool, ms: seq<Taken>)
    requires c.id !in t.contexts && c.channel !in t.closed && OnChannel(t.delivered, c.channel) == []
    requires Alone(t, c, ms)
    ensures var u := Run(t, [(Request(c), writeOk)] + ms);
            && OnChannel(u.delivered, c.channel) == (if writeOk then Answers(c.id, ms) else [SendFailed])
            && (c.channel in u.closed <==> !writeOk || Over(c.id, ms))
            && (c.id in u.contexts <==> writeOk && !Over(c.id, ms))
  {
    var u := Processed(t, Request(c), writeOk);
    assert ([(Request(c), writeOk)] + ms)[1..] == ms;
    OnChannelSnoc(t.delivered, (c.channel, c.id, SendFailed), c.channel);
    hide OnChannel, Answers;
    if writeOk { HearsAnswers(u, c, ms); } else { HearsNothing(u, c, ms); }
  }
}
