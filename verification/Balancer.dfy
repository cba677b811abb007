/** The round-robin balancer: each section under its lock is one step, and the
    steps of callers, watcher and connections interleave freely. */
module Balancer {
  import opened Wrappers

  datatype Address = Address(name: string, metadata: int)

  datatype AddrInfo = AddrInfo(addr: Address, connected: bool)

  /** What the name resolver reports. */
  datatype Update = Add(addr: Address) | Delete(addr: Address) | Unknown

  /** How a section of `Get` ends: with an address, with an error, or waiting on a channel. */
  datatype Outcome = Got(addr: Address) | Closing | NoAddress | Blocked(ch: nat)

  ghost predicate Distinct(a: seq<AddrInfo>) {
    forall i, j :: 0 <= i < j < |a| ==> a[i].addr != a[j].addr
  }

  ghost predicate Listed(a: seq<AddrInfo>, x: Address) {
    exists i :: 0 <= i < |a| && a[i].addr == x
  }

  /** No address is connected. */
  ghost predicate Idle(a: seq<AddrInfo>) {
    forall i :: 0 <= i < |a| ==> !a[i].connected
  }

  // ---- Updates of the list ----

  /** The list without the first entry for `x`. */
  function Without(a: seq<AddrInfo>, x: Address): seq<AddrInfo> {
    if a == [] then [] else if a[0].addr == x then a[1..] else [a[0]] + Without(a[1..], x)
  }

  ghost function Updated(a: seq<AddrInfo>, u: Update): seq<AddrInfo> {
    match u
    case Add(x) => if Listed(a, x) then a else a + [AddrInfo(x, false)]
    case Delete(x) => Without(a, x)
    case Unknown => a
  }

  ghost function UpdatedAll(a: seq<AddrInfo>, us: seq<Update>): seq<AddrInfo> {
    if us == [] then a else Updated(UpdatedAll(a, us[..|us| - 1]), us[|us| - 1])
  }

  /** The addresses as a set, and what the updates make of it. */
  ghost function Names(a: seq<AddrInfo>): set<Address> {
    set i | 0 <= i < |a| :: a[i].addr
  }

  ghost function NamesAfter(s: set<Address>, us: seq<Update>): set<Address> {
    if us == [] then s
    else
      var s' := NamesAfter(s, us[..|us| - 1]);
      match us[|us| - 1]
      case Add(x) => s' + {x}
      case Delete(x) => s' - {x}
      case Unknown => s'
  }

  lemma {:induction false} WithoutAt(a: seq<AddrInfo>, x: Address, i: nat)
    requires i <= |a| && forall j :: 0 <= j < i ==> a[j].addr != x
    requires i < |a| ==> a[i].addr == x
    ensures Without(a, x) == if i < |a| then a[..i] + a[i + 1..] else a
    decreases i
  {
    if a != [] && i > 0 {
      WithoutAt(a[1..], x, i - 1);
      assert a == [a[0]] + a[1..];
      if i < |a| { assert a[..i] + a[i + 1..] == [a[0]] + (a[1..][..i - 1] + a[1..][i..]); }
    }
  }

  lemma {:induction false} WithoutKeeps(a: seq<AddrInfo>, x: Address)
    requires Distinct(a)
    ensures Distinct(Without(a, x)) && !Listed(Without(a, x), x)
    ensures forall e :: e in Without(a, x) <==> e in a && e.addr != x
  {
    hide Listed, Distinct;
    if a == [] {
      NoneListed([], x);
    } else {
      DistinctTail(a);
      assert a == [a[0]] + a[1..];
      if a[0].addr == x {
        NoneListed(a[1..], x);
      } else {
        WithoutKeeps(a[1..], x);
        DistinctCons(a[0], Without(a[1..], x));
        NoneListed(Without(a, x), x);
      }
    }
  }

  lemma DistinctTail(a: seq<AddrInfo>)
    requires a != [] && Distinct(a)
    ensures Distinct(a[1..]) && forall e :: e in a[1..] ==> e.addr != a[0].addr
  {
    assert forall i :: 0 <= i < |a| - 1 ==> a[1..][i] == a[i + 1];
  }

  lemma DistinctCons(e: AddrInfo, a: seq<AddrInfo>)
    requires Distinct(a) && forall f :: f in a ==> f.addr != e.addr
    ensures Distinct([e] + a)
  {
    assert forall i :: 0 <= i < |a| ==> ([e] + a)[i + 1] == a[i] && a[i] in a;
  }

  lemma NoneListed(a: seq<AddrInfo>, x: Address)
    requires forall e :: e in a ==> e.addr != x
    ensures !Listed(a, x)
  {
    assert forall i :: 0 <= i < |a| ==> a[i] in a;
  }

  /** On a list without repetition the updates are additions to and removals from a
      set; the list stays without repetition, an address that stays keeps its
      connection, and none appears connected. */
  lemma {:induction false} UpdatesAreSetOperations(a: seq<AddrInfo>, us: seq<Update>)
    requires Distinct(a)
    ensures Distinct(UpdatedAll(a, us))
    ensures Names(UpdatedAll(a, us)) == NamesAfter(Names(a), us)
    ensures forall e :: e in UpdatedAll(a, us) && e.connected ==> e in a
    ensures forall e :: e in a && Delete(e.addr) !in us ==> e in UpdatedAll(a, us)
  {
    if us != [] {
      var b, u := UpdatedAll(a, us[..|us| - 1]), us[|us| - 1];
      UpdatesAreSetOperations(a, us[..|us| - 1]);
      NamesOfUpdated(b, u);
    }
  }

  lemma {:induction false} NamesOfUpdated(b: seq<AddrInfo>, u: Update)
    requires Distinct(b)
    ensures Distinct(Updated(b, u))
    ensures Names(Updated(b, u)) == match u
                                    case Add(x) => Names(b) + {x}
                                    case Delete(x) => Names(b) - {x}
                                    case Unknown => Names(b)
    ensures forall e :: e in Updated(b, u) && e.connected ==> e in b
    ensures forall e :: e in b && u != Delete(e.addr) ==> e in Updated(b, u)
  {
    hide Without;
    var c := Updated(b, u);
    match u
    case Add(x) =>
      if !Listed(b, x) {
        assert c[|b|].addr == x && forall i :: 0 <= i < |b| ==> c[i] == b[i];
        assert forall y :: y in Names(b) ==> y in Names(c);
      }
    case Delete(x) =>
      WithoutKeeps(b, x);
      forall y ensures y in Names(c) <==> y in Names(b) && y != x {
        if y in Names(c) {
          var i :| 0 <= i < |c| && c[i].addr == y;
          assert c[i] in b;
        }
        if y in Names(b) && y != x {
          var i :| 0 <= i < |b| && b[i].addr == y;
          assert b[i] in c;
        }
      }
    case Unknown =>
  }

  // ---- Connections ----

  /** Every entry for `x` connected, or disconnected. */
  function Marked(a: seq<AddrInfo>, x: Address, connected: bool): seq<AddrInfo> {
    seq(|a|, i requires 0 <= i < |a| => if a[i].addr == x then AddrInfo(x, connected) else a[i])
  }

  lemma MarkedAt(a: seq<AddrInfo>, x: Address, connected: bool)
    ensures |Marked(a, x, connected)| == |a|
    ensures forall i :: 0 <= i < |a| ==>
              Marked(a, x, connected)[i] == if a[i].addr == x then AddrInfo(x, connected) else a[i]
    ensures Distinct(a) ==> Distinct(Marked(a, x, connected))
  {
  }

  lemma NoConnections(a: seq<AddrInfo>)
    ensures Connections(a[..0]) == 0
  {
  }

  /** Slot i is the first of an address that is up there already. */
  ghost predicate UpAlready(a: seq<AddrInfo>, x: Address, i: nat) {
    i < |a| && a[i] == AddrInfo(x, true) && AddrInfo(x, true) !in a[..i]
  }

  /** An address listed once that is up already. */
  lemma StillUp(a: seq<AddrInfo>, b: seq<AddrInfo>, i: nat)
    requires i < |a| == |b| && a[i].connected && a[i] == b[i]
    requires forall j :: 0 <= j < i ==> b[j] == Marked(a, a[i].addr, true)[j]
    requires forall j :: i <= j < |a| ==> b[j] == a[j]
    ensures !Idle(a) && (Distinct(a) ==> b == Marked(a, a[i].addr, true) == a)
  {
  }

  lemma StoppedAt(a: seq<AddrInfo>, b: seq<AddrInfo>, x: Address, i: nat)
    requires i < |a| == |b| && a[i] == AddrInfo(x, true)
    requires forall j :: 0 <= j < i ==> b[j] == Marked(a, x, true)[j] && a[j] != AddrInfo(x, true)
    requires forall j :: i <= j < |a| ==> b[j] == a[j]
    ensures UpAlready(a, x, i) && b == Marked(a[..i], x, true) + a[i..]
  {
    assert |Marked(a[..i], x, true)| == i && forall j :: 0 <= j < i ==> Marked(a[..i], x, true)[j] == b[j];
  }

  lemma NotListed(a: seq<AddrInfo>, x: Address, connected: bool)
    requires !Listed(a, x)
    ensures Marked(a, x, connected) == a
  {
  }

  function AllAddresses(a: seq<AddrInfo>): seq<Address> {
    seq(|a|, i requires 0 <= i < |a| => a[i].addr)
  }

  function Connections(a: seq<AddrInfo>): nat {
    if a == [] then 0 else Connections(a[..|a| - 1]) + if a[|a| - 1].connected then 1 else 0
  }

  lemma {:induction false} ConnectionsSnoc(a: seq<AddrInfo>, i: nat)
    requires i < |a|
    ensures Connections(a[..i + 1]) == Connections(a[..i]) + if a[i].connected then 1 else 0
  {
    assert a[..i + 1][..i] == a[..i];
  }

  function Occurrences(a: seq<AddrInfo>, x: Address): nat {
    if a == [] then 0 else Occurrences(a[..|a| - 1], x) + if a[|a| - 1].addr == x then 1 else 0
  }

  /** Among idle addresses, what comes up is the only connection, and so wakes
      whoever waits, exactly when it is listed once. */
  lemma {:induction false} ComesUp(a: seq<AddrInfo>, x: Address)
    requires Idle(a)
    ensures Connections(Marked(a, x, true)) == Occurrences(a, x)
  {
    if a != [] {
      ComesUp(a[..|a| - 1], x);
      assert Marked(a, x, true)[..|a| - 1] == Marked(a[..|a| - 1], x, true);
    }
  }

  lemma {:induction false} OccursOnce(a: seq<AddrInfo>, x: Address)
    requires Distinct(a)
    ensures Occurrences(a, x) == if Listed(a, x) then 1 else 0
  {
    if a != [] {
      var b := a[..|a| - 1];
      OccursOnce(b, x);
      if Listed(b, x) {
        var i :| 0 <= i < |b| && b[i].addr == x;
        assert a[i].addr == x;
      }
      assert a[|a| - 1].addr == x ==> Listed(a, x);
      if Listed(a, x) && a[|a| - 1].addr != x {
        var i :| 0 <= i < |a| && a[i].addr == x;
        assert b[i].addr == x;
      }
    }
  }

  /** One that is listed twice is no single connection when it comes up. */
  lemma {:induction false} ComesUpTwice(a: seq<AddrInfo>, x: Address)
    requires Idle(a) && Listed(a, x)
    ensures Connections(Marked(a + [AddrInfo(x, false)], x, true)) >= 2
  {
    var b := a + [AddrInfo(x, false)];
    ComesUp(b, x);
    assert b[..|a|] == a;
    OccursAtAll(a, x);
  }

  lemma {:induction false} OccursAtAll(a: seq<AddrInfo>, x: Address)
    requires Listed(a, x)
    ensures Occurrences(a, x) >= 1
  {
    var i :| 0 <= i < |a| && a[i].addr == x;
    if i < |a| - 1 {
      assert a[..|a| - 1][i].addr == x;
      OccursAtAll(a[..|a| - 1], x);
    }
  }

  // ---- Turns ----

  /** The slot after `i` of `n`, around. */
  function After(i: nat, n: nat): (r: nat)
    requires i < n
    ensures r < n
  {
    if i + 1 == n then 0 else i + 1
  }

  lemma {:induction false} AfterIsModulo(i: nat, n: nat)
    requires i < n
    ensures After(i, n) == (i + 1) % n
  {
    if i + 1 < n { Remainder(i + 1, n, (i + 1) / n, (i + 1) % n); }
  }

  lemma Remainder(v: nat, n: nat, q: nat, r: nat)
    requires v < n && v == n * q + r
    ensures r == v
  {
    if q > 0 { assert n * q == n + n * (q - 1); }
  }

  /** The first connected slot among `d` slots from `i` on. */
  function First(a: seq<AddrInfo>, i: nat, d: nat): (r: Option<nat>)
    requires i < |a|
    ensures r.Some? ==> r.value < |a| && a[r.value].connected
    decreases d
  {
    if d == 0 then None else if a[i].connected then Some(i) else First(a, After(i, |a|), d - 1)
  }

  /** The connected slots among `d` slots from `i` on, in turn. */
  function Circle(a: seq<AddrInfo>, i: nat, d: nat): (r: seq<nat>)
    requires i < |a|
    ensures forall k :: 0 <= k < |r| ==> r[k] < |a|
    decreases d
  {
    if d == 0 then [] else (if a[i].connected then [i] else []) + Circle(a, After(i, |a|), d - 1)
  }

  /** Where the next turn starts. */
  function Turn(a: seq<AddrInfo>, next: nat): (r: nat)
    requires a != []
    ensures r < |a|
  {
    if next >= |a| then 0 else next
  }

  /** The slots that `m` calls of `Get` serve, one after the other. */
  function Served(a: seq<AddrInfo>, next: nat, m: nat): seq<nat>
    requires a != []
    decreases m
  {
    if m == 0 then []
    else match First(a, Turn(a, next), |a|)
      case None => []
      case Some(i) => [i] + Served(a, After(i, |a|), m - 1)
  }

  lemma {:induction false} FirstOfCircle(a: seq<AddrInfo>, i: nat, d: nat)
    requires i < |a|
    ensures First(a, i, d) == if Circle(a, i, d) == [] then None else Some(Circle(a, i, d)[0])
    decreases d
  {
    if d > 0 && !a[i].connected { FirstOfCircle(a, After(i, |a|), d - 1); }
  }

  lemma {:induction false} FirstStays(a: seq<AddrInfo>, i: nat, d: nat, e: nat)
    requires i < |a| && d <= e && First(a, i, d).Some?
    ensures First(a, i, e) == First(a, i, d)
    decreases d
  {
    if !a[i].connected { FirstStays(a, After(i, |a|), d - 1, e - 1); }
  }

  /** As many calls as there are connected slots within `d` serve exactly these, in turn. */
  lemma {:induction false} ServedAlong(a: seq<AddrInfo>, i: nat, d: nat)
    requires i < |a| && d <= |a|
    ensures Served(a, i, |Circle(a, i, d)|) == Circle(a, i, d)
    decreases d
  {
    var c := Circle(a, i, d);
    if d > 0 {
      var j := After(i, |a|);
      ServedAlong(a, j, d - 1);
      if !a[i].connected && c != [] {
        FirstOfCircle(a, j, d - 1);
        FirstStays(a, j, d - 1, |a| - 1);
        FirstStays(a, j, d - 1, |a|);
      }
    }
  }

  /** Slot `j` is one of the `d` slots from `i` on. */
  predicate InArc(n: nat, i: nat, d: nat, j: nat) {
    i <= j < i + d || j + n < i + d
  }

  lemma {:induction false} CircleCounts(a: seq<AddrInfo>, i: nat, d: nat, j: nat)
    requires i < |a| && d <= |a| && j < |a|
    ensures multiset(Circle(a, i, d))[j] == if InArc(|a|, i, d, j) && a[j].connected then 1 else 0
    decreases d
  {
    if d > 0 {
      var rest := Circle(a, After(i, |a|), d - 1);
      hide InArc;
      CircleCounts(a, After(i, |a|), d - 1, j);
      if a[i].connected { CountCons(i, rest, j); } else { assert Circle(a, i, d) == rest; }
      ArcStep(|a|, i, d, j);
    }
  }

  lemma ArcStep(n: nat, i: nat, d: nat, j: nat)
    requires i < n && 0 < d <= n && j < n
    ensures InArc(n, i, d, j) <==> i == j || InArc(n, After(i, n), d - 1, j)
    ensures !InArc(n, After(i, n), d - 1, i)
  {
  }

  lemma CountCons(i: nat, rest: seq<nat>, j: nat)
    ensures multiset([i] + rest)[j] == multiset(rest)[j] + if i == j then 1 else 0
  {
    assert multiset([i] + rest) == multiset{i} + multiset(rest);
  }

  function AddressesAt(a: seq<AddrInfo>, slots: seq<nat>): seq<Address>
    requires forall k :: 0 <= k < |slots| ==> slots[k] < |a|
  {
    seq(|slots|, k requires 0 <= k < |slots| => a[slots[k]].addr)
  }

  lemma {:induction false} EachCountedOnce(s: seq<nat>, j: nat, k: nat)
    requires j < k < |s| && s[j] == s[k]
    ensures multiset(s)[s[j]] >= 2
  {
    assert s == s[..k] + s[k..];
    assert s[..k][j] == s[j] && s[k..][0] == s[j];
    assert multiset(s) == multiset(s[..k]) + multiset(s[k..]);
  }

  lemma {:induction false} CircleLength(a: seq<AddrInfo>, i: nat, d: nat)
    requires i + d == |a| && i < |a|
    ensures |Circle(a, i, d)| == Connections(a) - Connections(a[..i])
    decreases d
  {
    assert a[..i + 1][..i] == a[..i];
    if d > 1 { CircleLength(a, i + 1, d - 1); } else { assert a[..i + 1] == a; }
  }

  lemma {:induction false} CircleSplit(a: seq<AddrInfo>, i: nat, d: nat, j: nat, e: nat)
    requires i < |a| && (if i + d < |a| then j == i + d else i + d == |a| && j == 0)
    ensures Circle(a, i, d + e) == Circle(a, i, d) + Circle(a, j, e)
    decreases d
  {
    if d > 0 { CircleSplit(a, After(i, |a|), d - 1, j, e); }
  }

  lemma {:induction false} CircleHead(a: seq<AddrInfo>, d: nat)
    requires d <= |a| && a != []
    ensures |Circle(a, 0, d)| == Connections(a[..d])
  {
    if d < |a| {
      CircleSplit(a, 0, d, d, |a| - d);
      CircleLength(a, d, |a| - d);
    } else {
      assert a[..d] == a;
    }
    CircleLength(a, 0, |a|);
    assert a[..0] == [];
  }

  lemma {:induction false} WholeCircle(a: seq<AddrInfo>, i: nat)
    requires i < |a|
    ensures |Circle(a, i, |a|)| == Connections(a)
  {
    CircleSplit(a, i, |a| - i, 0, i);
    CircleLength(a, i, |a| - i);
    CircleHead(a, i);
  }

  /** While nothing changes, k calls, k being the number of connected addresses,
      return each connected address exactly once, from wherever the turn stands. */
  lemma {:induction false} EachConnectedOnce(a: seq<AddrInfo>, next: nat)
    requires a != [] && Distinct(a)
    ensures var slots := Served(a, next, Connections(a));
            && |slots| == Connections(a)
            && (forall k :: 0 <= k < |slots| ==> slots[k] < |a| && a[slots[k]].connected)
            && (forall i :: 0 <= i < |a| && a[i].connected ==> a[i].addr in AddressesAt(a, slots))
            && (forall j, k :: 0 <= j < k < |slots| ==> AddressesAt(a, slots)[j] != AddressesAt(a, slots)[k])
  {
    hide Served, Circle, Connections;
    var p := Turn(a, next);
    var slots := Circle(a, p, |a|);
    WholeCircle(a, p);
    ServedAlong(a, p, |a|);
    ServedFromTurn(a, next, |slots|);
    forall k | 0 <= k < |slots| ensures a[slots[k]].connected {
      CircleCounts(a, p, |a|, slots[k]);
      assert slots[k] in multiset(slots);
    }
    forall i | 0 <= i < |a| && a[i].connected ensures a[i].addr in AddressesAt(a, slots) {
      CircleCounts(a, p, |a|, i);
      assert i in multiset(slots);
      var k :| 0 <= k < |slots| && slots[k] == i;
      assert AddressesAt(a, slots)[k] == a[i].addr;
    }
    forall j, k | 0 <= j < k < |slots| ensures a[slots[j]].addr != a[slots[k]].addr {
      if slots[j] == slots[k] {
        EachCountedOnce(slots, j, k);
        CircleCounts(a, p, |a|, slots[j]);
      }
    }
  }

  lemma {:induction false} ServedFromTurn(a: seq<AddrInfo>, next: nat, m: nat)
    requires a != []
    ensures Served(a, next, m) == Served(a, Turn(a, next), m)
  {
  }

  /** Nothing is found exactly when nothing is connected. */
  lemma {:induction false} NoneFound(a: seq<AddrInfo>, i: nat)
    requires i < |a|
    ensures First(a, i, |a|) == None <==> Idle(a)
  {
    FirstOfCircle(a, i, |a|);
    if First(a, i, |a|) == None {
      forall j | 0 <= j < |a| ensures !a[j].connected { CircleCounts(a, i, |a|, j); }
    }
  }

  // ---- The balancer ----

  class RoundRobin {
    const hasResolver: bool
    var watching: bool                          // the watcher is set
    var addrs: seq<AddrInfo>
    var addrCh: Option<seq<seq<Address>>>       // the lists sent on the channel, once it is made
    var addrChClosed: bool
    var next: nat
    var waitCh: Option<nat>
    var done: bool

    var made: nat                               // channels are numbered as they are made
    ghost var closed: set<nat>
    ghost var blocked: map<nat, nat>            // the channel each blocked Get waits on
    ghost var repeated: bool                    // it was started for a target it had already

    /** What every step keeps. */
    ghost predicate Valid() reads this {
      && (!repeated ==> Distinct(addrs) && (waitCh.Some? ==> Idle(addrs)))
      && (waitCh.Some? ==> !done && waitCh.value < made && waitCh.value !in closed)
      && (forall c :: c in closed ==> c < made)
      && (forall g :: g in blocked ==> blocked[g] in closed || waitCh == Some(blocked[g]))
      && (addrCh.Some? ==> addrChClosed == done)
      && (watching ==> addrCh.Some? && hasResolver) && (repeated ==> !hasResolver)
    }

    constructor (hasResolver: bool)
      ensures Valid() && addrs == [] && !done && blocked == map[] && !watching && !repeated &&
              this.hasResolver == hasResolver
      ensures next == 0 && waitCh == None && closed == {}
    {
      this.hasResolver := hasResolver;
      watching, addrs, addrCh, addrChClosed, next, waitCh, done := false, [], None, false, 0, None, false;
      made, closed, blocked, repeated := 0, {}, map[], false;
    }

    /** A target is added unless it is closing, also one it has already. */
    method Start(target: string, resolved: bool) returns (ok: bool)
      requires Valid()
      modifies this
      ensures Valid() && ok == (!done && (!hasResolver || resolved))
      ensures addrs == if ok && !hasResolver then old(addrs) + [AddrInfo(Address(target, 0), false)] else old(addrs)
      ensures watching == (old(watching) || (ok && hasResolver))
      ensures next == old(next) && done == old(done) && blocked == old(blocked) && closed == old(closed)
      ensures waitCh == old(waitCh)
      ensures repeated == (old(repeated) || (ok && !hasResolver && Listed(old(addrs), Address(target, 0))))
    {
      if done { return false; }
      if !hasResolver {
        repeated := repeated || Listed(addrs, Address(target, 0));
        assert !repeated ==> forall i :: 0 <= i < |addrs| ==> addrs[i].addr != Address(target, 0);
        addrs := addrs + [AddrInfo(Address(target, 0), false)];
        return true;
      }
      if !resolved { return false; }
      watching := true;
      addrCh, addrChClosed := Some([]), false;
      return true;
    }

    /** Applies one round of updates, and sends the list unless the balancer is closed:
        nothing is ever sent on a closed channel. */
    method WatchAddrUpdates(updates: seq<Update>) returns (ok: bool)
      requires Valid() && watching
      modifies this
      ensures Valid() && ok == !done
      ensures addrs == UpdatedAll(old(addrs), updates)
      ensures addrCh == if ok then Some(old(addrCh).value + [AllAddresses(addrs)]) else old(addrCh)
      ensures ok ==> !addrChClosed
      ensures next == old(next) && done == old(done) && blocked == old(blocked) && closed == old(closed)
      ensures waitCh == old(waitCh)
    {
      hide Updated;
      var k := 0;
      while k < |updates|
        invariant 0 <= k <= |updates| && addrs == UpdatedAll(old(addrs), updates[..k])
        invariant Distinct(addrs) && watching == old(watching) && addrCh == old(addrCh) && next == old(next)
        invariant done == old(done) && blocked == old(blocked) && closed == old(closed) && waitCh == old(waitCh)
        invariant addrChClosed == old(addrChClosed) && made == old(made) && !repeated
      {
        ghost var before := addrs;
        assert updates[..k + 1][..k] == updates[..k];
        ApplyUpdate(updates[k]);
        NamesOfUpdated(before, updates[k]);
        k := k + 1;
      }
      assert updates[..k] == updates;
      UpdatesAreSetOperations(old(addrs), updates);
      var open := AllAddresses(addrs);
      if done { return false; }
      addrCh := Some(addrCh.value + [open]);
      return true;
    }

    method ApplyUpdate(u: Update)
      modifies `addrs
      ensures addrs == Updated(old(addrs), u)
    {
      hide Without;
      match u
      case Add(x) =>
        var exist, i := false, 0;
        while i < |addrs|
          invariant 0 <= i <= |addrs| && addrs == old(addrs)
          invariant !exist && forall j :: 0 <= j < i ==> addrs[j].addr != x
        {
          if addrs[i].addr == x { exist := true; break; }
          i := i + 1;
        }
        if !exist { addrs := addrs + [AddrInfo(x, false)]; }
      case Delete(x) =>
        var i := 0;
        while i < |addrs|
          invariant 0 <= i <= |addrs| && addrs == old(addrs)
          invariant forall j :: 0 <= j < i ==> addrs[j].addr != x
        {
          if addrs[i].addr == x {
            WithoutAt(addrs, x, i);
            addrs := addrs[..i] + addrs[i + 1..];
            return;
          }
          i := i + 1;
        }
        WithoutAt(addrs, x, i);
      case Unknown =>
    }

    /** Connects `addr`, and wakes the blocked callers if it is now the only
        connection. Returns whether there is a `down` to call later. */
    method Up(addr: Address) returns (down: bool)
      requires Valid()
      modifies this
      ensures Valid()
      ensures down == (AddrInfo(addr, true) !in old(addrs))
      ensures down || Distinct(old(addrs)) ==> addrs == Marked(old(addrs), addr, true)
      ensures !down ==> exists i :: 0 <= i < |addrs| && UpAlready(old(addrs), addr, i) &&
                          addrs == Marked(old(addrs)[..i], addr, true) + old(addrs)[i..]
      ensures next == old(next) && done == old(done) && blocked == old(blocked) && old(closed) <= closed &&
              repeated == old(repeated)
      ensures if down && old(waitCh).Some? && Connections(addrs) == 1
                then waitCh == None && closed == old(closed) + {old(waitCh).value}
              else waitCh == old(waitCh) && closed == old(closed)
      ensures !repeated && Listed(addrs, addr) ==> forall g :: g in blocked ==> blocked[g] in closed
    {
      hide Connections, Occurrences, Distinct, Idle, Marked;
      ghost var all := Marked(old(addrs), addr, true);
      var cnt, i := 0, 0;
      NoConnections(all);
      MarkedAt(old(addrs), addr, true);
      while i < |addrs|
        invariant 0 <= i <= |addrs| == |old(addrs)|
        invariant forall j :: 0 <= j < i ==> addrs[j] == all[j] && old(addrs)[j] != AddrInfo(addr, true)
        invariant forall j :: i <= j < |addrs| ==> addrs[j] == old(addrs)[j]
        invariant cnt == Connections(all[..i])
        invariant unchanged(`next, `done, `blocked, `closed, `waitCh, `made, `watching, `addrCh, `addrChClosed,
                    `repeated)
      {
        var a := addrs[i];
        ConnectionsSnoc(all, i);
        if a.addr == addr {
          if a.connected {
            StillUp(old(addrs), addrs, i);
            StoppedAt(old(addrs), addrs, addr, i);
            return false;
          }
          a := AddrInfo(a.addr, true);
          addrs := addrs[i := a];
        }
        if a.connected { cnt := cnt + 1; }
        i := i + 1;
      }
      assert addrs == all && all[..i] == all;
      if waitCh.Some? && !repeated {
        ComesUp(old(addrs), addr);
        OccursOnce(old(addrs), addr);
      }
      if cnt == 1 && waitCh.Some? {
        closed := closed + {waitCh.value};
        waitCh := None;
      } else if waitCh.Some? && !repeated {
        NotListed(old(addrs), addr, true);
      }
      return true;
    }

    /** Disconnects `addr`. */
    method Down(addr: Address)
      requires Valid()
      modifies `addrs
      ensures Valid() && (!repeated ==> addrs == Marked(old(addrs), addr, false))
      ensures !Listed(old(addrs), addr) ==> addrs == old(addrs)
      ensures forall i :: 0 <= i < |old(addrs)| && old(addrs)[i].addr == addr && !Listed(old(addrs)[..i], addr) ==>
                addrs == old(addrs)[i := AddrInfo(addr, false)]
    {
      var i := 0;
      while i < |addrs|
        invariant 0 <= i <= |addrs| && addrs == old(addrs)
        invariant forall j :: 0 <= j < i ==> addrs[j].addr != addr
      {
        if addrs[i].addr == addr {
          addrs := addrs[i := AddrInfo(addr, false)];
          break;
        }
        i := i + 1;
      }
      assert !repeated ==> addrs == Marked(old(addrs), addr, false);
    }

    /** The search for a connected address, from where the turn stands, around. */
    method Pick() returns (r: Option<Address>)
      requires Valid()
      modifies `next
      ensures Valid()
      ensures addrs == [] ==> r == None && next == old(next)
      ensures addrs != [] ==>
                match First(addrs, Turn(addrs, old(next)), |addrs|)
                case None => r == None && next == Turn(addrs, old(next))
                case Some(i) => r == Some(addrs[i].addr) && next == After(i, |addrs|)
      ensures r == None <==> Idle(addrs)
    {
      if |addrs| == 0 { return None; }
      if next >= |addrs| { next := 0; }
      var n: nat := next;
      ghost var left: nat := |addrs|;
      NoneFound(addrs, next);
      while true
        invariant n < |addrs| && 0 < left <= |addrs| && next == Turn(addrs, old(next))
        invariant First(addrs, next, |addrs|) == First(addrs, n, left)
        invariant n == if next + (|addrs| - left) < |addrs| then next + (|addrs| - left) else next - left
        decreases left
      {
        var a := addrs[n];
        AfterIsModulo(n, |addrs|);
        n := (n + 1) % |addrs|;
        if a.connected {
          next := n;
          return Some(a.addr);
        }
        left := left - 1;
        if n == next { break; }
      }
      return None;
    }

    /** A call that finds the turn at `turn` ends with the next connected address, and
        leaves the turn after it. */
    ghost predicate InTurn(turn: nat, r: Outcome) reads this {
      addrs != [] &&
      var i := First(addrs, Turn(addrs, turn), |addrs|);
      i.Some? && r == Got(addrs[i.value].addr) && next == After(i.value, |addrs|)
    }

    /** The first section of `Get`, called by `g`. */
    method Get(g: nat, blockingWait: bool) returns (r: Outcome)
      requires Valid() && g !in blocked
      modifies this
      ensures Valid() && addrs == old(addrs) && done == old(done) && closed == old(closed) && repeated == old(repeated)
      ensures done <==> r == Closing
      ensures !done && !Idle(addrs) ==> InTurn(old(next), r)
      ensures !done && Idle(addrs) && !blockingWait ==>
                if addrs == [] then r == NoAddress
                else r == Got(addrs[Turn(addrs, old(next))].addr) && next == Turn(addrs, old(next)) + 1
      ensures !done && Idle(addrs) && blockingWait ==> r.Blocked? && waitCh == Some(r.ch)
      ensures blocked == if r.Blocked? then old(blocked)[g := r.ch] else old(blocked)
    {
      if done { return Closing; }
      var found := Pick();
      if found.Some? {
        if addrs != [] { NoneFound(addrs, Turn(addrs, old(next))); }
        return Got(found.value);
      }
      if !blockingWait {
        if |addrs| == 0 { return NoAddress; }
        r := Got(addrs[next].addr);
        next := next + 1;
        return r;
      }
      var ch := Wait();
      blocked := blocked[g := ch];
      return Blocked(ch);
    }

    /** The section of a blocked `Get` after its channel was closed. */
    method Wake(g: nat) returns (r: Outcome)
      requires Valid() && g in blocked && blocked[g] in closed
      modifies this
      ensures Valid() && addrs == old(addrs) && done == old(done) && closed == old(closed) && repeated == old(repeated)
      ensures done <==> r == Closing
      ensures !done && !Idle(addrs) ==> InTurn(old(next), r)
      ensures !done && Idle(addrs) ==> r.Blocked? && waitCh == Some(r.ch)
      ensures blocked == if r.Blocked? then old(blocked)[g := r.ch] else old(blocked) - {g}
    {
      if done {
        blocked := blocked - {g};
        return Closing;
      }
      var found := Pick();
      if found.Some? {
        NoneFound(addrs, Turn(addrs, old(next)));
        blocked := blocked - {g};
        return Got(found.value);
      }
      var ch := Wait();
      blocked := blocked[g := ch];
      return Blocked(ch);
    }

    /** The channel to wait on, made if there is none. */
    method Wait() returns (ch: nat)
      requires Valid() && !done && Idle(addrs)
      modifies `waitCh, `made
      ensures Valid() && waitCh == Some(ch) && ch !in closed
      ensures old(waitCh).Some? ==> waitCh == old(waitCh)
    {
      if waitCh.None? {
        waitCh, made := Some(made), made + 1;
      }
      return waitCh.value;
    }

    /** The context of a blocked `Get` ends. */
    ghost method Cancel(g: nat)
      requires Valid() && g in blocked
      modifies `blocked
      ensures Valid() && blocked == old(blocked) - {g}
    {
      blocked := blocked - {g};
    }

    /** Closes the balancer, once if it has a channel, and wakes whoever waits. */
    method Close()
      requires Valid() && (addrCh.Some? ==> !addrChClosed)
      modifies this
      ensures Valid() && done && addrs == old(addrs) && blocked == old(blocked) && repeated == old(repeated)
      ensures forall g :: g in blocked ==> blocked[g] in closed
      ensures addrCh.Some? ==> addrChClosed
    {
      done := true;
      if waitCh.Some? {
        closed := closed + {waitCh.value};
        waitCh := None;
      }
      if addrCh.Some? { addrChClosed := true; }
    }
  }

  // ---- Runs ----

  /** Calls of `Get` with no other step between them. As many as there are connected
      addresses return each of these once. */
  method GetRepeatedly(rr: RoundRobin, g: nat, m: nat) returns (rs: seq<Outcome>)
    requires rr.Valid() && !rr.done && !Idle(rr.addrs) && g !in rr.blocked
    modifies rr
    ensures rr.Valid() && rr.addrs == old(rr.addrs) && |rs| == m
    ensures var slots := Served(rr.addrs, old(rr.next), m);
            |slots| == m && forall k :: 0 <= k < m ==> slots[k] < |rr.addrs| && rs[k] == Got(rr.addrs[slots[k]].addr)
    ensures !rr.repeated && m == Connections(rr.addrs) ==>
              && (forall i :: 0 <= i < |rr.addrs| && rr.addrs[i].connected ==> Got(rr.addrs[i].addr) in rs)
              && (forall j, k :: 0 <= j < k < m ==> rs[j] != rs[k])
  {
    hide Connections, First, Distinct, Served;
    rs := [];
    ghost var slots: seq<nat> := [];
    ghost var a := rr.addrs;
    assert a != [];
    while |rs| < m
      invariant rr.Valid() && !rr.done && rr.addrs == a && rr.repeated == old(rr.repeated) &&
                rr.blocked == old(rr.blocked)
      invariant |rs| == |slots| <= m
      invariant Served(a, old(rr.next), m) == slots + Served(a, rr.next, m - |rs|)
      invariant forall k :: 0 <= k < |rs| ==> slots[k] < |a| && rs[k] == Got(a[slots[k]].addr)
    {
      ghost var turn, left := rr.next, m - |rs|;
      var r := rr.Get(g, true);
      ghost var i := First(a, Turn(a, turn), |a|).value;
      ServedOnce(a, turn, left, slots);
      rs, slots := rs + [r], slots + [i];
    }
    ServedNone(a, rr.next, slots);
    if !rr.repeated && m == Connections(a) { InOutcomes(a, old(rr.next), slots, rs); }
  }

  lemma {:induction false} ServedOnce(a: seq<AddrInfo>, turn: nat, left: nat, slots: seq<nat>)
    requires a != [] && left > 0 && First(a, Turn(a, turn), |a|).Some?
    ensures var i := First(a, Turn(a, turn), |a|).value;
            slots + Served(a, turn, left) == slots + [i] + Served(a, After(i, |a|), left - 1)
  {
    hide First;
    var i := First(a, Turn(a, turn), |a|).value;
    assert slots + ([i] + Served(a, After(i, |a|), left - 1)) == slots + [i] + Served(a, After(i, |a|), left - 1);
  }

  lemma {:induction false} ServedNone(a: seq<AddrInfo>, turn: nat, slots: seq<nat>)
    requires a != []
    ensures slots + Served(a, turn, 0) == slots
  {
  }

  lemma {:induction false} InOutcomes(a: seq<AddrInfo>, next: nat, slots: seq<nat>, rs: seq<Outcome>)
    requires a != [] && Distinct(a) && slots == Served(a, next, Connections(a)) && |rs| == |slots|
    requires forall k :: 0 <= k < |rs| ==> slots[k] < |a| && rs[k] == Got(a[slots[k]].addr)
    ensures forall i :: 0 <= i < |a| && a[i].connected ==> Got(a[i].addr) in rs
    ensures forall j, k :: 0 <= j < k < |rs| ==> rs[j] != rs[k]
  {
    hide Served, Connections, Distinct;
    EachConnectedOnce(a, next);
    var found := AddressesAt(a, slots);
    assert forall k :: 0 <= k < |rs| ==> rs[k] == Got(found[k]);
    forall i | 0 <= i < |a| && a[i].connected ensures Got(a[i].addr) in rs {
      var k :| 0 <= k < |found| && found[k] == a[i].addr;
      assert rs[k] == Got(a[i].addr);
    }
  }

  /** Started twice for one target, the balancer lists it twice; a call that waits is
      not woken when it comes up. */
  method StartedTwice(target: string, g: nat) returns (rr: RoundRobin)
    ensures rr.Valid() && AddrInfo(Address(target, 0), true) in rr.addrs
    ensures g in rr.blocked && rr.blocked[g] !in rr.closed
  {
    hide Connections;
    var x := Address(target, 0);
    rr := new RoundRobin(false);
    var ok := rr.Start(target, true);
    ok := rr.Start(target, true);
    ghost var a := [AddrInfo(x, false)];
    assert rr.addrs == a + [AddrInfo(x, false)] && a[0].addr == x;
    var r := rr.Get(g, true);
    var down := rr.Up(x);
    ComesUpTwice(a, x);
    assert rr.addrs[0] == AddrInfo(x, true);
  }
}
