/**
 Matching replies to requests by transaction id on one TCP connection (lib/modbus/modbus_tcp_client.c).
 The server echoes ids and answers in order; a request may time out and its reply come in later.
 */
module TcpTransactions {
  import opened Words
  import opened Modbus
  import opened TcpAdu
  import opened TcpStream
  import Rtu = RtuClient

  /** The id of the n-th request on a connection. */
  function Tid(n: nat): u16 {
    if n == 0 then 0 else NextTid(Tid(n - 1))
  }

  lemma {:induction false} TidClosedForm(n: nat)
    requires n > 0
    ensures Tid(n) == (n - 1) % 65535 + 1 && Tid(n) != 0
  {
    if n > 1 {
      TidClosedForm(n - 1);
      NextInTurn(Tid(n - 1), n - 2);
    }
  }

  lemma NextInTurn(t: u16, m: nat)
    requires t == m % 65535 + 1
    ensures NextTid(t) == (m + 1) % 65535 + 1
  {
  }

  /** Two requests share an id exactly when they are a multiple of 65535 apart. */
  lemma SameTidExactly(m: nat, n: nat)
    requires 0 < m <= n
    ensures Tid(m) == Tid(n) <==> (n - m) % 65535 == 0
  {
    TidClosedForm(m);
    TidClosedForm(n);
    Conclude(Tid(m), Tid(n), m, n);
  }

  lemma Conclude(s: u16, t: u16, m: nat, n: nat)
    requires 0 < m <= n && s == (m - 1) % 65535 + 1 && t == (n - 1) % 65535 + 1
    ensures s == t <==> (n - m) % 65535 == 0
  {
    SameRemainder(m - 1, n - 1, n - m);
  }

  lemma SameRemainder(a: nat, b: nat, gap: nat)
    requires b == a + gap
    ensures a % 65535 + 1 == b % 65535 + 1 <==> gap % 65535 == 0
  {
    var k, r := b / 65535 - a / 65535, b % 65535 - a % 65535;
    assert gap == 65535 * k + r;
  }

  // ---------------------------------------------------------------- runs of one connection

  /**
   One connection. Requests go by the number of their id: asked are those that reached the server and have no
   reply yet, queue are replies on their way by the request they answer, reached is every request that ever
   reached the server.
   */
  datatype Conn = Conn(sent: nat, waiting: bool, asked: seq<nat>, queue: seq<nat>, reached: seq<nat>, received: nat, timeouts: nat)

  const FRESH := Conn(0, false, [], [], [], 0, 0)

  /** A failed send uses up an id; Reply(i) answers the i-th open request and lets those before it go unanswered. */
  datatype Event = Send | SendFails | Reply(i: nat) | Receive | Timeout

  /** The server answers in the order of the requests; it may leave some out. */
  predicate Enabled(c: Conn, e: Event) {
    match e
    case Send => !c.waiting
    case SendFails => !c.waiting
    case Reply(i) => i < |c.asked|
    case Receive => c.waiting && c.queue != []
    case Timeout => c.waiting
  }

  function Next(c: Conn, e: Event): Conn
    requires Enabled(c, e)
  {
    match e
    case Send => c.(sent := c.sent + 1, waiting := true, asked := c.asked + [c.sent + 1], reached := c.reached + [c.sent + 1])
    case SendFails => c.(sent := c.sent + 1)
    case Reply(i) => c.(queue := c.queue + [c.asked[i]], asked := c.asked[i + 1..])
    case Receive => c.(queue := c.queue[1..], waiting := false, received := c.received + 1)
    case Timeout => c.(waiting := false, timeouts := c.timeouts + 1)
  }

  predicate Rising(q: seq<nat>) {
    forall i, j :: 0 <= i < j < |q| ==> q[i] < q[j]
  }

  predicate Upto(q: seq<nat>, n: nat) {
    forall i :: 0 <= i < |q| ==> 0 < q[i] <= n
  }

  predicate Inv(c: Conn) {
    && Rising(c.queue + c.asked) && Upto(c.queue + c.asked, c.sent)
    && Rising(c.reached) && Upto(c.reached, c.sent)
    && |c.reached| == c.received + c.timeouts + (if c.waiting then 1 else 0)
    && (c.waiting ==> c.reached[|c.reached| - 1] == c.sent)
  }

  predicate IsRun(states: seq<Conn>, events: seq<Event>) {
    && |states| == |events| + 1 && states[0] == FRESH
    && forall k :: 0 <= k < |events| ==> Enabled(states[k], events[k]) && states[k + 1] == Next(states[k], events[k])
  }

  lemma ReplyKeeps(queue: seq<nat>, asked: seq<nat>, i: nat, n: nat)
    requires Rising(queue + asked) && Upto(queue + asked, n) && i < |asked|
    ensures Rising((queue + [asked[i]]) + asked[i + 1..]) && Upto((queue + [asked[i]]) + asked[i + 1..], n)
  {
    var before, after := queue + asked, (queue + [asked[i]]) + asked[i + 1..];
    assert forall k :: 0 <= k < |after| ==> after[k] == before[if k < |queue| then k else k + i];
  }

  lemma OneMoreRises(q: seq<nat>, n: nat)
    requires Rising(q) && Upto(q, n)
    ensures Rising(q + [n + 1]) && Upto(q + [n + 1], n + 1)
  {
  }

  lemma StepKeeps(c: Conn, e: Event)
    requires Inv(c) && Enabled(c, e)
    ensures Inv(Next(c, e))
  {
    match e
    case Send => {
      OneMoreRises(c.queue + c.asked, c.sent);
      OneMoreRises(c.reached, c.sent);
      assert c.queue + (c.asked + [c.sent + 1]) == (c.queue + c.asked) + [c.sent + 1];
    }
    case SendFails =>
    case Reply(i) => ReplyKeeps(c.queue, c.asked, i, c.sent);
    case Receive => {
      assert c.queue[1..] + c.asked == (c.queue + c.asked)[1..];
    }
    case Timeout =>
  }

  lemma {:induction false} RunInvariant(states: seq<Conn>, events: seq<Event>, k: nat)
    requires IsRun(states, events) && k < |states|
    ensures Inv(states[k])
  {
    if k > 0 {
      RunInvariant(states, events, k - 1);
      StepKeeps(states[k - 1], events[k - 1]);
    }
  }

  /** The id of the next reply is the one the client waits for. */
  predicate Matches(c: Conn)
    requires c.queue != []
  {
    Tid(c.queue[0]) == Tid(c.sent)
  }

  lemma NothingBehind(c: Conn)
    requires Inv(c) && c.queue != []
    ensures 0 < c.queue[0] <= c.sent
    ensures c.queue[0] == c.sent ==> c.queue[1..] == []
  {
    var all := c.queue + c.asked;
    assert all[0] == c.queue[0];
    assert |c.queue| > 1 ==> all[1] == c.queue[1] && all[0] < all[1] <= c.sent;
  }

  /**
   In every run a reply that passes the id check answers this very request or one a multiple of 65535 before
   it; so with fewer than 65535 requests in between it is this one's, and nothing is left behind it.
   */
  lemma AcceptedIsThisRequests(states: seq<Conn>, events: seq<Event>, k: nat)
    requires IsRun(states, events) && k < |events| && events[k] == Receive
    ensures Enabled(states[k], Receive) && states[k].queue[0] <= states[k].sent
    ensures Matches(states[k]) <==> (states[k].sent - states[k].queue[0]) % 65535 == 0
    ensures Matches(states[k]) && states[k].sent - states[k].queue[0] < 65535 ==>
      states[k].queue[0] == states[k].sent && states[k + 1].queue == []
  {
    RunInvariant(states, events, k);
    assert Enabled(states[k], events[k]) && states[k + 1] == Next(states[k], events[k]);
    NothingBehind(states[k]);
    SameTidExactly(states[k].queue[0], states[k].sent);
  }

  // ---------------------------------------------------------------- a server that answers everything

  predicate AnswersAll(events: seq<Event>) {
    forall k :: 0 <= k < |events| && events[k].Reply? ==> events[k].i == 0
  }

  /** Then what was asked and not received yet is the end of what reached the server. */
  predicate Backlog(c: Conn) {
    c.received <= |c.reached| && c.queue + c.asked == c.reached[c.received..]
  }

  lemma BacklogStep(c: Conn, e: Event)
    requires Backlog(c) && Enabled(c, e) && (e.Reply? ==> e.i == 0)
    ensures Backlog(Next(c, e))
  {
    match e
    case Send => assert c.queue + (c.asked + [c.sent + 1]) == (c.queue + c.asked) + [c.sent + 1];
    case SendFails =>
    case Reply(_) => assert (c.queue + [c.asked[0]]) + c.asked[1..] == c.queue + c.asked;
    case Receive => assert c.queue[1..] + c.asked == (c.queue + c.asked)[1..];
    case Timeout =>
  }

  lemma {:induction false} BacklogInvariant(states: seq<Conn>, events: seq<Event>, k: nat)
    requires IsRun(states, events) && AnswersAll(events) && k < |states|
    ensures Backlog(states[k])
  {
    if k > 0 {
      BacklogInvariant(states, events, k - 1);
      assert Enabled(states[k - 1], events[k - 1]);
      BacklogStep(states[k - 1], events[k - 1]);
    }
  }

  lemma {:induction false} RisesByOne(q: seq<nat>, i: nat, n: nat)
    requires Rising(q) && i + n < |q|
    ensures q[i + n] - q[i] >= n
    decreases n
  {
    if n > 0 {
      RisesByOne(q, i, n - 1);
      assert q[i + n - 1] < q[i + n];
    }
  }

  /** How far the next reply lags behind the request being waited for. */
  function Lag(c: Conn): int
    requires c.queue != []
  {
    c.sent - c.queue[0]
  }

  /**
   A lag is for good: with such a server every reply is at least as many requests late as requests have timed
   out on this connection, and exactly as many if no send failed. It matches exactly if the lag is a multiple
   of 65535. So all is well until the first timeout, and after it nothing matches before the ids have gone
   all the way round; a new connection starts afresh.
   */
  lemma MatchesExactlyWithoutLag(states: seq<Conn>, events: seq<Event>, k: nat)
    requires IsRun(states, events) && AnswersAll(events) && k < |events| && events[k] == Receive
    ensures Enabled(states[k], Receive)
    ensures var c := states[k];
      && (Matches(c) <==> Lag(c) % 65535 == 0)
      && (c.timeouts == 0 ==> Lag(c) == 0)
      && Lag(c) >= c.timeouts
      && (|c.reached| == c.sent ==> Lag(c) == c.timeouts)
  {
    AcceptedIsThisRequests(states, events, k);
    RunInvariant(states, events, k);
    BacklogInvariant(states, events, k);
    var c := states[k];
    assert (c.queue + c.asked)[0] == c.queue[0] == c.reached[c.received..][0] == c.reached[c.received];
    RisesByOne(c.reached, c.received, c.timeouts);
    if |c.reached| == c.sent {
      AllReached(c.reached, c.sent, c.received);
    }
  }

  /** When no send failed, the n-th request to reach the server is request n. */
  lemma AllReached(reached: seq<nat>, n: nat, i: nat)
    requires Rising(reached) && Upto(reached, n) && |reached| == n && i < n
    ensures reached[i] == i + 1
  {
    RisesByOne(reached, 0, i);
    RisesByOne(reached, i, n - 1 - i);
  }

  /** A run in which a reply does not match: the first request times out, and its reply comes in for the second. */
  lemma LateReply() returns (states: seq<Conn>, events: seq<Event>)
    ensures IsRun(states, events) && AnswersAll(events) && events == [Send, Timeout, Send, Reply(0), Receive]
    ensures states[4].queue == [1] && states[4].sent == 2 && !Matches(states[4])
  {
    var c1 := Next(FRESH, Send);
    var c2 := Next(c1, Timeout);
    var c3 := Next(c2, Send);
    assert c3.asked == [1, 2];
    var c4 := Next(c3, Reply(0));
    states, events := [FRESH, c1, c2, c3, c4, Next(c4, Receive)], [Send, Timeout, Send, Reply(0), Receive];
    SameTidExactly(1, 2);
  }

  // ---------------------------------------------------------------- down to the bytes

  /** The frame with which the server answers request m: well-formed, with the id echoed. */
  ghost predicate Echoes(reply: nat -> seq<byte>) {
    forall m: nat :: WellFormed(reply(m)) && Join(reply(m)[0], reply(m)[1]) == Tid(m)
  }

  function Replies(reply: nat -> seq<byte>, queue: seq<nat>): (r: seq<seq<byte>>)
    ensures |r| == |queue|
    ensures forall i :: 0 <= i < |queue| ==> r[i] == reply(queue[i])
  {
    seq(|queue|, i requires 0 <= i < |queue| => reply(queue[i]))
  }

  /**
   When the client makes anything but an id error of the stream of replies, the bytes it judged are the
   frame with which the server answered this very request, and no reply is left in the stream.
   */
  lemma JudgedBytesAreThisRequests(states: seq<Conn>, events: seq<Event>, k: nat, reply: nat -> seq<byte>,
                                   stack: seq<byte>, qty: u16)
    requires IsRun(states, events) && k < |events| && events[k] == Receive && Echoes(reply) && |stack| == MAX_ADU
    requires states[k].queue != [] && states[k].queue[0] <= states[k].sent < states[k].queue[0] + 65535
    ensures var stream := Concat(Replies(reply, states[k].queue));
      && NextAdu(stream).Some?
      && var adu := NextAdu(stream).value;
         && (Judged(Over(adu, stack), |adu|, Tid(states[k].sent), qty) != Refused(ERR_TID) <==> Matches(states[k]))
         && (Matches(states[k]) ==> adu == reply(states[k].sent) == stream)
  {
    AcceptedIsThisRequests(states, events, k);
    var queue := states[k].queue;
    var adus := Replies(reply, queue);
    KthAdu(adus, [], 0);
    assert adus[0..] == adus && Concat(adus) + [] == Concat(adus);
    var adu := adus[0];
    assert WellFormed(reply(queue[0]));
    assert Over(adu, stack)[0] == adu[0] && Over(adu, stack)[1] == adu[1];
    if Matches(states[k]) {
      assert states[k + 1].queue == queue[1..];
      assert adus[1..] == [];
      assert Concat(adus) == adus[0] + [];
    }
  }
}
