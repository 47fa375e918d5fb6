/**
 The gateway hub: an index from users to their live connections, and one
 bounded outbound queue per connection. A delivery takes its snapshot under the
 lock and sends after releasing it, so connections come and go in between.
 */
module Hub {

  type ClientId = nat
  type Payload = nat

  const QUEUE_CAP: nat := 256

  /** A queued frame remembers which delivery put it there. */
  datatype Frame = Event(delivery: nat, payload: Payload) | Response(code: nat)

  /** `user` is empty until the connection authenticates; `registered` is set by `hub.add`, `removed` by the
      once-guarded `remove`, `closed` when the gateway closes the socket of a slow consumer (its read loop then ends
      and removes it). `offered` is everything ever enqueued, `taken` what the write loop received. */
  datatype Client = Client(
    user: string, registered: bool, removed: bool, closed: bool,
    queue: seq<Frame>, taken: seq<Frame>, offered: seq<Frame>)

  const NewClient := Client("", false, false, false, [], [], [])

  /** A delivery between its snapshot and its last send. `reached` is the set behind the `delivered` counter. */
  datatype Delivery = Delivery(
    payload: Payload, snapshot: set<ClientId>, todo: set<ClientId>, reached: set<ClientId>, delivered: nat, slow: nat)

  type Users = map<string, set<ClientId>>

  datatype State = State(clients: map<ClientId, Client>, users: Users, deliveries: map<nat, Delivery>)

  const Initial := State(map[], map[], map[])

  // ---- The index ----

  function Entry(users: Users, u: string): set<ClientId> {
    if u in users then users[u] else {}
  }

  /** `hub.add`. */
  function AddTo(users: Users, u: string, c: ClientId): Users {
    users[u := Entry(users, u) + {c}]
  }

  /** `remove`: drop the connection, and the user with it when it was the last. */
  function RemoveFrom(users: Users, u: string, c: ClientId): Users {
    if u !in users then users
    else if users[u] - {c} == {} then users - {u}
    else users[u := users[u] - {c}]
  }

  /** The distinct connections of the target users. */
  function ClientsOf(users: Users, targets: seq<string>): set<ClientId> {
    set u, c | u in users && u in targets && c in users[u] :: c
  }

  // ---- The queues ----

  /** A non-blocking send: enqueue when there is room, otherwise leave the queue alone and close the connection. */
  function Offer(c: Client, f: Frame): Client {
    if |c.queue| < QUEUE_CAP then c.(queue := c.queue + [f], offered := c.offered + [f]) else c.(closed := true)
  }

  predicate HasRoom(c: Client) {
    |c.queue| < QUEUE_CAP
  }

  function Copies(frames: seq<Frame>, delivery: nat): nat {
    if frames == [] then 0
    else Copies(frames[..|frames| - 1], delivery)
         + (if frames[|frames| - 1].Event? && frames[|frames| - 1].delivery == delivery then 1 else 0)
  }

  lemma CopiesAppend(frames: seq<Frame>, f: Frame, delivery: nat)
    ensures Copies(frames + [f], delivery) == Copies(frames, delivery) + Copies([f], delivery)
    ensures Copies([f], delivery) == if f.Event? && f.delivery == delivery then 1 else 0
  {
    assert (frames + [f])[..|frames|] == frames;
    assert [f][..0] == [];
  }

  // ---- Steps ----

  datatype Step =
    | Connect(c: ClientId)
    | Identify(c: ClientId, user: string)
    | Register(c: ClientId)
    | Remove(c: ClientId)
    | Respond(c: ClientId, code: nat)
    | Take(c: ClientId)
    | Snapshot(d: nat, targets: seq<string>, payload: Payload)
    | Send(d: nat, c: ClientId)

  predicate Live(s: State, c: ClientId) {
    c in s.clients && s.clients[c].registered && !s.clients[c].removed
  }

  /** The read loop names a connection once, registers it next, and removes it only when it ends. */
  function Apply(s: State, step: Step): State {
    match step
    case Connect(c) => if c in s.clients then s else s.(clients := s.clients[c := NewClient])
    case Identify(c, user) =>
      if c in s.clients && s.clients[c].user == "" && !s.clients[c].removed && user != ""
      then s.(clients := s.clients[c := s.clients[c].(user := user)]) else s
    case Register(c) =>
      if c in s.clients && s.clients[c].user != "" && !s.clients[c].removed
      then s.(clients := s.clients[c := s.clients[c].(registered := true)],
              users := AddTo(s.users, s.clients[c].user, c))
      else s
    case Remove(c) =>
      if c in s.clients && !s.clients[c].removed && (s.clients[c].user == "" || s.clients[c].registered)
      then s.(clients := s.clients[c := s.clients[c].(removed := true)],
              users := RemoveFrom(s.users, s.clients[c].user, c))
      else s
    case Respond(c, code) =>
      if c in s.clients then s.(clients := s.clients[c := Offer(s.clients[c], Response(code))]) else s
    case Take(c) =>
      if c in s.clients && s.clients[c].queue != []
      then s.(clients := s.clients[c := s.clients[c].(queue := s.clients[c].queue[1..],
                                                      taken := s.clients[c].taken + [s.clients[c].queue[0]])])
      else s
    case Snapshot(d, targets, payload) =>
      if d in s.deliveries then s
      else
        var snapshot := ClientsOf(s.users, targets);
        s.(deliveries := s.deliveries[d := Delivery(payload, snapshot, snapshot, {}, 0, 0)])
    case Send(d, c) => SendOne(s, d, c)
  }

  function SendOne(s: State, d: nat, c: ClientId): State {
    if d !in s.deliveries || c !in s.deliveries[d].todo || c !in s.clients then s
    else
      var v := s.deliveries[d];
      var room := HasRoom(s.clients[c]);
      s.(clients := s.clients[c := Offer(s.clients[c], Event(d, v.payload))],
         deliveries := s.deliveries[d := v.(
           todo := v.todo - {c},
           reached := if room then v.reached + {c} else v.reached,
           delivered := if room then v.delivered + 1 else v.delivered,
           slow := if room then v.slow else v.slow + 1)])
  }

  function Run(s: State, steps: seq<Step>): State
    decreases |steps|
  {
    if steps == [] then s else Apply(Run(s, steps[..|steps| - 1]), steps[|steps| - 1])
  }

  // ---- The invariant ----

  /** The index holds exactly the registered, not yet removed connections under their own users. */
  ghost predicate IndexInv(s: State) {
    && (forall u | u in s.users :: s.users[u] != {} && u != "")
    && (forall u, c | u in s.users && c in s.users[u] :: Live(s, c) && s.clients[c].user == u)
    && (forall c | Live(s, c) :: c in Entry(s.users, s.clients[c].user))
    && (forall c | c in s.clients && s.clients[c].registered :: s.clients[c].user != "")
  }

  /** Every frame enqueued is either taken or still queued, in order, and the queue stays within the cap. */
  ghost predicate QueueOk(c: Client) {
    |c.queue| <= QUEUE_CAP && c.offered == c.taken + c.queue
  }

  ghost predicate QueueInv(s: State) {
    forall c | c in s.clients :: QueueOk(s.clients[c])
  }

  /** One delivery: it accounts for its whole snapshot, and has put one copy exactly where it says. */
  ghost predicate DeliveryInv(s: State, d: nat, v: Delivery) {
    && v.todo <= v.snapshot && v.reached <= v.snapshot - v.todo
    && (forall c | c in v.snapshot :: c in s.clients)
    && |v.reached| == v.delivered && v.delivered + v.slow + |v.todo| == |v.snapshot|
    && (forall c | c in s.clients :: Copies(s.clients[c].offered, d) == if c in v.reached then 1 else 0)
    && (forall c | c in v.snapshot - v.todo - v.reached :: s.clients[c].closed)
  }

  ghost predicate FanOutInv(s: State) {
    && (forall d | d in s.deliveries :: DeliveryInv(s, d, s.deliveries[d]))
    && (forall d, c | d !in s.deliveries && c in s.clients :: Copies(s.clients[c].offered, d) == 0)
  }

  ghost predicate Inv(s: State) {
    IndexInv(s) && QueueInv(s) && FanOutInv(s)
  }

  // ---- Preservation ----

  lemma IndexStep(s: State, step: Step)
    requires IndexInv(s)
    ensures IndexInv(Apply(s, step))
  {
    match step
    case Register(c) => RegisterIndex(s, c);
    case Remove(c) => RemoveIndex(s, c);
    case _ =>
      var t := Apply(s, step);
      assert t.users == s.users;
      assert forall x :: Live(t, x) <==> Live(s, x);
  }

  lemma RegisterIndex(s: State, c: ClientId)
    requires IndexInv(s)
    ensures IndexInv(Apply(s, Register(c)))
  {
    var t := Apply(s, Register(c));
    if t != s {
      var u := s.clients[c].user;
      assert forall x | x != c :: Live(t, x) <==> Live(s, x);
      forall x | Live(t, x) ensures x in Entry(t.users, t.clients[x].user) {
        if x != c {
          assert x in Entry(s.users, s.clients[x].user);
        }
      }
    }
  }

  lemma RemoveIndex(s: State, c: ClientId)
    requires IndexInv(s)
    ensures IndexInv(Apply(s, Remove(c)))
  {
    var t := Apply(s, Remove(c));
    if t != s {
      assert forall x | x != c :: Live(t, x) <==> Live(s, x);
      forall x | Live(t, x) ensures x in Entry(t.users, t.clients[x].user) {
        assert x != c && x in Entry(s.users, s.clients[x].user);
      }
    }
  }

  lemma OfferQueue(c: Client, f: Frame)
    requires QueueOk(c)
    ensures QueueOk(Offer(c, f))
  {
  }

  lemma TakeQueue(c: Client)
    requires QueueOk(c) && c.queue != []
    ensures QueueOk(c.(queue := c.queue[1..], taken := c.taken + [c.queue[0]]))
  {
    assert c.taken + c.queue == c.taken + [c.queue[0]] + c.queue[1..];
  }

  lemma QueueStep(s: State, step: Step)
    requires QueueInv(s)
    ensures QueueInv(Apply(s, step))
  {
    match step
    case Respond(c, code) =>
      if c in s.clients {
        OfferQueue(s.clients[c], Response(code));
      }
    case Send(d, c) =>
      if d in s.deliveries && c in s.clients {
        OfferQueue(s.clients[c], Event(d, s.deliveries[d].payload));
      }
    case Take(c) =>
      if c in s.clients && s.clients[c].queue != [] {
        TakeQueue(s.clients[c]);
      }
    case _ =>
  }

  /** c holds the same number of copies of every delivery in both states, and is not reopened. */
  ghost predicate SameCopies(s: State, t: State, c: ClientId)
    requires c in s.clients && c in t.clients
  {
    && (s.clients[c].closed ==> t.clients[c].closed)
    && forall d :: Copies(t.clients[c].offered, d) == Copies(s.clients[c].offered, d)
  }

  /** Steps that neither deliver nor enqueue an event leave the fan-out alone. */
  lemma FanOutFrame(s: State, t: State)
    requires FanOutInv(s) && t.deliveries == s.deliveries && t.clients.Keys == s.clients.Keys
    requires forall c | c in s.clients :: SameCopies(s, t, c)
    ensures FanOutInv(t)
  {
    forall d | d in t.deliveries ensures DeliveryInv(t, d, t.deliveries[d]) {
      assert DeliveryInv(s, d, s.deliveries[d]);
      forall c | c in t.clients
        ensures Copies(t.clients[c].offered, d) == if c in t.deliveries[d].reached then 1 else 0
      {
        assert SameCopies(s, t, c);
      }
    }
    forall d, c | d !in t.deliveries && c in t.clients ensures Copies(t.clients[c].offered, d) == 0 {
      assert SameCopies(s, t, c);
    }
  }

  lemma QuietOffers(s: State, step: Step)
    requires step.Identify? || step.Register? || step.Remove? || step.Take?
    ensures var t := Apply(s, step);
            t.deliveries == s.deliveries && t.clients.Keys == s.clients.Keys
            && forall c | c in s.clients ::
                 t.clients[c].offered == s.clients[c].offered && t.clients[c].closed == s.clients[c].closed
  {
  }

  lemma QuietStep(s: State, step: Step)
    requires FanOutInv(s) && (step.Identify? || step.Register? || step.Remove? || step.Take?)
    ensures FanOutInv(Apply(s, step))
  {
    QuietOffers(s, step);
    FanOutFrame(s, Apply(s, step));
  }

  lemma RespondFanOut(s: State, c: ClientId, code: nat)
    requires FanOutInv(s)
    ensures FanOutInv(Apply(s, Respond(c, code)))
  {
    if c in s.clients {
      var t := Apply(s, Respond(c, code));
      forall d ensures Copies(t.clients[c].offered, d) == Copies(s.clients[c].offered, d) {
        CopiesAppend(s.clients[c].offered, Response(code), d);
      }
      assert SameCopies(s, t, c);
      FanOutFrame(s, t);
    }
  }

  lemma ConnectFanOut(s: State, c: ClientId)
    requires FanOutInv(s)
    ensures FanOutInv(Apply(s, Connect(c)))
  {
    var t := Apply(s, Connect(c));
    forall d | d in t.deliveries ensures DeliveryInv(t, d, t.deliveries[d]) {
      assert DeliveryInv(s, d, s.deliveries[d]);
    }
  }

  lemma FanOutStep(s: State, step: Step)
    requires IndexInv(s) && FanOutInv(s)
    ensures FanOutInv(Apply(s, step))
  {
    match step
    case Snapshot(d, targets, payload) => SnapshotFanOut(s, d, targets, payload);
    case Send(d, c) => SendFanOut(s, d, c);
    case Respond(c, code) => RespondFanOut(s, c, code);
    case Connect(c) => ConnectFanOut(s, c);
    case _ => QuietStep(s, step);
  }

  lemma SnapshotFanOut(s: State, d: nat, targets: seq<string>, payload: Payload)
    requires IndexInv(s) && FanOutInv(s)
    ensures FanOutInv(Apply(s, Snapshot(d, targets, payload)))
  {
    var t := Apply(s, Snapshot(d, targets, payload));
    forall e | e in t.deliveries ensures DeliveryInv(t, e, t.deliveries[e]) {
      if e in s.deliveries {
        assert DeliveryInv(s, e, s.deliveries[e]);
      } else {
        forall c | c in t.deliveries[e].snapshot ensures c in s.clients {
          var u :| u in s.users && u in targets && c in s.users[u];
          assert Live(s, c);
        }
      }
    }
  }

  lemma SendFanOut(s: State, d: nat, c: ClientId)
    requires FanOutInv(s)
    ensures FanOutInv(SendOne(s, d, c))
  {
    var t := SendOne(s, d, c);
    if d in s.deliveries && c in s.deliveries[d].todo && c in s.clients {
      forall e | e in t.deliveries ensures DeliveryInv(t, e, t.deliveries[e]) {
        assert DeliveryInv(s, e, s.deliveries[e]);
        if e == d {
          SendCounts(s, d, c);
        } else {
          SendOther(s, d, c, e);
        }
      }
      forall e, x | e !in t.deliveries && x in t.clients ensures Copies(t.clients[x].offered, e) == 0 {
        SendCopies(s, d, c, x, e);
      }
    }
  }

  lemma SendCopies(s: State, d: nat, c: ClientId, x: ClientId, e: nat)
    requires x in s.clients && e != d
    ensures x in SendOne(s, d, c).clients
    ensures Copies(SendOne(s, d, c).clients[x].offered, e) == Copies(s.clients[x].offered, e)
  {
    if x == c && d in s.deliveries {
      CopiesAppend(s.clients[c].offered, Event(d, s.deliveries[d].payload), e);
    }
  }

  lemma SendOther(s: State, d: nat, c: ClientId, e: nat)
    requires e in s.deliveries && e != d && DeliveryInv(s, e, s.deliveries[e])
    ensures e in SendOne(s, d, c).deliveries && DeliveryInv(SendOne(s, d, c), e, SendOne(s, d, c).deliveries[e])
  {
    var t := SendOne(s, d, c);
    forall x | x in t.clients
      ensures Copies(t.clients[x].offered, e) == if x in t.deliveries[e].reached then 1 else 0
    {
      SendCopies(s, d, c, x, e);
    }
  }

  lemma SendCounts(s: State, d: nat, c: ClientId)
    requires d in s.deliveries && c in s.deliveries[d].todo && c in s.clients && DeliveryInv(s, d, s.deliveries[d])
    ensures DeliveryInv(SendOne(s, d, c), d, SendOne(s, d, c).deliveries[d])
  {
    var t := SendOne(s, d, c);
    SendTallies(s, d, c);
    forall x | x in t.clients
      ensures Copies(t.clients[x].offered, d) == if x in t.deliveries[d].reached then 1 else 0
    {
      if x == c {
        CopiesAppend(s.clients[c].offered, Event(d, s.deliveries[d].payload), d);
      }
    }
  }

  /** The counters of one send: the connection leaves `todo` for `reached`, or is closed. */
  lemma SendTallies(s: State, d: nat, c: ClientId)
    requires d in s.deliveries && c in s.deliveries[d].todo && c in s.clients && DeliveryInv(s, d, s.deliveries[d])
    ensures var t := SendOne(s, d, c); d in t.deliveries && t.clients.Keys == s.clients.Keys
    ensures var t := SendOne(s, d, c); var v := t.deliveries[d];
            && v.todo <= v.snapshot && v.reached <= v.snapshot - v.todo
            && |v.reached| == v.delivered && v.delivered + v.slow + |v.todo| == |v.snapshot|
            && (forall x | x in v.snapshot - v.todo - v.reached :: x in t.clients && t.clients[x].closed)
  {
  }

  lemma {:induction false} RunInv(steps: seq<Step>)
    ensures Inv(Run(Initial, steps))
    decreases |steps|
  {
    if steps == [] {
    } else {
      var s := Run(Initial, steps[..|steps| - 1]);
      RunInv(steps[..|steps| - 1]);
      IndexStep(s, steps[|steps| - 1]);
      QueueStep(s, steps[|steps| - 1]);
      FanOutStep(s, steps[|steps| - 1]);
    }
  }

  // ---- What every run guarantees ----

  /** The index is exactly the relation (user of c, c) over live connections, with no empty entry, so the users
      `online` lists are exactly those with a live connection. */
  lemma IndexIsLiveConnections(steps: seq<Step>, u: string)
    ensures var s := Run(Initial, steps);
            && Entry(s.users, u) == (set c | c in s.clients && Live(s, c) && s.clients[c].user == u)
            && (u in s.users <==> exists c :: Live(s, c) && s.clients[c].user == u)
  {
    RunInv(steps);
    var s := Run(Initial, steps);
    if u in s.users {
      var c :| c in s.users[u];
      assert Live(s, c) && s.clients[c].user == u;
    }
  }

  lemma RunNext(steps: seq<Step>, i: nat)
    requires i < |steps|
    ensures Run(Initial, steps[..i + 1]) == Apply(Run(Initial, steps[..i]), steps[i])
  {
    assert steps[..i + 1][..i] == steps[..i];
  }

  /** c is still there; a name once given stays, and so does a removal. */
  ghost predicate KeepsIdentity(s: State, t: State, c: ClientId) {
    c in s.clients ==>
      && c in t.clients
      && (s.clients[c].user != "" ==> t.clients[c].user == s.clients[c].user)
      && (s.clients[c].removed ==> t.clients[c].removed && t.clients[c].user == s.clients[c].user)
  }

  lemma IdentityStep(s: State, step: Step, c: ClientId)
    ensures KeepsIdentity(s, Apply(s, step), c)
  {
  }

  lemma IdentityTransitive(s: State, t: State, u: State, c: ClientId)
    requires KeepsIdentity(s, t, c) && KeepsIdentity(t, u, c)
    ensures KeepsIdentity(s, u, c)
  {
  }

  /** A connection's identity is set at most once, and a removed connection never comes back. */
  lemma {:induction false} IdentityIsFinal(steps: seq<Step>, i: nat, j: nat, c: ClientId)
    requires i <= j <= |steps|
    ensures KeepsIdentity(Run(Initial, steps[..i]), Run(Initial, steps[..j]), c)
    decreases j
  {
    if i == j {
    } else {
      IdentityIsFinal(steps, i, j - 1, c);
      RunNext(steps, j - 1);
      IdentityStep(Run(Initial, steps[..j - 1]), steps[j - 1], c);
      IdentityTransitive(Run(Initial, steps[..i]), Run(Initial, steps[..j - 1]), Run(Initial, steps[..j]), c);
    }
  }

  /** The connections that were handed a copy of delivery d. */
  function Holders(s: State, d: nat): set<ClientId> {
    set c | c in s.clients && Copies(s.clients[c].offered, d) == 1
  }

  /** Fan-out conservation: one copy at most per snapshotted connection however often its user is targeted,
      delivered plus slow plus unsent is the snapshot, `delivered` counts exactly the connections reached, and those
      passed over have been closed. */
  lemma FanOut(steps: seq<Step>, d: nat)
    requires d in Run(Initial, steps).deliveries
    ensures var s := Run(Initial, steps); var v := s.deliveries[d];
            && v.delivered + v.slow + |v.todo| == |v.snapshot|
            && v.delivered == |Holders(s, d)|
            && (forall c | c in s.clients :: Copies(s.clients[c].offered, d) <= 1)
            && (forall c | c in s.clients && Copies(s.clients[c].offered, d) == 1 :: c in v.snapshot - v.todo)
            && (forall c | c in v.snapshot - v.todo :: c in s.clients && (c in Holders(s, d) || s.clients[c].closed))
  {
    RunInv(steps);
    var s := Run(Initial, steps);
    var v := s.deliveries[d];
    assert DeliveryInv(s, d, v);
    assert v.reached == Holders(s, d);
  }

  /** The snapshot of a delivery is the set of connections live under its targets at that moment. */
  lemma SnapshotIsLive(steps: seq<Step>, targets: seq<string>)
    ensures var s := Run(Initial, steps);
            ClientsOf(s.users, targets) == (set c | c in s.clients && Live(s, c) && s.clients[c].user in targets)
  {
    RunInv(steps);
    var s := Run(Initial, steps);
    forall c | c in s.clients && Live(s, c) && s.clients[c].user in targets ensures c in ClientsOf(s.users, targets) {
      assert c in Entry(s.users, s.clients[c].user);
    }
  }

  // ---- What each step does ----

  /** A connection that authenticates as u is live from then on, listed under u beside whoever was there, and nothing
      else in the index moves. */
  lemma AuthenticatedIsListed(s: State, c: ClientId, u: string)
    requires c !in s.clients && u != ""
    ensures var t := Apply(Apply(Apply(s, Connect(c)), Identify(c, u)), Register(c));
            && Live(t, c) && t.clients[c].user == u && t.clients[c].queue == []
            && Entry(t.users, u) == Entry(s.users, u) + {c}
            && (forall v | v != u :: Entry(t.users, v) == Entry(s.users, v))
  {
    var one := Apply(s, Connect(c));
    assert one.clients == s.clients[c := NewClient];
    var two := Apply(one, Identify(c, u));
    assert two.clients == s.clients[c := NewClient.(user := u)];
  }

  /** A connection that ends is live no more and listed nowhere; the others stay as they are. */
  lemma EndedIsUnlisted(s: State, c: ClientId)
    requires IndexInv(s) && Live(s, c)
    ensures var t := Apply(s, Remove(c)); var u := s.clients[c].user;
            && !Live(t, c) && Entry(t.users, u) == Entry(s.users, u) - {c}
            && (u in t.users <==> Entry(s.users, u) != {c})
            && (forall v | v != u :: Entry(t.users, v) == Entry(s.users, v))
  {
    assert c in Entry(s.users, s.clients[c].user);
  }

  /** A response is enqueued last while fewer than 256 frames wait, and otherwise costs the client its connection. */
  lemma RespondOrClose(s: State, c: ClientId, code: nat)
    requires c in s.clients
    ensures var x, y := s.clients[c], Apply(s, Respond(c, code)).clients[c];
            y == if |x.queue| < 256
                 then x.(queue := x.queue + [Response(code)], offered := x.offered + [Response(code)])
                 else x.(closed := true)
  {
  }

  /** So does an event to a connection of its delivery; the counters tell the two cases apart. */
  lemma SendOrClose(s: State, d: nat, c: ClientId)
    requires d in s.deliveries && c in s.deliveries[d].todo && c in s.clients
    ensures var t := Apply(s, Send(d, c)); var x, y := s.clients[c], t.clients[c];
            var f := Event(d, s.deliveries[d].payload);
            && d in t.deliveries
            && (if |x.queue| < 256
                then y == x.(queue := x.queue + [f], offered := x.offered + [f])
                     && t.deliveries[d].delivered == s.deliveries[d].delivered + 1
                     && t.deliveries[d].slow == s.deliveries[d].slow
                else y == x.(closed := true) && t.deliveries[d].slow == s.deliveries[d].slow + 1
                     && t.deliveries[d].delivered == s.deliveries[d].delivered)
  {
  }

  /** The write loop, left alone, takes everything a connection was ever offered, in order. */
  lemma {:induction false} WriteLoopDrains(s: State, c: ClientId) returns (steps: seq<Step>)
    requires c in s.clients && QueueOk(s.clients[c])
    ensures c in Run(s, steps).clients && (forall i | 0 <= i < |steps| :: steps[i] == Take(c))
    ensures var x := Run(s, steps).clients[c]; x.queue == [] && x.taken == s.clients[c].offered == x.offered
    decreases |s.clients[c].queue|
  {
    if s.clients[c].queue == [] {
      steps := [];
    } else {
      var t := Apply(s, Take(c));
      TakeQueue(s.clients[c]);
      var more := WriteLoopDrains(t, c);
      steps := [Take(c)] + more;
      RunFirst(s, Take(c), more);
    }
  }

  lemma {:induction false} RunFirst(s: State, step: Step, more: seq<Step>)
    ensures Run(s, [step] + more) == Run(Apply(s, step), more)
    decreases |more|
  {
    var all := [step] + more;
    if more == [] {
      assert all == [step] && [step][..0] == [];
    } else {
      assert all[..|all| - 1] == [step] + more[..|more| - 1];
      RunFirst(s, step, more[..|more| - 1]);
    }
  }

  // ---- Who gets a delivery ----

  /** Delivery d keeps the payload and the snapshot it began with. */
  ghost predicate KeepsDelivery(s: State, t: State, d: nat) {
    d in s.deliveries ==>
      && d in t.deliveries && t.deliveries[d].payload == s.deliveries[d].payload
      && t.deliveries[d].snapshot == s.deliveries[d].snapshot
  }

  lemma DeliveryStep(s: State, step: Step, d: nat)
    ensures KeepsDelivery(s, Apply(s, step), d)
  {
  }

  lemma {:induction false} DeliveryStays(steps: seq<Step>, i: nat, j: nat, d: nat)
    requires i <= j <= |steps|
    ensures KeepsDelivery(Run(Initial, steps[..i]), Run(Initial, steps[..j]), d)
    decreases j
  {
    if i == j {
    } else {
      DeliveryStays(steps, i, j - 1, d);
      RunNext(steps, j - 1);
      DeliveryStep(Run(Initial, steps[..j - 1]), steps[j - 1], d);
    }
  }

  /** Every event frame ever enqueued carries the payload of its delivery, to a connection of its snapshot. */
  ghost predicate FramesInv(s: State) {
    forall c, i | c in s.clients && 0 <= i < |s.clients[c].offered| :: FrameOk(s, c, s.clients[c].offered[i])
  }

  ghost predicate FrameOk(s: State, c: ClientId, f: Frame) {
    f.Event? ==> f.delivery in s.deliveries && f.payload == s.deliveries[f.delivery].payload
                 && c in s.deliveries[f.delivery].snapshot
  }

  /** A step enqueues nothing at c, or one frame: a response, or the event of a delivery it sends to c. */
  lemma StepOffers(s: State, step: Step, c: ClientId)
    requires FanOutInv(s) && c in Apply(s, step).clients
    ensures var t := Apply(s, step); var was := if c in s.clients then s.clients[c].offered else [];
            || t.clients[c].offered == was
            || (step.Respond? && t.clients[c].offered == was + [Response(step.code)])
            || (step.Send? && step.c == c && step.d in s.deliveries && c in s.deliveries[step.d].snapshot
                && t.clients[c].offered == was + [Event(step.d, s.deliveries[step.d].payload)])
  {
    if step.Send? && step.d in s.deliveries {
      assert DeliveryInv(s, step.d, s.deliveries[step.d]);
    }
  }

  lemma FramesStep(s: State, step: Step)
    requires FramesInv(s) && FanOutInv(s)
    ensures FramesInv(Apply(s, step))
  {
    var t := Apply(s, step);
    forall c, i | c in t.clients && 0 <= i < |t.clients[c].offered| ensures FrameOk(t, c, t.clients[c].offered[i]) {
      StepOffers(s, step, c);
      NewFrame(s, t, step, c, i);
    }
  }

  lemma NewFrame(s: State, t: State, step: Step, c: ClientId, i: nat)
    requires FramesInv(s) && t == Apply(s, step) && c in t.clients && i < |t.clients[c].offered|
    requires var was := if c in s.clients then s.clients[c].offered else [];
             || t.clients[c].offered == was
             || (step.Respond? && t.clients[c].offered == was + [Response(step.code)])
             || (step.Send? && step.c == c && step.d in s.deliveries && c in s.deliveries[step.d].snapshot
                 && t.clients[c].offered == was + [Event(step.d, s.deliveries[step.d].payload)])
    ensures FrameOk(t, c, t.clients[c].offered[i])
  {
    var f := t.clients[c].offered[i];
    if f.Event? {
      DeliveryStep(s, step, f.delivery);
      if c in s.clients && i < |s.clients[c].offered| {
        assert FrameOk(s, c, s.clients[c].offered[i]);
      }
    }
  }

  lemma {:induction false} FramesRun(steps: seq<Step>)
    ensures FramesInv(Run(Initial, steps))
    decreases |steps|
  {
    if steps == [] {
    } else {
      FramesRun(steps[..|steps| - 1]);
      assert FanOutInv(Run(Initial, steps[..|steps| - 1])) by { RunInv(steps[..|steps| - 1]); }
      FramesStep(Run(Initial, steps[..|steps| - 1]), steps[|steps| - 1]);
    }
  }

  /** A delivery goes to exactly whom it names: in every later state its snapshot is the set of connections that were
      live under its targets when it was taken, its payload is the one it was given, and every frame of it that was
      ever enqueued anywhere carries that payload to one of those connections. */
  lemma DeliveredToTargets(steps: seq<Step>, i: nat, j: nat)
    requires i < j <= |steps| && steps[i].Snapshot? && steps[i].d !in Run(Initial, steps[..i]).deliveries
    ensures steps[i].d in Run(Initial, steps[..j]).deliveries
    ensures var s, t := Run(Initial, steps[..i]), Run(Initial, steps[..j]); var v := t.deliveries[steps[i].d];
            && v.payload == steps[i].payload
            && v.snapshot == (set c | c in s.clients && Live(s, c) && s.clients[c].user in steps[i].targets)
            && forall c, k | c in t.clients && 0 <= k < |t.clients[c].offered| && t.clients[c].offered[k].Event?
                    && t.clients[c].offered[k].delivery == steps[i].d ::
                 t.clients[c].offered[k].payload == steps[i].payload && c in v.snapshot
  {
    RunNext(steps, i);
    SnapshotIsLive(steps[..i], steps[i].targets);
    DeliveryStays(steps, i + 1, j, steps[i].d);
    FramesRun(steps[..j]);
    var t := Run(Initial, steps[..j]);
    forall c, k | c in t.clients && 0 <= k < |t.clients[c].offered| && t.clients[c].offered[k].Event?
                  && t.clients[c].offered[k].delivery == steps[i].d
      ensures t.clients[c].offered[k].payload == steps[i].payload && c in t.deliveries[steps[i].d].snapshot
    {
      assert FrameOk(t, c, t.clients[c].offered[k]);
    }
  }

  /** Frames leave a queue in the order they entered it, none lost and none invented, and never more than 256 wait. */
  lemma QueueConservation(steps: seq<Step>, c: ClientId)
    requires c in Run(Initial, steps).clients
    ensures var x := Run(Initial, steps).clients[c];
            x.offered == x.taken + x.queue && |x.queue| <= QUEUE_CAP && x.taken <= x.offered
  {
    RunInv(steps);
    assert QueueOk(Run(Initial, steps).clients[c]);
  }

  // ---- The hub, imperatively ----

  class Gateway {
    var users: Users
    var clients: map<ClientId, Client>
    var slowConsumers: nat

    constructor ()
      ensures users == map[] && clients == map[] && slowConsumers == 0
    {
      users, clients, slowConsumers := map[], map[], 0;
    }

    method Add(c: ClientId)
      requires c in clients
      modifies this`users
      ensures users == AddTo(old(users), clients[c].user, c)
    {
      var u := clients[c].user;
      if u !in users {
        users := users[u := {}];
      }
      users := users[u := users[u] + {c}];
    }

    method Drop(c: ClientId)
      requires c in clients
      modifies this`users, this`clients
      ensures clients == old(clients)[c := old(clients)[c].(removed := true)]
      ensures users == if old(clients)[c].removed then old(users) else RemoveFrom(old(users), old(clients)[c].user, c)
    {
      var u := clients[c].user;
      if !clients[c].removed && u in users {
        users := users[u := users[u] - {c}];
        if users[u] == {} {
          users := users - {u};
        }
      }
      clients := clients[c := clients[c].(removed := true)];
    }

    /** The first half of `deliver`: collect the distinct connections of the targets. */
    method Collect(targets: seq<string>) returns (found: set<ClientId>)
      ensures found == ClientsOf(users, targets)
      ensures forall c :: c in found <==>
                exists i :: 0 <= i < |targets| && targets[i] in users && c in users[targets[i]]
    {
      found := {};
      for i := 0 to |targets|
        invariant found == ClientsOf(users, targets[..i])
      {
        assert targets[..i + 1] == targets[..i] + [targets[i]];
        found := found + Entry(users, targets[i]);
      }
      assert targets[..|targets|] == targets;
    }

    /** The non-blocking send shared by `deliver` and `sendResponse`. */
    method TrySend(c: ClientId, f: Frame) returns (room: bool)
      requires c in clients
      modifies this`clients
      ensures room == HasRoom(old(clients)[c])
      ensures clients == old(clients)[c := Offer(old(clients)[c], f)]
    {
      room := |clients[c].queue| < QUEUE_CAP;
      if room {
        var x := clients[c];
        clients := clients[c := x.(queue := x.queue + [f], offered := x.offered + [f])];
      } else {
        clients := clients[c := clients[c].(closed := true)];
      }
    }

    /** The second half: one send per collected connection; full queues count as slow consumers. */
    method SendAll(d: nat, payload: Payload, found: set<ClientId>) returns (delivered: nat)
      requires forall c | c in found :: c in clients
      modifies this`clients, this`slowConsumers
      ensures clients == Offered(old(clients), found, Event(d, payload))
      ensures delivered == |Roomy(old(clients), found)|
      ensures delivered + slowConsumers == old(slowConsumers) + |found|
    {
      var todo := found;
      delivered := 0;
      assert clients == Offered(old(clients), found - todo, Event(d, payload));
      while todo != {}
        invariant todo <= found
        invariant clients == Offered(old(clients), found - todo, Event(d, payload))
        invariant delivered == |Roomy(old(clients), found - todo)|
        invariant delivered + slowConsumers + |todo| == old(slowConsumers) + |found|
        decreases todo
      {
        var c :| c in todo;
        OfferedNext(old(clients), found - todo, c, Event(d, payload));
        assert found - (todo - {c}) == (found - todo) + {c};
        var room := TrySend(c, Event(d, payload));
        if room {
          delivered := delivered + 1;
        } else {
          slowConsumers := slowConsumers + 1;
        }
        todo := todo - {c};
      }
      assert found - todo == found;
    }
  }

  function Offered(clients: map<ClientId, Client>, to: set<ClientId>, f: Frame): map<ClientId, Client> {
    map c | c in clients :: if c in to then Offer(clients[c], f) else clients[c]
  }

  function Roomy(clients: map<ClientId, Client>, among: set<ClientId>): set<ClientId> {
    set c | c in among && c in clients && HasRoom(clients[c])
  }

  lemma OfferedNext(clients: map<ClientId, Client>, to: set<ClientId>, c: ClientId, f: Frame)
    requires c in clients && c !in to
    ensures Offered(clients, to, f)[c] == clients[c]
    ensures Offered(clients, to + {c}, f) == Offered(clients, to, f)[c := Offer(clients[c], f)]
    ensures |Roomy(clients, to + {c})| == |Roomy(clients, to)| + if HasRoom(clients[c]) then 1 else 0
  {
    if HasRoom(clients[c]) {
      assert Roomy(clients, to + {c}) == Roomy(clients, to) + {c};
    } else {
      assert Roomy(clients, to + {c}) == Roomy(clients, to);
    }
  }

  // ---- The sending loop is a run of Send steps ----

  /** Where sending to all of `part` takes the machine: what `SendAll` does to the clients, and its counts. */
  ghost predicate SentTo(s: State, t: State, d: nat, part: set<ClientId>)
    requires d in s.deliveries
  {
    var v := s.deliveries[d];
    var roomy := Roomy(s.clients, part);
    && t.users == s.users && t.clients == Offered(s.clients, part, Event(d, v.payload))
    && d in t.deliveries && t.deliveries == s.deliveries[d := t.deliveries[d]]
    && t.deliveries[d].payload == v.payload && t.deliveries[d].snapshot == v.snapshot
    && t.deliveries[d].todo == v.todo - part && t.deliveries[d].reached == v.reached + roomy
    && t.deliveries[d].delivered == v.delivered + |roomy|
    && t.deliveries[d].slow + |roomy| == v.slow + |part|
  }

  /** Sending to any part of what a delivery has left, in any order the loop picks, is a run of Send steps with the
      same clients, the same `delivered` and the same number of slow consumers. */
  lemma {:induction false} SendAllIsARun(s: State, d: nat, part: set<ClientId>) returns (steps: seq<Step>)
    requires d in s.deliveries && part <= s.deliveries[d].todo && forall c | c in part :: c in s.clients
    ensures SentTo(s, Run(s, steps), d, part) && forall i | 0 <= i < |steps| :: steps[i].Send? && steps[i].d == d
    decreases part
  {
    if part == {} {
      steps := [];
      assert Offered(s.clients, {}, Event(d, s.deliveries[d].payload)) == s.clients;
    } else {
      var c :| c in part;
      var front := SendAllIsARun(s, d, part - {c});
      steps := front + [Send(d, c)];
      assert steps[..|front|] == front;
      SentOneMore(s, Run(s, front), d, part - {c}, c);
      assert part - {c} + {c} == part;
    }
  }

  lemma SentOneMore(s: State, t: State, d: nat, part: set<ClientId>, c: ClientId)
    requires d in s.deliveries && SentTo(s, t, d, part) && c !in part && c in s.clients && c in s.deliveries[d].todo
    ensures SentTo(s, SendOne(t, d, c), d, part + {c})
  {
    OfferedNext(s.clients, part, c, Event(d, s.deliveries[d].payload));
    var roomy := Roomy(s.clients, part);
    assert Roomy(s.clients, part + {c}) == if HasRoom(s.clients[c]) then roomy + {c} else roomy;
    assert s.deliveries[d].todo - (part + {c}) == s.deliveries[d].todo - part - {c};
  }
}
