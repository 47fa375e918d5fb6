/**
 In which order the gateway first accepts two events. A page lists its rows by
 the clock reading taken before their transactions, and rows reach pages poll by
 poll, so neither the clock nor the sequence alone decides.
 */
module DeliveryOrder {
  import opened Common
  import opened Store
  import opened Invariants
  import opened Backend
  import opened Outbox
  import opened Delivery

  /** Whenever f is accepted, e has been accepted before. */
  predicate Ordered(accepted: seq<EventId>, e: EventId, f: EventId) {
    forall j | 0 <= j < |accepted| && accepted[j] == f :: e in accepted[..j]
  }

  lemma OrderedAppend(accepted: seq<EventId>, x: EventId, e: EventId, f: EventId)
    ensures Ordered(accepted + [x], e, f) <==> Ordered(accepted, e, f) && (x == f ==> e in accepted)
  {
    var longer := accepted + [x];
    assert longer[..|accepted|] == accepted;
    assert forall j | 0 <= j < |accepted| :: longer[j] == accepted[j] && longer[..j] == accepted[..j];
  }

  function Clock(w: World, e: EventId): int
    requires e in w.sys.db.outbox
  {
    w.sys.db.outbox[e].createdAt
  }

  // ---- The earlier clock reading goes first ----

  /** A poll in progress will not push f before e has been accepted. */
  ghost predicate PollOrders(w: World, p: Poll, e: EventId, f: EventId) {
    !p.stage.Ended? ==>
      forall j | p.index <= j < |p.batch| && p.batch[j] == f ::
        e in w.accepted || e in p.batch[p.index..j]
  }

  ghost predicate OrderInv(w: World, e: EventId, f: EventId) {
    && e in w.sys.db.outbox && f in w.sys.db.outbox && Clock(w, e) < Clock(w, f)
    && Ordered(w.accepted, e, f)
    && forall id | id in w.polls :: PollOrders(w, w.polls[id], e, f)
  }

  /** A page that holds f holds e before it, unless e was published already. */
  lemma PageOrders(outbox: Outbox, batch: seq<EventId>, e: EventId, f: EventId, j: nat)
    requires IsBatch(outbox, BATCH, batch) && j < |batch| && batch[j] == f && Waiting(outbox, e)
    requires f in outbox && outbox[e].createdAt < outbox[f].createdAt
    ensures e in batch[..j]
  {
    assert f in batch && e in batch;
    var i :| 0 <= i < |batch| && batch[i] == e;
    assert i < j;
    assert batch[..j][i] == e;
  }

  lemma TakeOrders(w: World, id: nat, batch: seq<EventId>, e: EventId, f: EventId)
    requires HostInv(w) && OrderInv(w, e, f)
    ensures OrderInv(TakeOne(w, id, batch), e, f)
  {
    var x := TakeOne(w, id, batch);
    if id !in w.polls && IsBatch(w.sys.db.outbox, BATCH, batch) {
      forall j | 0 <= j < |batch| && batch[j] == f ensures e in w.accepted || e in batch[0..j] {
        if Published(w, e) {
          assert e in w.publisher;
        } else {
          PageOrders(w.sys.db.outbox, batch, e, f, j);
        }
      }
      assert PollOrders(x, x.polls[id], e, f);
    }
  }

  lemma PushOrders(w: World, id: nat, result: PushResult, e: EventId, f: EventId)
    requires OrderInv(w, e, f)
    ensures OrderInv(PushOne(w, id, result), e, f)
  {
    var x := PushOne(w, id, result);
    if IsAt(w, id, Pushing) {
      var p := w.polls[id];
      assert PollOrders(w, p, e, f);
      if p.batch[p.index] == f {
        assert p.batch[p.index..p.index] == [];
      }
      OrderedAppend(w.accepted, p.batch[p.index], e, f);
      forall other | other in x.polls ensures PollOrders(x, x.polls[other], e, f) {
        assert PollOrders(w, w.polls[other], e, f);
      }
    }
  }

  lemma AckOrders(w: World, id: nat, answer: AckResult, e: EventId, f: EventId)
    requires HostInv(w) && OrderInv(w, e, f)
    ensures OrderInv(AckOne(w, id, answer), e, f)
  {
    var x := AckOne(w, id, answer);
    if IsAt(w, id, Acking) {
      var p := w.polls[id];
      assert PollInv(w, id, p) && PollOrders(w, p, e, f);
      AckApplied(w.sys, p.batch[p.index]);
      forall other | other in x.polls ensures PollOrders(x, x.polls[other], e, f) {
        assert PollOrders(w, w.polls[other], e, f);
        if other == id {
          ConfirmOrders(w, p, e, f);
        }
      }
    }
  }

  lemma ConfirmOrders(w: World, p: Poll, e: EventId, f: EventId)
    requires p.stage.Acking? && p.index < |p.batch| && p.batch[p.index] in w.accepted && PollOrders(w, p, e, f)
    ensures PollOrders(w, Confirm(p), e, f)
  {
    forall j | p.index + 1 <= j < |p.batch| && p.batch[j] == f ensures e in w.accepted || e in p.batch[p.index + 1..j] {
      assert p.batch[p.index..j] == [p.batch[p.index]] + p.batch[p.index + 1..j];
    }
  }

  lemma RowsGrowOrders(w: World, x: World, e: EventId, f: EventId)
    requires OrderInv(w, e, f) && OutboxGrows(w.sys.db.outbox, x.sys.db.outbox)
    requires x.polls == w.polls && x.accepted == w.accepted
    ensures OrderInv(x, e, f)
  {
    forall id | id in x.polls ensures PollOrders(x, x.polls[id], e, f) {
      assert PollOrders(w, w.polls[id], e, f);
    }
  }

  lemma OrderMove(w: World, move: Move, e: EventId, f: EventId)
    requires WorldInv(w) && OrderInv(w, e, f)
    ensures OrderInv(Next(w, move), e, f)
  {
    match move
    case Serve(step) =>
      assert OutboxGrows(w.sys.db.outbox, Next(w, move).sys.db.outbox) by { SystemMove(w, move); }
      RowsGrowOrders(w, Next(w, move), e, f);
    case TakeBatch(id, batch) => TakeOrders(w, id, batch, e, f);
    case Push(id, result) => PushOrders(w, id, result, e, f);
    case Ack(id, answer) => AckOrders(w, id, answer, e, f);
    case Crash(id) =>
  }

  lemma {:induction false} OrderRun(w: World, more: seq<Move>, e: EventId, f: EventId)
    requires WorldInv(w) && OrderInv(w, e, f)
    ensures OrderInv(RunMoves(w, more), e, f)
    decreases |more|
  {
    if more == [] {
    } else {
      OrderRun(w, more[..|more| - 1], e, f);
      RunMovesInv(w, more[..|more| - 1]);
      OrderMove(RunMoves(w, more[..|more| - 1]), more[|more| - 1], e, f);
    }
  }

  /** Once e has been accepted and f has not, e is first for good. */
  lemma AcceptedFirst(w: World, more: seq<Move>, e: EventId, f: EventId)
    requires WorldInv(w) && e in w.accepted && f !in w.accepted
    ensures Ordered(RunMoves(w, more).accepted, e, f)
  {
    RunMovesInv(w, more);
    var accepted := RunMoves(w, more).accepted;
    forall j | 0 <= j < |accepted| && accepted[j] == f ensures e in accepted[..j] {
      assert j >= |w.accepted|;
      assert accepted[..j][..|w.accepted|] == w.accepted;
    }
  }

  // ---- Otherwise the later one can overtake ----

  /** A legal page on which e does not come before f. */
  lemma PageFavouring(outbox: Outbox, e: EventId, f: EventId) returns (batch: seq<EventId>)
    requires Waiting(outbox, e) && Waiting(outbox, f) && e != f && outbox[f].createdAt <= outbox[e].createdAt
    ensures IsBatch(outbox, BATCH, batch) && Ordered(batch, f, e)
  {
    batch := [];
    var rest := Unpublished(outbox);
    while |batch| < BATCH && rest != {}
      invariant Picking(outbox, batch, rest) && |batch| <= BATCH && Ordered(batch, f, e)
      invariant f in rest || f in batch
      decreases rest
    {
      OldestExists(outbox, rest);
      var x :| x in rest && Oldest(outbox, rest, x);
      if x == e && f in rest {
        x := f;
      }
      PickOldest(outbox, batch, rest, x);
      OrderedAppend(batch, x, f, e);
      batch := batch + [x];
      rest := rest - {x};
    }
    PickedIsBatch(outbox, BATCH, batch, rest);
  }

  lemma RowStays(w: World, more: seq<Move>, e: EventId)
    requires WorldInv(w) && e in w.sys.db.outbox
    ensures var x := RunMoves(w, more); WorldInv(x) && e in x.sys.db.outbox && Clock(x, e) == Clock(w, e)
    ensures RunMoves(w, more).sys.db.outbox[e].payload == w.sys.db.outbox[e].payload
  {
    RunMovesInv(w, more);
  }

  /** Neither has been accepted, and f's clock reading is no later. */
  ghost predicate Overtakable(w: World, e: EventId, f: EventId) {
    && WorldInv(w) && e in w.sys.db.outbox && f in w.sys.db.outbox && e != f
    && e !in w.accepted && f !in w.accepted && Clock(w, f) <= Clock(w, e)
  }

  lemma BothWait(w: World, e: EventId, f: EventId)
    requires Overtakable(w, e, f)
    ensures Waiting(w.sys.db.outbox, e) && Waiting(w.sys.db.outbox, f)
  {
    assert !Published(w, e) && !Published(w, f);
  }

  /** Then some continuation delivers f without e: a worker polls without faults until f's turn comes. */
  lemma {:induction false} Overtake(w: World, e: EventId, f: EventId) returns (more: seq<Move>)
    requires Overtakable(w, e, f)
    ensures f in RunMoves(w, more).accepted && e !in RunMoves(w, more).accepted
    decreases |PendingRows(w)|
  {
    BothWait(w, e, f);
    var batch := PageFavouring(w.sys.db.outbox, e, f);
    var id := Above(w.polls.Keys);
    if f in batch {
      var j :| 0 <= j < |batch| && batch[j] == f;
      more := OvertakeNow(w, id, batch, j, e, f);
    } else {
      var first := PollMoves(id, batch, |batch|);
      OvertakeLater(w, id, batch, e, f);
      var rest := Overtake(RunMoves(w, first), e, f);
      more := first + rest;
      Delivery.RunSplit(w, first, rest);
    }
  }

  lemma OvertakeNow(w: World, id: nat, batch: seq<EventId>, j: nat, e: EventId, f: EventId) returns (more: seq<Move>)
    requires id !in w.polls && IsBatch(w.sys.db.outbox, BATCH, batch) && Ordered(batch, f, e)
    requires j < |batch| && batch[j] == f && e != f && e !in w.accepted
    ensures f in RunMoves(w, more).accepted && e !in RunMoves(w, more).accepted
  {
    PollAlone(w, id, batch, j + 1);
    more := PollMoves(id, batch, j + 1);
    assert batch[..j + 1][j] == f;
    assert forall i | 0 <= i <= j :: batch[i] != e;
  }

  /** A page without f has no e either; once it is delivered, fewer rows are pending and f can still overtake. */
  lemma OvertakeLater(w: World, id: nat, batch: seq<EventId>, e: EventId, f: EventId)
    requires Overtakable(w, e, f) && Waiting(w.sys.db.outbox, f) && f !in batch
    requires id !in w.polls && IsBatch(w.sys.db.outbox, BATCH, batch) && Ordered(batch, f, e)
    ensures var x := RunMoves(w, PollMoves(id, batch, |batch|));
            Overtakable(x, e, f) && |PendingRows(x)| < |PendingRows(w)|
  {
    var first := PollMoves(id, batch, |batch|);
    FaultFreePoll(w, id, batch);
    NeitherOnPage(batch, e, f);
    assert f in PendingRows(w);
    StillOvertakable(w, first, e, f);
  }

  lemma NeitherOnPage(batch: seq<EventId>, e: EventId, f: EventId)
    requires Ordered(batch, f, e) && f !in batch
    ensures e !in batch
  {
  }

  lemma StillOvertakable(w: World, moves: seq<Move>, e: EventId, f: EventId)
    requires Overtakable(w, e, f) && e !in RunMoves(w, moves).accepted && f !in RunMoves(w, moves).accepted
    ensures Overtakable(RunMoves(w, moves), e, f)
  {
    RowStays(w, moves, e);
    RowStays(w, moves, f);
  }

  // ---- Exactly when the order is kept ----

  /** f is committed by move i, when e is already in the outbox. */
  ghost predicate CommittedAfter(moves: seq<Move>, i: nat, e: EventId, f: EventId)
    requires i < |moves|
  {
    && e in Play(moves[..i]).sys.db.outbox
    && f !in Play(moves[..i]).sys.db.outbox && f in Play(moves[..i + 1]).sys.db.outbox
  }

  /** Whatever workers, faults and handlers do from w on, e is first accepted before f. */
  ghost predicate AlwaysOrdered(w: World, e: EventId, f: EventId) {
    forall more: seq<Move> :: Ordered(RunMoves(w, more).accepted, e, f)
  }

  /** Delivery order, exactly: from the moment f is committed, e's first acceptance precedes f's in every continuation
      if and only if e had been accepted by then, or e carries the strictly earlier clock reading. */
  lemma OrderKeptIff(moves: seq<Move>, i: nat, e: EventId, f: EventId)
    requires i < |moves| && CommittedAfter(moves, i, e, f)
    ensures e in Play(moves[..i + 1]).sys.db.outbox
    ensures AlwaysOrdered(Play(moves[..i + 1]), e, f) <==>
            e in Play(moves[..i]).accepted || Clock(Play(moves[..i + 1]), e) < Clock(Play(moves[..i + 1]), f)
  {
    PlayInv(moves[..i]);
    PlayInv(moves[..i + 1]);
    RunNext(Start, moves, i);
    FreshCommit(Play(moves[..i]), moves[i], f);
    MoveInv(Play(moves[..i]), moves[i]);
    OrderFrom(Play(moves[..i + 1]), e, f);
  }

  lemma OnlyServeCommits(w: World, move: Move, f: EventId)
    requires f !in w.sys.db.outbox && f in Next(w, move).sys.db.outbox
    ensures move.Serve? && Next(w, move) == w.(sys := Apply(w.sys, move.step))
  {
    if move.Ack? && IsAt(w, move.id, Acking) {
      AckApplied(w.sys, w.polls[move.id].batch[w.polls[move.id].index]);
    }
  }

  /** A row that has just been committed is on no page and has not been accepted. */
  lemma FreshCommit(w: World, move: Move, f: EventId)
    requires HostInv(w) && f !in w.sys.db.outbox && f in Next(w, move).sys.db.outbox
    ensures Next(w, move).accepted == w.accepted && f !in w.accepted && Next(w, move).polls == w.polls
    ensures forall id | id in w.polls :: f !in w.polls[id].batch
  {
    OnlyServeCommits(w, move, f);
    forall id | id in w.polls ensures f !in w.polls[id].batch {
      assert PollInv(w, id, w.polls[id]);
    }
  }

  lemma OrderFrom(w: World, e: EventId, f: EventId)
    requires WorldInv(w) && e in w.sys.db.outbox && f in w.sys.db.outbox && e != f && f !in w.accepted
    requires forall id | id in w.polls :: f !in w.polls[id].batch
    ensures AlwaysOrdered(w, e, f) <==> e in w.accepted || Clock(w, e) < Clock(w, f)
  {
    if e in w.accepted {
      forall more: seq<Move> ensures Ordered(RunMoves(w, more).accepted, e, f) {
        AcceptedFirst(w, more, e, f);
      }
    } else if Clock(w, e) < Clock(w, f) {
      forall more: seq<Move> ensures Ordered(RunMoves(w, more).accepted, e, f) {
        OrderRun(w, more, e, f);
      }
    } else {
      var more := Overtake(w, e, f);
      var accepted := RunMoves(w, more).accepted;
      var j :| 0 <= j < |accepted| && accepted[j] == f;
      assert e !in accepted[..j];
      assert !Ordered(accepted, e, f);
    }
  }

  // ---- Two messages of one conversation ----

  predicate CreatedAt(db: Db, e: EventId, c: ConversationId, sequence: nat) {
    e in db.outbox && db.outbox[e].payload.MessageCreated?
    && db.outbox[e].payload.conversation == c && db.outbox[e].payload.sequence == sequence
  }

  /** A message's row is there as soon as the row of any later message of its conversation is. */
  lemma LowerIsThere(a: Db, b: Db, e: EventId, f: EventId, c: ConversationId, m: nat, n: nat)
    requires LogInv(a) && CreatedInv(a) && LogInv(b) && CreatedInv(b) && Grows(a, b)
    requires f in a.outbox && CreatedAt(b, e, c, m) && CreatedAt(b, f, c, n) && m < n
    ensures e in a.outbox
  {
    var later := a.messages[a.outbox[f].payload.message];
    assert Announces(a.outbox[f], a.outbox[f].payload.message, later) && InRange(a, later);
    var mine := b.messages[b.outbox[e].payload.message];
    assert Announces(b.outbox[e], b.outbox[e].payload.message, mine) && InRange(b, mine);
    assert SequenceTaken(a, c, m);
    var id :| id in a.messages && Store.At(a.messages[id], c, m);
    assert Announced(a, id);
    var d :| d in a.outbox && Announces(a.outbox[d], id, a.messages[id]);
    assert SamePlace(b.messages[id], mine);
    assert SameCreated(b.outbox[d], b.outbox[e]);
  }

  /** A step adds at most one row. */
  lemma OneRowPerStep(s: Sys, step: Step, e: EventId, f: EventId)
    requires e in Apply(s, step).db.outbox && f in Apply(s, step).db.outbox && e != f
    ensures e in s.db.outbox || f in s.db.outbox
  {
    match step
    case SendCommit(call, id, event, now, link) =>
    case RemoveCommit(call, event, now, link) =>
    case AddCommit(call, event, now, link) =>
    case ModerateCommit(call, event, now, link) =>
    case _ =>
  }

  /** The move that commits a row. */
  lemma {:induction false} CommitMove(moves: seq<Move>, f: EventId) returns (i: nat)
    requires f in Play(moves).sys.db.outbox
    ensures i < |moves| && f !in Play(moves[..i]).sys.db.outbox && f in Play(moves[..i + 1]).sys.db.outbox
    decreases |moves|
  {
    assert moves != [];
    var n := |moves| - 1;
    if f in Play(moves[..n]).sys.db.outbox {
      i := CommitMove(moves[..n], f);
      assert moves[..n][..i] == moves[..i] && moves[..n][..i + 1] == moves[..i + 1];
    } else {
      i := n;
      assert moves[..n + 1] == moves;
    }
  }

  /** Of two messages of one conversation the lower sequence is committed first, at a move of the run; and from the
      commit of the higher one the two are delivered in sequence order in every continuation if and only if the lower
      had been accepted by then, or carries the strictly earlier clock reading. */
  lemma MessageOrder(moves: seq<Move>, e: EventId, f: EventId, c: ConversationId, m: nat, n: nat) returns (i: nat)
    requires var db := Play(moves).sys.db; CreatedAt(db, e, c, m) && CreatedAt(db, f, c, n) && m < n
    ensures i < |moves| && CommittedAfter(moves, i, e, f) && e in Play(moves[..i + 1]).sys.db.outbox
    ensures AlwaysOrdered(Play(moves[..i + 1]), e, f) <==>
            e in Play(moves[..i]).accepted || Clock(Play(moves), e) < Clock(Play(moves), f)
  {
    i := CommitMove(moves, f);
    var a, b := Play(moves[..i + 1]).sys.db, Play(moves).sys.db;
    assert moves[..|moves|] == moves;
    assert Grows(a, b) by { RowsPersist(moves, i + 1, |moves|); }
    assert LogInv(a) && CreatedInv(a) by { PlayInv(moves[..i + 1]); }
    assert LogInv(b) && CreatedInv(b) by { PlayInv(moves); }
    LowerIsThere(a, b, e, f, c, m, n);
    Delivery.RunNext(Start, moves, i);
    OnlyServeCommits(Play(moves[..i]), moves[i], f);
    OneRowPerStep(Play(moves[..i]).sys, moves[i].step, e, f);
    OrderKeptIff(moves, i, e, f);
  }

  // ---- A run that delivers out of sequence order ----

  function Serves(steps: seq<Step>): (moves: seq<Move>)
    ensures |moves| == |steps| && forall i | 0 <= i < |steps| :: moves[i] == Serve(steps[i])
  {
    seq(|steps|, i requires 0 <= i < |steps| => Serve(steps[i]))
  }

  lemma {:induction false} ServeRun(w: World, steps: seq<Step>)
    requires forall i | 0 <= i < |steps| :: !steps[i].AckEvent?
    ensures RunMoves(w, Serves(steps)) == w.(sys := Run(w.sys, steps))
    decreases |steps|
  {
    if steps == [] {
      assert Serves(steps) == [];
    } else {
      assert Serves(steps)[..|steps| - 1] == Serves(steps[..|steps| - 1]);
      ServeRun(w, steps[..|steps| - 1]);
    }
  }

  /** Two sends checked before either commits. */
  lemma BothSendsReady(s: Sys, a: nat, b: nat, p: SendRequest, q: SendRequest)
    requires a != b && a !in s.calls && b !in s.calls && p.key.None? && q.key.None?
    requires IsActive(s.db, p.conversation, p.user) && IsActive(s.db, q.conversation, q.user)
    ensures Apply(Apply(Apply(Apply(s, SendAuthorize(a, p, true)), SendLookup(a)),
                        SendAuthorize(b, q, true)), SendLookup(b))
            == s.(calls := s.calls[a := SendReady(p)][b := SendReady(q)])
  {
    var one := Apply(s, SendAuthorize(a, p, true));
    assert one == s.(calls := s.calls[a := SendAuthorized(p)]);
    var two := Apply(one, SendLookup(a));
    assert two == s.(calls := s.calls[a := SendReady(p)]);
    var three := Apply(two, SendAuthorize(b, q, true));
    assert three == s.(calls := s.calls[a := SendReady(p)][b := SendAuthorized(q)]);
  }

  /** Both commit: consecutive sequences, each row under its own clock reading. */
  lemma BothSendsCommit(s: Sys, a: nat, b: nat, c: ConversationId, t: int, u: int)
    requires a != b && a in s.calls && b in s.calls && s.calls[a].SendReady? && s.calls[b].SendReady?
    requires s.calls[a].req.conversation == c && s.calls[b].req.conversation == c && c in s.db.conversations
    requires s.calls[a].req.key.None? && s.calls[b].req.key.None?
    requires s.db.messages == map[] && s.db.outbox == map[]
    ensures var x := Apply(Apply(s, SendCommit(a, 1, 1, t, Up)), SendCommit(b, 2, 2, u, Up)).db;
            var n := s.db.conversations[c].nextSequence;
            && CreatedAt(x, 1, c, n) && CreatedAt(x, 2, c, n + 1)
            && x.outbox[1].createdAt == t && x.outbox[2].createdAt == u
  {
    var one := Apply(s, SendCommit(a, 1, 1, t, Up));
    assert !SequenceTaken(s.db, c, s.db.conversations[c].nextSequence);
    assert one.calls[b] == s.calls[b] && one.db.conversations[c].nextSequence == s.db.conversations[c].nextSequence + 1;
    assert one.db.messages.Keys == {1};
    assert !SequenceTaken(one.db, c, one.db.conversations[c].nextSequence);
  }

  lemma GroupMade()
    ensures var s := Apply(Apply(Initial, GroupCheck(0, 1, {2})), GroupCommit(0, 7, Up));
            && s.calls.Keys == {0} && s.db.messages == map[] && s.db.outbox == map[] && IsActive(s.db, 7, 1)
            && 7 in s.db.conversations && s.db.conversations[7].nextSequence == 1
  {
    assert 2 in {2} - {1};
    var one := Apply(Initial, GroupCheck(0, 1, {2}));
    assert one == Sys(EmptyDb, map[0 := GroupReady(1, {2} - {1})]);
  }

  lemma Unrolled(s: Sys, steps: seq<Step>)
    requires |steps| == 8
    ensures Run(s, steps) == Apply(Apply(Run(s, steps[..6]), steps[6]), steps[7])
    ensures Run(s, steps[..6]) ==
            Apply(Apply(Apply(Apply(Apply(Apply(s, steps[0]), steps[1]), steps[2]), steps[3]), steps[4]), steps[5])
  {
    assert steps[..8] == steps && steps[..0] == [];
    forall i | 0 <= i < 8 ensures Run(s, steps[..i + 1]) == Apply(Run(s, steps[..i]), steps[i]) {
      assert steps[..i + 1][..i] == steps[..i];
    }
  }

  /** A group is made, and two members' sends into it read the clock in one order and commit in the other. */
  lemma SendsCross(p: SendRequest, q: SendRequest, steps: seq<Step>)
    requires p == SendRequest(1, 7, "first", None, 0) && q == SendRequest(1, 7, "second", None, 0)
    requires |steps| == 8 && steps[0] == GroupCheck(0, 1, {2}) && steps[1] == GroupCommit(0, 7, Up)
    requires steps[2] == SendAuthorize(1, p, true) && steps[3] == SendLookup(1)
    requires steps[4] == SendAuthorize(2, q, true) && steps[5] == SendLookup(2)
    requires steps[6] == SendCommit(1, 1, 1, 5, Up) && steps[7] == SendCommit(2, 2, 2, 3, Up)
    ensures var db := Run(Initial, steps).db;
            && CreatedAt(db, 1, 7, 1) && CreatedAt(db, 2, 7, 2)
            && db.outbox[1].createdAt == 5 && db.outbox[2].createdAt == 3
  {
    var made := Apply(Apply(Initial, steps[0]), steps[1]);
    Unrolled(Initial, steps);
    GroupMade();
    BothSendsReady(made, 1, 2, p, q);
    BothSendsCommit(made.(calls := made.calls[1 := SendReady(p)][2 := SendReady(q)]), 1, 2, 7, 5, 3);
  }

  /** So message 2 can be delivered before message 1, from any world that serves such steps first. */
  lemma CrossedSendsOvertake(steps: seq<Step>) returns (moves: seq<Move>)
    requires forall i | 0 <= i < |steps| :: !steps[i].AckEvent?
    requires var db := Run(Initial, steps).db;
             CreatedAt(db, 1, 7, 1) && CreatedAt(db, 2, 7, 2) && db.outbox[2].createdAt <= db.outbox[1].createdAt
    ensures var w := Play(moves);
            CreatedAt(w.sys.db, 1, 7, 1) && CreatedAt(w.sys.db, 2, 7, 2) && 2 in w.accepted && 1 !in w.accepted
  {
    var w := Play(Serves(steps));
    ServeRun(Start, steps);
    PlayInv(Serves(steps));
    var more := Overtake(w, 1, 2);
    moves := Serves(steps) + more;
    Delivery.RunSplit(Start, Serves(steps), more);
    RowStays(w, more, 1);
    RowStays(w, more, 2);
  }

  /** A run of the whole system in which the gateway accepts message 2 of a conversation and not yet message 1. */
  lemma ReversedDelivery() returns (moves: seq<Move>)
    ensures var w := Play(moves);
            CreatedAt(w.sys.db, 1, 7, 1) && CreatedAt(w.sys.db, 2, 7, 2) && 2 in w.accepted && 1 !in w.accepted
  {
    var p, q := SendRequest(1, 7, "first", None, 0), SendRequest(1, 7, "second", None, 0);
    var steps := [GroupCheck(0, 1, {2}), GroupCommit(0, 7, Up), SendAuthorize(1, p, true), SendLookup(1),
                  SendAuthorize(2, q, true), SendLookup(2), SendCommit(1, 1, 1, 5, Up), SendCommit(2, 2, 2, 3, Up)];
    SendsCross(p, q, steps);
    moves := CrossedSendsOvertake(steps);
  }
}
