/**
 The delivery worker: poll the outbox, push each event to the gateway, and
 acknowledge it only after the gateway accepted it. Any number of workers run
 beside the backend; any of them may crash, and any request or reply may be lost.

 A worker makes one poll after another, so polls in flight at the same time
 belong to different workers and the machine needs to know only the polls.
 */
module Delivery {
  import opened Common
  import opened Store
  import opened Invariants
  import opened Backend
  import opened Outbox

  // ---- Polls beside the backend ----

  datatype PushResult = Accepted | AcceptedReplyLost | Refused
  datatype AckResult = Answered | AckReplyLost | AckRequestLost

  datatype Stage = Pushing | Acking | Ended

  /** One poll: its page of the outbox, and how many of its events it has confirmed. */
  datatype Poll = Polling(batch: seq<EventId>, index: nat, stage: Stage)

  /** `accepted` is everything the gateway has answered 200 to, in order and with repeats; `publisher` says whose
      acknowledgement published a row. */
  datatype World = World(sys: Sys, accepted: seq<EventId>, polls: map<nat, Poll>, publisher: map<EventId, nat>)

  const Start := World(Initial, [], map[], map[])

  datatype Move =
    | Serve(step: Step)
    | TakeBatch(id: nat, batch: seq<EventId>)
    | Push(id: nat, result: PushResult)
    | Ack(id: nat, answer: AckResult)
    | Crash(id: nat)

  predicate IsAt(w: World, id: nat, stage: Stage) {
    id in w.polls && w.polls[id].stage == stage && w.polls[id].index < |w.polls[id].batch|
  }

  predicate InProgress(w: World, id: nat) {
    id in w.polls && !w.polls[id].stage.Ended?
  }

  function SetPoll(w: World, id: nat, p: Poll): World {
    w.(polls := w.polls[id := p])
  }

  function Confirm(p: Poll): Poll {
    Polling(p.batch, p.index + 1, if p.index + 1 < |p.batch| then Pushing else Ended)
  }

  function TakeOne(w: World, id: nat, batch: seq<EventId>): World {
    if id in w.polls || !IsBatch(w.sys.db.outbox, BATCH, batch) then w
    else SetPoll(w, id, Polling(batch, 0, if batch == [] then Ended else Pushing))
  }

  function PushOne(w: World, id: nat, result: PushResult): World {
    if !IsAt(w, id, Pushing) then w
    else
      var p := w.polls[id];
      var taken := w.(accepted := w.accepted + [p.batch[p.index]]);
      match result
      case Refused => SetPoll(w, id, p.(stage := Ended))
      case AcceptedReplyLost => SetPoll(taken, id, p.(stage := Ended))
      case Accepted => SetPoll(taken, id, p.(stage := Acking))
  }

  /** The row the poll is about to acknowledge is still unpublished. */
  predicate StillWaiting(w: World, id: nat)
    requires IsAt(w, id, Acking)
  {
    Waiting(w.sys.db.outbox, w.polls[id].batch[w.polls[id].index])
  }

  /** The acknowledgement of a row another worker already published is answered 404, which ends this poll. */
  function AckOne(w: World, id: nat, answer: AckResult): World {
    if !IsAt(w, id, Acking) then w
    else
      var p := w.polls[id];
      var e := p.batch[p.index];
      var ended := p.(stage := Ended);
      if answer.AckRequestLost? || !StillWaiting(w, id) then SetPoll(w, id, ended)
      else SetPoll(w.(sys := Apply(w.sys, AckEvent(e)), publisher := w.publisher[e := id]), id,
                   if answer.Answered? then Confirm(p) else ended)
  }

  function Next(w: World, move: Move): World {
    match move
    case Serve(step) => if step.AckEvent? then w else w.(sys := Apply(w.sys, step))
    case TakeBatch(id, batch) => TakeOne(w, id, batch)
    case Push(id, result) => PushOne(w, id, result)
    case Ack(id, answer) => AckOne(w, id, answer)
    case Crash(id) => if id in w.polls then SetPoll(w, id, w.polls[id].(stage := Ended)) else w
  }

  function RunMoves(w: World, moves: seq<Move>): World
    decreases |moves|
  {
    if moves == [] then w else Next(RunMoves(w, moves[..|moves| - 1]), moves[|moves| - 1])
  }

  function Play(moves: seq<Move>): World {
    RunMoves(Start, moves)
  }

  lemma RunNext(w: World, moves: seq<Move>, i: nat)
    requires i < |moves|
    ensures RunMoves(w, moves[..i + 1]) == Next(RunMoves(w, moves[..i]), moves[i])
  {
    assert moves[..i + 1][..i] == moves[..i];
  }

  lemma RunOne(w: World, move: Move)
    ensures RunMoves(w, [move]) == Next(w, move)
  {
    assert [move][..0] == [];
  }

  lemma {:induction false} RunSplit(w: World, a: seq<Move>, b: seq<Move>)
    ensures RunMoves(w, a + b) == RunMoves(RunMoves(w, a), b)
    decreases |b|
  {
    if b == [] {
      assert a + b == a;
    } else {
      assert (a + b)[..|a + b| - 1] == a + b[..|b| - 1];
      RunSplit(w, a, b[..|b| - 1]);
    }
  }

  // ---- The invariant of every run ----

  predicate Published(w: World, e: EventId) {
    e in w.sys.db.outbox && w.sys.db.outbox[e].published
  }

  predicate PublishedBy(w: World, e: EventId, id: nat) {
    e in w.publisher && w.publisher[e] == id
  }

  /** The rows poll `id` has itself published are exactly these. */
  ghost predicate Owns(w: World, id: nat, events: seq<EventId>) {
    && (forall i | 0 <= i < |events| :: PublishedBy(w, events[i], id))
    && (forall e | PublishedBy(w, e, id) :: e in events)
  }

  ghost predicate PollInv(w: World, id: nat, p: Poll) {
    && p.index <= |p.batch| && (!p.stage.Ended? ==> p.index < |p.batch|)
    && (forall i | 0 <= i < |p.batch| :: p.batch[i] in w.sys.db.outbox)
    && (p.stage.Acking? ==> p.batch[p.index] in w.accepted)
    && (|| Owns(w, id, p.batch[..p.index])
        || (p.stage.Ended? && p.index < |p.batch| && Owns(w, id, p.batch[..p.index + 1])))
  }

  ghost predicate RowsInv(w: World) {
    && (forall e | Published(w, e) :: e in w.publisher)
    && (forall e | e in w.publisher :: Published(w, e) && e in w.accepted && w.publisher[e] in w.polls)
    && (forall i | 0 <= i < |w.accepted| :: w.accepted[i] in w.sys.db.outbox)
  }

  ghost predicate HostInv(w: World) {
    RowsInv(w) && forall id | id in w.polls :: PollInv(w, id, w.polls[id])
  }

  ghost predicate WorldInv(w: World) {
    Inv(w.sys) && HostInv(w)
  }

  /** From v to w nothing is undone: rows and acceptances stay, a row keeps its publisher, a poll its page, and a poll
      that has ended stays as it is and publishes nothing more. */
  ghost predicate Persists(v: World, w: World) {
    Grows(v.sys.db, w.sys.db) && Carried(v, w)
  }

  ghost predicate Carried(v: World, w: World) {
    && v.accepted <= w.accepted
    && (forall e | e in v.publisher :: PublishedBy(w, e, v.publisher[e]))
    && (forall id | id in v.polls :: id in w.polls && PollPersists(v, w, id))
  }

  ghost predicate PollPersists(v: World, w: World, id: nat)
    requires id in v.polls && id in w.polls
  {
    && w.polls[id].batch == v.polls[id].batch && v.polls[id].index <= w.polls[id].index
    && (v.polls[id].stage.Ended? ==>
          w.polls[id] == v.polls[id] && forall e | PublishedBy(w, e, id) :: PublishedBy(v, e, id))
  }

  /** Nothing changes for this poll but the world around it. */
  lemma PollStable(v: World, w: World, id: nat, p: Poll)
    requires PollInv(v, id, p) && OutboxGrows(v.sys.db.outbox, w.sys.db.outbox) && v.accepted <= w.accepted
    requires forall e :: PublishedBy(w, e, id) <==> PublishedBy(v, e, id)
    ensures PollInv(w, id, p)
  {
    if Owns(v, id, p.batch[..p.index]) {
      assert Owns(w, id, p.batch[..p.index]);
    } else {
      assert Owns(w, id, p.batch[..p.index + 1]);
    }
  }

  /** Only an acknowledgement publishes. */
  lemma ServePublishesNothing(s: Sys, step: Step, e: EventId)
    requires !step.AckEvent? && e in Apply(s, step).db.outbox && Apply(s, step).db.outbox[e].published
    ensures e in s.db.outbox && s.db.outbox[e].published
  {
    match step
    case SendCommit(call, id, event, now, link) =>
    case RemoveCommit(call, event, now, link) =>
    case AddCommit(call, event, now, link) =>
    case ModerateCommit(call, event, now, link) =>
    case _ =>
  }

  lemma ServeMove(w: World, step: Step)
    requires HostInv(w) && !step.AckEvent? && OutboxGrows(w.sys.db.outbox, Apply(w.sys, step).db.outbox)
    ensures var x := w.(sys := Apply(w.sys, step)); HostInv(x) && Carried(w, x)
  {
    var x := w.(sys := Apply(w.sys, step));
    forall e | Published(x, e) ensures e in x.publisher {
      ServePublishesNothing(w.sys, step, e);
      assert Published(w, e);
    }
    forall e | e in x.publisher ensures Published(x, e) {
      assert Published(w, e);
    }
    forall id | id in x.polls ensures PollInv(x, id, x.polls[id]) {
      PollStable(w, x, id, w.polls[id]);
    }
  }

  /** A move that changes one poll and leaves tables and publishers alone. */
  lemma QuietMove(w: World, x: World, id: nat)
    requires HostInv(w) && x.sys == w.sys && x.publisher == w.publisher && w.accepted <= x.accepted
    requires forall i | |w.accepted| <= i < |x.accepted| :: x.accepted[i] in w.sys.db.outbox
    requires id in x.polls && x.polls == w.polls[id := x.polls[id]] && PollInv(x, id, x.polls[id])
    requires id in w.polls ==> PollPersists(w, x, id)
    ensures HostInv(x) && Carried(w, x)
  {
    assert forall e :: Published(x, e) <==> Published(w, e);
    forall other | other in x.polls ensures PollInv(x, other, x.polls[other]) {
      if other != id {
        PollStable(w, x, other, w.polls[other]);
      }
    }
  }

  lemma TakeMove(w: World, id: nat, batch: seq<EventId>)
    requires HostInv(w)
    ensures var x := TakeOne(w, id, batch); HostInv(x) && Carried(w, x)
  {
    var x := TakeOne(w, id, batch);
    if id !in w.polls && IsBatch(w.sys.db.outbox, BATCH, batch) {
      assert forall i | 0 <= i < |batch| :: Waiting(w.sys.db.outbox, batch[i]);
      assert forall e :: !PublishedBy(w, e, id);
      assert Owns(x, id, batch[..0]);
      QuietMove(w, x, id);
    }
  }

  lemma PushMove(w: World, id: nat, result: PushResult)
    requires HostInv(w)
    ensures var x := PushOne(w, id, result); HostInv(x) && Carried(w, x)
  {
    var x := PushOne(w, id, result);
    if IsAt(w, id, Pushing) {
      var p := w.polls[id];
      assert PollInv(w, id, p);
      assert Owns(x, id, p.batch[..p.index]);
      QuietMove(w, x, id);
    }
  }

  lemma CrashMove(w: World, id: nat)
    requires HostInv(w)
    ensures var x := Next(w, Crash(id)); HostInv(x) && Carried(w, x)
  {
    var x := Next(w, Crash(id));
    if id in w.polls {
      var p := w.polls[id];
      assert PollInv(w, id, p);
      PollStable(w, x, id, p);
      QuietMove(w, x, id);
    }
  }

  lemma AckMove(w: World, id: nat, answer: AckResult)
    requires HostInv(w)
    ensures var x := AckOne(w, id, answer); HostInv(x) && Carried(w, x)
  {
    var x := AckOne(w, id, answer);
    if IsAt(w, id, Acking) {
      var p := w.polls[id];
      assert PollInv(w, id, p);
      if answer.AckRequestLost? || !StillWaiting(w, id) {
        assert Owns(x, id, p.batch[..p.index]);
        QuietMove(w, x, id);
      } else {
        AckApplied(w.sys, p.batch[p.index]);
        PublishMove(w, x, id);
      }
    }
  }

  lemma PublishMove(w: World, x: World, id: nat)
    requires HostInv(w) && IsAt(w, id, Acking) && StillWaiting(w, id)
    requires var p := w.polls[id]; var e := p.batch[p.index];
             && x.sys.db.outbox == AckRow(w.sys.db.outbox, e) && x.publisher == w.publisher[e := id]
             && x.accepted == w.accepted && id in x.polls && x.polls == w.polls[id := x.polls[id]]
             && (x.polls[id] == Confirm(p) || x.polls[id] == p.(stage := Ended))
    ensures HostInv(x) && Carried(w, x)
  {
    var p := w.polls[id];
    var e := p.batch[p.index];
    assert PollInv(w, id, p);
    PublishRows(w, x, id, e);
    PublishOwns(w, x, id, e, p.batch, p.index);
    assert PollInv(x, id, x.polls[id]) && PollPersists(w, x, id);
    OtherPolls(w, x, id, e);
  }

  lemma OtherPolls(w: World, x: World, id: nat, e: EventId)
    requires forall other | other in w.polls :: PollInv(w, other, w.polls[other])
    requires e !in w.publisher && x.publisher == w.publisher[e := id]
    requires id in x.polls && x.polls == w.polls[id := x.polls[id]]
    requires OutboxGrows(w.sys.db.outbox, x.sys.db.outbox) && x.accepted == w.accepted
    ensures forall other | other in x.polls && other != id ::
              PollInv(x, other, x.polls[other]) && PollPersists(w, x, other)
  {
    forall other | other in x.polls && other != id
      ensures PollInv(x, other, x.polls[other]) && PollPersists(w, x, other)
    {
      OtherPoll(w, x, id, e, other);
    }
  }

  lemma OtherPoll(w: World, x: World, id: nat, e: EventId, other: nat)
    requires other in w.polls && other in x.polls && x.polls[other] == w.polls[other] && other != id
    requires PollInv(w, other, w.polls[other]) && e !in w.publisher && x.publisher == w.publisher[e := id]
    requires OutboxGrows(w.sys.db.outbox, x.sys.db.outbox) && x.accepted == w.accepted
    ensures PollInv(x, other, x.polls[other]) && PollPersists(w, x, other)
  {
    assert forall d :: PublishedBy(x, d, other) <==> PublishedBy(w, d, other);
    PollStable(w, x, other, w.polls[other]);
  }

  lemma AckApplied(s: Sys, e: EventId)
    ensures Apply(s, AckEvent(e)) == s.(db := s.db.(outbox := AckRow(s.db.outbox, e)))
  {
  }

  lemma PublishRows(w: World, x: World, id: nat, e: EventId)
    requires RowsInv(w) && Waiting(w.sys.db.outbox, e) && e in w.accepted && id in w.polls
    requires x.sys.db.outbox == AckRow(w.sys.db.outbox, e) && x.publisher == w.publisher[e := id]
    requires x.accepted == w.accepted && forall other | other in w.polls :: other in x.polls
    ensures RowsInv(x) && e !in w.publisher
  {
    assert !Published(w, e);
    forall d | Published(x, d) ensures d in x.publisher {
      if d != e {
        assert Published(w, d);
      }
    }
    forall d | d in x.publisher ensures Published(x, d) {
      if d != e {
        assert Published(w, d);
      }
    }
  }

  lemma PublishOwns(w: World, x: World, id: nat, e: EventId, batch: seq<EventId>, k: nat)
    requires k < |batch| && batch[k] == e && e !in w.publisher && x.publisher == w.publisher[e := id]
    requires Owns(w, id, batch[..k])
    ensures Owns(x, id, batch[..k + 1])
  {
    var longer := batch[..k + 1];
    assert longer == batch[..k] + [e];
    forall i | 0 <= i < |longer| ensures PublishedBy(x, longer[i], id) {
      if i < k {
        assert PublishedBy(w, batch[..k][i], id);
      }
    }
    forall d | PublishedBy(x, d, id) ensures d in batch[..k + 1] {
      if d != e {
        assert PublishedBy(w, d, id);
      }
    }
  }

  lemma HostMove(w: World, move: Move)
    requires HostInv(w) && OutboxGrows(w.sys.db.outbox, Next(w, move).sys.db.outbox)
    ensures HostInv(Next(w, move)) && Carried(w, Next(w, move))
  {
    match move
    case Serve(step) =>
      if !step.AckEvent? {
        ServeMove(w, step);
      }
    case TakeBatch(id, batch) => TakeMove(w, id, batch);
    case Push(id, result) => PushMove(w, id, result);
    case Ack(id, answer) => AckMove(w, id, answer);
    case Crash(id) => CrashMove(w, id);
  }

  lemma SystemMove(w: World, move: Move)
    requires Inv(w.sys)
    ensures Kept(w.sys, Next(w, move).sys)
  {
    if move.Serve? && !move.step.AckEvent? {
      StepInv(w.sys, move.step);
    } else if move.Ack? && IsAt(w, move.id, Acking) && StillWaiting(w, move.id) && !move.answer.AckRequestLost? {
      StepInv(w.sys, AckEvent(w.polls[move.id].batch[w.polls[move.id].index]));
    } else {
      assert Next(w, move).sys == w.sys;
      GrowsReflexive(w.sys.db);
    }
  }

  /** Every move of any worker, crash or handler keeps the invariant and undoes nothing. */
  lemma MoveInv(w: World, move: Move)
    requires WorldInv(w)
    ensures WorldInv(Next(w, move)) && Persists(w, Next(w, move))
  {
    SystemMove(w, move);
    HostMove(w, move);
  }

  lemma PersistsReflexive(w: World)
    ensures Persists(w, w)
  {
    GrowsReflexive(w.sys.db);
  }

  lemma PersistsTransitive(u: World, v: World, w: World)
    requires Persists(u, v) && Persists(v, w)
    ensures Persists(u, w)
  {
    GrowsTransitive(u.sys.db, v.sys.db, w.sys.db);
    CarriedTransitive(u, v, w);
  }

  lemma CarriedTransitive(u: World, v: World, w: World)
    requires Carried(u, v) && Carried(v, w)
    ensures Carried(u, w)
  {
    forall e | e in u.publisher ensures PublishedBy(w, e, u.publisher[e]) {
      assert PublishedBy(v, e, u.publisher[e]);
    }
    forall id | id in u.polls ensures id in w.polls && PollPersists(u, w, id) {
      assert PollPersists(u, v, id) && PollPersists(v, w, id);
    }
  }

  lemma StartInv()
    ensures WorldInv(Start)
  {
    RunInv([]);
  }

  lemma {:induction false} RunMovesInv(w: World, moves: seq<Move>)
    requires WorldInv(w)
    ensures WorldInv(RunMoves(w, moves)) && Persists(w, RunMoves(w, moves))
    decreases |moves|
  {
    if moves == [] {
      PersistsReflexive(w);
    } else {
      var mid := RunMoves(w, moves[..|moves| - 1]);
      RunMovesInv(w, moves[..|moves| - 1]);
      MoveInv(mid, moves[|moves| - 1]);
      PersistsTransitive(w, mid, RunMoves(w, moves));
    }
  }

  lemma PlayInv(moves: seq<Move>)
    ensures WorldInv(Play(moves))
  {
    StartInv();
    RunMovesInv(Start, moves);
  }

  /** From any point of a run to any later one: no row is lost, rewritten or un-published, and acceptances stay. */
  lemma RowsPersist(moves: seq<Move>, i: nat, j: nat)
    requires i <= j <= |moves|
    ensures Persists(Play(moves[..i]), Play(moves[..j]))
  {
    PlayInv(moves[..i]);
    RunSplit(Start, moves[..i], moves[i..j]);
    assert moves[..i] + moves[i..j] == moves[..j];
    RunMovesInv(Play(moves[..i]), moves[i..j]);
  }

  /** At the move that publishes a row, the gateway had already accepted its event. */
  lemma AcceptedBeforePublished(moves: seq<Move>, i: nat, e: EventId)
    requires i < |moves| && !Published(Play(moves[..i]), e) && Published(Play(moves[..i + 1]), e)
    ensures e in Play(moves[..i]).accepted
  {
    PlayInv(moves[..i]);
    RunNext(Start, moves, i);
    PublishingMove(Play(moves[..i]), moves[i], e);
  }

  /** A row is published by the acknowledgement of a poll that is at that row, and by nothing else. */
  lemma PublishingMove(w: World, move: Move, e: EventId)
    requires HostInv(w) && !Published(w, e) && Published(Next(w, move), e)
    ensures move.Ack? && IsAt(w, move.id, Acking) && w.polls[move.id].batch[w.polls[move.id].index] == e
    ensures e in w.accepted && PublishedBy(Next(w, move), e, move.id)
  {
    match move
    case Serve(step) =>
      if !step.AckEvent? {
        ServePublishesNothing(w.sys, step, e);
      }
    case Ack(id, answer) =>
      if IsAt(w, id, Acking) {
        assert PollInv(w, id, w.polls[id]);
      }
    case _ =>
  }

  /** In every reachable state: attempts is 1 exactly when published and 0 otherwise, a published row was accepted and
      has one publisher, and a poll in progress has itself published exactly what lies behind its index. */
  lemma OutboxSafety(moves: seq<Move>)
    ensures var w := Play(moves);
            && (forall e | e in w.sys.db.outbox ::
                  w.sys.db.outbox[e].attempts == if w.sys.db.outbox[e].published then 1 else 0)
            && (forall e | e in w.sys.db.outbox && w.sys.db.outbox[e].published :: e in w.accepted && e in w.publisher)
            && (forall id | InProgress(w, id) ::
                  w.polls[id].index < |w.polls[id].batch| && Owns(w, id, w.polls[id].batch[..w.polls[id].index]))
  {
    PlayInv(moves);
    var w := Play(moves);
    forall e | e in w.sys.db.outbox && w.sys.db.outbox[e].published ensures e in w.accepted && e in w.publisher {
      assert Published(w, e);
    }
    forall id | InProgress(w, id)
      ensures w.polls[id].index < |w.polls[id].batch| && Owns(w, id, w.polls[id].batch[..w.polls[id].index])
    {
      assert PollInv(w, id, w.polls[id]);
    }
  }

  /** What becomes of a poll in progress when it is its turn: a push is recorded unless the gateway refused it, and goes
      on to the acknowledgement only when its reply arrives; an acknowledgement moves the poll on only when it finds the
      row still unpublished and its reply arrives; everything else, a crash included, ends the poll where it stands. */
  lemma PollTurns(w: World, id: nat, push: PushResult, ack: AckResult)
    ensures IsAt(w, id, Pushing) ==>
              var p := w.polls[id]; var x := Next(w, Push(id, push));
              && x.polls == w.polls[id := p.(stage := if push.Accepted? then Acking else Ended)] && x.sys == w.sys
              && x.accepted == (if push.Refused? then w.accepted else w.accepted + [p.batch[p.index]])
    ensures IsAt(w, id, Acking) ==>
              var p := w.polls[id]; var e := p.batch[p.index]; var x := Next(w, Ack(id, ack));
              var waiting := e in w.sys.db.outbox && !w.sys.db.outbox[e].published;
              && id in x.polls && x.polls == w.polls[id := x.polls[id]] && x.accepted == w.accepted
              && (if ack.Answered? && waiting
                  then x.polls[id].index == p.index + 1 && (x.polls[id].stage.Ended? <==> p.index + 1 == |p.batch|)
                  else x.polls[id] == p.(stage := Ended))
              && (Published(x, e) <==> Published(w, e) || (!ack.AckRequestLost? && waiting))
    ensures id in w.polls ==> Next(w, Crash(id)) == w.(polls := w.polls[id := w.polls[id].(stage := Ended)])
  {
    if IsAt(w, id, Acking) {
      AckApplied(w.sys, w.polls[id].batch[w.polls[id].index]);
    }
  }

  // ---- What a poll has done by the time it ends ----

  /** The acknowledgement takes effect although the poll never learns of it. */
  predicate UnheardAck(w: World, move: Move) {
    move.Ack? && move.answer.AckReplyLost? && IsAt(w, move.id, Acking) && StillWaiting(w, move.id)
  }

  lemma EndingMove(w: World, move: Move, id: nat)
    requires RowsInv(w) && InProgress(w, id) && PollInv(w, id, w.polls[id]) && !InProgress(Next(w, move), id)
    ensures id in Next(w, move).polls
    ensures var x := Next(w, move); var p := x.polls[id];
            && p.stage.Ended? && p.batch == w.polls[id].batch && p.index <= |p.batch|
            && (UnheardAck(w, move) ==> p.index < |p.batch|)
            && Owns(x, id, p.batch[..if UnheardAck(w, move) then p.index + 1 else p.index])
  {
    var p := w.polls[id];
    assert !move.Serve? && move.id == id;
    if move.Ack? && !move.answer.AckRequestLost? && IsAt(w, id, Acking) && StillWaiting(w, id) {
      assert !Published(w, p.batch[p.index]);
      PublishOwns(w, Next(w, move), id, p.batch[p.index], p.batch, p.index);
    } else {
      assert Next(w, move).publisher == w.publisher;
      assert Owns(Next(w, move), id, p.batch[..p.index]);
    }
  }

  /** Among any number of workers and crashes: a poll that ends at index k has itself published exactly its first k
      rows, for good; or k + 1 if and only if it ended because the reply to an acknowledgement was lost, and the row
      was still unpublished when that acknowledgement arrived. */
  lemma PollPublishes(moves: seq<Move>, i: nat, j: nat, id: nat)
    requires i < j <= |moves| && InProgress(Play(moves[..i]), id) && !InProgress(Play(moves[..i + 1]), id)
    ensures id in Play(moves[..j]).polls && !InProgress(Play(moves[..j]), id) && id in Play(moves[..i + 1]).polls
    ensures var p := Play(moves[..j]).polls[id]; var unheard := UnheardAck(Play(moves[..i]), moves[i]);
            && p == Play(moves[..i + 1]).polls[id] && p.batch == Play(moves[..i]).polls[id].batch
            && p.index <= |p.batch| && (unheard ==> p.index < |p.batch|)
            && Owns(Play(moves[..j]), id, p.batch[..if unheard then p.index + 1 else p.index])
  {
    var w := Play(moves[..i]);
    RunNext(Start, moves, i);
    assert RowsInv(w) && PollInv(w, id, w.polls[id]) by { PlayInv(moves[..i]); }
    assert Carried(Play(moves[..i + 1]), Play(moves[..j])) by { RowsPersist(moves, i + 1, j); }
    EndedForGood(w, moves[i], Play(moves[..j]), id);
  }

  lemma EndedForGood(w: World, move: Move, z: World, id: nat)
    requires RowsInv(w) && InProgress(w, id) && PollInv(w, id, w.polls[id])
    requires !InProgress(Next(w, move), id) && Carried(Next(w, move), z)
    ensures id in z.polls && !InProgress(z, id) && id in Next(w, move).polls
    ensures var p := z.polls[id];
            && p == Next(w, move).polls[id] && p.batch == w.polls[id].batch
            && p.index <= |p.batch| && (UnheardAck(w, move) ==> p.index < |p.batch|)
            && Owns(z, id, p.batch[..if UnheardAck(w, move) then p.index + 1 else p.index])
  {
    EndingMove(w, move, id);
    var p := Next(w, move).polls[id];
    OwnsStays(Next(w, move), z, id, p.batch[..if UnheardAck(w, move) then p.index + 1 else p.index]);
  }

  lemma OwnsStays(v: World, w: World, id: nat, events: seq<EventId>)
    requires Carried(v, w) && id in v.polls && v.polls[id].stage.Ended? && Owns(v, id, events)
    ensures id in w.polls && w.polls[id] == v.polls[id] && Owns(w, id, events)
  {
    assert PollPersists(v, w, id);
    forall i | 0 <= i < |events| ensures PublishedBy(w, events[i], id) {
      assert PublishedBy(v, events[i], id);
    }
  }

  // ---- A poll nobody disturbs ----

  /** The moves of a poll that confirms its first k events. */
  function PollMoves(id: nat, batch: seq<EventId>, k: nat): seq<Move>
    decreases k
  {
    if k == 0 then [TakeBatch(id, batch)]
    else PollMoves(id, batch, k - 1) + [Push(id, Accepted)] + [Ack(id, Answered)]
  }

  /** Where they lead: k rows accepted and published, in order, and nothing else touched. */
  ghost predicate Confirmed(w: World, x: World, id: nat, batch: seq<EventId>, k: nat)
    requires k <= |batch|
  {
    && x.accepted == w.accepted + batch[..k]
    && x.sys == w.sys.(db := w.sys.db.(outbox := AckAll(w.sys.db.outbox, batch[..k])))
    && id in x.polls && x.polls == w.polls[id := x.polls[id]]
    && x.polls[id] == Polling(batch, k, if k < |batch| then Pushing else Ended)
  }

  lemma {:induction false} PollAlone(w: World, id: nat, batch: seq<EventId>, k: nat)
    requires id !in w.polls && IsBatch(w.sys.db.outbox, BATCH, batch) && k <= |batch|
    ensures Confirmed(w, RunMoves(w, PollMoves(id, batch, k)), id, batch, k)
    decreases k
  {
    if k == 0 {
      RunOne(w, TakeBatch(id, batch));
      assert w.accepted + batch[..0] == w.accepted && AckAll(w.sys.db.outbox, batch[..0]) == w.sys.db.outbox;
    } else {
      var before := PollMoves(id, batch, k - 1);
      var x := RunMoves(w, before);
      PollAlone(w, id, batch, k - 1);
      RunSplit(w, before + [Push(id, Accepted)], [Ack(id, Answered)]);
      RunSplit(w, before, [Push(id, Accepted)]);
      RunOne(x, Push(id, Accepted));
      RunOne(PushOne(x, id, Accepted), Ack(id, Answered));
      ConfirmOne(w, x, id, batch, k - 1);
    }
  }

  lemma ConfirmOne(w: World, x: World, id: nat, batch: seq<EventId>, k: nat)
    requires k < |batch| && Distinct(batch) && Waiting(w.sys.db.outbox, batch[k]) && Confirmed(w, x, id, batch, k)
    ensures Confirmed(w, AckOne(PushOne(x, id, Accepted), id, Answered), id, batch, k + 1)
  {
    WaitsItsTurn(w.sys.db.outbox, batch, k);
    AckNext(w.sys.db.outbox, batch, k);
    PrefixGrows(w.accepted, batch, k);
    var y := x.(accepted := x.accepted + [batch[k]], polls := x.polls[id := Polling(batch, k, Acking)]);
    assert PushOne(x, id, Accepted) == y;
    AckApplied(y.sys, batch[k]);
    assert AckOne(y, id, Answered).polls == y.polls[id := Confirm(y.polls[id])];
  }

  lemma WaitsItsTurn(outbox: Outbox, batch: seq<EventId>, k: nat)
    requires Distinct(batch) && k < |batch| && Waiting(outbox, batch[k])
    ensures Waiting(AckAll(outbox, batch[..k]), batch[k])
  {
    AckAllEffect(outbox, batch[..k]);
  }

  lemma PrefixGrows(accepted: seq<EventId>, batch: seq<EventId>, k: nat)
    requires k < |batch|
    ensures accepted + batch[..k + 1] == accepted + batch[..k] + [batch[k]]
  {
  }

  lemma AckNext(outbox: Outbox, batch: seq<EventId>, k: nat)
    requires k < |batch|
    ensures AckAll(outbox, batch[..k + 1]) == AckRow(AckAll(outbox, batch[..k]), batch[k])
  {
    assert batch[..k + 1][..k] == batch[..k];
  }

  function PendingRows(w: World): set<EventId> {
    Unpublished(w.sys.db.outbox)
  }

  /** A fault-free poll publishes exactly its batch, the oldest min(pending, 100) rows. */
  lemma FaultFreePoll(w: World, id: nat, batch: seq<EventId>)
    requires id !in w.polls && IsBatch(w.sys.db.outbox, BATCH, batch)
    ensures var x := RunMoves(w, PollMoves(id, batch, |batch|));
            && PendingRows(x) == PendingRows(w) - Elements(batch)
            && |PendingRows(x)| == Max(0, |PendingRows(w)| - 100)
            && x.accepted == w.accepted + batch
  {
    PollAlone(w, id, batch, |batch|);
    assert batch[..|batch|] == batch;
    BatchLeaves(w.sys.db.outbox, batch);
  }

  lemma BatchLeaves(outbox: Outbox, batch: seq<EventId>)
    requires IsBatch(outbox, BATCH, batch)
    ensures Unpublished(AckAll(outbox, batch)) == Unpublished(outbox) - Elements(batch)
    ensures |Unpublished(AckAll(outbox, batch))| == Max(0, |Unpublished(outbox)| - BATCH)
  {
    AckAllEffect(outbox, batch);
    ElementsOfDistinct(batch);
    SubsetSize(Elements(batch), Unpublished(outbox));
    assert Unpublished(AckAll(outbox, batch)) == Unpublished(outbox) - Elements(batch);
  }

  ghost predicate DrainStep(w: World, x: World, id: nat, batch: seq<EventId>) {
    id !in w.polls && IsBatch(w.sys.db.outbox, BATCH, batch) && x == RunMoves(w, PollMoves(id, batch, |batch|))
  }

  /** Fault-free polls of one worker, one after another, with no inserts in between. */
  ghost predicate DrainRun(worlds: seq<World>, ids: seq<nat>, batches: seq<seq<EventId>>) {
    && |worlds| == |batches| + 1 && |ids| == |batches|
    && forall i | 0 <= i < |batches| :: DrainStep(worlds[i], worlds[i + 1], ids[i], batches[i])
  }

  lemma FewerPending(pending: nat, n: nat, before: nat, after: nat)
    requires before == Max(0, pending - BATCH * n) && after == Max(0, before - BATCH)
    ensures after == Max(0, pending - BATCH * (n + 1))
    ensures after == 0 <==> n + 1 >= (pending + BATCH - 1) / BATCH
  {
  }

  /** After n such polls exactly 100 n rows fewer are pending, so ceil(pending / 100) polls empty the outbox,
      and no fewer do. */
  lemma {:induction false} Drain(worlds: seq<World>, ids: seq<nat>, batches: seq<seq<EventId>>)
    requires DrainRun(worlds, ids, batches)
    ensures |PendingRows(worlds[|batches|])| == Max(0, |PendingRows(worlds[0])| - 100 * |batches|)
    ensures PendingRows(worlds[|batches|]) == {} <==> |batches| >= (|PendingRows(worlds[0])| + 99) / 100
    decreases |batches|
  {
    if batches == [] {
    } else {
      var n := |batches| - 1;
      var last := worlds[n + 1];
      Drain(worlds[..n + 1], ids[..n], batches[..n]);
      assert DrainStep(worlds[n], last, ids[n], batches[n]);
      FaultFreePoll(worlds[n], ids[n], batches[n]);
      FewerPending(|PendingRows(worlds[0])|, n, |PendingRows(worlds[n])|, |PendingRows(last)|);
      assert PendingRows(last) == {} <==> |PendingRows(last)| == 0;
    }
  }
}
