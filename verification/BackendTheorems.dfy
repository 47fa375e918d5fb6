/** What the backend guarantees over whole runs, for every interleaving of its steps. */
module BackendTheorems {
  import opened Common
  import opened Store
  import opened Invariants
  import opened Backend

  ghost function DbAfter(steps: seq<Step>, n: nat): Db
    requires n <= |steps|
  {
    Run(Initial, steps[..n]).db
  }

  lemma InvAt(steps: seq<Step>, n: nat)
    requires n <= |steps|
    ensures Inv(Run(Initial, steps[..n]))
  {
    RunInv(steps[..n]);
  }

  /** From any point of a run to any later point the tables only grow. */
  lemma Between(steps: seq<Step>, i: nat, j: nat)
    requires i <= j <= |steps|
    ensures Grows(DbAfter(steps, i), DbAfter(steps, j))
  {
    var s := Run(Initial, steps[..i]);
    RunSplit(Initial, steps[..i], steps[i..j]);
    assert steps[..i] + steps[i..j] == steps[..j];
    assert Inv(s) by { InvAt(steps, i); }
    RunGrows(s, steps[i..j]);
  }

  lemma OneStep(steps: seq<Step>, i: nat)
    requires i < |steps|
    ensures Run(Initial, steps[..i + 1]) == Apply(Run(Initial, steps[..i]), steps[i])
  {
    assert steps[..i + 1][..i] == steps[..i];
  }

  // ---- Durable log ----

  ghost function Sequences(db: Db, c: ConversationId): set<nat> {
    set id | id in db.messages && db.messages[id].conversation == c :: db.messages[id].sequence
  }

  /** After any run a conversation's sequences are exactly 1 .. nextSequence - 1, none used twice. */
  lemma GaplessLog(steps: seq<Step>, c: ConversationId)
    requires c in Run(Initial, steps).db.conversations
    ensures var db := Run(Initial, steps).db;
            && (forall k: nat :: k in Sequences(db, c) <==> 1 <= k < db.conversations[c].nextSequence)
            && (forall x, y | x in db.messages && y in db.messages
                    && SamePlace(db.messages[x], db.messages[y]) :: x == y)
  {
    RunInv(steps);
    var db := Run(Initial, steps).db;
    forall k: nat ensures k in Sequences(db, c) <==> 1 <= k < db.conversations[c].nextSequence {
      if 1 <= k < db.conversations[c].nextSequence {
        assert SequenceTaken(db, c, k);
        var id :| id in db.messages && At(db.messages[id], c, k);
      }
    }
  }

  /** Each message has exactly one message.created row, carrying its id, conversation and sequence. */
  lemma OneCreatedRow(steps: seq<Step>, id: MessageId) returns (event: EventId)
    requires id in Run(Initial, steps).db.messages
    ensures var db := Run(Initial, steps).db;
            event in db.outbox && Announces(db.outbox[event], id, db.messages[id])
            && (forall e | e in db.outbox && db.outbox[e].payload.MessageCreated?
                    && db.outbox[e].payload.message == id :: e == event)
  {
    RunInv(steps);
    var db := Run(Initial, steps).db;
    assert Announced(db, id);
    event :| event in db.outbox && Announces(db.outbox[event], id, db.messages[id]);
    forall e | e in db.outbox && db.outbox[e].payload.MessageCreated? && db.outbox[e].payload.message == id
      ensures e == event
    {
      assert SameCreated(db.outbox[e], db.outbox[event]);
    }
  }

  /** A step that stores a message is a send commit, and it targets the members active at that moment. */
  lemma StoringStep(s: Sys, step: Step, id: MessageId)
    requires id !in s.db.messages && id in Apply(s, step).db.messages
    ensures step.SendCommit? && step.id == id && step.call in s.calls && s.calls[step.call].SendReady?
    ensures var b := Apply(s, step).db; var m := b.messages[id];
            && step.event in b.outbox
            && b.outbox[step.event].payload
               == MessageCreated(id, m.conversation, m.sequence, Active(s.db, m.conversation))
            && m.content == s.calls[step.call].req.content && m.sender == s.calls[step.call].req.user
  {
    match step
    case SendCommit(call, i, event, now, link) =>
    case _ =>
  }

  /** The row announcing a message forever targets exactly the members active when it was committed. */
  lemma CreatedTargets(steps: seq<Step>, i: nat, id: MessageId) returns (event: EventId)
    requires i < |steps|
    requires id !in DbAfter(steps, i).messages && id in DbAfter(steps, i + 1).messages
    ensures var db := DbAfter(steps, |steps|);
            && id in db.messages && event in db.outbox
            && Announces(db.outbox[event], id, db.messages[id])
            && db.outbox[event].payload.targets == Active(DbAfter(steps, i), db.messages[id].conversation)
  {
    OneStep(steps, i);
    Between(steps, i + 1, |steps|);
    StoringStep(Run(Initial, steps[..i]), steps[i], id);
    event := steps[i].event;
  }

  // ---- Exactly-once send ----

  /** Step i stores a message for this user under this key. */
  ghost predicate StoresUnder(steps: seq<Step>, i: nat, user: UserId, key: Key)
    requires i < |steps|
  {
    var s := Run(Initial, steps[..i]);
    && steps[i].SendCommit? && steps[i].call in s.calls && s.calls[steps[i].call].SendReady?
    && s.calls[steps[i].call].req.user == user && s.calls[steps[i].call].req.key == Some(key)
    && DbAfter(steps, i + 1).messages != DbAfter(steps, i).messages
  }

  lemma StoredHasReceipt(steps: seq<Step>, i: nat, user: UserId, key: Key)
    requires i < |steps| && StoresUnder(steps, i, user, key)
    ensures (user, key) !in DbAfter(steps, i).receipts && (user, key) in DbAfter(steps, i + 1).receipts
  {
    OneStep(steps, i);
  }

  /** For one user and key, however requests race or are retried, at most one step of a run stores a message. */
  lemma AtMostOneStore(steps: seq<Step>, i: nat, j: nat, user: UserId, key: Key)
    requires i < |steps| && j < |steps|
    requires StoresUnder(steps, i, user, key) && StoresUnder(steps, j, user, key)
    ensures i == j
  {
    StoredHasReceipt(steps, i, user, key);
    StoredHasReceipt(steps, j, user, key);
    if i < j {
      Between(steps, i + 1, j);
    } else if j < i {
      Between(steps, j + 1, i);
    }
  }

  /** Every successful answer names the stored message, so all successes for one key agree. */
  lemma SuccessNamesStored(steps: seq<Step>, call: nat)
    requires call in Run(Initial, steps).calls
    requires var p := Run(Initial, steps).calls[call]; p.SendReplied? && p.answer.Stored?
    ensures var s := Run(Initial, steps); var p := s.calls[call];
            && p.answer.id in s.db.messages && s.db.messages[p.answer.id].sequence == p.answer.sequence
            && s.db.messages[p.answer.id].sender == p.req.user
            && (p.req.key.Some? ==> HasReceipt(s.db, p.req.user, p.req.key.value, Receipt(p.req.hash, p.answer.id)))
  {
    RunInv(steps);
    assert PhaseInv(Run(Initial, steps).db, Run(Initial, steps).calls[call]);
  }

  lemma SuccessesAgree(steps: seq<Step>, a: nat, b: nat)
    requires a in Run(Initial, steps).calls && b in Run(Initial, steps).calls
    requires var s := Run(Initial, steps); var p, q := s.calls[a], s.calls[b];
             && p.SendReplied? && p.answer.Stored? && q.SendReplied? && q.answer.Stored?
             && p.req.user == q.req.user && p.req.key == q.req.key && p.req.key.Some?
    ensures var s := Run(Initial, steps); var p, q := s.calls[a], s.calls[b];
            p.answer.id == q.answer.id && p.answer.sequence == q.answer.sequence && p.req.hash == q.req.hash
  {
    SuccessNamesStored(steps, a);
    SuccessNamesStored(steps, b);
  }

  /** Once a key has a receipt, no request under it stores anything again, whatever its hash. */
  lemma UsedKeyStoresNothing(steps: seq<Step>, i: nat, j: nat, user: UserId, key: Key)
    requires i <= j < |steps| && (user, key) in DbAfter(steps, i).receipts
    ensures !StoresUnder(steps, j, user, key)
    ensures (user, key) in DbAfter(steps, j).receipts
    ensures DbAfter(steps, j).receipts[(user, key)] == DbAfter(steps, i).receipts[(user, key)]
  {
    Between(steps, i, j);
    if StoresUnder(steps, j, user, key) {
      StoredHasReceipt(steps, j, user, key);
    }
  }

  /** A lookup that finds a different hash is refused; one that finds the same hash replays the stored message. */
  lemma LookupDecides(db: Db, req: SendRequest)
    requires ReceiptInv(db) && req.key.Some? && (req.user, req.key.value) in db.receipts
    ensures var receipt := db.receipts[(req.user, req.key.value)];
            && (receipt.hash != req.hash <==> LookupKey(db, req) == SendReplied(req, SendFailed(KEY_REUSED)))
            && (receipt.hash == req.hash <==>
                  LookupKey(db, req) == SendReplied(req, Stored(receipt.message,
                    db.messages[receipt.message].sequence, Shown(db.messages[receipt.message]))))
  {
    assert db.receipts[(req.user, req.key.value)].message in db.messages;
  }

  /** Over whole runs: once a key has a receipt, every later lookup under it is decided by that receipt. The same hash
      is answered with the stored message, any other with 11002; neither goes on to a transaction. */
  lemma KeyDecides(steps: seq<Step>, i: nat, j: nat, req: SendRequest)
    requires i <= j < |steps| && steps[j].SendLookup? && req.key.Some?
    requires var s := Run(Initial, steps[..j]);
             steps[j].call in s.calls && s.calls[steps[j].call] == SendAuthorized(req)
    requires (req.user, req.key.value) in DbAfter(steps, i).receipts
    ensures steps[j].call in Run(Initial, steps[..j + 1]).calls
    ensures var receipt := DbAfter(steps, i).receipts[(req.user, req.key.value)]; var db := DbAfter(steps, j + 1);
            var p := Run(Initial, steps[..j + 1]).calls[steps[j].call];
            && receipt.message in db.messages && p.SendReplied?
            && (p.answer == SendFailed(11002) <==> receipt.hash != req.hash)
            && (p.answer == Stored(receipt.message, db.messages[receipt.message].sequence,
                                   Shown(db.messages[receipt.message]))
                <==> receipt.hash == req.hash)
  {
    Between(steps, i, j);
    OneStep(steps, j);
    assert ReceiptInv(DbAfter(steps, j)) by { InvAt(steps, j); }
    LookupDecides(DbAfter(steps, j), req);
  }

  // ---- Direct conversations ----

  /** Each pair has at most one direct conversation; it has exactly the two as active members. */
  lemma DirectConversations(steps: seq<Step>, c: ConversationId) returns (pair: (UserId, UserId))
    requires var db := Run(Initial, steps).db; c in db.conversations && db.conversations[c].kind.Direct?
    ensures var db := Run(Initial, steps).db;
            && pair.0 < pair.1 && Active(db, c) == {pair.0, pair.1}
            && FindDirect(db, pair.0, pair.1) == Some(c) && FindDirect(db, pair.1, pair.0) == Some(c)
            && (forall d | d in db.conversations && db.conversations[d].kind.Direct?
                    && Active(db, d) == Active(db, c) :: d == c)
  {
    RunInv(steps);
    var db := Run(Initial, steps).db;
    assert c in db.direct.Values;
    pair :| pair in db.direct && db.direct[pair] == c;
    PairMembers(db, pair);
    forall d | d in db.conversations && db.conversations[d].kind.Direct? && Active(db, d) == Active(db, c)
      ensures d == c
    {
      assert d in db.direct.Values;
      var other :| other in db.direct && db.direct[other] == d;
      PairMembers(db, other);
      assert other.0 in {pair.0, pair.1} && other.1 in {pair.0, pair.1};
      assert pair.0 in {other.0, other.1} && pair.1 in {other.0, other.1};
    }
  }

  lemma PairMembers(db: Db, pair: (UserId, UserId))
    requires DirectInv(db) && pair in db.direct
    ensures pair.0 < pair.1 && Active(db, db.direct[pair]) == {pair.0, pair.1}
  {
    var c := db.direct[pair];
    assert PairInv(db, pair, c);
    forall u: UserId ensures u in Active(db, c) <==> u in {pair.0, pair.1} {
      ActiveMeansActive(db, c, u);
    }
  }

  /** Every caller that succeeds for a pair, in either order and at any two times, is given the same id. */
  lemma DirectCallersAgree(steps: seq<Step>, i: nat, a: nat, b: nat)
    requires i <= |steps|
    requires a in Run(Initial, steps[..i]).calls && b in Run(Initial, steps).calls
    requires var p := Run(Initial, steps[..i]).calls[a]; var q := Run(Initial, steps).calls[b];
             && p.DirectReplied? && q.DirectReplied? && p.found.Some? && q.found.Some?
             && {p.user, p.other} == {q.user, q.other}
    ensures Run(Initial, steps[..i]).calls[a].found == Run(Initial, steps).calls[b].found
  {
    assert steps[..|steps|] == steps;
    assert CallsInv(DbAfter(steps, i), Run(Initial, steps[..i]).calls) by { InvAt(steps, i); }
    assert CallsInv(DbAfter(steps, |steps|), Run(Initial, steps).calls) by { InvAt(steps, |steps|); }
    assert PairsStay(DbAfter(steps, i), DbAfter(steps, |steps|)) by { Between(steps, i, |steps|); }
    AnswersAgree(Run(Initial, steps[..i]), Run(Initial, steps), a, b);
  }

  ghost predicate PairsStay(a: Db, b: Db) {
    forall p | p in a.direct :: p in b.direct && b.direct[p] == a.direct[p]
  }

  lemma AnswersAgree(s: Sys, t: Sys, a: nat, b: nat)
    requires CallsInv(s.db, s.calls) && CallsInv(t.db, t.calls)
    requires PairsStay(s.db, t.db)
    requires a in s.calls && b in t.calls && s.calls[a].DirectReplied? && t.calls[b].DirectReplied?
    requires s.calls[a].found.Some? && t.calls[b].found.Some?
    requires {s.calls[a].user, s.calls[a].other} == {t.calls[b].user, t.calls[b].other}
    ensures s.calls[a].found == t.calls[b].found
  {
    var p, q := s.calls[a], t.calls[b];
    assert PhaseInv(s.db, p) && PhaseInv(t.db, q);
    SamePair(p.user, p.other, q.user, q.other);
  }

  lemma SamePair(a: UserId, b: UserId, c: UserId, d: UserId)
    requires {a, b} == {c, d}
    ensures OrderedPair(a, b) == OrderedPair(c, d)
  {
    assert a in {c, d} && b in {c, d} && c in {a, b} && d in {a, b};
  }

  /** A losing creation leaves no conversation, member or index row behind. */
  lemma LosingDirectLeavesNothing(s: Sys, call: nat, c: ConversationId, link: Link)
    requires call in s.calls && s.calls[call].DirectReady?
    requires FindDirect(s.db, s.calls[call].user, s.calls[call].other).Some?
    ensures CommitDirect(s, call, c, link).db == s.db
    ensures RecoverDirect(CommitDirect(s, call, c, link), call, false).calls[call]
            == DirectReplied(s.calls[call].user, s.calls[call].other,
                             FindDirect(s.db, s.calls[call].user, s.calls[call].other))
  {
  }

  // ---- Group membership ----

  /** Every group has exactly one active owner, and it is the creator. */
  lemma OneOwner(steps: seq<Step>, c: ConversationId)
    requires var db := Run(Initial, steps).db; c in db.conversations && db.conversations[c].kind.Group?
    ensures var db := Run(Initial, steps).db;
            (set u | u in Active(db, c) && db.members[(c, u)].role.Owner?) == {db.conversations[c].createdBy}
  {
    RunInv(steps);
    SoleOwner(Run(Initial, steps).db, c);
  }

  lemma SoleOwner(db: Db, c: ConversationId)
    requires GroupInv(db) && IsGroup(db, c)
    ensures (set u | u in Active(db, c) && db.members[(c, u)].role.Owner?) == {db.conversations[c].createdBy}
    ensures IsActive(db, c, db.conversations[c].createdBy) && db.members[(c, db.conversations[c].createdBy)].role.Owner?
  {
    var owner := db.conversations[c].createdBy;
    ActiveMeansActive(db, c, owner);
    assert (c, owner) in db.members && db.members[(c, owner)] == Membership(Owner, true);
  }

  /** The creator never leaves: a group keeps its owner from creation to the end of every run. */
  lemma OwnerForLife(steps: seq<Step>, i: nat, c: ConversationId)
    requires i <= |steps|
    requires var db := DbAfter(steps, i); c in db.conversations && db.conversations[c].kind.Group?
    ensures var a, b := DbAfter(steps, i), DbAfter(steps, |steps|);
            && c in b.conversations && b.conversations[c].createdBy == a.conversations[c].createdBy
            && IsActive(b, c, a.conversations[c].createdBy) && b.members[(c, a.conversations[c].createdBy)].role.Owner?
  {
    Between(steps, i, |steps|);
    assert GroupInv(DbAfter(steps, |steps|)) by { InvAt(steps, |steps|); }
    SoleOwner(DbAfter(steps, |steps|), c);
  }

  /** AddMembers: the active set becomes old plus requested, the event names exactly the newcomers. */
  lemma AddMembersEffect(db: Db, c: ConversationId, users: set<UserId>, event: EventId, now: int)
    requires event !in db.outbox
    ensures AddTx(db, c, users, event, now).Committed?
    ensures var b := AddTx(db, c, users, event, now).db; var newcomers := users - Active(db, c);
            && Active(b, c) == Active(db, c) + users
            && (newcomers == {} ==> b == db)
            && (newcomers != {} ==>
                  b.outbox == db.outbox[event := OutboxRow(MemberAdded(c, newcomers, Active(b, c)), now, false, 0)])
            && (forall d | d != c :: Active(b, d) == Active(db, d))
  {
    var added := Joining(db, c, users);
    var joined := db.(members := db.members + MemberRows(c, added));
    forall u: UserId ensures u in added <==> u in users - Active(db, c) {
      ActiveMeansActive(db, c, u);
    }
    assert added == users - Active(db, c);
    JoinedActive(db, c, added);
  }

  lemma JoinedActive(db: Db, c: ConversationId, added: set<UserId>)
    ensures var joined := db.(members := db.members + MemberRows(c, added));
            && Active(joined, c) == Active(db, c) + added
            && (forall d | d != c :: Active(joined, d) == Active(db, d))
  {
    var joined := db.(members := db.members + MemberRows(c, added));
    forall d: ConversationId, u: UserId
      ensures IsActive(joined, d, u) <==> IsActive(db, d, u) || (d == c && u in added)
      ensures u in Active(joined, d) <==> IsActive(joined, d, u)
      ensures u in Active(db, d) <==> IsActive(db, d, u)
    {
      ActiveMeansActive(joined, d, u);
      ActiveMeansActive(db, d, u);
    }
  }

  /** Repeating the same AddMembers changes nothing and emits nothing. */
  lemma AddMembersIdempotent(db: Db, c: ConversationId, users: set<UserId>, event: EventId, again: EventId, now: int)
    requires event !in db.outbox && again !in AddTx(db, c, users, event, now).db.outbox
    ensures AddTx(AddTx(db, c, users, event, now).db, c, users, again, now) == AddTx(db, c, users, event, now)
  {
    AddMembersEffect(db, c, users, event, now);
    AddMembersEffect(AddTx(db, c, users, event, now).db, c, users, again, now);
  }

  /** RemoveMember: the target leaves, nobody else moves, and the event reaches the rest and the target. */
  lemma RemoveMemberEffect(db: Db, c: ConversationId, target: UserId, event: EventId, now: int)
    requires event !in db.outbox
    ensures RemoveTx(db, c, target, event, now).Committed?
    ensures var b := RemoveTx(db, c, target, event, now).db;
            && Active(b, c) == Active(db, c) - {target}
            && event in b.outbox && b.outbox[event].payload == MemberRemoved(c, target, Active(db, c) + {target})
            && (forall d | d != c :: Active(b, d) == Active(db, d))
            && (b.members != db.members <==> IsActive(db, c, target))
  {
    var left := db.(members := LeaveRow(db, c, target));
    forall d: ConversationId, u: UserId
      ensures IsActive(left, d, u) <==> IsActive(db, d, u) && (d != c || u != target)
      ensures u in Active(left, d) <==> IsActive(left, d, u)
      ensures u in Active(db, d) <==> IsActive(db, d, u)
    {
      ActiveMeansActive(left, d, u);
      ActiveMeansActive(db, d, u);
    }
    if IsActive(db, c, target) {
      assert left.members[(c, target)] != db.members[(c, target)];
    }
    assert Active(left, c) + {target} == Active(db, c) + {target};
  }

  /** From any state in which an owner may remove a plain member: two such requests, each checked before the other
      commits, are both let through on the same database. */
  lemma BothRemovalsReady(s: Sys, owner: UserId, c: ConversationId, target: UserId, a: nat, b: nat)
    requires IsGroup(s.db, c) && Manages(s.db, c, owner) && owner != target && a != b && a !in s.calls && b !in s.calls
    requires IsActive(s.db, c, target) && s.db.members[(c, target)].role.Member?
    ensures var t := Apply(Apply(Apply(Apply(s, RemoveAuthorize(a, owner, c, target)), RemoveCheck(a)),
                                 RemoveAuthorize(b, owner, c, target)), RemoveCheck(b));
            t == Sys(s.db, s.calls[a := RemoveReady(c, target)][b := RemoveReady(c, target)])
  {
    var role := s.db.members[(c, owner)].role;
    var one := Apply(s, RemoveAuthorize(a, owner, c, target));
    assert one == Sys(s.db, s.calls[a := RemoveAuthorized(c, target, role)]);
    var two := Apply(one, RemoveCheck(a));
    assert two == Sys(s.db, s.calls[a := RemoveReady(c, target)]);
    var three := Apply(two, RemoveAuthorize(b, owner, c, target));
    assert three == Sys(s.db, s.calls[a := RemoveReady(c, target)][b := RemoveAuthorized(c, target, role)]);
  }

  /** Committing both emits two events for one departure: the second changes no membership. */
  lemma RacingRemovalsBothEmit(s: Sys, c: ConversationId, target: UserId, a: nat, b: nat,
                               e: EventId, f: EventId, now: int)
    requires a != b && a in s.calls && b in s.calls
    requires s.calls[a] == RemoveReady(c, target) && s.calls[b] == RemoveReady(c, target)
    requires e != f && e !in s.db.outbox && f !in s.db.outbox && IsActive(s.db, c, target)
    ensures var first := CommitRemove(s, a, e, now, Up).db;
            var second := CommitRemove(CommitRemove(s, a, e, now, Up), b, f, now, Up).db;
            && first.members != s.db.members && second.members == first.members
            && e in second.outbox && f in second.outbox
            && second.outbox[e].payload == MemberRemoved(c, target, Active(s.db, c))
            && second.outbox[f].payload == second.outbox[e].payload
  {
    RemoveMemberEffect(s.db, c, target, e, now);
    var first := CommitRemove(s, a, e, now, Up);
    RemoveMemberEffect(first.db, c, target, f, now);
    ActiveMeansActive(s.db, c, target);
    ActiveMeansActive(first.db, c, target);
    assert Active(s.db, c) + {target} == Active(s.db, c);
    assert Active(first.db, c) + {target} == Active(s.db, c);
  }

  // ---- Moderation ----

  /** A message has a message.moderated row exactly when it is illegal, and never two. */
  lemma OneModeratedRow(steps: seq<Step>, id: MessageId)
    requires id in Run(Initial, steps).db.messages
    ensures var db := Run(Initial, steps).db;
            && (db.messages[id].illegal <==> exists e | e in db.outbox :: Retracts(db.outbox[e], id, db.messages[id]))
            && (forall d, e | d in db.outbox && e in db.outbox && db.outbox[d].payload.MessageModerated?
                    && db.outbox[e].payload.MessageModerated? && db.outbox[d].payload.message == id
                    && db.outbox[e].payload.message == id :: d == e)
  {
    RunInv(steps);
    var db := Run(Initial, steps).db;
    if db.messages[id].illegal {
      assert Retracted(db, id);
    }
    forall d, e | d in db.outbox && e in db.outbox && db.outbox[d].payload.MessageModerated?
                    && db.outbox[e].payload.MessageModerated? && db.outbox[d].payload.message == id
                    && db.outbox[e].payload.message == id
      ensures d == e
    {
      assert SameModerated(db.outbox[d], db.outbox[e]);
    }
  }

  /** Once illegal, always illegal, so every later list or idempotent replay shows the mask. */
  lemma MaskedForever(steps: seq<Step>, i: nat, id: MessageId, req: SendRequest)
    requires i <= |steps| && id in DbAfter(steps, i).messages && DbAfter(steps, i).messages[id].illegal
    ensures var db := DbAfter(steps, |steps|);
            && id in db.messages && Shown(db.messages[id]) == MASK
            && (LookupKey(db, req).SendReplied? && LookupKey(db, req).answer.Stored?
                && LookupKey(db, req).answer.id == id
                ==> LookupKey(db, req).answer.content == MASK)
  {
    Between(steps, i, |steps|);
  }

  // ---- Reading the log ----

  /** The SQL page: rows of c past `after`, ascending, the lowest ones first, at most `limit` of them. */
  ghost predicate IsPage(db: Db, c: ConversationId, after: int, limit: nat, page: seq<MessageId>) {
    && |page| <= limit
    && (forall i | 0 <= i < |page| :: page[i] in db.messages && Past(db.messages[page[i]], c, after))
    && (forall i, j | 0 <= i < j < |page| :: db.messages[page[i]].sequence < db.messages[page[j]].sequence)
    && (forall id | id in db.messages && Past(db.messages[id], c, after) && id !in page ::
          |page| == limit && forall i | 0 <= i < |page| :: db.messages[page[i]].sequence < db.messages[id].sequence)
  }

  predicate Past(m: Message, c: ConversationId, after: int) {
    m.conversation == c && m.sequence > after
  }

  /** `ListMessages` falls back to 100 outside 1 .. 200. */
  function PageLimit(limit: int): (r: nat)
    ensures 1 <= r <= 200 && (r == limit || (r == 100 && !(1 <= limit <= 200)))
  {
    if limit < 1 || limit > 200 then 100 else limit
  }

  /** On a reachable database every page is consecutive: it starts right after the cursor and stops
      only at the limit or at the end of the log. */
  lemma PagesAreConsecutive(db: Db, c: ConversationId, after: int, limit: nat, page: seq<MessageId>)
    requires LogInv(db) && c in db.conversations && IsPage(db, c, after, limit, page)
    ensures |page| == Min(limit, Max(0, db.conversations[c].nextSequence - 1 - Max(after, 0)))
    ensures forall i | 0 <= i < |page| :: db.messages[page[i]].sequence == Max(after, 0) + 1 + i
  {
    var base := Max(after, 0);
    var last := db.conversations[c].nextSequence - 1;
    for n := 0 to |page|
      invariant forall i | 0 <= i < n :: db.messages[page[i]].sequence == base + 1 + i
    {
      PageStep(db, c, after, limit, page, n);
    }
    if |page| < limit && base + |page| < last {
      assert SequenceTaken(db, c, base + |page| + 1);
      var id :| id in db.messages && At(db.messages[id], c, base + |page| + 1);
      assert Past(db.messages[id], c, after);
    }
    if |page| > 0 {
      assert InRange(db, db.messages[page[|page| - 1]]);
    }
  }

  lemma PageStep(db: Db, c: ConversationId, after: int, limit: nat, page: seq<MessageId>, n: nat)
    requires LogInv(db) && c in db.conversations && IsPage(db, c, after, limit, page) && n < |page|
    requires forall i | 0 <= i < n :: db.messages[page[i]].sequence == Max(after, 0) + 1 + i
    ensures db.messages[page[n]].sequence == Max(after, 0) + 1 + n
  {
    var k := Max(after, 0) + 1 + n;
    var m := db.messages[page[n]];
    assert Past(m, c, after) && InRange(db, m);
    assert m.sequence >= k by {
      if n > 0 { assert db.messages[page[n - 1]].sequence == k - 1; }
    }
    if m.sequence > k {
      assert SequenceTaken(db, c, k);
      var id :| id in db.messages && At(db.messages[id], c, k);
      assert Past(db.messages[id], c, after);
      forall j | 0 <= j < |page| ensures db.messages[page[j]].sequence != k {
        assert j > n ==> db.messages[page[n]].sequence < db.messages[page[j]].sequence;
      }
      assert false;
    }
  }

  /** The masked reload: a message.moderated event always leads to its own message, masked. */
  lemma ReloadFindsMasked(steps: seq<Step>, i: nat, event: EventId, page: seq<MessageId>)
    requires i <= |steps| && event in DbAfter(steps, i).outbox
    requires DbAfter(steps, i).outbox[event].payload.MessageModerated?
    requires var p := DbAfter(steps, i).outbox[event].payload;
             IsPage(DbAfter(steps, |steps|), p.conversation, p.sequence - 1, 10, page)
    ensures var p := DbAfter(steps, i).outbox[event].payload; var db := DbAfter(steps, |steps|);
            && p.sequence > 0 && |page| > 0 && page[0] == p.message && p.message in db.messages
            && Shown(db.messages[page[0]]) == MASK
  {
    Between(steps, i, |steps|);
    assert ModeratedInv(DbAfter(steps, i)) by { InvAt(steps, i); }
    assert LogInv(DbAfter(steps, |steps|)) by { InvAt(steps, |steps|); }
    LaterReload(DbAfter(steps, i), DbAfter(steps, |steps|), event, page);
  }

  lemma LaterReload(a: Db, b: Db, event: EventId, page: seq<MessageId>)
    requires ModeratedInv(a) && LogInv(b) && Grows(a, b)
    requires event in a.outbox && a.outbox[event].payload.MessageModerated?
    requires IsPage(b, a.outbox[event].payload.conversation, a.outbox[event].payload.sequence - 1, 10, page)
    ensures var p := a.outbox[event].payload;
            && p.sequence > 0 && |page| > 0 && page[0] == p.message && p.message in b.messages
            && Shown(b.messages[page[0]]) == MASK
  {
    var p := a.outbox[event].payload;
    assert Retracts(a.outbox[event], p.message, a.messages[p.message]);
    assert InRange(b, b.messages[p.message]);
    PagesAreConsecutive(b, p.conversation, p.sequence - 1, 10, page);
    assert SamePlace(b.messages[page[0]], b.messages[p.message]);
  }
}
