/**
 Who may do what. A handler's checks and its transaction are separate steps, so
 what a transaction does is traced back, through the run, to the step at which
 its caller was entitled to it; and every first check answers exactly when the
 handler's rules say so.
 */
module Permissions {
  import opened Common
  import opened Store
  import opened Invariants
  import opened Backend
  import opened BackendTheorems

  function PhaseOf(s: Sys, call: nat): Option<Phase> {
    if call in s.calls then Some(s.calls[call]) else None
  }

  ghost function At(steps: seq<Step>, n: nat): Sys
    requires n <= |steps|
  {
    Run(Initial, steps[..n])
  }

  lemma AtNext(steps: seq<Step>, n: nat)
    requires n < |steps|
    ensures At(steps, n + 1) == Apply(At(steps, n), steps[n])
  {
    OneStep(steps, n);
  }

  // ---- Sending ----

  predicate Sending(p: Option<Phase>, req: SendRequest) {
    p == Some(SendAuthorized(req)) || p == Some(SendReady(req))
  }

  lemma SendingFrom(s: Sys, step: Step, call: nat, req: SendRequest)
    requires Sending(PhaseOf(Apply(s, step), call), req)
    ensures Sending(PhaseOf(s, call), req)
            || (step == SendAuthorize(call, req, true) && IsActive(s.db, req.conversation, req.user))
  {
    match step
    case SendCommit(c, id, event, now, link) =>
    case DirectCommit(c, id, link) =>
    case RemoveCommit(c, event, now, link) =>
    case _ =>
  }

  /** A request that got past its checks was well formed, and its sender an active member when it was authorized. */
  lemma {:induction false} SendingSince(steps: seq<Step>, n: nat, call: nat, req: SendRequest) returns (j: nat)
    requires n <= |steps| && Sending(PhaseOf(At(steps, n), call), req)
    ensures j < n && steps[j] == SendAuthorize(call, req, true)
    ensures IsActive(DbAfter(steps, j), req.conversation, req.user)
    decreases n
  {
    assert n > 0;
    AtNext(steps, n - 1);
    SendingFrom(At(steps, n - 1), steps[n - 1], call, req);
    if Sending(PhaseOf(At(steps, n - 1), call), req) {
      j := SendingSince(steps, n - 1, call, req);
    } else {
      j := n - 1;
    }
  }

  /** Whoever's message a step stores was an active member of that conversation when the request was authorized, and
      the message is that request's. */
  lemma SenderWasMember(steps: seq<Step>, i: nat, id: MessageId) returns (j: nat)
    requires i < |steps| && id !in DbAfter(steps, i).messages && id in DbAfter(steps, i + 1).messages
    ensures steps[i].SendCommit? && j < i && steps[j].SendAuthorize? && steps[j].call == steps[i].call
    ensures var m := DbAfter(steps, i + 1).messages[id]; var req := steps[j].req;
            && m == Message(req.conversation, req.user, req.content, m.sequence, false)
            && steps[j].wellFormed && IsActive(DbAfter(steps, j), m.conversation, m.sender)
  {
    AtNext(steps, i);
    StoringStep(At(steps, i), steps[i], id);
    j := SendingSince(steps, i, steps[i].call, At(steps, i).calls[steps[i].call].req);
  }

  /** The first check of a send: 10003 exactly for a malformed request, 10005 exactly for a well-formed one from someone
      who is not an active member; everyone else goes on. */
  lemma SendCheckAnswers(s: Sys, call: nat, req: SendRequest, wellFormed: bool)
    requires call !in s.calls
    ensures var t := Apply(s, SendAuthorize(call, req, wellFormed)); var p := PhaseOf(t, call);
            && t.db == s.db
            && (p == Some(SendReplied(req, SendFailed(10003))) <==> !wellFormed)
            && (p == Some(SendReplied(req, SendFailed(10005))) <==>
                  wellFormed && !IsActive(s.db, req.conversation, req.user))
            && (p == Some(SendAuthorized(req)) <==> wellFormed && IsActive(s.db, req.conversation, req.user))
  {
  }

  /** The commit of a send: a success exactly when it was committed and heard, 11001 exactly when the conversation is
      gone, 10000 in every other case. */
  lemma SendCommitAnswers(s: Sys, call: nat, req: SendRequest, id: MessageId, event: EventId, now: int, link: Link)
    requires PhaseOf(s, call) == Some(SendReady(req))
    ensures var t := Apply(s, SendCommit(call, id, event, now, link));
            var there := req.conversation in s.db.conversations;
            var p := PhaseOf(t, call);
            && p.Some? && p.value.SendReplied? && p.value.req == req
            && (p.value.answer == SendFailed(11001) <==> !there && !link.Aborted?)
            && (p.value.answer.Stored? <==> link.Up? && there && t.db != s.db)
            && (p.value.answer.Stored? ==>
                  p.value.answer == Stored(id, s.db.conversations[req.conversation].nextSequence, req.content))
            && (p.value.answer.SendFailed? ==> p.value.answer.code == 11001 || p.value.answer.code == 10000)
            && (id in t.db.messages && id !in s.db.messages ==> t.db != s.db)
  {
    var tx := SendTx(s.db, req, id, event, now);
    if tx.Committed? {
      assert id in tx.db.messages && id !in s.db.messages;
    }
  }

  /** What a message says is what was sent, for good: shown as sent while no moderation has been announced, and as the
      mask from then on. */
  lemma ShownAsSent(steps: seq<Step>, i: nat, id: MessageId) returns (j: nat)
    requires i < |steps| && id !in DbAfter(steps, i).messages && id in DbAfter(steps, i + 1).messages
    ensures j < i && steps[j].SendAuthorize?
    ensures var db := DbAfter(steps, |steps|);
            && id in db.messages
            && Shown(db.messages[id]) == if exists e | e in db.outbox :: Retracts(db.outbox[e], id, db.messages[id])
                                         then "***" else steps[j].req.content
  {
    j := SenderWasMember(steps, i, id);
    Between(steps, i + 1, |steps|);
    assert steps[..|steps|] == steps;
    OneModeratedRow(steps, id);
  }

  // ---- Moderating ----

  /** Only a moderation makes a message illegal, and its event reaches the members active at that moment, for good. */
  lemma ModeratedTargets(steps: seq<Step>, i: nat, id: MessageId) returns (event: EventId)
    requires i < |steps| && id in DbAfter(steps, i).messages && id in DbAfter(steps, i + 1).messages
    requires !DbAfter(steps, i).messages[id].illegal && DbAfter(steps, i + 1).messages[id].illegal
    ensures steps[i].ModerateCommit?
    ensures var db := DbAfter(steps, |steps|);
            && id in db.messages && event in db.outbox && Retracts(db.outbox[event], id, db.messages[id])
            && db.outbox[event].payload.targets == Active(DbAfter(steps, i), db.messages[id].conversation)
  {
    AtNext(steps, i);
    assert CallsInv(DbAfter(steps, i), At(steps, i).calls) by { InvAt(steps, i); }
    event := ModeratingStep(At(steps, i), steps[i], id);
    assert Grows(DbAfter(steps, i), DbAfter(steps, i + 1)) by { Between(steps, i, i + 1); }
    assert Grows(DbAfter(steps, i + 1), DbAfter(steps, |steps|)) by { Between(steps, i + 1, |steps|); }
  }

  lemma ModeratingStep(s: Sys, step: Step, id: MessageId) returns (event: EventId)
    requires CallsInv(s.db, s.calls) && id in s.db.messages && !s.db.messages[id].illegal
    requires id in Apply(s, step).db.messages && Apply(s, step).db.messages[id].illegal
    ensures step.ModerateCommit? && event in Apply(s, step).db.outbox
    ensures var row := Apply(s, step).db.outbox[event];
            Retracts(row, id, s.db.messages[id]) && row.payload.targets == Active(s.db, s.db.messages[id].conversation)
  {
    match step
    case ModerateCommit(call, e, now, link) =>
      assert PhaseInv(s.db, s.calls[call]);
      event := e;
    case SendCommit(call, m, e, now, link) => assert false;
    case _ => assert false;
  }

  /** A moderation check: 20008 exactly for an unknown message, nothing to do exactly for one already illegal. */
  lemma ModerateCheckAnswers(s: Sys, call: nat, id: MessageId)
    requires call !in s.calls
    ensures var t := Apply(s, ModerateCheck(call, id)); var p := PhaseOf(t, call);
            && t.db == s.db
            && (p == Some(Closed(20008)) <==> id !in s.db.messages)
            && (p == Some(Closed(0)) <==> id in s.db.messages && s.db.messages[id].illegal)
            && (id in s.db.messages && !s.db.messages[id].illegal ==>
                  p == Some(ModerateReady(id, s.db.messages[id].conversation, s.db.messages[id].sequence)))
  {
  }

  // ---- Conversations begin ----

  lemma GroupFrom(s: Sys, step: Step, call: nat, user: UserId, others: set<UserId>)
    requires PhaseOf(Apply(s, step), call) == Some(GroupReady(user, others))
    ensures PhaseOf(s, call) == Some(GroupReady(user, others))
            || (step.GroupCheck? && step.call == call && step.user == user
                && others == step.others - {user} && others != {})
  {
  }

  lemma {:induction false} GroupSince(steps: seq<Step>, n: nat, call: nat, user: UserId, others: set<UserId>)
    returns (j: nat)
    requires n <= |steps| && PhaseOf(At(steps, n), call) == Some(GroupReady(user, others))
    ensures j < n && steps[j].GroupCheck? && steps[j].call == call && steps[j].user == user
    ensures others == steps[j].others - {user} && others != {}
    decreases n
  {
    assert n > 0;
    AtNext(steps, n - 1);
    GroupFrom(At(steps, n - 1), steps[n - 1], call, user, others);
    if PhaseOf(At(steps, n - 1), call) == Some(GroupReady(user, others)) {
      j := GroupSince(steps, n - 1, call, user, others);
    } else {
      j := n - 1;
    }
  }

  lemma GroupRows(db: Db, c: ConversationId, user: UserId, others: set<UserId>)
    requires MembersInv(db) && CreateGroupTx(db, c, user, others).Committed?
    ensures var b := CreateGroupTx(db, c, user, others).db;
            && Active(b, c) == others + {user}
            && c in b.conversations && b.conversations[c] == Conversation(Group, user, 1)
            && (c, user) in b.members && b.members[(c, user)].role.Owner?
            && (forall u | u in others :: (c, u) in b.members && b.members[(c, u)].role.Member?)
  {
    var b := CreateGroupTx(db, c, user, others).db;
    forall u: UserId ensures u in Active(b, c) <==> u in others + {user} {
      ActiveMeansActive(b, c, u);
    }
  }

  /** A group begins with exactly the users its creator named and the creator, the creator as owner, everyone else a
      plain member, and an empty log. */
  lemma GroupBegins(steps: seq<Step>, i: nat, c: ConversationId) returns (j: nat)
    requires i < |steps| && c !in DbAfter(steps, i).conversations && IsGroup(DbAfter(steps, i + 1), c)
    ensures j < i && steps[j].GroupCheck? && steps[j].others - {steps[j].user} != {}
    ensures var b := DbAfter(steps, i + 1); var named := steps[j].others + {steps[j].user};
            && Active(b, c) == named && b.conversations[c] == Conversation(Group, steps[j].user, 1)
            && (forall u | u in named :: (c, u) in b.members
                  && b.members[(c, u)].role == if u == steps[j].user then Owner else Member)
  {
    AtNext(steps, i);
    var s := At(steps, i);
    assert MembersInv(s.db) by { InvAt(steps, i); }
    NewConversation(s, steps[i], c);
    var p := s.calls[steps[i].call];
    j := GroupSince(steps, i, steps[i].call, p.user, p.others);
    GroupRows(s.db, c, p.user, p.others);
    assert p.others + {p.user} == steps[j].others + {p.user};
  }

  /** A conversation is created by a commit, and by nothing else. */
  lemma NewConversation(s: Sys, step: Step, c: ConversationId)
    requires c !in s.db.conversations && c in Apply(s, step).db.conversations
    ensures (step.GroupCommit? || step.DirectCommit?) && step.conversation == c && step.call in s.calls
    ensures step.GroupCommit? ==> var p := s.calls[step.call];
              && p.GroupReady? && CreateGroupTx(s.db, c, p.user, p.others).Committed?
              && Apply(s, step).db == CreateGroupTx(s.db, c, p.user, p.others).db
    ensures step.DirectCommit? ==> Apply(s, step).db.conversations[c].kind.Direct?
  {
    match step
    case GroupCommit(call, d, link) =>
    case DirectCommit(call, d, link) =>
    case SendCommit(call, id, event, now, link) => assert false;
    case _ => assert false;
  }

  /** A group request: 10003 exactly when it names nobody but the caller. */
  lemma GroupCheckAnswers(s: Sys, call: nat, user: UserId, others: set<UserId>)
    requires call !in s.calls
    ensures var t := Apply(s, GroupCheck(call, user, others)); var p := PhaseOf(t, call);
            && t.db == s.db
            && (p == Some(Closed(10003)) <==> others <= {user})
            && (!(others <= {user}) ==> p == Some(GroupReady(user, others - {user})))
  {
  }

  /** A direct request: 10003 exactly against oneself, the pair's conversation exactly when the lookup finds it, and the
      creation otherwise, a failed lookup included. */
  lemma DirectCheckAnswers(s: Sys, call: nat, user: UserId, other: UserId, lookupFails: bool)
    requires call !in s.calls
    ensures var t := Apply(s, DirectCheck(call, user, other, lookupFails)); var p := PhaseOf(t, call);
            var pair := OrderedPair(user, other); var known := pair in s.db.direct && !lookupFails;
            && t.db == s.db
            && (p == Some(Closed(10003)) <==> user == other)
            && (user != other && known ==> p == Some(DirectReplied(user, other, Some(s.db.direct[pair]))))
            && (user != other && !known ==> p == Some(DirectReady(user, other)))
  {
  }

  /** Get or create: with no conversation for the pair yet, a caller that meets no race and no fault gets a new one,
      whose two active members are the pair; with one there already, the caller gets that one and nothing changes. */
  lemma DirectGetOrCreate(s: Sys, call: nat, user: UserId, other: UserId, c: ConversationId)
    requires Inv(s) && call !in s.calls && user != other && c !in s.db.conversations
    ensures var t := Apply(s, DirectCheck(call, user, other, false));
            var found := FindDirect(s.db, user, other);
            && (found.Some? ==> t.db == s.db && PhaseOf(t, call) == Some(DirectReplied(user, other, found)))
            && (found.None? ==>
                  var b := Apply(t, DirectCommit(call, c, Up));
                  && PhaseOf(b, call) == Some(DirectReplied(user, other, Some(c))) && Active(b.db, c) == {user, other}
                  && c in b.db.conversations && b.db.conversations[c] == Conversation(Direct, user, 1))
  {
    var t := Apply(s, DirectCheck(call, user, other, false));
    if FindDirect(s.db, user, other).None? {
      assert t == s.(calls := s.calls[call := DirectReady(user, other)]);
      FreshPair(s.db, user, other, c);
    }
  }

  lemma FreshPair(db: Db, user: UserId, other: UserId, c: ConversationId)
    requires MembersInv(db) && DirectInv(db) && c !in db.conversations && user != other
    requires FindDirect(db, user, other).None?
    ensures CreateDirectTx(db, c, user, other).Committed?
    ensures Active(CreateDirectTx(db, c, user, other).db, c) == {user, other}
  {
    assert forall p | p in db.direct :: PairInv(db, p, db.direct[p]);
    var b := CreateDirectTx(db, c, user, other).db;
    forall u: UserId ensures u in Active(b, c) <==> u in {user, other} {
      ActiveMeansActive(b, c, u);
    }
  }

  // ---- Joining ----

  lemma AddFrom(s: Sys, step: Step, call: nat, c: ConversationId, users: set<UserId>)
    requires PhaseOf(Apply(s, step), call) == Some(AddReady(c, users))
    ensures PhaseOf(s, call) == Some(AddReady(c, users))
            || (step.AddCheck? && step.call == call && step.conversation == c && users == step.users - {step.user}
                && users != {} && IsGroup(s.db, c) && IsActive(s.db, c, step.user)
                && !s.db.members[(c, step.user)].role.Member?)
  {
  }

  /** Step j let this caller add these users: an owner or admin of the group at that moment. */
  ghost predicate AddAllowed(steps: seq<Step>, j: nat, call: nat, c: ConversationId, users: set<UserId>)
    requires j < |steps|
  {
    var db := DbAfter(steps, j);
    && steps[j].AddCheck? && steps[j].call == call && steps[j].conversation == c
    && users == steps[j].users - {steps[j].user} && users != {} && IsGroup(db, c)
    && IsActive(db, c, steps[j].user) && !db.members[(c, steps[j].user)].role.Member?
  }

  lemma {:induction false} AddSince(steps: seq<Step>, n: nat, call: nat, c: ConversationId, users: set<UserId>)
    returns (j: nat)
    requires n <= |steps| && PhaseOf(At(steps, n), call) == Some(AddReady(c, users))
    ensures j < n && AddAllowed(steps, j, call, c, users)
    decreases n
  {
    assert n > 0;
    AtNext(steps, n - 1);
    AddFrom(At(steps, n - 1), steps[n - 1], call, c, users);
    if PhaseOf(At(steps, n - 1), call) == Some(AddReady(c, users)) {
      j := AddSince(steps, n - 1, call, c, users);
    } else {
      j := n - 1;
    }
  }

  /** Whoever joins an existing conversation was named by someone who was its owner or admin when the request was
      checked, and joins as a plain member. */
  lemma JoinedBy(steps: seq<Step>, i: nat, c: ConversationId, u: UserId) returns (j: nat)
    requires i < |steps| && c in DbAfter(steps, i).conversations
    requires !IsActive(DbAfter(steps, i), c, u) && IsActive(DbAfter(steps, i + 1), c, u)
    ensures steps[i].AddCommit? && j < i && steps[j].AddCheck?
    ensures AddAllowed(steps, j, steps[i].call, c, steps[j].users - {steps[j].user})
    ensures u in steps[j].users && u != steps[j].user && DbAfter(steps, i + 1).members[(c, u)].role.Member?
  {
    AtNext(steps, i);
    assert GroupInv(DbAfter(steps, i)) by { InvAt(steps, i); }
    JoiningStep(At(steps, i), steps[i], c, u);
    j := AddSince(steps, i, steps[i].call, c, At(steps, i).calls[steps[i].call].users);
  }

  lemma JoiningStep(s: Sys, step: Step, c: ConversationId, u: UserId)
    requires c in s.db.conversations && !IsActive(s.db, c, u) && IsActive(Apply(s, step).db, c, u)
    ensures step.AddCommit? && step.call in s.calls && s.calls[step.call].AddReady?
    ensures s.calls[step.call].conversation == c && u in s.calls[step.call].users
    ensures Apply(s, step).db.members[(c, u)] == Membership(Member, true)
  {
    match step
    case AddCommit(call, event, now, link) =>
    case RemoveCommit(call, event, now, link) => assert false;
    case Promote(d, v, admin) => assert false;
    case _ => assert false;
  }

  /** An addition request: 10003 when it names nobody else or the conversation is no group, 11001 when the caller is not
      an active member of it, 10005 when a plain one; an owner or admin of a group goes on. */
  lemma AddCheckAnswers(s: Sys, call: nat, user: UserId, c: ConversationId, users: set<UserId>)
    requires call !in s.calls
    ensures var t := Apply(s, AddCheck(call, user, c, users)); var p := PhaseOf(t, call);
            var member := c in s.db.conversations && IsActive(s.db, c, user);
            && t.db == s.db
            && (p == Some(AddReady(c, users - {user})) <==>
                  !(users <= {user}) && member && IsGroup(s.db, c) && !s.db.members[(c, user)].role.Member?)
            && (p == Some(Closed(11001)) <==> !(users <= {user}) && !member)
            && (p == Some(Closed(10003)) <==> users <= {user} || (member && !IsGroup(s.db, c)))
            && (p == Some(Closed(10005)) <==>
                  !(users <= {user}) && member && IsGroup(s.db, c) && s.db.members[(c, user)].role.Member?)
  {
  }

  // ---- Leaving ----

  lemma RemovalFrom(s: Sys, step: Step, call: nat, c: ConversationId, target: UserId, role: Role)
    requires PhaseOf(Apply(s, step), call) == Some(RemoveAuthorized(c, target, role))
    ensures PhaseOf(s, call) == Some(RemoveAuthorized(c, target, role))
            || (step.RemoveAuthorize? && step.call == call && step.conversation == c && step.target == target
                && step.user != target && IsGroup(s.db, c) && IsActive(s.db, c, step.user)
                && s.db.members[(c, step.user)].role == role && !role.Member?)
  {
  }

  lemma ReadyFrom(s: Sys, step: Step, call: nat, c: ConversationId, target: UserId)
    requires PhaseOf(Apply(s, step), call) == Some(RemoveReady(c, target))
    ensures PhaseOf(s, call) == Some(RemoveReady(c, target))
            || (step == RemoveCheck(call) && call in s.calls && s.calls[call].RemoveAuthorized?
                && s.calls[call].conversation == c && s.calls[call].target == target
                && IsActive(s.db, c, target) && !s.db.members[(c, target)].role.Owner?
                && (s.db.members[(c, target)].role.Admin? ==> s.calls[call].callerRole.Owner?))
  {
  }

  /** Step j found the caller an owner or admin, in the role the later check relies on. */
  ghost predicate RemovalAllowed(steps: seq<Step>, j: nat, call: nat, c: ConversationId, target: UserId, role: Role)
    requires j < |steps|
  {
    var db := DbAfter(steps, j);
    && steps[j].RemoveAuthorize? && steps[j].call == call && steps[j].conversation == c && steps[j].target == target
    && steps[j].user != target && IsGroup(db, c) && IsActive(db, c, steps[j].user)
    && db.members[(c, steps[j].user)].role == role && !role.Member?
  }

  /** Step k found the target an active member whom a caller of that role may remove. */
  ghost predicate TargetAllowed(steps: seq<Step>, k: nat, call: nat, c: ConversationId, target: UserId, role: Role)
    requires k < |steps|
  {
    var db := DbAfter(steps, k);
    && steps[k] == RemoveCheck(call) && IsActive(db, c, target) && !db.members[(c, target)].role.Owner?
    && (db.members[(c, target)].role.Admin? ==> role.Owner?)
  }

  lemma {:induction false} RemovalSince(steps: seq<Step>, n: nat, call: nat, c: ConversationId, target: UserId,
                                        role: Role)
    returns (j: nat)
    requires n <= |steps| && PhaseOf(At(steps, n), call) == Some(RemoveAuthorized(c, target, role))
    ensures j < n && RemovalAllowed(steps, j, call, c, target, role)
    decreases n
  {
    assert n > 0;
    AtNext(steps, n - 1);
    RemovalFrom(At(steps, n - 1), steps[n - 1], call, c, target, role);
    if PhaseOf(At(steps, n - 1), call) == Some(RemoveAuthorized(c, target, role)) {
      j := RemovalSince(steps, n - 1, call, c, target, role);
    } else {
      j := n - 1;
    }
  }

  lemma {:induction false} ReadySince(steps: seq<Step>, n: nat, call: nat, c: ConversationId, target: UserId)
    returns (j: nat, k: nat, role: Role)
    requires n <= |steps| && PhaseOf(At(steps, n), call) == Some(RemoveReady(c, target))
    ensures j < k < n && RemovalAllowed(steps, j, call, c, target, role)
    ensures TargetAllowed(steps, k, call, c, target, role)
    decreases n
  {
    assert n > 0;
    AtNext(steps, n - 1);
    var s := At(steps, n - 1);
    ReadyFrom(s, steps[n - 1], call, c, target);
    if PhaseOf(s, call) == Some(RemoveReady(c, target)) {
      j, k, role := ReadySince(steps, n - 1, call, c, target);
    } else {
      k, role := n - 1, s.calls[call].callerRole;
      j := RemovalSince(steps, n - 1, call, c, target, role);
    }
  }

  /** Whoever leaves a conversation was removed by someone else, an owner or admin when the request was authorized; and
      when it was checked the target was an active plain member, or an admin removed by an owner. */
  lemma RemovedBy(steps: seq<Step>, i: nat, c: ConversationId, u: UserId) returns (j: nat, k: nat, role: Role)
    requires i < |steps| && IsActive(DbAfter(steps, i), c, u) && !IsActive(DbAfter(steps, i + 1), c, u)
    ensures steps[i].RemoveCommit? && j < k < i
    ensures RemovalAllowed(steps, j, steps[i].call, c, u, role) && TargetAllowed(steps, k, steps[i].call, c, u, role)
  {
    AtNext(steps, i);
    assert MembersInv(DbAfter(steps, i)) by { InvAt(steps, i); }
    LeavingStep(At(steps, i), steps[i], c, u);
    j, k, role := ReadySince(steps, i, steps[i].call, c, u);
  }

  lemma LeavingStep(s: Sys, step: Step, c: ConversationId, u: UserId)
    requires MembersInv(s.db) && IsActive(s.db, c, u) && !IsActive(Apply(s, step).db, c, u)
    ensures step.RemoveCommit? && step.call in s.calls && s.calls[step.call] == RemoveReady(c, u)
  {
    match step
    case RemoveCommit(call, event, now, link) =>
    case AddCommit(call, event, now, link) => assert false;
    case GroupCommit(call, d, link) => assert false;
    case DirectCommit(call, d, link) => assert false;
    case Promote(d, v, admin) => assert false;
    case _ => assert false;
  }

  /** A removal request: 10003 against oneself or outside a group, 11001 when the caller is not an active member, 10005
      when a plain one; an owner or admin goes on, in that role. */
  lemma RemoveAuthorizeAnswers(s: Sys, call: nat, user: UserId, c: ConversationId, target: UserId)
    requires call !in s.calls
    ensures var t := Apply(s, RemoveAuthorize(call, user, c, target)); var p := PhaseOf(t, call);
            var member := c in s.db.conversations && IsActive(s.db, c, user);
            && t.db == s.db
            && (p == Some(Closed(10003)) <==> target == user || (member && !IsGroup(s.db, c)))
            && (p == Some(Closed(11001)) <==> target != user && !member)
            && (p == Some(Closed(10005)) <==>
                  target != user && member && IsGroup(s.db, c) && s.db.members[(c, user)].role.Member?)
            && (target != user && member && IsGroup(s.db, c) && !s.db.members[(c, user)].role.Member? ==>
                  p == Some(RemoveAuthorized(c, target, s.db.members[(c, user)].role)))
  {
  }

  /** Its second check: nothing to do for someone who is not an active member, 10003 for the owner, 10005 for an admin
      unless the caller is the owner; anyone else may be removed. */
  lemma RemoveCheckAnswers(s: Sys, call: nat, c: ConversationId, target: UserId, role: Role)
    requires PhaseOf(s, call) == Some(RemoveAuthorized(c, target, role))
    ensures var t := Apply(s, RemoveCheck(call)); var p := PhaseOf(t, call);
            && t.db == s.db
            && (p == Some(Closed(0)) <==> !IsActive(s.db, c, target))
            && (p == Some(Closed(10003)) <==> IsActive(s.db, c, target) && s.db.members[(c, target)].role.Owner?)
            && (p == Some(Closed(10005)) <==>
                  IsActive(s.db, c, target) && s.db.members[(c, target)].role.Admin? && !role.Owner?)
            && (IsActive(s.db, c, target)
                && (s.db.members[(c, target)].role.Member? || (s.db.members[(c, target)].role.Admin? && role.Owner?))
                ==> p == Some(RemoveReady(c, target)))
  {
  }

  // ---- What a success means ----

  /** An addition is reported as done only when everyone named is in, and always when its commit meets no fault. */
  lemma AddReported(s: Sys, call: nat, event: EventId, now: int, link: Link)
    requires call in s.calls && s.calls[call].AddReady?
    ensures var t := Apply(s, AddCommit(call, event, now, link)); var p := s.calls[call];
            && (PhaseOf(t, call) == Some(Closed(0)) ==> forall u | u in p.users :: IsActive(t.db, p.conversation, u))
            && (link.Up? && event !in s.db.outbox ==> PhaseOf(t, call) == Some(Closed(0)))
            && (PhaseOf(t, call) == Some(Closed(0)) || PhaseOf(t, call) == Some(Closed(10000)))
  {
    var c, users := s.calls[call].conversation, s.calls[call].users;
    var added := Joining(s.db, c, users);
    var members := s.db.members + MemberRows(c, added);
    forall u | u in users ensures (c, u) in members && members[(c, u)].active {
      if u !in added {
        assert IsActive(s.db, c, u) && (c, u) !in MemberRows(c, added);
      }
    }
  }

  /** A removal is reported as done only when the target is out and the event stored, and always when its commit meets
      no fault. */
  lemma RemoveReported(s: Sys, call: nat, event: EventId, now: int, link: Link)
    requires call in s.calls && s.calls[call].RemoveReady?
    ensures var t := Apply(s, RemoveCommit(call, event, now, link)); var p := s.calls[call];
            && (PhaseOf(t, call) == Some(Closed(0)) ==>
                  !IsActive(t.db, p.conversation, p.target) && event in t.db.outbox && event !in s.db.outbox)
            && (link.Up? && event !in s.db.outbox ==> PhaseOf(t, call) == Some(Closed(0)))
            && (PhaseOf(t, call) == Some(Closed(0)) || PhaseOf(t, call) == Some(Closed(10000)))
  {
  }

  /** A moderation is reported as done only when the message is illegal, and always when its commit meets no fault. */
  lemma ModerateReported(s: Sys, call: nat, event: EventId, now: int, link: Link)
    requires call in s.calls && s.calls[call].ModerateReady? && s.calls[call].message in s.db.messages
    ensures var t := Apply(s, ModerateCommit(call, event, now, link)); var id := s.calls[call].message;
            && (PhaseOf(t, call) == Some(Closed(0)) ==> id in t.db.messages && t.db.messages[id].illegal)
            && (link.Up? && event !in s.db.outbox ==> PhaseOf(t, call) == Some(Closed(0)))
            && (PhaseOf(t, call) == Some(Closed(0)) || PhaseOf(t, call) == Some(Closed(10000)))
  {
  }

  /** A group is reported as made only when it is there, and always when its commit meets no fault and a fresh id. */
  lemma GroupReported(s: Sys, call: nat, c: ConversationId, link: Link)
    requires Inv(s) && call in s.calls && s.calls[call].GroupReady? && s.calls[call].user !in s.calls[call].others
    ensures var t := Apply(s, GroupCommit(call, c, link));
            && (PhaseOf(t, call) == Some(Closed(0)) ==> IsGroup(t.db, c) && c !in s.db.conversations)
            && (link.Up? && c !in s.db.conversations ==> PhaseOf(t, call) == Some(Closed(0)))
            && (PhaseOf(t, call) == Some(Closed(0)) || PhaseOf(t, call) == Some(Closed(10000)))
  {
  }
}
