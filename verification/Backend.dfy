/**
 The backend as a state machine. A handler first reads (its check steps) and
 later runs its transaction (its commit step); any steps of other handlers may
 fall between the two, and any transaction may abort or commit without the
 handler learning of it.
 */
module Backend {
  import opened Common
  import opened Store
  import opened Invariants

  /** What the database connection does to one transaction. */
  datatype Link = Up | Aborted | CommitReplyLost

  datatype SendReply = Stored(id: MessageId, sequence: nat, content: string) | SendFailed(code: nat)

  /** How far one request has come. */
  datatype Phase =
    | SendAuthorized(req: SendRequest)
    | SendReady(req: SendRequest)
    | SendReplied(req: SendRequest, answer: SendReply)
    | DirectReady(user: UserId, other: UserId)
    | DirectLost(user: UserId, other: UserId)
    | DirectReplied(user: UserId, other: UserId, found: Option<ConversationId>)
    | GroupReady(user: UserId, others: set<UserId>)
    | AddReady(conversation: ConversationId, users: set<UserId>)
    | RemoveAuthorized(conversation: ConversationId, target: UserId, callerRole: Role)
    | RemoveReady(conversation: ConversationId, target: UserId)
    | ModerateReady(message: MessageId, conversation: ConversationId, sequence: nat)
    | Closed(code: nat)

  datatype Sys = Sys(db: Db, calls: map<nat, Phase>)

  const Initial := Sys(EmptyDb, map[])

  const OK := 0
  const INTERNAL_ERROR := 10000
  const INVALID_REQUEST := 10003
  const PERMISSION_DENIED := 10005
  const CONVERSATION_NOT_FOUND := 11001
  const KEY_REUSED := 11002
  const MESSAGE_NOT_FOUND := 20008

  /** Identifiers, clocks, faults and request contents are chosen by the environment. */
  datatype Step =
    | SendAuthorize(call: nat, req: SendRequest, wellFormed: bool)
    | SendLookup(call: nat)
    | SendCommit(call: nat, id: MessageId, event: EventId, now: int, link: Link)
    | DirectCheck(call: nat, user: UserId, other: UserId, lookupFails: bool)
    | DirectCommit(call: nat, conversation: ConversationId, link: Link)
    | DirectRecover(call: nat, lookupFails: bool)
    | GroupCheck(call: nat, user: UserId, others: set<UserId>)
    | GroupCommit(call: nat, conversation: ConversationId, link: Link)
    | AddCheck(call: nat, user: UserId, conversation: ConversationId, users: set<UserId>)
    | AddCommit(call: nat, event: EventId, now: int, link: Link)
    | RemoveAuthorize(call: nat, user: UserId, conversation: ConversationId, target: UserId)
    | RemoveCheck(call: nat)
    | RemoveCommit(call: nat, event: EventId, now: int, link: Link)
    | ModerateCheck(call: nat, message: MessageId)
    | ModerateCommit(call: nat, event: EventId, now: int, link: Link)
    | Promote(conversation: ConversationId, user: UserId, admin: bool)
    | AckEvent(event: EventId)

  // ---- What a handler answers with ----

  const MASK := "***"

  /** `messageRow.response`: an illegal message shows only the mask. */
  function Shown(m: Message): string {
    if m.illegal then MASK else m.content
  }

  function After(db: Db, tx: TxResult, link: Link): Db {
    if tx.Committed? && !link.Aborted? then tx.db else db
  }

  predicate Reported(tx: TxResult, link: Link) {
    tx.Committed? && link.Up?
  }

  // ---- createMessage ----

  function CheckSend(db: Db, req: SendRequest, wellFormed: bool): Phase {
    if !wellFormed then SendReplied(req, SendFailed(INVALID_REQUEST))
    else if !IsActive(db, req.conversation, req.user) then SendReplied(req, SendFailed(PERMISSION_DENIED))
    else SendAuthorized(req)
  }

  function LookupKey(db: Db, req: SendRequest): Phase {
    if req.key.None? || (req.user, req.key.value) !in db.receipts then SendReady(req)
    else
      var receipt := db.receipts[(req.user, req.key.value)];
      if receipt.hash != req.hash then SendReplied(req, SendFailed(KEY_REUSED))
      else if receipt.message !in db.messages then SendReplied(req, SendFailed(INTERNAL_ERROR))
      else
        var m := db.messages[receipt.message];
        SendReplied(req, Stored(receipt.message, m.sequence, Shown(m)))
  }

  function AnswerSend(db: Db, req: SendRequest, id: MessageId, tx: TxResult, link: Link): Phase {
    if Reported(tx, link) && req.conversation in db.conversations
    then SendReplied(req, Stored(id, db.conversations[req.conversation].nextSequence, req.content))
    else if tx.NotFound? && !link.Aborted? then SendReplied(req, SendFailed(CONVERSATION_NOT_FOUND))
    else SendReplied(req, SendFailed(INTERNAL_ERROR))
  }

  // ---- createConversation ----

  function FindDirect(db: Db, a: UserId, b: UserId): Option<ConversationId> {
    if OrderedPair(a, b) in db.direct then Some(db.direct[OrderedPair(a, b)]) else None
  }

  function CheckDirect(db: Db, user: UserId, other: UserId, lookupFails: bool): Phase {
    if user == other then Closed(INVALID_REQUEST)
    else if !lookupFails && FindDirect(db, user, other).Some?
    then DirectReplied(user, other, FindDirect(db, user, other))
    else DirectReady(user, other)
  }

  function CheckGroup(user: UserId, others: set<UserId>): Phase {
    if others - {user} == {} then Closed(INVALID_REQUEST) else GroupReady(user, others - {user})
  }

  // ---- AddMembers and RemoveMember ----

  predicate Manages(db: Db, c: ConversationId, u: UserId) {
    IsActive(db, c, u) && !db.members[(c, u)].role.Member?
  }

  function CheckAdd(db: Db, user: UserId, c: ConversationId, users: set<UserId>): Phase {
    if users - {user} == {} then Closed(INVALID_REQUEST)
    else if c !in db.conversations || !IsActive(db, c, user) then Closed(CONVERSATION_NOT_FOUND)
    else if !db.conversations[c].kind.Group? then Closed(INVALID_REQUEST)
    else if !Manages(db, c, user) then Closed(PERMISSION_DENIED)
    else AddReady(c, users - {user})
  }

  function AuthorizeRemove(db: Db, user: UserId, c: ConversationId, target: UserId): Phase {
    if target == user then Closed(INVALID_REQUEST)
    else if c !in db.conversations || !IsActive(db, c, user) then Closed(CONVERSATION_NOT_FOUND)
    else if !db.conversations[c].kind.Group? then Closed(INVALID_REQUEST)
    else if !Manages(db, c, user) then Closed(PERMISSION_DENIED)
    else RemoveAuthorized(c, target, db.members[(c, user)].role)
  }

  function CheckRemove(db: Db, c: ConversationId, target: UserId, callerRole: Role): Phase {
    if !IsActive(db, c, target) then Closed(OK)
    else
      var role := db.members[(c, target)].role;
      if role.Owner? then Closed(INVALID_REQUEST)
      else if role.Admin? && !callerRole.Owner? then Closed(PERMISSION_DENIED)
      else RemoveReady(c, target)
  }

  // ---- MarkMessageIllegal ----

  function CheckModerate(db: Db, id: MessageId): Phase {
    if id !in db.messages then Closed(MESSAGE_NOT_FOUND)
    else if db.messages[id].illegal then Closed(OK)
    else ModerateReady(id, db.messages[id].conversation, db.messages[id].sequence)
  }

  // ---- The transition function ----

  function Begin(s: Sys, call: nat, phase: Phase): Sys {
    if call in s.calls then s else s.(calls := s.calls[call := phase])
  }

  function Settle(s: Sys, call: nat, tx: TxResult, link: Link, phase: Phase): Sys {
    Sys(After(s.db, tx, link), s.calls[call := phase])
  }

  function Code(tx: TxResult, link: Link): nat {
    if Reported(tx, link) then OK else INTERNAL_ERROR
  }

  function CommitSend(s: Sys, call: nat, id: MessageId, event: EventId, now: int, link: Link): Sys {
    if call in s.calls && s.calls[call].SendReady? then
      var req := s.calls[call].req;
      var tx := SendTx(s.db, req, id, event, now);
      Settle(s, call, tx, link, AnswerSend(s.db, req, id, tx, link))
    else s
  }

  function CommitDirect(s: Sys, call: nat, c: ConversationId, link: Link): Sys {
    if call in s.calls && s.calls[call].DirectReady? then
      var p := s.calls[call];
      var tx := CreateDirectTx(s.db, c, p.user, p.other);
      Settle(s, call, tx, link,
        if Reported(tx, link) then DirectReplied(p.user, p.other, Some(c)) else DirectLost(p.user, p.other))
    else s
  }

  function RecoverDirect(s: Sys, call: nat, lookupFails: bool): Sys {
    if call in s.calls && s.calls[call].DirectLost? then
      var p := s.calls[call];
      s.(calls := s.calls[call :=
        DirectReplied(p.user, p.other, if lookupFails then None else FindDirect(s.db, p.user, p.other))])
    else s
  }

  function CommitGroup(s: Sys, call: nat, c: ConversationId, link: Link): Sys {
    if call in s.calls && s.calls[call].GroupReady? then
      var tx := CreateGroupTx(s.db, c, s.calls[call].user, s.calls[call].others);
      Settle(s, call, tx, link, Closed(Code(tx, link)))
    else s
  }

  function CommitAdd(s: Sys, call: nat, event: EventId, now: int, link: Link): Sys {
    if call in s.calls && s.calls[call].AddReady? then
      var tx := AddTx(s.db, s.calls[call].conversation, s.calls[call].users, event, now);
      Settle(s, call, tx, link, Closed(Code(tx, link)))
    else s
  }

  function CommitRemove(s: Sys, call: nat, event: EventId, now: int, link: Link): Sys {
    if call in s.calls && s.calls[call].RemoveReady? then
      var tx := RemoveTx(s.db, s.calls[call].conversation, s.calls[call].target, event, now);
      Settle(s, call, tx, link, Closed(Code(tx, link)))
    else s
  }

  function CommitModerate(s: Sys, call: nat, event: EventId, now: int, link: Link): Sys {
    if call in s.calls && s.calls[call].ModerateReady? then
      var p := s.calls[call];
      var tx := ModerateTx(s.db, p.message, p.conversation, p.sequence, event, now);
      Settle(s, call, tx, link, Closed(Code(tx, link)))
    else s
  }

  function Apply(s: Sys, step: Step): Sys {
    match step
    case SendAuthorize(call, req, wellFormed) => Begin(s, call, CheckSend(s.db, req, wellFormed))
    case SendLookup(call) =>
      if call in s.calls && s.calls[call].SendAuthorized?
      then s.(calls := s.calls[call := LookupKey(s.db, s.calls[call].req)]) else s
    case SendCommit(call, id, event, now, link) => CommitSend(s, call, id, event, now, link)
    case DirectCheck(call, user, other, lookupFails) => Begin(s, call, CheckDirect(s.db, user, other, lookupFails))
    case DirectCommit(call, c, link) => CommitDirect(s, call, c, link)
    case DirectRecover(call, lookupFails) => RecoverDirect(s, call, lookupFails)
    case GroupCheck(call, user, others) => Begin(s, call, CheckGroup(user, others))
    case GroupCommit(call, c, link) => CommitGroup(s, call, c, link)
    case AddCheck(call, user, c, users) => Begin(s, call, CheckAdd(s.db, user, c, users))
    case AddCommit(call, event, now, link) => CommitAdd(s, call, event, now, link)
    case RemoveAuthorize(call, user, c, target) => Begin(s, call, AuthorizeRemove(s.db, user, c, target))
    case RemoveCheck(call) =>
      if call in s.calls && s.calls[call].RemoveAuthorized?
      then s.(calls := s.calls[call :=
             CheckRemove(s.db, s.calls[call].conversation, s.calls[call].target, s.calls[call].callerRole)]) else s
    case RemoveCommit(call, event, now, link) => CommitRemove(s, call, event, now, link)
    case ModerateCheck(call, message) => Begin(s, call, CheckModerate(s.db, message))
    case ModerateCommit(call, event, now, link) => CommitModerate(s, call, event, now, link)
    case Promote(c, user, admin) => s.(db := SetAdmin(s.db, c, user, admin))
    case AckEvent(event) => s.(db := s.db.(outbox := AckRow(s.db.outbox, event)))
  }

  function Run(s: Sys, steps: seq<Step>): Sys
    decreases |steps|
  {
    if steps == [] then s else Apply(Run(s, steps[..|steps| - 1]), steps[|steps| - 1])
  }

  // ---- The invariant of every run ----

  ghost predicate PhaseInv(db: Db, p: Phase) {
    match p
    case SendReplied(req, Stored(id, sequence, _)) =>
      && id in db.messages && db.messages[id].sequence == sequence && db.messages[id].sender == req.user
      && (req.key.Some? ==> HasReceipt(db, req.user, req.key.value, Receipt(req.hash, id)))
    case DirectReplied(user, other, Some(c)) => FindDirect(db, user, other) == Some(c)
    case AddReady(c, _) => IsGroup(db, c)
    case RemoveAuthorized(c, _, _) => IsGroup(db, c)
    case RemoveReady(c, target) => IsGroup(db, c) && target != db.conversations[c].createdBy
    case ModerateReady(id, c, sequence) => id in db.messages && At(db.messages[id], c, sequence)
    case _ => true
  }

  predicate HasReceipt(db: Db, user: UserId, key: Key, receipt: Receipt) {
    (user, key) in db.receipts && db.receipts[(user, key)] == receipt
  }

  predicate IsGroup(db: Db, c: ConversationId) {
    c in db.conversations && db.conversations[c].kind.Group?
  }

  ghost predicate CallsInv(db: Db, calls: map<nat, Phase>) {
    forall call | call in calls :: PhaseInv(db, calls[call])
  }

  ghost predicate Inv(s: Sys) {
    DbInv(s.db) && CallsInv(s.db, s.calls)
  }

  /** A step led from s to t: the invariant still holds, and nothing durable was lost. */
  ghost predicate Kept(s: Sys, t: Sys) {
    Inv(t) && Grows(s.db, t.db)
  }

  lemma PhaseStable(a: Db, b: Db, p: Phase)
    requires Grows(a, b) && PhaseInv(a, p)
    ensures PhaseInv(b, p)
  {
  }

  lemma CallsStable(a: Db, b: Db, calls: map<nat, Phase>, call: nat, phase: Phase)
    requires Grows(a, b) && CallsInv(a, calls) && PhaseInv(b, phase)
    ensures CallsInv(b, calls[call := phase])
  {
    forall x | x in calls ensures PhaseInv(b, calls[x]) {
      PhaseStable(a, b, calls[x]);
    }
  }

  /** A change of the database alone. */
  lemma TablesStep(s: Sys, b: Db)
    requires Inv(s) && Keeps(s.db, b)
    ensures Kept(s, s.(db := b))
  {
    forall x | x in s.calls ensures PhaseInv(b, s.calls[x]) {
      PhaseStable(s.db, b, s.calls[x]);
    }
  }

  /** A read step never changes the database, so only the new phase needs care. */
  lemma ReadStep(s: Sys, call: nat, phase: Phase)
    requires Inv(s) && PhaseInv(s.db, phase)
    ensures Inv(s.(calls := s.calls[call := phase]))
  {
  }

  lemma LookupInv(db: Db, req: SendRequest)
    requires ReceiptInv(db)
    ensures PhaseInv(db, LookupKey(db, req))
  {
  }

  lemma RemoveCheckInv(db: Db, c: ConversationId, target: UserId, role: Role)
    requires GroupInv(db) && IsGroup(db, c)
    ensures PhaseInv(db, CheckRemove(db, c, target, role))
  {
  }

  lemma SendCommitInv(s: Sys, call: nat, id: MessageId, event: EventId, now: int, link: Link)
    requires Inv(s)
    ensures Kept(s, CommitSend(s, call, id, event, now, link))
  {
    GrowsReflexive(s.db);
    if call in s.calls && s.calls[call].SendReady? {
      var req := s.calls[call].req;
      var tx := SendTx(s.db, req, id, event, now);
      var b := After(s.db, tx, link);
      assert Keeps(s.db, b) by { SendKeeps(s.db, req, id, event, now); }
      SendAnswerInv(s.db, req, id, event, now, link);
      CallsStable(s.db, b, s.calls, call, AnswerSend(s.db, req, id, tx, link));
    }
  }

  lemma SendAnswerInv(db: Db, req: SendRequest, id: MessageId, event: EventId, now: int, link: Link)
    ensures var tx := SendTx(db, req, id, event, now);
            PhaseInv(After(db, tx, link), AnswerSend(db, req, id, tx, link))
  {
  }

  lemma SettleInv(s: Sys, call: nat, tx: TxResult, link: Link, phase: Phase)
    requires Inv(s)
    requires tx.Committed? ==> Keeps(s.db, tx.db)
    requires PhaseInv(After(s.db, tx, link), phase)
    ensures Kept(s, Settle(s, call, tx, link, phase))
  {
    GrowsReflexive(s.db);
    CallsStable(s.db, After(s.db, tx, link), s.calls, call, phase);
  }

  lemma DirectStepInv(s: Sys, call: nat, c: ConversationId, link: Link)
    requires Inv(s)
    ensures Kept(s, CommitDirect(s, call, c, link))
  {
    GrowsReflexive(s.db);
    if call in s.calls && s.calls[call].DirectReady? {
      var p := s.calls[call];
      var tx := CreateDirectTx(s.db, c, p.user, p.other);
      CreateDirectKeeps(s.db, c, p.user, p.other);
      SettleInv(s, call, tx, link,
        if Reported(tx, link) then DirectReplied(p.user, p.other, Some(c)) else DirectLost(p.user, p.other));
    }
  }

  lemma GroupStepInv(s: Sys, call: nat, c: ConversationId, link: Link)
    requires Inv(s)
    ensures Kept(s, CommitGroup(s, call, c, link))
  {
    GrowsReflexive(s.db);
    if call in s.calls && s.calls[call].GroupReady? {
      var p := s.calls[call];
      CreateGroupKeeps(s.db, c, p.user, p.others);
      var tx := CreateGroupTx(s.db, c, p.user, p.others);
      SettleInv(s, call, tx, link, Closed(Code(tx, link)));
    }
  }

  lemma AddStepInv(s: Sys, call: nat, event: EventId, now: int, link: Link)
    requires Inv(s)
    ensures Kept(s, CommitAdd(s, call, event, now, link))
  {
    GrowsReflexive(s.db);
    if call in s.calls && s.calls[call].AddReady? {
      var p := s.calls[call];
      assert PhaseInv(s.db, p);
      AddKeeps(s.db, p.conversation, p.users, event, now);
      var tx := AddTx(s.db, p.conversation, p.users, event, now);
      SettleInv(s, call, tx, link, Closed(Code(tx, link)));
    }
  }

  lemma RemoveStepInv(s: Sys, call: nat, event: EventId, now: int, link: Link)
    requires Inv(s)
    ensures Kept(s, CommitRemove(s, call, event, now, link))
  {
    GrowsReflexive(s.db);
    if call in s.calls && s.calls[call].RemoveReady? {
      var p := s.calls[call];
      assert PhaseInv(s.db, p);
      RemoveKeeps(s.db, p.conversation, p.target, event, now);
      var tx := RemoveTx(s.db, p.conversation, p.target, event, now);
      SettleInv(s, call, tx, link, Closed(Code(tx, link)));
    }
  }

  lemma ModerateStepInv(s: Sys, call: nat, event: EventId, now: int, link: Link)
    requires Inv(s)
    ensures Kept(s, CommitModerate(s, call, event, now, link))
  {
    GrowsReflexive(s.db);
    if call in s.calls && s.calls[call].ModerateReady? {
      var p := s.calls[call];
      assert PhaseInv(s.db, p);
      ModerateKeeps(s.db, p.message, p.conversation, p.sequence, event, now);
      var tx := ModerateTx(s.db, p.message, p.conversation, p.sequence, event, now);
      SettleInv(s, call, tx, link, Closed(Code(tx, link)));
    }
  }

  /** A request begins by reading: whatever its first check decides is sound. */
  lemma BeginInv(s: Sys, call: nat, phase: Phase)
    requires Inv(s) && PhaseInv(s.db, phase)
    ensures Kept(s, Begin(s, call, phase))
  {
    GrowsReflexive(s.db);
    ReadStep(s, call, phase);
  }

  predicate Begins(step: Step) {
    step.SendAuthorize? || step.DirectCheck? || step.GroupCheck? || step.AddCheck? || step.RemoveAuthorize?
    || step.ModerateCheck?
  }

  /** The outcome of a request's first check. */
  function FirstPhase(db: Db, step: Step): Phase
    requires Begins(step)
  {
    match step
    case SendAuthorize(_, req, wellFormed) => CheckSend(db, req, wellFormed)
    case DirectCheck(_, user, other, lookupFails) => CheckDirect(db, user, other, lookupFails)
    case GroupCheck(_, user, others) => CheckGroup(user, others)
    case AddCheck(_, user, c, users) => CheckAdd(db, user, c, users)
    case RemoveAuthorize(_, user, c, target) => AuthorizeRemove(db, user, c, target)
    case ModerateCheck(_, message) => CheckModerate(db, message)
  }

  lemma FirstPhaseInv(db: Db, step: Step)
    requires Begins(step)
    ensures PhaseInv(db, FirstPhase(db, step))
  {
  }

  lemma LookupStepInv(s: Sys, call: nat)
    requires Inv(s)
    ensures Kept(s, Apply(s, SendLookup(call)))
  {
    GrowsReflexive(s.db);
    if call in s.calls && s.calls[call].SendAuthorized? {
      LookupInv(s.db, s.calls[call].req);
      ReadStep(s, call, LookupKey(s.db, s.calls[call].req));
    }
  }

  lemma RecoverStepInv(s: Sys, call: nat, lookupFails: bool)
    requires Inv(s)
    ensures Kept(s, RecoverDirect(s, call, lookupFails))
  {
    GrowsReflexive(s.db);
    if call in s.calls && s.calls[call].DirectLost? {
      ReadStep(s, call, RecoverDirect(s, call, lookupFails).calls[call]);
    }
  }

  lemma RemoveCheckStepInv(s: Sys, call: nat)
    requires Inv(s)
    ensures Kept(s, Apply(s, RemoveCheck(call)))
  {
    GrowsReflexive(s.db);
    if call in s.calls && s.calls[call].RemoveAuthorized? {
      var p := s.calls[call];
      assert PhaseInv(s.db, p);
      RemoveCheckInv(s.db, p.conversation, p.target, p.callerRole);
      ReadStep(s, call, CheckRemove(s.db, p.conversation, p.target, p.callerRole));
    }
  }

  lemma PromoteStepInv(s: Sys, c: ConversationId, user: UserId, admin: bool)
    requires Inv(s)
    ensures Kept(s, Apply(s, Promote(c, user, admin)))
  {
    assert Keeps(s.db, SetAdmin(s.db, c, user, admin)) by { SetAdminKeeps(s.db, c, user, admin); }
    TablesStep(s, SetAdmin(s.db, c, user, admin));
  }

  lemma AckStepInv(s: Sys, event: EventId)
    requires Inv(s)
    ensures Kept(s, Apply(s, AckEvent(event)))
  {
    assert Keeps(s.db, s.db.(outbox := AckRow(s.db.outbox, event))) by { AckKeeps(s.db, event); }
    TablesStep(s, s.db.(outbox := AckRow(s.db.outbox, event)));
  }

  lemma CheckStepInv(s: Sys, step: Step)
    requires Inv(s) && (Begins(step) || step.SendLookup? || step.DirectRecover? || step.RemoveCheck?)
    ensures Kept(s, Apply(s, step))
  {
    if Begins(step) {
      FirstPhaseInv(s.db, step);
      BeginInv(s, step.call, FirstPhase(s.db, step));
    } else if step.SendLookup? {
      LookupStepInv(s, step.call);
    } else if step.DirectRecover? {
      RecoverStepInv(s, step.call, step.lookupFails);
    } else {
      RemoveCheckStepInv(s, step.call);
    }
  }

  lemma CreateStepInv(s: Sys, step: Step)
    requires Inv(s) && (step.DirectCommit? || step.GroupCommit?)
    ensures Kept(s, Apply(s, step))
  {
    match step
    case DirectCommit(call, c, link) => DirectStepInv(s, call, c, link);
    case GroupCommit(call, c, link) => GroupStepInv(s, call, c, link);
  }

  lemma MemberStepInv(s: Sys, step: Step)
    requires Inv(s) && (step.AddCommit? || step.RemoveCommit? || step.Promote?)
    ensures Kept(s, Apply(s, step))
  {
    match step
    case AddCommit(call, event, now, link) => AddStepInv(s, call, event, now, link);
    case RemoveCommit(call, event, now, link) => RemoveStepInv(s, call, event, now, link);
    case Promote(c, user, admin) => PromoteStepInv(s, c, user, admin);
  }

  lemma MessageStepInv(s: Sys, step: Step)
    requires Inv(s) && (step.SendCommit? || step.ModerateCommit? || step.AckEvent?)
    ensures Kept(s, Apply(s, step))
  {
    match step
    case SendCommit(call, id, event, now, link) => SendCommitInv(s, call, id, event, now, link);
    case ModerateCommit(call, event, now, link) => ModerateStepInv(s, call, event, now, link);
    case AckEvent(event) => AckStepInv(s, event);
  }

  /** Every step keeps the invariant, and every step only grows the tables. */
  lemma StepInv(s: Sys, step: Step)
    requires Inv(s)
    ensures Kept(s, Apply(s, step))
  {
    match step
    case DirectCommit(_, _, _) => CreateStepInv(s, step);
    case GroupCommit(_, _, _) => CreateStepInv(s, step);
    case AddCommit(_, _, _, _) => MemberStepInv(s, step);
    case RemoveCommit(_, _, _, _) => MemberStepInv(s, step);
    case Promote(_, _, _) => MemberStepInv(s, step);
    case SendCommit(_, _, _, _, _) => MessageStepInv(s, step);
    case ModerateCommit(_, _, _, _) => MessageStepInv(s, step);
    case AckEvent(_) => MessageStepInv(s, step);
    case _ => CheckStepInv(s, step);
  }

  lemma {:induction false} RunInv(steps: seq<Step>)
    ensures Inv(Run(Initial, steps))
    decreases |steps|
  {
    if steps == [] {
    } else {
      RunInv(steps[..|steps| - 1]);
      StepInv(Run(Initial, steps[..|steps| - 1]), steps[|steps| - 1]);
    }
  }

  lemma {:induction false} RunGrows(s: Sys, steps: seq<Step>)
    requires Inv(s)
    ensures Inv(Run(s, steps)) && Grows(s.db, Run(s, steps).db)
    decreases |steps|
  {
    if steps == [] {
      GrowsReflexive(s.db);
    } else {
      var mid := Run(s, steps[..|steps| - 1]);
      RunGrows(s, steps[..|steps| - 1]);
      StepInv(mid, steps[|steps| - 1]);
      GrowsTransitive(s.db, mid.db, Run(s, steps).db);
    }
  }

  lemma {:induction false} RunSplit(s: Sys, a: seq<Step>, b: seq<Step>)
    ensures Run(s, a + b) == Run(Run(s, a), b)
    decreases |b|
  {
    if b == [] {
      assert a + b == a;
    } else {
      assert (a + b)[..|a + b| - 1] == a + b[..|b| - 1];
      RunSplit(s, a, b[..|b| - 1]);
    }
  }
}
