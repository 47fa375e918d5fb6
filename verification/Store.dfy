/**
 The durable tables of the chat backend and the transactions that change them.

 A table is a map from its unique index to a row, so a second insert under the
 same index is a constraint violation. Identifiers are opaque: only equality
 (and, for users, the order used by the direct-conversation index) matters.
 */
module Store {
  import opened Common

  type UserId = nat
  type ConversationId = nat
  type MessageId = nat
  type EventId = nat
  type Key = nat
  type Hash = nat

  datatype Kind = Direct | Group
  datatype Role = Owner | Admin | Member

  datatype Conversation = Conversation(kind: Kind, createdBy: UserId, nextSequence: nat)

  /** `active` is the column test `left_at IS NULL`. */
  datatype Membership = Membership(role: Role, active: bool)

  datatype Message = Message(
    conversation: ConversationId, sender: UserId, content: string, sequence: nat, illegal: bool)

  datatype Receipt = Receipt(hash: Hash, message: MessageId)

  datatype Payload =
    | MessageCreated(message: MessageId, conversation: ConversationId, sequence: nat, targets: set<UserId>)
    | MessageModerated(message: MessageId, conversation: ConversationId, sequence: nat, targets: set<UserId>)
    | MemberAdded(conversation: ConversationId, added: set<UserId>, targets: set<UserId>)
    | MemberRemoved(conversation: ConversationId, removed: UserId, targets: set<UserId>)

  datatype OutboxRow = OutboxRow(payload: Payload, createdAt: int, published: bool, attempts: nat)

  datatype Db = Db(
    conversations: map<ConversationId, Conversation>,
    members: map<(ConversationId, UserId), Membership>,
    direct: map<(UserId, UserId), ConversationId>,
    messages: map<MessageId, Message>,
    receipts: map<(UserId, Key), Receipt>,
    outbox: map<EventId, OutboxRow>)

  const EmptyDb := Db(map[], map[], map[], map[], map[], map[])

  datatype SendRequest = SendRequest(
    user: UserId, conversation: ConversationId, content: string, key: Option<Key>, hash: Hash)

  /** What a transaction left behind: a new database, or a rollback and why. */
  datatype TxResult = Committed(db: Db) | NotFound | Rejected

  // ---- Queries ----

  function Elements<T>(s: seq<T>): set<T> {
    set x | x in s
  }

  predicate IsActive(db: Db, c: ConversationId, u: UserId) {
    (c, u) in db.members && db.members[(c, u)].active
  }

  function Active(db: Db, c: ConversationId): set<UserId> {
    set k | k in db.members && k.0 == c && db.members[k].active :: k.1
  }

  lemma ActiveMeansActive(db: Db, c: ConversationId, u: UserId)
    ensures u in Active(db, c) <==> IsActive(db, c, u)
  {
    if IsActive(db, c, u) {
      assert (c, u).1 in Active(db, c);
    }
  }

  function OrderedPair(a: UserId, b: UserId): (p: (UserId, UserId))
    ensures p.0 <= p.1 && {p.0, p.1} == {a, b}
  {
    if a < b then (a, b) else (b, a)
  }

  predicate SequenceTaken(db: Db, c: ConversationId, sequence: nat) {
    exists id | id in db.messages :: At(db.messages[id], c, sequence)
  }

  predicate At(m: Message, c: ConversationId, sequence: nat) {
    m.conversation == c && m.sequence == sequence
  }

  // ---- Transactions: what each commits, or why it rolls back ----

  function Pending(payload: Payload, now: int): OutboxRow {
    OutboxRow(payload, now, false, 0)
  }

  function SendTx(db: Db, req: SendRequest, id: MessageId, event: EventId, now: int): TxResult {
    var c := req.conversation;
    if c !in db.conversations then NotFound
    else
      var sequence := db.conversations[c].nextSequence;
      if id in db.messages || SequenceTaken(db, c, sequence) then Rejected
      else if req.key.Some? && (req.user, req.key.value) in db.receipts then Rejected
      else if event in db.outbox then Rejected
      else Committed(db.(
        conversations := db.conversations[c := db.conversations[c].(nextSequence := sequence + 1)],
        messages := db.messages[id := Message(c, req.user, req.content, sequence, false)],
        receipts := if req.key.None? then db.receipts
                    else db.receipts[(req.user, req.key.value) := Receipt(req.hash, id)],
        outbox := db.outbox[event := Pending(MessageCreated(id, c, sequence, Active(db, c)), now)]))
  }

  function ModerateTx(db: Db, id: MessageId, c: ConversationId, sequence: nat, event: EventId, now: int): TxResult {
    if id !in db.messages || db.messages[id].illegal then Committed(db)
    else if event in db.outbox then Rejected
    else Committed(db.(
      messages := db.messages[id := db.messages[id].(illegal := true)],
      outbox := db.outbox[event := Pending(MessageModerated(id, c, sequence, Active(db, c)), now)]))
  }

  function MemberRows(c: ConversationId, users: set<UserId>): map<(ConversationId, UserId), Membership> {
    map u | u in users :: (c, u) := Membership(Member, true)
  }

  function CreateGroupTx(db: Db, c: ConversationId, user: UserId, others: set<UserId>): TxResult {
    if c in db.conversations then Rejected
    else if exists u | u in others + {user} :: (c, u) in db.members then Rejected
    else if user in others then Rejected
    else Committed(db.(
      conversations := db.conversations[c := Conversation(Group, user, 1)],
      members := db.members[(c, user) := Membership(Owner, true)] + MemberRows(c, others)))
  }

  function CreateDirectTx(db: Db, c: ConversationId, user: UserId, other: UserId): TxResult {
    if c in db.conversations then Rejected
    else if (c, user) in db.members || (c, other) in db.members || user == other then Rejected
    else if OrderedPair(user, other) in db.direct || c in db.direct.Values then Rejected
    else Committed(db.(
      conversations := db.conversations[c := Conversation(Direct, user, 1)],
      members := db.members[(c, user) := Membership(Member, true)][(c, other) := Membership(Member, true)],
      direct := db.direct[OrderedPair(user, other) := c]))
  }

  function Joining(db: Db, c: ConversationId, users: set<UserId>): set<UserId> {
    set u | u in users && !IsActive(db, c, u)
  }

  function AddTx(db: Db, c: ConversationId, users: set<UserId>, event: EventId, now: int): TxResult {
    var added := Joining(db, c, users);
    var joined := db.(members := db.members + MemberRows(c, added));
    if added == {} then Committed(db)
    else if event in db.outbox then Rejected
    else Committed(joined.(
      outbox := db.outbox[event := Pending(MemberAdded(c, added, Active(joined, c)), now)]))
  }

  function LeaveRow(db: Db, c: ConversationId, u: UserId): map<(ConversationId, UserId), Membership> {
    if IsActive(db, c, u) then db.members[(c, u) := db.members[(c, u)].(active := false)] else db.members
  }

  function RemoveTx(db: Db, c: ConversationId, target: UserId, event: EventId, now: int): TxResult {
    var left := db.(members := LeaveRow(db, c, target));
    if event in db.outbox then Rejected
    else Committed(left.(
      outbox := db.outbox[event := Pending(MemberRemoved(c, target, Active(left, c) + {target}), now)]))
  }

  /** `AckOutbox`: the row is published once; the result is the `affected` count test. */
  function AckRow(outbox: map<EventId, OutboxRow>, event: EventId): map<EventId, OutboxRow> {
    if event in outbox && !outbox[event].published
    then outbox[event := outbox[event].(published := true, attempts := outbox[event].attempts + 1)]
    else outbox
  }

  // ---- The same transactions, statement by statement ----

  /** One database connection; `db` is the committed state, changed only when a transaction commits. */
  class Database {
    var db: Db

    constructor ()
      ensures db == EmptyDb
    {
      db := EmptyDb;
    }

    /** The transaction of `createMessage`: bump, read, insert message, receipt and outbox row. */
    method Send(req: SendRequest, id: MessageId, event: EventId, now: int) returns (r: TxResult)
      modifies this
      ensures r == SendTx(old(db), req, id, event, now)
      ensures db == if r.Committed? then r.db else old(db)
    {
      var tx := db;
      var c := req.conversation;
      if c !in tx.conversations {
        return NotFound;
      }
      var row := tx.conversations[c];
      tx := tx.(conversations := tx.conversations[c := row.(nextSequence := row.nextSequence + 1)]);
      var sequence := tx.conversations[c].nextSequence - 1;
      if id in tx.messages || SequenceTaken(tx, c, sequence) {
        return Rejected;
      }
      tx := tx.(messages := tx.messages[id := Message(c, req.user, req.content, sequence, false)]);
      if req.key.Some? {
        if (req.user, req.key.value) in tx.receipts {
          return Rejected;
        }
        tx := tx.(receipts := tx.receipts[(req.user, req.key.value) := Receipt(req.hash, id)]);
      }
      var targets := Active(tx, c);
      if event in tx.outbox {
        return Rejected;
      }
      tx := tx.(outbox := tx.outbox[event := Pending(MessageCreated(id, c, sequence, targets), now)]);
      db := tx;
      return Committed(db);
    }

    /** The transaction of `createConversation` for a pair. */
    method CreateDirect(c: ConversationId, user: UserId, other: UserId) returns (r: TxResult)
      modifies this
      ensures r == CreateDirectTx(old(db), c, user, other)
      ensures db == if r.Committed? then r.db else old(db)
    {
      var tx := db;
      if c in tx.conversations {
        return Rejected;
      }
      tx := tx.(conversations := tx.conversations[c := Conversation(Direct, user, 1)]);
      if (c, user) in tx.members {
        return Rejected;
      }
      tx := tx.(members := tx.members[(c, user) := Membership(Member, true)]);
      if (c, other) in tx.members {
        return Rejected;
      }
      tx := tx.(members := tx.members[(c, other) := Membership(Member, true)]);
      var pair := OrderedPair(user, other);
      if pair in tx.direct || c in tx.direct.Values {
        return Rejected;
      }
      tx := tx.(direct := tx.direct[pair := c]);
      db := tx;
      return Committed(db);
    }

    /** The transaction of `RemoveMember`: the update is conditional, the event is not. */
    method Remove(c: ConversationId, target: UserId, event: EventId, now: int) returns (r: TxResult)
      modifies this
      ensures r == RemoveTx(old(db), c, target, event, now)
      ensures db == if r.Committed? then r.db else old(db)
    {
      var tx := db;
      if (c, target) in tx.members && tx.members[(c, target)].active {
        tx := tx.(members := tx.members[(c, target) := tx.members[(c, target)].(active := false)]);
      }
      var targets := Active(tx, c) + {target};
      if event in tx.outbox {
        return Rejected;
      }
      tx := tx.(outbox := tx.outbox[event := Pending(MemberRemoved(c, target, targets), now)]);
      db := tx;
      return Committed(db);
    }

    /** The transaction of `MarkMessageIllegal`: nothing happens when no row was affected. */
    method Moderate(id: MessageId, c: ConversationId, sequence: nat, event: EventId, now: int) returns (r: TxResult)
      modifies this
      ensures r == ModerateTx(old(db), id, c, sequence, event, now)
      ensures db == if r.Committed? then r.db else old(db)
    {
      var tx := db;
      if id !in tx.messages || tx.messages[id].illegal {
        return Committed(db);
      }
      tx := tx.(messages := tx.messages[id := tx.messages[id].(illegal := true)]);
      var targets := Active(tx, c);
      if event in tx.outbox {
        return Rejected;
      }
      tx := tx.(outbox := tx.outbox[event := Pending(MessageModerated(id, c, sequence, targets), now)]);
      db := tx;
      return Committed(db);
    }

    /** `AckOutbox`; `affected` is false when the row is unknown or already published. */
    method Ack(event: EventId) returns (affected: bool)
      modifies this
      ensures db == old(db).(outbox := AckRow(old(db).outbox, event))
      ensures affected <==> db != old(db)
    {
      affected := event in db.outbox && !db.outbox[event].published;
      if affected {
        var row := db.outbox[event];
        assert row.published != true;
        db := db.(outbox := db.outbox[event := row.(published := true, attempts := row.attempts + 1)]);
        assert db.outbox[event] != old(db).outbox[event];
      }
    }

    /** The transaction of `createConversation` for a group: members are inserted one by one. */
    method CreateGroup(c: ConversationId, user: UserId, resolved: seq<UserId>) returns (r: TxResult)
      requires Distinct(resolved)
      requires user !in resolved
      modifies this
      ensures r == CreateGroupTx(old(db), c, user, Elements(resolved))
      ensures db == if r.Committed? then r.db else old(db)
    {
      if c in db.conversations {
        return Rejected;
      }
      if (c, user) in db.members {
        assert user in Elements(resolved) + {user};
        return Rejected;
      }
      var ok, members := InsertMembers(db.members[(c, user) := Membership(Owner, true)], c, resolved);
      if !ok {
        return Rejected;
      }
      db := db.(conversations := db.conversations[c := Conversation(Group, user, 1)], members := members);
      return Committed(db);
    }

    /** The transaction of `AddMembers`: join everyone, then one event if anyone joined. */
    method Add(c: ConversationId, resolved: seq<UserId>, event: EventId, now: int)
      returns (r: TxResult, added: seq<UserId>)
      requires Distinct(resolved)
      modifies this
      ensures r == AddTx(old(db), c, Elements(resolved), event, now)
      ensures Elements(added) == Joining(old(db), c, Elements(resolved)) && Distinct(added)
      ensures db == if r.Committed? then r.db else old(db)
    {
      var members;
      members, added := JoinMembers(db, c, resolved);
      if |added| == 0 {
        return Committed(db), added;
      }
      assert added[0] in Elements(added);
      var tx := db.(members := members);
      var targets := Active(tx, c);
      if event in tx.outbox {
        return Rejected, added;
      }
      db := tx.(outbox := tx.outbox[event := Pending(MemberAdded(c, Elements(added), targets), now)]);
      return Committed(db), added;
    }
  }

  predicate Distinct<T(==)>(s: seq<T>) {
    forall i, j | 0 <= i < j < |s| :: s[i] != s[j]
  }

  type MemberTable = map<(ConversationId, UserId), Membership>

  lemma MemberRowsAdd(base: MemberTable, c: ConversationId, users: set<UserId>, u: UserId)
    ensures base + MemberRows(c, users + {u}) == (base + MemberRows(c, users))[(c, u) := Membership(Member, true)]
  {
  }

  lemma JoiningAdd(db: Db, c: ConversationId, users: set<UserId>, u: UserId)
    ensures Joining(db, c, users + {u}) == Joining(db, c, users) + if IsActive(db, c, u) then {} else {u}
  {
  }

  lemma ElementsAppend<T>(s: seq<T>, x: T)
    ensures Elements(s + [x]) == Elements(s) + {x}
  {
  }

  /** The insert loop of `createConversation`; any row already there aborts it. */
  method InsertMembers(base: MemberTable, c: ConversationId, resolved: seq<UserId>)
    returns (ok: bool, members: MemberTable)
    requires Distinct(resolved)
    ensures ok <==> forall u | u in resolved :: (c, u) !in base
    ensures ok ==> members == base + MemberRows(c, Elements(resolved))
  {
    members := base;
    ok := true;
    for i := 0 to |resolved|
      invariant ok && members == base + MemberRows(c, Elements(resolved[..i]))
      invariant forall u | u in resolved[..i] :: (c, u) !in base
    {
      var u := resolved[i];
      if (c, u) in members {
        ok := false;
        return;
      }
      MemberRowsAdd(base, c, Elements(resolved[..i]), u);
      ElementsAppend(resolved[..i], u);
      assert resolved[..i + 1] == resolved[..i] + [u];
      members := members[(c, u) := Membership(Member, true)];
    }
    assert resolved[..|resolved|] == resolved;
  }

  /** The lookup loop of `AddMembers`: insert the unknown, revive the departed, skip the active. */
  method JoinMembers(db: Db, c: ConversationId, resolved: seq<UserId>)
    returns (members: MemberTable, added: seq<UserId>)
    requires Distinct(resolved)
    ensures members == db.members + MemberRows(c, Joining(db, c, Elements(resolved)))
    ensures Elements(added) == Joining(db, c, Elements(resolved)) && Distinct(added)
  {
    members := db.members;
    added := [];
    for i := 0 to |resolved|
      invariant members == db.members + MemberRows(c, Elements(added))
      invariant Elements(added) == Joining(db, c, Elements(resolved[..i])) && Distinct(added)
    {
      var u := resolved[i];
      assert u !in Elements(resolved[..i]);
      assert resolved[..i + 1] == resolved[..i] + [u];
      ElementsAppend(resolved[..i], u);
      JoiningAdd(db, c, Elements(resolved[..i]), u);
      if (c, u) !in members || !members[(c, u)].active {
        MemberRowsAdd(db.members, c, Elements(added), u);
        ElementsAppend(added, u);
        assert u !in added by { assert u !in Elements(added); }
        members := members[(c, u) := Membership(Member, true)];
        added := added + [u];
      }
    }
    assert resolved[..|resolved|] == resolved;
  }
}
