/**
 What every committed transaction keeps true of the tables, and how the tables
 may grow. Both are stated on the database alone, so they hold whatever the
 handlers that run the transactions have read beforehand.
 */
module Invariants {
  import opened Store

  // ---- The message log ----

  /** Every conversation's sequences are exactly 1 .. nextSequence - 1, each used once. */
  ghost predicate LogInv(db: Db) {
    && (forall c | c in db.conversations :: db.conversations[c].nextSequence >= 1)
    && (forall id | id in db.messages :: InRange(db, db.messages[id]))
    && (forall c, k | c in db.conversations && 1 <= k < db.conversations[c].nextSequence :: SequenceTaken(db, c, k))
    && (forall a, b {:trigger SamePlace(db.messages[a], db.messages[b])}
          | a in db.messages && b in db.messages && SamePlace(db.messages[a], db.messages[b]) :: a == b)
  }

  predicate InRange(db: Db, m: Message) {
    m.conversation in db.conversations && 1 <= m.sequence < db.conversations[m.conversation].nextSequence
  }

  predicate SamePlace(a: Message, b: Message) {
    a.conversation == b.conversation && a.sequence == b.sequence
  }

  // ---- The outbox ----

  predicate Announces(row: OutboxRow, id: MessageId, m: Message) {
    row.payload.MessageCreated? && row.payload.message == id
    && row.payload.conversation == m.conversation && row.payload.sequence == m.sequence
  }

  predicate Retracts(row: OutboxRow, id: MessageId, m: Message) {
    row.payload.MessageModerated? && row.payload.message == id
    && row.payload.conversation == m.conversation && row.payload.sequence == m.sequence
  }

  ghost predicate Announced(db: Db, id: MessageId) requires id in db.messages {
    exists e | e in db.outbox :: Announces(db.outbox[e], id, db.messages[id])
  }

  ghost predicate Retracted(db: Db, id: MessageId) requires id in db.messages {
    exists e | e in db.outbox :: Retracts(db.outbox[e], id, db.messages[id])
  }

  /** One message.created row per message, and no other message.created rows. */
  ghost predicate CreatedInv(db: Db) {
    && (forall id | id in db.messages :: Announced(db, id))
    && (forall e | e in db.outbox && db.outbox[e].payload.MessageCreated? ::
          var p := db.outbox[e].payload;
          p.message in db.messages && Announces(db.outbox[e], p.message, db.messages[p.message]))
    && (forall d, e {:trigger SameCreated(db.outbox[d], db.outbox[e])}
          | d in db.outbox && e in db.outbox && SameCreated(db.outbox[d], db.outbox[e]) :: d == e)
  }

  predicate SameCreated(a: OutboxRow, b: OutboxRow) {
    a.payload.MessageCreated? && b.payload.MessageCreated? && a.payload.message == b.payload.message
  }

  /** A message is illegal exactly when it has a message.moderated row, and then it has one. */
  ghost predicate ModeratedInv(db: Db) {
    && (forall id | id in db.messages && db.messages[id].illegal :: Retracted(db, id))
    && (forall e | e in db.outbox && db.outbox[e].payload.MessageModerated? ::
          var p := db.outbox[e].payload;
          p.message in db.messages && db.messages[p.message].illegal
          && Retracts(db.outbox[e], p.message, db.messages[p.message]))
    && (forall d, e {:trigger SameModerated(db.outbox[d], db.outbox[e])}
          | d in db.outbox && e in db.outbox && SameModerated(db.outbox[d], db.outbox[e]) :: d == e)
  }

  predicate SameModerated(a: OutboxRow, b: OutboxRow) {
    a.payload.MessageModerated? && b.payload.MessageModerated? && a.payload.message == b.payload.message
  }

  ghost predicate AttemptsInv(outbox: map<EventId, OutboxRow>) {
    forall e | e in outbox :: outbox[e].attempts == if outbox[e].published then 1 else 0
  }

  // ---- Idempotency receipts ----

  ghost predicate ReceiptInv(db: Db) {
    forall k | k in db.receipts ::
      db.receipts[k].message in db.messages && db.messages[db.receipts[k].message].sender == k.0
  }

  // ---- Memberships ----

  ghost predicate MembersInv(db: Db) {
    forall k | k in db.members :: k.0 in db.conversations
  }

  /** Every group has exactly one owner row, its creator's, and that row is active. */
  ghost predicate GroupInv(db: Db) {
    && (forall c | c in db.conversations && db.conversations[c].kind.Group? ::
          var owner := (c, db.conversations[c].createdBy);
          owner in db.members && db.members[owner] == Membership(Owner, true))
    && (forall k | k in db.members && k.0 in db.conversations && db.members[k].role.Owner? ::
          db.conversations[k.0].kind.Group? && k.1 == db.conversations[k.0].createdBy)
  }

  /** The direct index and the direct conversations are in one-to-one correspondence. */
  ghost predicate DirectInv(db: Db) {
    && (forall p | p in db.direct :: PairInv(db, p, db.direct[p]))
    && (forall p, q | p in db.direct && q in db.direct && db.direct[p] == db.direct[q] :: p == q)
    && (forall c | c in db.conversations && db.conversations[c].kind.Direct? :: c in db.direct.Values)
  }

  ghost predicate PairInv(db: Db, p: (UserId, UserId), c: ConversationId) {
    && p.0 < p.1
    && c in db.conversations && db.conversations[c].kind.Direct?
    && IsActive(db, c, p.0) && IsActive(db, c, p.1)
    && (forall k | k in db.members && k.0 == c :: k.1 == p.0 || k.1 == p.1)
  }

  ghost predicate DbInv(db: Db) {
    && LogInv(db) && CreatedInv(db) && ModeratedInv(db) && AttemptsInv(db.outbox)
    && ReceiptInv(db) && MembersInv(db) && GroupInv(db) && DirectInv(db)
  }

  // ---- Growth ----

  /** Nothing durable is lost: rows stay, and only the listed columns move, one way. */
  ghost predicate Grows(a: Db, b: Db) {
    && (forall c | c in a.conversations :: c in b.conversations
          && b.conversations[c].kind == a.conversations[c].kind
          && b.conversations[c].createdBy == a.conversations[c].createdBy
          && a.conversations[c].nextSequence <= b.conversations[c].nextSequence)
    && (forall id | id in a.messages :: id in b.messages
          && b.messages[id] == a.messages[id].(illegal := b.messages[id].illegal)
          && (a.messages[id].illegal ==> b.messages[id].illegal))
    && (forall k | k in a.receipts :: k in b.receipts && b.receipts[k] == a.receipts[k])
    && (forall p | p in a.direct :: p in b.direct && b.direct[p] == a.direct[p])
    && OutboxGrows(a.outbox, b.outbox)
  }

  ghost predicate OutboxGrows(a: map<EventId, OutboxRow>, b: map<EventId, OutboxRow>) {
    forall e | e in a :: e in b && b[e].payload == a[e].payload && b[e].createdAt == a[e].createdAt
      && (a[e].published ==> b[e] == a[e])
  }

  lemma GrowsTransitive(a: Db, b: Db, c: Db)
    requires Grows(a, b) && Grows(b, c)
    ensures Grows(a, c)
  {
  }

  // ---- Each transaction keeps the invariant and grows ----

  ghost predicate Keeps(a: Db, b: Db) {
    DbInv(b) && Grows(a, b)
  }

  lemma SendKeepsLog(db: Db, req: SendRequest, id: MessageId, event: EventId, now: int)
    requires LogInv(db)
    ensures SendTx(db, req, id, event, now).Committed? ==> LogInv(SendTx(db, req, id, event, now).db)
  {
    var tx := SendTx(db, req, id, event, now);
    if tx.Committed? {
      var b := tx.db;
      var c := req.conversation;
      forall d, k | d in b.conversations && 1 <= k < b.conversations[d].nextSequence
        ensures SequenceTaken(b, d, k)
      {
        if d == c && k == db.conversations[c].nextSequence {
          assert At(b.messages[id], d, k);
        } else {
          assert SequenceTaken(db, d, k);
          var old_id :| old_id in db.messages && At(db.messages[old_id], d, k);
          assert At(b.messages[old_id], d, k);
        }
      }
    }
  }

  lemma SendKeepsRows(db: Db, req: SendRequest, id: MessageId, event: EventId, now: int)
    requires CreatedInv(db) && ModeratedInv(db) && AttemptsInv(db.outbox)
    ensures SendTx(db, req, id, event, now).Committed? ==>
              var b := SendTx(db, req, id, event, now).db;
              CreatedInv(b) && ModeratedInv(b) && AttemptsInv(b.outbox)
  {
    var tx := SendTx(db, req, id, event, now);
    if tx.Committed? {
      var b := tx.db;
      forall m | m in b.messages ensures Announced(b, m) {
        if m == id {
          assert Announces(b.outbox[event], id, b.messages[id]);
        } else {
          var e :| e in db.outbox && Announces(db.outbox[e], m, db.messages[m]);
          assert Announces(b.outbox[e], m, b.messages[m]);
        }
      }
      forall m | m in b.messages && b.messages[m].illegal ensures Retracted(b, m) {
        assert Retracted(db, m);
        var e :| e in db.outbox && Retracts(db.outbox[e], m, db.messages[m]);
        assert Retracts(b.outbox[e], m, b.messages[m]);
      }
    }
  }

  lemma SendKeeps(db: Db, req: SendRequest, id: MessageId, event: EventId, now: int)
    requires DbInv(db)
    ensures SendTx(db, req, id, event, now).Committed? ==> Keeps(db, SendTx(db, req, id, event, now).db)
  {
    SendKeepsLog(db, req, id, event, now);
    SendKeepsRows(db, req, id, event, now);
    if SendTx(db, req, id, event, now).Committed? {
      var b := SendTx(db, req, id, event, now).db;
      SendGrows(db, req, id, event, now);
      SendReceipts(db, req, id, event, now);
      MembersSame(db, b);
    }
  }

  lemma SendGrows(db: Db, req: SendRequest, id: MessageId, event: EventId, now: int)
    ensures SendTx(db, req, id, event, now).Committed? ==> Grows(db, SendTx(db, req, id, event, now).db)
  {
  }

  lemma SendReceipts(db: Db, req: SendRequest, id: MessageId, event: EventId, now: int)
    requires ReceiptInv(db)
    ensures SendTx(db, req, id, event, now).Committed? ==> ReceiptInv(SendTx(db, req, id, event, now).db)
  {
  }

  /** The membership invariants read only memberships, the direct index, and each conversation's kind and creator. */
  lemma MembersSame(db: Db, b: Db)
    requires MembersInv(db) && GroupInv(db) && DirectInv(db)
    requires b.members == db.members && b.direct == db.direct
    requires b.conversations.Keys == db.conversations.Keys
    requires forall c | c in db.conversations :: b.conversations[c].kind == db.conversations[c].kind
               && b.conversations[c].createdBy == db.conversations[c].createdBy
    ensures MembersInv(b) && GroupInv(b) && DirectInv(b)
  {
    forall p | p in b.direct ensures PairInv(b, p, b.direct[p]) {
      assert PairInv(db, p, db.direct[p]);
    }
  }

  lemma ReceiptFrame(db: Db, b: Db)
    requires ReceiptInv(db) && b.receipts == db.receipts
    requires forall id | id in db.messages :: id in b.messages && b.messages[id].sender == db.messages[id].sender
    ensures ReceiptInv(b)
  {
  }

  /** Rows about messages survive any transaction that leaves messages alone and adds one unrelated event. */
  lemma UnrelatedEventKeepsRows(db: Db, b: Db, event: EventId)
    requires CreatedInv(db) && ModeratedInv(db) && AttemptsInv(db.outbox)
    requires b.messages == db.messages && event !in db.outbox && event in b.outbox
    requires b.outbox == db.outbox[event := b.outbox[event]]
    requires !b.outbox[event].payload.MessageCreated? && !b.outbox[event].payload.MessageModerated?
    requires b.outbox[event].attempts == 0 && !b.outbox[event].published
    ensures CreatedInv(b) && ModeratedInv(b) && AttemptsInv(b.outbox)
  {
    forall m | m in b.messages ensures Announced(b, m) {
      var e :| e in db.outbox && Announces(db.outbox[e], m, db.messages[m]);
      assert Announces(b.outbox[e], m, b.messages[m]);
    }
    forall m | m in b.messages && b.messages[m].illegal ensures Retracted(b, m) {
      assert Retracted(db, m);
      var e :| e in db.outbox && Retracts(db.outbox[e], m, db.messages[m]);
      assert Retracts(b.outbox[e], m, b.messages[m]);
    }
  }

  lemma ModerateKeepsCreated(db: Db, id: MessageId, c: ConversationId, sequence: nat, event: EventId, now: int)
    requires CreatedInv(db) && AttemptsInv(db.outbox)
    requires id in db.messages && !db.messages[id].illegal && event !in db.outbox
    ensures var b := ModerateTx(db, id, c, sequence, event, now).db;
            CreatedInv(b) && AttemptsInv(b.outbox)
  {
    var b := ModerateTx(db, id, c, sequence, event, now).db;
    forall m | m in b.messages ensures Announced(b, m) {
      assert Announced(db, m);
      var e :| e in db.outbox && Announces(db.outbox[e], m, db.messages[m]);
      assert Announces(b.outbox[e], m, b.messages[m]);
    }
  }

  lemma ModerateKeepsModerated(db: Db, id: MessageId, c: ConversationId, sequence: nat, event: EventId, now: int)
    requires ModeratedInv(db)
    requires id in db.messages && !db.messages[id].illegal && event !in db.outbox
    requires At(db.messages[id], c, sequence)
    ensures ModeratedInv(ModerateTx(db, id, c, sequence, event, now).db)
  {
    var b := ModerateTx(db, id, c, sequence, event, now).db;
    forall m | m in b.messages && b.messages[m].illegal ensures Retracted(b, m) {
      if m == id {
        assert Retracts(b.outbox[event], id, b.messages[id]);
      } else {
        assert Retracted(db, m);
        var e :| e in db.outbox && Retracts(db.outbox[e], m, db.messages[m]);
        assert Retracts(b.outbox[e], m, b.messages[m]);
      }
    }
  }

  /** The log reads only the message places and the counters. */
  lemma LogFrame(db: Db, b: Db)
    requires LogInv(db)
    requires b.messages.Keys == db.messages.Keys
    requires forall id | id in db.messages :: SamePlace(b.messages[id], db.messages[id])
    requires forall c | c in b.conversations :: b.conversations[c].nextSequence >= 1
    requires forall c | c in db.conversations ::
               c in b.conversations && b.conversations[c].nextSequence == db.conversations[c].nextSequence
    requires forall c | c in b.conversations && c !in db.conversations :: b.conversations[c].nextSequence == 1
    ensures LogInv(b)
  {
    forall c, k | c in b.conversations && 1 <= k < b.conversations[c].nextSequence
      ensures SequenceTaken(b, c, k)
    {
      assert SequenceTaken(db, c, k);
      var id :| id in db.messages && At(db.messages[id], c, k);
      assert At(b.messages[id], c, k);
    }
    forall x, y | x in b.messages && y in b.messages && SamePlace(b.messages[x], b.messages[y]) ensures x == y {
      assert SamePlace(b.messages[x], db.messages[x]) && SamePlace(b.messages[y], db.messages[y]);
      assert SamePlace(db.messages[x], db.messages[y]);
    }
  }

  lemma ModerateKeeps(db: Db, id: MessageId, c: ConversationId, sequence: nat, event: EventId, now: int)
    requires DbInv(db)
    requires id in db.messages && At(db.messages[id], c, sequence)
    ensures ModerateTx(db, id, c, sequence, event, now).Committed? ==>
              Keeps(db, ModerateTx(db, id, c, sequence, event, now).db)
  {
    var tx := ModerateTx(db, id, c, sequence, event, now);
    if db.messages[id].illegal {
      GrowsReflexive(db);
    } else if tx.Committed? {
      ModerateKeepsCreated(db, id, c, sequence, event, now);
      ModerateKeepsModerated(db, id, c, sequence, event, now);
      ModerateLog(db, id, c, sequence, event, now);
      ModerateMembers(db, id, c, sequence, event, now);
      ModerateGrows(db, id, c, sequence, event, now);
    }
  }

  lemma ModerateLog(db: Db, id: MessageId, c: ConversationId, sequence: nat, event: EventId, now: int)
    requires LogInv(db) && ReceiptInv(db) && ModerateTx(db, id, c, sequence, event, now).Committed?
    ensures var b := ModerateTx(db, id, c, sequence, event, now).db; LogInv(b) && ReceiptInv(b)
  {
    LogFrame(db, ModerateTx(db, id, c, sequence, event, now).db);
  }

  lemma ModerateMembers(db: Db, id: MessageId, c: ConversationId, sequence: nat, event: EventId, now: int)
    requires MembersInv(db) && GroupInv(db) && DirectInv(db)
    requires ModerateTx(db, id, c, sequence, event, now).Committed?
    ensures var b := ModerateTx(db, id, c, sequence, event, now).db; MembersInv(b) && GroupInv(b) && DirectInv(b)
  {
    MembersSame(db, ModerateTx(db, id, c, sequence, event, now).db);
  }

  lemma GrowsReflexive(db: Db)
    ensures Grows(db, db)
  {
  }

  lemma ModerateGrows(db: Db, id: MessageId, c: ConversationId, sequence: nat, event: EventId, now: int)
    ensures ModerateTx(db, id, c, sequence, event, now).Committed? ==>
              Grows(db, ModerateTx(db, id, c, sequence, event, now).db)
  {
  }

  /** A new conversation and its member rows: messages, receipts and outbox are untouched. */
  lemma NewConversationKeeps(db: Db, b: Db, c: ConversationId)
    requires LogInv(db) && CreatedInv(db) && ModeratedInv(db) && AttemptsInv(db.outbox) && ReceiptInv(db)
    requires c !in db.conversations && c in b.conversations && b.conversations[c].nextSequence == 1
    requires b.conversations == db.conversations[c := b.conversations[c]]
    requires b.messages == db.messages && b.receipts == db.receipts && b.outbox == db.outbox
    ensures LogInv(b) && CreatedInv(b) && ModeratedInv(b) && AttemptsInv(b.outbox) && ReceiptInv(b)
  {
    LogFrame(db, b);
    SameOutboxKeepsRows(db, b);
    ReceiptFrame(db, b);
  }

  lemma CreateGroupKeeps(db: Db, c: ConversationId, user: UserId, others: set<UserId>)
    requires DbInv(db)
    ensures CreateGroupTx(db, c, user, others).Committed? ==> Keeps(db, CreateGroupTx(db, c, user, others).db)
  {
    var tx := CreateGroupTx(db, c, user, others);
    if tx.Committed? {
      NewConversationKeeps(db, tx.db, c);
      CreateGroupRows(db, c, user, others);
      CreateGroupMembers(db, c, user, others);
      GroupAdded(db, tx.db, c);
    }
  }

  lemma CreateGroupRows(db: Db, c: ConversationId, user: UserId, others: set<UserId>)
    requires MembersInv(db) && CreateGroupTx(db, c, user, others).Committed?
    ensures var b := CreateGroupTx(db, c, user, others).db;
            && (forall k | k in db.members :: k in b.members && b.members[k] == db.members[k])
            && (forall k | k in b.members && k !in db.members :: k.0 == c)
  {
  }

  lemma CreateGroupMembers(db: Db, c: ConversationId, user: UserId, others: set<UserId>)
    requires MembersInv(db) && GroupInv(db) && CreateGroupTx(db, c, user, others).Committed?
    ensures var b := CreateGroupTx(db, c, user, others).db; MembersInv(b) && GroupInv(b)
  {
    var b := CreateGroupTx(db, c, user, others).db;
    assert b.members[(c, user)] == Membership(Owner, true);
  }

  lemma GroupAdded(db: Db, b: Db, c: ConversationId)
    requires MembersInv(db) && DirectInv(db)
    requires c !in db.conversations && c in b.conversations && b.conversations[c].kind.Group?
    requires b.conversations == db.conversations[c := b.conversations[c]]
    requires b.direct == db.direct && b.messages == db.messages && b.receipts == db.receipts && b.outbox == db.outbox
    requires forall k | k in db.members :: k in b.members && b.members[k] == db.members[k]
    requires forall k | k in b.members && k !in db.members :: k.0 == c
    ensures DirectInv(b) && Grows(db, b)
  {
    forall p | p in b.direct ensures PairInv(b, p, b.direct[p]) {
      assert PairInv(db, p, db.direct[p]);
    }
  }

  lemma SameOutboxKeepsRows(db: Db, b: Db)
    requires CreatedInv(db) && ModeratedInv(db)
    requires b.messages == db.messages && b.outbox == db.outbox
    ensures CreatedInv(b) && ModeratedInv(b)
  {
    forall m | m in b.messages ensures Announced(b, m) {
      assert Announced(db, m);
    }
    forall m | m in b.messages && b.messages[m].illegal ensures Retracted(b, m) {
      assert Retracted(db, m);
    }
  }

  lemma CreateDirectKeeps(db: Db, c: ConversationId, user: UserId, other: UserId)
    requires DbInv(db)
    ensures CreateDirectTx(db, c, user, other).Committed? ==> Keeps(db, CreateDirectTx(db, c, user, other).db)
  {
    var tx := CreateDirectTx(db, c, user, other);
    if tx.Committed? {
      NewConversationKeeps(db, tx.db, c);
      CreateDirectMembers(db, c, user, other);
      CreateDirectIndex(db, c, user, other);
      CreateDirectGrows(db, c, user, other);
    }
  }

  lemma CreateDirectMembers(db: Db, c: ConversationId, user: UserId, other: UserId)
    requires MembersInv(db) && GroupInv(db) && CreateDirectTx(db, c, user, other).Committed?
    ensures var b := CreateDirectTx(db, c, user, other).db;
            MembersInv(b) && GroupInv(b) && PairInv(b, OrderedPair(user, other), c)
  {
  }

  lemma CreateDirectIndex(db: Db, c: ConversationId, user: UserId, other: UserId)
    requires MembersInv(db) && DirectInv(db) && CreateDirectTx(db, c, user, other).Committed?
    requires PairInv(CreateDirectTx(db, c, user, other).db, OrderedPair(user, other), c)
    ensures DirectInv(CreateDirectTx(db, c, user, other).db)
  {
    DirectGains(db, CreateDirectTx(db, c, user, other).db, OrderedPair(user, other), c);
  }

  lemma CreateDirectGrows(db: Db, c: ConversationId, user: UserId, other: UserId)
    ensures CreateDirectTx(db, c, user, other).Committed? ==> Grows(db, CreateDirectTx(db, c, user, other).db)
  {
  }

  /** A fresh key with a fresh value keeps a unique column unique. */
  lemma InsertUnique(m: map<(UserId, UserId), ConversationId>, pair: (UserId, UserId), c: ConversationId)
    requires pair !in m && c !in m.Values
    requires forall p, q | p in m && q in m && m[p] == m[q] :: p == q
    ensures m[pair := c].Values == m.Values + {c}
    ensures var n := m[pair := c]; forall p, q | p in n && q in n && n[p] == n[q] :: p == q
  {
    var n := m[pair := c];
    forall v | v in m.Values + {c} ensures v in n.Values {
      if v == c {
        assert n[pair] == c;
      } else {
        var p :| p in m && m[p] == v;
        assert n[p] == v;
      }
    }
    assert forall p | p in m :: n[p] in m.Values;
  }

  lemma PairsGain(db: Db, b: Db, pair: (UserId, UserId), c: ConversationId)
    requires DirectInv(db) && MembersInv(db)
    requires c !in db.conversations && b.direct == db.direct[pair := c] && PairInv(b, pair, c)
    requires forall d | d in db.conversations :: d in b.conversations && b.conversations[d] == db.conversations[d]
    requires forall k | k in db.members :: k in b.members && b.members[k] == db.members[k]
    requires forall k | k in b.members && k !in db.members :: k.0 == c
    ensures forall p | p in b.direct :: PairInv(b, p, b.direct[p])
  {
    forall p | p in b.direct ensures PairInv(b, p, b.direct[p]) {
      if p != pair {
        assert PairInv(db, p, db.direct[p]);
      }
    }
  }

  lemma DirectGains(db: Db, b: Db, pair: (UserId, UserId), c: ConversationId)
    requires DirectInv(db) && MembersInv(db)
    requires c !in db.conversations && pair !in db.direct && c !in db.direct.Values
    requires b.direct == db.direct[pair := c]
    requires PairInv(b, pair, c)
    requires b.conversations.Keys == db.conversations.Keys + {c}
    requires forall d | d in db.conversations :: b.conversations[d] == db.conversations[d]
    requires forall k | k in db.members :: k in b.members && b.members[k] == db.members[k]
    requires forall k | k in b.members && k !in db.members :: k.0 == c
    ensures DirectInv(b)
  {
    PairsGain(db, b, pair, c);
    InsertUnique(db.direct, pair, c);
  }

  /** Membership changes inside a group leave the direct conversations alone. */
  lemma DirectFrame(db: Db, b: Db, c: ConversationId)
    requires DirectInv(db)
    requires b.direct == db.direct && b.conversations == db.conversations
    requires c in db.conversations && db.conversations[c].kind.Group?
    requires forall k: (ConversationId, UserId) | k.0 != c :: k in db.members <==> k in b.members
    requires forall k | k in db.members && k.0 != c :: b.members[k] == db.members[k]
    ensures DirectInv(b)
  {
    forall p | p in b.direct ensures PairInv(b, p, b.direct[p]) {
      assert PairInv(db, p, db.direct[p]);
    }
  }

  /** A group membership change that announces itself with one new event. */
  lemma MemberEventKeeps(db: Db, b: Db, c: ConversationId, event: EventId)
    requires DbInv(db)
    requires b == db.(members := b.members, outbox := b.outbox)
    requires c in db.conversations && db.conversations[c].kind.Group?
    requires forall k: (ConversationId, UserId) | k.0 != c :: k in db.members <==> k in b.members
    requires forall k | k in db.members && k.0 != c :: b.members[k] == db.members[k]
    requires MembersInv(b) && GroupInv(b)
    requires event !in db.outbox && event in b.outbox && b.outbox == db.outbox[event := b.outbox[event]]
    requires b.outbox[event].payload.MemberAdded? || b.outbox[event].payload.MemberRemoved?
    requires b.outbox[event].attempts == 0 && !b.outbox[event].published
    ensures Keeps(db, b)
  {
    LogFrame(db, b);
    UnrelatedEventKeepsRows(db, b, event);
    ReceiptFrame(db, b);
    DirectFrame(db, b, c);
    MemberEventGrows(db, b, event);
  }

  lemma MemberEventGrows(db: Db, b: Db, event: EventId)
    requires b == db.(members := b.members, outbox := b.outbox)
    requires event !in db.outbox && event in b.outbox && b.outbox == db.outbox[event := b.outbox[event]]
    ensures Grows(db, b)
  {
  }

  lemma AddKeeps(db: Db, c: ConversationId, users: set<UserId>, event: EventId, now: int)
    requires DbInv(db)
    requires c in db.conversations && db.conversations[c].kind.Group?
    ensures AddTx(db, c, users, event, now).Committed? ==> Keeps(db, AddTx(db, c, users, event, now).db)
  {
    var tx := AddTx(db, c, users, event, now);
    if Joining(db, c, users) == {} {
      GrowsReflexive(db);
    } else if tx.Committed? {
      AddMembersKeep(db, c, users, event, now);
      MemberEventKeeps(db, tx.db, c, event);
    }
  }

  lemma AddMembersKeep(db: Db, c: ConversationId, users: set<UserId>, event: EventId, now: int)
    requires MembersInv(db) && GroupInv(db)
    requires c in db.conversations && db.conversations[c].kind.Group?
    requires AddTx(db, c, users, event, now).Committed?
    ensures var b := AddTx(db, c, users, event, now).db;
            && MembersInv(b) && GroupInv(b)
            && (forall k: (ConversationId, UserId) | k.0 != c :: k in db.members <==> k in b.members)
            && (forall k | k in db.members && k.0 != c :: b.members[k] == db.members[k])
  {
    var b := AddTx(db, c, users, event, now).db;
    var added := Joining(db, c, users);
    assert db.conversations[c].createdBy !in added by {
      assert (c, db.conversations[c].createdBy) in db.members;
    }
    assert forall k | k in b.members ::
        (k in db.members && b.members[k] == db.members[k])
        || (k.0 == c && k.1 in added && b.members[k] == Membership(Member, true));
  }

  lemma RemoveKeeps(db: Db, c: ConversationId, target: UserId, event: EventId, now: int)
    requires DbInv(db)
    requires c in db.conversations && db.conversations[c].kind.Group? && target != db.conversations[c].createdBy
    ensures RemoveTx(db, c, target, event, now).Committed? ==> Keeps(db, RemoveTx(db, c, target, event, now).db)
  {
    var tx := RemoveTx(db, c, target, event, now);
    if tx.Committed? {
      RemoveMembersKeep(db, c, target, event, now);
      MemberEventKeeps(db, tx.db, c, event);
    }
  }

  lemma RemoveMembersKeep(db: Db, c: ConversationId, target: UserId, event: EventId, now: int)
    requires MembersInv(db) && GroupInv(db)
    requires c in db.conversations && db.conversations[c].kind.Group? && target != db.conversations[c].createdBy
    requires RemoveTx(db, c, target, event, now).Committed?
    ensures var b := RemoveTx(db, c, target, event, now).db; MembersInv(b) && GroupInv(b)
  {
  }

  lemma AckKeeps(db: Db, event: EventId)
    requires DbInv(db)
    ensures Keeps(db, db.(outbox := AckRow(db.outbox, event)))
  {
    var b := db.(outbox := AckRow(db.outbox, event));
    LogFrame(db, b);
    ReceiptFrame(db, b);
    MembersSame(db, b);
    AckKeepsRows(db, event);
    AckGrows(db, event);
  }

  lemma AckGrows(db: Db, event: EventId)
    ensures Grows(db, db.(outbox := AckRow(db.outbox, event)))
  {
  }

  lemma AckKeepsRows(db: Db, event: EventId)
    requires CreatedInv(db) && ModeratedInv(db) && AttemptsInv(db.outbox)
    ensures var b := db.(outbox := AckRow(db.outbox, event));
            CreatedInv(b) && ModeratedInv(b) && AttemptsInv(b.outbox)
  {
    var b := db.(outbox := AckRow(db.outbox, event));
    forall m | m in b.messages ensures Announced(b, m) {
      assert Announced(db, m);
      var e :| e in db.outbox && Announces(db.outbox[e], m, db.messages[m]);
      assert Announces(b.outbox[e], m, b.messages[m]);
    }
    forall m | m in b.messages && b.messages[m].illegal ensures Retracted(b, m) {
      assert Retracted(db, m);
      var e :| e in db.outbox && Retracts(db.outbox[e], m, db.messages[m]);
      assert Retracts(b.outbox[e], m, b.messages[m]);
    }
    forall d, e | d in b.outbox && e in b.outbox && SameCreated(b.outbox[d], b.outbox[e]) ensures d == e {
      assert SameCreated(db.outbox[d], db.outbox[e]);
    }
    forall d, e | d in b.outbox && e in b.outbox && SameModerated(b.outbox[d], b.outbox[e]) ensures d == e {
      assert SameModerated(db.outbox[d], db.outbox[e]);
    }
  }

  /** An operator may move a group member between the plain and the admin role. */
  function SetAdmin(db: Db, c: ConversationId, u: UserId, admin: bool): Db {
    if (c, u) in db.members && !db.members[(c, u)].role.Owner?
    then db.(members := db.members[(c, u) := db.members[(c, u)].(role := if admin then Admin else Member)])
    else db
  }

  lemma SetAdminKeeps(db: Db, c: ConversationId, u: UserId, admin: bool)
    requires DbInv(db)
    ensures Keeps(db, SetAdmin(db, c, u, admin))
  {
    OnlyMembersKeep(db, SetAdmin(db, c, u, admin));
    SetAdminMembers(db, c, u, admin);
    SetAdminDirect(db, c, u, admin);
  }

  lemma OnlyMembersKeep(db: Db, b: Db)
    requires LogInv(db) && CreatedInv(db) && ModeratedInv(db) && AttemptsInv(db.outbox) && ReceiptInv(db)
    requires b == db.(members := b.members)
    ensures LogInv(b) && CreatedInv(b) && ModeratedInv(b) && AttemptsInv(b.outbox) && ReceiptInv(b) && Grows(db, b)
  {
    LogFrame(db, b);
    SameOutboxKeepsRows(db, b);
    ReceiptFrame(db, b);
    GrowsReflexive(db);
  }

  lemma SetAdminDirect(db: Db, c: ConversationId, u: UserId, admin: bool)
    requires DirectInv(db)
    ensures DirectInv(SetAdmin(db, c, u, admin))
  {
    DirectSame(db, SetAdmin(db, c, u, admin));
  }

  lemma SetAdminMembers(db: Db, c: ConversationId, u: UserId, admin: bool)
    requires MembersInv(db) && GroupInv(db)
    ensures var b := SetAdmin(db, c, u, admin); MembersInv(b) && GroupInv(b)
  {
  }

  lemma DirectSame(db: Db, b: Db)
    requires DirectInv(db)
    requires b.direct == db.direct && b.conversations == db.conversations
    requires b.members.Keys == db.members.Keys
    requires forall k | k in db.members :: b.members[k].active == db.members[k].active
    ensures DirectInv(b)
  {
    forall p | p in b.direct ensures PairInv(b, p, b.direct[p]) {
      assert PairInv(db, p, db.direct[p]);
    }
  }
}
