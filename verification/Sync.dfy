/**
 The SDK's sync engine. One cursor per conversation turns lossy, repeated and
 unordered events into pages read from the durable log.

 A conversation's log is the sequences 1 .. n (see BackendTheorems.GaplessLog
 and PagesAreConsecutive), so a page is determined by n, the cursor and the
 page size.
 */
module Sync {
  import opened Common
  import opened Store
  import opened Invariants
  import opened Backend
  import opened BackendTheorems

  const PAGE_LIMIT: nat := 200
  const MAX_PAGES: nat := 10

  function PageSize(limit: int): (r: nat)
    ensures PageLimit(r) == r && r == if limit > 0 then Min(limit, PAGE_LIMIT) else PAGE_LIMIT
  {
    if limit <= 0 || limit > PAGE_LIMIT then PAGE_LIMIT else limit
  }

  /** The sequences a page request returns when the log holds 1 .. n. */
  function Page(n: nat, after: nat, size: nat): (page: seq<nat>)
    ensures |page| == Min(size, Max(0, n - after))
    ensures forall i | 0 <= i < |page| :: page[i] == after + 1 + i
  {
    seq(if n <= after then 0 else if n - after < size then n - after else size, i requires i >= 0 => after + 1 + i)
  }

  /** The page the backend serves is exactly that page. */
  lemma ServedPage(db: Db, c: ConversationId, after: int, limit: int, served: seq<MessageId>)
    requires LogInv(db) && c in db.conversations
    requires IsPage(db, c, after, PageLimit(PageSize(limit)), served)
    ensures var page := Page(db.conversations[c].nextSequence - 1, Max(0, after), PageSize(limit));
            |served| == |page| && forall i | 0 <= i < |served| :: db.messages[served[i]].sequence == page[i]
  {
    PagesAreConsecutive(db, c, after, PageLimit(PageSize(limit)), served);
  }

  // ---- One fetch ----

  /** `start` is the cursor the fetch began at; `from` is what it has emitted up to. */
  datatype Fetch = Fetch(start: nat, from: nat, size: nat, pages: nat, done: bool)

  /** One turn of the page loop against a log of n messages. */
  function Turn(f: Fetch, n: nat): Fetch {
    var page := Page(n, f.from, f.size);
    f.(from := f.from + |page|, pages := f.pages + 1, done := |page| < f.size || f.pages + 1 >= MAX_PAGES)
  }

  function Track(cursor: Option<nat>, sequence: nat): Option<nat> {
    if cursor.None? || cursor.value < sequence then Some(sequence) else cursor
  }

  function LastSequence(cursor: Option<nat>): nat {
    if cursor.None? then 0 else cursor.value
  }

  /** A negative start asks for the whole log, like a start at 0. */
  function StartAt(cursor: Option<nat>, fromSequence: int): nat {
    if fromSequence == 0 then LastSequence(cursor) else Max(0, fromSequence)
  }

  datatype Reply = Failed | Listed(n: nat)

  datatype FetchResult = FetchResult(from: nat, emitted: seq<nat>, ok: bool)

  /** What the whole loop does with the replies it gets. */
  function FetchLoop(from: nat, size: nat, replies: seq<Reply>): FetchResult
    decreases |replies|
  {
    if replies == [] then FetchResult(from, [], true)
    else if replies[0].Failed? then FetchResult(from, [], false)
    else
      var page := Page(replies[0].n, from, size);
      if |page| < size then FetchResult(from + |page|, page, true)
      else
        var rest := FetchLoop(from + |page|, size, replies[1..]);
        FetchResult(rest.from, page + rest.emitted, rest.ok)
  }

  /** What a fetch emits is consecutive and ascending, from its cursor to where it stopped. */
  lemma {:induction false} FetchIsConsecutive(from: nat, size: nat, replies: seq<Reply>)
    ensures var r := FetchLoop(from, size, replies);
            r.from == from + |r.emitted| && forall i | 0 <= i < |r.emitted| :: r.emitted[i] == from + 1 + i
    decreases |replies|
  {
    if replies == [] || replies[0].Failed? {
    } else {
      FetchIsConsecutive(from + |Page(replies[0].n, from, size)|, size, replies[1..]);
    }
  }

  /** A fault-free drain from c, begun when the log held n, ends between min(n, c + pages * size) and
      c + pages * size. */
  lemma {:induction false} DrainBounds(c: nat, size: nat, n: nat, replies: seq<Reply>)
    requires size >= 1
    requires forall i | 0 <= i < |replies| :: replies[i].Listed? && replies[i].n >= n
    ensures var r := FetchLoop(c, size, replies);
            r.ok && Min(n, c + |replies| * size) <= r.from <= c + |replies| * size
    decreases |replies|
  {
    if replies == [] {
    } else {
      var page := Page(replies[0].n, c, size);
      assert |replies| * size == size + (|replies| - 1) * size;
      assert (|replies| - 1) * size >= 0;
      if |page| == size {
        DrainBounds(c + size, size, n, replies[1..]);
      }
    }
  }

  lemma OneMore(k: nat, step: nat)
    ensures (k + 1) * step == k * step + step
  {
  }

  // ---- The engine ----

  /** `locks` is the mutex table; a mutex is known by the number it was made with. */
  class Engine {
    var lastSeq: map<ConversationId, nat>
    var stored: Option<map<ConversationId, int>>
    var locks: map<ConversationId, nat>
    var nextLock: nat
    var emitted: map<ConversationId, seq<nat>>

    /** `newSyncEngine`: restore the positive persisted cursors; a missing or unreadable cache starts clean. */
    constructor (persisted: Option<map<ConversationId, int>>)
      ensures lastSeq == Restored(persisted) && stored == persisted && emitted == map[]
      ensures LocksValid() && locks == map[] && Saved()
    {
      lastSeq := Restored(persisted);
      stored, locks, nextLock := persisted, map[], 0;
      emitted := map[];
    }

    /** A restart now would find every cursor as it is. */
    ghost predicate Saved()
      reads this
    {
      Agree(Restored(stored), lastSeq)
    }

    ghost predicate LocksValid()
      reads this
    {
      forall c | c in locks :: locks[c] < nextLock
    }

    /** `convMutex`: the conversation's mutex, made on first use; a new one is never one handed out before. */
    method ConvMutex(c: ConversationId) returns (mutex: nat)
      requires LocksValid()
      modifies this`locks, this`nextLock
      ensures LocksValid() && locks == old(locks)[c := mutex] && nextLock >= old(nextLock)
      ensures if c in old(locks) then mutex == old(locks)[c] else mutex >= old(nextLock)
    {
      if c !in locks {
        locks := locks[c := nextLock];
        nextLock := nextLock + 1;
      }
      mutex := locks[c];
    }

    function Cursor(c: ConversationId): Option<nat>
      reads this
    {
      if c in lastSeq then Some(lastSeq[c]) else None
    }

    function Emitted(c: ConversationId): seq<nat>
      reads this
    {
      if c in emitted then emitted[c] else []
    }

    /** `Track`: raise the cursor, never lower it, and persist every change. */
    method TrackTo(c: ConversationId, sequence: int)
      modifies this`lastSeq, this`stored
      ensures lastSeq == old(lastSeq)[c := Track(old(Cursor(c)), Max(0, sequence)).value]
      ensures stored == if lastSeq != old(lastSeq) then Some(lastSeq) else old(stored)
      ensures old(Saved()) ==> Saved()
    {
      if c !in lastSeq {
        lastSeq := lastSeq[c := if sequence < 0 then 0 else sequence];
        stored := Some(lastSeq);
        assert c in lastSeq && c !in old(lastSeq);
      } else if sequence > lastSeq[c] {
        lastSeq := lastSeq[c := sequence];
        stored := Some(lastSeq);
        assert lastSeq[c] != old(lastSeq)[c];
      } else {
        assert lastSeq == lastSeq[c := lastSeq[c]];
      }
      RestartKeepsCursors(lastSeq);
    }

    /** `Forget` drops the cursor and the mutex, held or not: the next fetch makes a new one. */
    method Forget(c: ConversationId)
      requires LocksValid()
      modifies this`lastSeq, this`stored, this`locks
      ensures lastSeq == old(lastSeq) - {c} && stored == Some(lastSeq)
      ensures LocksValid() && locks == old(locks) - {c} && Saved()
    {
      lastSeq := lastSeq - {c};
      locks := locks - {c};
      stored := Some(lastSeq);
      RestartKeepsCursors(lastSeq);
    }

    /** `runFetch`: emit page after page, then track; a failed page ends the fetch without tracking. A zero
        `fromSequence` means the cursor. */
    method RunFetch(c: ConversationId, fromSequence: int, limit: int, replies: seq<Reply>)
      returns (all: seq<nat>, ok: bool)
      requires |replies| == MAX_PAGES
      modifies this`emitted, this`lastSeq, this`stored
      ensures var r := FetchLoop(StartAt(old(Cursor(c)), fromSequence), PageSize(limit), replies);
              && all == r.emitted && ok == r.ok
              && emitted == old(emitted)[c := old(Emitted(c)) + r.emitted]
              && lastSeq == if r.ok then old(lastSeq)[c := Track(old(Cursor(c)), r.from).value] else old(lastSeq)
      ensures stored == if lastSeq != old(lastSeq) then Some(lastSeq) else old(stored)
      ensures old(Saved()) ==> Saved()
      ensures var start := if fromSequence > 0 then fromSequence
                           else if fromSequence < 0 then 0 else LastSequence(old(Cursor(c)));
              forall i | 0 <= i < |all| :: all[i] == start + 1 + i
    {
      FetchIsConsecutive(StartAt(Cursor(c), fromSequence), PageSize(limit), replies);
      var from: int := if fromSequence == 0 then LastSequence(Cursor(c)) else fromSequence;
      all, from, ok := EmitPages(c, from, PageSize(limit), replies);
      if ok {
        TrackTo(c, from);
      }
    }

    /** Its page loop, up to the first failure, short page or the page bound. */
    method EmitPages(c: ConversationId, start: int, size: nat, replies: seq<Reply>)
      returns (all: seq<nat>, from: int, ok: bool)
      requires |replies| == MAX_PAGES && size >= 1
      modifies this`emitted
      ensures FetchResult(Max(0, from), all, ok) == FetchLoop(Max(0, start), size, replies)
      ensures emitted == old(emitted)[c := old(Emitted(c)) + all]
    {
      all, from, ok := [], start, true;
      ghost var before := Emitted(c);
      EmitPage(c, []);
      ReachStart(Max(0, start), size, replies);
      var turn := 0;
      var more := true;
      while more && turn < MAX_PAGES
        invariant turn <= MAX_PAGES && ok
        invariant emitted == old(emitted)[c := before + all]
        invariant Reached(Max(0, start), size, replies, if more then turn else MAX_PAGES, Max(0, from), all)
        decreases MAX_PAGES - turn, more
      {
        if replies[turn].Failed? {
          ReachFailure(Max(0, start), size, replies, turn, Max(0, from), all);
          ok := false;
          return;
        }
        var page := Page(replies[turn].n, Max(0, from), size);
        ReachNext(Max(0, start), size, replies, turn, Max(0, from), all);
        AppendPage(old(emitted), c, before, all, page);
        all := all + page;
        EmitPage(c, page);
        if |page| > 0 {
          from := page[|page| - 1];
        }
        more := |page| == size;
        turn := turn + 1;
      }
      ReachEnd(Max(0, start), size, replies, Max(0, from), all);
    }

    /** `onMessages`: hand one page to the application. */
    method EmitPage(c: ConversationId, page: seq<nat>)
      modifies this`emitted
      ensures emitted == old(emitted)[c := old(Emitted(c)) + page]
    {
      emitted := emitted[c := Emitted(c) + page];
    }
  }

  /** After `turn` pages the loop has emitted `all` and stands at `from`; the rest of the replies decide the rest. */
  ghost predicate Reached(start: nat, size: nat, replies: seq<Reply>, turn: nat, from: nat, all: seq<nat>)
    requires turn <= |replies|
  {
    var rest := FetchLoop(from, size, replies[turn..]);
    FetchLoop(start, size, replies) == FetchResult(rest.from, all + rest.emitted, rest.ok)
  }

  lemma AppendPage(emitted: map<ConversationId, seq<nat>>, c: ConversationId,
                   before: seq<nat>, all: seq<nat>, page: seq<nat>)
    ensures emitted[c := before + all][c := before + all + page] == emitted[c := before + (all + page)]
  {
    assert before + (all + page) == before + all + page;
  }

  lemma ReachStart(start: nat, size: nat, replies: seq<Reply>)
    ensures Reached(start, size, replies, 0, start, [])
  {
    assert replies[0..] == replies;
    assert [] + FetchLoop(start, size, replies).emitted == FetchLoop(start, size, replies).emitted;
  }

  lemma ReachFailure(start: nat, size: nat, replies: seq<Reply>, turn: nat, from: nat, all: seq<nat>)
    requires turn < |replies| && replies[turn].Failed? && Reached(start, size, replies, turn, from, all)
    ensures FetchLoop(start, size, replies) == FetchResult(from, all, false)
  {
    assert FetchLoop(from, size, replies[turn..]) == FetchResult(from, [], false);
    assert all + [] == all;
  }

  lemma ReachEnd(start: nat, size: nat, replies: seq<Reply>, from: nat, all: seq<nat>)
    requires Reached(start, size, replies, |replies|, from, all)
    ensures FetchLoop(start, size, replies) == FetchResult(from, all, true)
  {
    assert FetchLoop(from, size, replies[|replies|..]) == FetchResult(from, [], true);
    assert all + [] == all;
  }

  lemma ReachNext(start: nat, size: nat, replies: seq<Reply>, turn: nat, from: nat, all: seq<nat>)
    requires turn < |replies| && replies[turn].Listed? && Reached(start, size, replies, turn, from, all)
    ensures var page := Page(replies[turn].n, from, size);
            Reached(start, size, replies, if |page| == size then turn + 1 else |replies|, from + |page|, all + page)
  {
    var page := Page(replies[turn].n, from, size);
    LoopTurn(from, size, replies, turn);
    var rest := FetchLoop(from + |page|, size, replies[turn + 1..]);
    assert all + (page + rest.emitted) == (all + page) + rest.emitted;
    assert all + page + [] == all + page;
  }

  lemma LoopTurn(from: nat, size: nat, replies: seq<Reply>, turn: nat)
    requires turn < |replies| && replies[turn].Listed?
    ensures var page := Page(replies[turn].n, from, size);
            FetchLoop(from, size, replies[turn..]) ==
            if |page| < size then FetchResult(from + |page|, page, true)
            else var rest := FetchLoop(from + |page|, size, replies[turn + 1..]);
                 FetchResult(rest.from, page + rest.emitted, rest.ok)
  {
    assert replies[turn..][1..] == replies[turn + 1..];
  }

  /** What a restart makes of the persisted cursors. */
  function Restored(persisted: Option<map<ConversationId, int>>): (r: map<ConversationId, nat>)
    ensures forall c | c in r :: r[c] > 0
  {
    if persisted.None? then map[]
    else map c | c in persisted.value && persisted.value[c] > 0 :: persisted.value[c]
  }

  function CursorIn(cursors: map<ConversationId, nat>, c: ConversationId): nat {
    if c in cursors then cursors[c] else 0
  }

  ghost predicate Agree(a: map<ConversationId, nat>, b: map<ConversationId, nat>) {
    forall c :: CursorIn(a, c) == CursorIn(b, c)
  }

  /** A restart keeps every cursor value; it forgets that a conversation was tracked exactly when its cursor is 0. */
  lemma RestartKeepsCursors(lastSeq: map<ConversationId, nat>)
    ensures var back := Restored(Some(lastSeq));
            Agree(back, lastSeq) && forall c | c in lastSeq :: c in back <==> lastSeq[c] > 0
  {
  }

  // ---- Reading a whole history ----

  function HistorySize(pageSize: int): (r: nat)
    ensures PageLimit(r) == r && r == if pageSize > 0 then Min(pageSize, PAGE_LIMIT) else 100
  {
    if pageSize <= 0 then 100 else if pageSize < PAGE_LIMIT then pageSize else PAGE_LIMIT
  }

  datatype Ending = Complete | Broken | Unfinished

  /** `EachMessage`: page after page until one comes back short. It handles every sequence once, in order, and when
      it completes it has reached the end of the log as the last page saw it. `replies` are the answers so far. */
  method EachMessage(after: int, pageSize: int, replies: seq<Reply>)
    returns (handled: seq<nat>, cursor: int, ending: Ending, read: nat)
    requires Lengthening(replies)
    ensures forall i | 0 <= i < |handled| :: handled[i] == Max(0, after) + 1 + i
    ensures Max(0, cursor) == Max(0, after) + |handled| && read <= |replies|
    ensures ending.Complete? ==>
              read > 0 && replies[read - 1].Listed? && Max(0, cursor) == Max(Max(0, after), replies[read - 1].n)
    ensures ending.Broken? ==> read > 0 && replies[read - 1].Failed?
    ensures ending.Unfinished? ==> read == |replies| && |handled| == |replies| * HistorySize(pageSize)
  {
    var size := HistorySize(pageSize);
    handled, cursor, read := [], after, 0;
    while read < |replies|
      invariant read <= |replies| && Max(0, cursor) == Max(0, after) + |handled| && |handled| == read * size
      invariant forall i | 0 <= i < |handled| :: handled[i] == Max(0, after) + 1 + i
      invariant read > 0 ==> replies[read - 1].Listed? && Max(0, cursor) <= replies[read - 1].n
    {
      var reply := replies[read];
      OneMore(read, size);
      read := read + 1;
      if reply.Failed? {
        return handled, cursor, Broken, read;
      }
      var page := Page(reply.n, Max(0, cursor), size);
      if |page| == 0 {
        return handled, cursor, Complete, read;
      }
      handled := handled + page;
      cursor := page[|page| - 1];
      if |page| < size {
        return handled, cursor, Complete, read;
      }
    }
    ending := Unfinished;
  }

  /** The log never shrinks between two answers. */
  ghost predicate Lengthening(replies: seq<Reply>) {
    forall i, j | 0 <= i < j < |replies| && replies[i].Listed? && replies[j].Listed? :: replies[i].n <= replies[j].n
  }

  // ---- Moderation ----

  /** The search loop of `ReloadMessage` over the page it was served. */
  method ReloadMessage(db: Db, page: seq<MessageId>, sequence: nat, message: MessageId)
    returns (r: Option<(MessageId, string)>)
    requires forall i | 0 <= i < |page| :: page[i] in db.messages
    ensures r.Some? <==> sequence > 0 && message in page
    ensures r.Some? ==> message in db.messages && r.value == (message, Shown(db.messages[message]))
  {
    r := None;
    if sequence == 0 {
      return;
    }
    for i := 0 to |page|
      invariant message !in page[..i]
    {
      if page[i] == message {
        return Some((page[i], Shown(db.messages[page[i]])));
      }
    }
  }

  /** `HandleMessageModeratedEvent`, end to end: whenever the event arrives and whatever else has happened since, a
      tracked conversation is updated with exactly the moderated message, and its content is the mask. There is no
      update when the reload request fails (`served` is None), for instance because the caller has left. */
  method HandleModerated(ghost steps: seq<Backend.Step>, ghost sentAt: nat, event: EventId, payload: Payload,
                         db: Db, tracked: bool, served: Option<seq<MessageId>>)
    returns (update: Option<(MessageId, string)>)
    requires sentAt <= |steps| && event in DbAfter(steps, sentAt).outbox
    requires DbAfter(steps, sentAt).outbox[event].payload == payload && payload.MessageModerated?
    requires db == DbAfter(steps, |steps|)
    requires served.Some? ==> IsPage(db, payload.conversation, payload.sequence - 1, 10, served.value)
    ensures update == if tracked && served.Some? then Some((payload.message, MASK)) else None
  {
    if !tracked || served.None? {
      return None;
    }
    ReloadFindsMasked(steps, sentAt, event, served.value);
    update := ReloadMessage(db, served.value, payload.sequence, payload.message);
  }
}
