/** The outbox: the page a poll is served, and what acknowledgements do to it. */
module Outbox {
  import opened Common
  import opened Store

  type Outbox = map<EventId, OutboxRow>

  const BATCH: nat := 100

  function Unpublished(outbox: Outbox): set<EventId> {
    set e | e in outbox && !outbox[e].published
  }

  predicate Waiting(outbox: Outbox, e: EventId) {
    e in outbox && !outbox[e].published
  }

  // ---- The outbox query ----

  /** `ORDER BY created_at ASC LIMIT n` over the unpublished rows; ties come in any order. */
  predicate IsBatch(outbox: Outbox, limit: nat, batch: seq<EventId>) {
    && Distinct(batch)
    && (forall i | 0 <= i < |batch| :: Waiting(outbox, batch[i]))
    && |batch| == Min(limit, |Unpublished(outbox)|)
    && (forall i, j | 0 <= i < j < |batch| :: outbox[batch[i]].createdAt <= outbox[batch[j]].createdAt)
    && (forall e, d | e in batch && d in Unpublished(outbox) && d !in batch ::
          e in outbox && outbox[e].createdAt <= outbox[d].createdAt)
  }

  lemma OldestExists(outbox: Outbox, rest: set<EventId>)
    requires rest != {} && forall e | e in rest :: e in outbox
    ensures exists e :: e in rest && Oldest(outbox, rest, e)
    decreases rest
  {
    var x :| x in rest;
    if rest != {x} {
      OldestExists(outbox, rest - {x});
      var y :| y in rest - {x} && Oldest(outbox, rest - {x}, y);
      assert Oldest(outbox, rest, if outbox[x].createdAt <= outbox[y].createdAt then x else y);
    } else {
      assert Oldest(outbox, rest, x);
    }
  }

  predicate Oldest(outbox: Outbox, rest: set<EventId>, e: EventId)
    requires e in outbox && forall d | d in rest :: d in outbox
  {
    forall d | d in rest :: outbox[e].createdAt <= outbox[d].createdAt
  }

  lemma ElementsOfDistinct<T>(s: seq<T>)
    requires Distinct(s)
    ensures |Elements(s)| == |s|
  {
    if s != [] {
      var front := s[..|s| - 1];
      assert s == front + [s[|s| - 1]];
      ElementsAppend(front, s[|s| - 1]);
      ElementsOfDistinct(front);
    }
  }

  lemma SubsetSize<T>(a: set<T>, b: set<T>)
    requires a <= b
    ensures |a| <= |b| && |b - a| == |b| - |a|
  {
    assert b == a + (b - a);
  }

  /** A batch under construction: ordered, and no younger than anything left over. */
  ghost predicate Picking(outbox: Outbox, batch: seq<EventId>, rest: set<EventId>) {
    && Distinct(batch)
    && (forall i | 0 <= i < |batch| :: Waiting(outbox, batch[i]))
    && rest == Unpublished(outbox) - Elements(batch)
    && (forall i, j | 0 <= i < j < |batch| :: outbox[batch[i]].createdAt <= outbox[batch[j]].createdAt)
    && (forall i, d | 0 <= i < |batch| && d in rest :: outbox[batch[i]].createdAt <= outbox[d].createdAt)
  }

  lemma PickOldest(outbox: Outbox, batch: seq<EventId>, rest: set<EventId>, e: EventId)
    requires Picking(outbox, batch, rest) && e in rest && Oldest(outbox, rest, e)
    ensures Picking(outbox, batch + [e], rest - {e})
  {
    ElementsAppend(batch, e);
    forall i | 0 <= i < |batch| ensures batch[i] != e {
      assert batch[i] in Elements(batch);
    }
  }

  lemma PickedIsBatch(outbox: Outbox, limit: nat, batch: seq<EventId>, rest: set<EventId>)
    requires Picking(outbox, batch, rest) && |batch| <= limit && (|batch| == limit || rest == {})
    ensures IsBatch(outbox, limit, batch)
  {
    assert Elements(batch) <= Unpublished(outbox);
    ElementsOfDistinct(batch);
    SubsetSize(Elements(batch), Unpublished(outbox));
    assert rest == {} ==> Elements(batch) == Unpublished(outbox);
    forall d | d in Unpublished(outbox) && d !in batch ensures d in rest {
      assert d !in Elements(batch);
    }
  }

  /** A limit outside 1 .. 500 falls back to 100. */
  function PageBound(limit: int): (r: nat)
    ensures 1 <= r <= 500 && (r == limit || (r == 100 && !(1 <= limit <= 500)))
  {
    if limit < 1 || limit > 500 then BATCH else limit
  }

  /** The page `Outbox` serves: repeatedly take an oldest remaining row. */
  method SelectBatch(outbox: Outbox, limit: int) returns (batch: seq<EventId>)
    ensures IsBatch(outbox, PageBound(limit), batch)
  {
    batch := [];
    var bound := PageBound(limit);
    var rest := Unpublished(outbox);
    while |batch| < bound && rest != {}
      invariant Picking(outbox, batch, rest) && |batch| <= bound
      decreases rest
    {
      OldestExists(outbox, rest);
      var e :| e in rest && Oldest(outbox, rest, e);
      PickOldest(outbox, batch, rest, e);
      batch := batch + [e];
      rest := rest - {e};
    }
    PickedIsBatch(outbox, bound, batch, rest);
  }

  // ---- Acknowledging ----

  function AckAll(outbox: Outbox, events: seq<EventId>): Outbox
    decreases |events|
  {
    if events == [] then outbox else AckRow(AckAll(outbox, events[..|events| - 1]), events[|events| - 1])
  }

  /** Acknowledging a list publishes exactly its members, each once, and touches nothing else. */
  lemma {:induction false} AckAllEffect(outbox: Outbox, events: seq<EventId>)
    ensures AckAll(outbox, events).Keys == outbox.Keys
    ensures forall e | e in outbox :: AckAll(outbox, events)[e] ==
              if e in events && !outbox[e].published
              then outbox[e].(published := true, attempts := outbox[e].attempts + 1) else outbox[e]
    decreases |events|
  {
    if events == [] {
    } else {
      AckAllEffect(outbox, events[..|events| - 1]);
      assert events == events[..|events| - 1] + [events[|events| - 1]];
    }
  }
}
