/** The delivery worker's own loop, running beside whatever the rest of the system does. */
module DeliveryWorker {
  import opened Common
  import opened Store
  import opened Outbox
  import opened Delivery

  /** The running system together with the moves it has made so far. */
  class Cluster {
    var world: World
    ghost var trace: seq<Move>

    ghost predicate Valid()
      reads this
    {
      world == Play(trace)
    }

    constructor ()
      ensures Valid() && trace == []
    {
      world, trace := Start, [];
    }

    method Advance(move: Move)
      requires Valid()
      modifies this
      ensures Valid() && trace == old(trace) + [move] && world == Next(old(world), move)
    {
      assert (trace + [move])[..|trace|] == trace;
      world, trace := Next(world, move), trace + [move];
    }

    /** Whatever handlers and other polls do in the meantime; poll `id` is left alone. */
    method AdvanceOthers(moves: seq<Move>, ghost id: nat)
      requires Valid() && id in world.polls && LeavesAlone(moves, id)
      modifies this
      ensures Valid() && trace == old(trace) + moves
      ensures id in world.polls && world.polls[id] == old(world).polls[id]
    {
      assert old(trace) + moves[..0] == old(trace);
      for i := 0 to |moves|
        invariant Valid() && trace == old(trace) + moves[..i]
        invariant id in world.polls && world.polls[id] == old(world).polls[id]
      {
        assert old(trace) + moves[..i + 1] == old(trace) + moves[..i] + [moves[i]];
        Advance(moves[i]);
      }
      assert moves[..|moves|] == moves;
    }
  }

  ghost predicate LeavesAlone(moves: seq<Move>, id: nat) {
    forall i | 0 <= i < |moves| :: moves[i].Serve? || moves[i].id != id
  }

  /** What the environment decides about one event of a poll: the two outcomes, and what happens before each. */
  datatype Hop = Hop(beforePush: seq<Move>, push: PushResult, beforeAck: seq<Move>, ack: AckResult)

  lemma InvAt(trace: seq<Move>, id: nat)
    requires id in Play(trace).polls
    ensures RowsInv(Play(trace)) && PollInv(Play(trace), id, Play(trace).polls[id])
  {
    PlayInv(trace);
  }

  /** Poll `id`, which stood at p, after one event: confirmed, or ended there having published exactly what it had
      confirmed, and one row more at most when only the reply was lost. */
  ghost predicate Delivered(w: World, id: nat, p: Poll, ok: bool, hop: Hop)
    requires p.index < |p.batch|
  {
    && id in w.polls && w.polls[id].batch == p.batch
    && (ok ==> w.polls[id] == Confirm(p) && hop.push.Accepted? && hop.ack.Answered?)
    && (!ok ==> w.polls[id].index == p.index && w.polls[id].stage.Ended?)
    && (!ok ==> || Owns(w, id, p.batch[..p.index])
                || (hop.push.Accepted? && hop.ack.AckReplyLost? && Owns(w, id, p.batch[..p.index + 1])))
  }

  class Worker {
    var polled: nat
    var published: nat
    var failures: nat

    constructor ()
      ensures polled == published == failures == 0
    {
      polled, published, failures := 0, 0, 0;
    }

    /** Push one event and acknowledge it. Only a confirmed acknowledgement is success: a lost reply, or a row that
        another worker has published meanwhile, ends the poll. */
    method DeliverOne(cluster: Cluster, id: nat, hop: Hop) returns (ok: bool)
      requires cluster.Valid() && IsAt(cluster.world, id, Pushing)
      requires LeavesAlone(hop.beforePush, id) && LeavesAlone(hop.beforeAck, id)
      modifies cluster
      ensures cluster.Valid() && old(cluster.trace) <= cluster.trace
      ensures Delivered(cluster.world, id, old(cluster.world).polls[id], ok, hop)
    {
      cluster.AdvanceOthers(hop.beforePush, id);
      ghost var before := cluster.world;
      InvAt(cluster.trace, id);
      cluster.Advance(Push(id, hop.push));
      if !hop.push.Accepted? {
        EndingMove(before, Push(id, hop.push), id);
        return false;
      }
      cluster.AdvanceOthers(hop.beforeAck, id);
      ok := Acknowledge(cluster, id, hop);
    }

    method Acknowledge(cluster: Cluster, id: nat, hop: Hop) returns (ok: bool)
      requires cluster.Valid() && IsAt(cluster.world, id, Acking) && hop.push.Accepted?
      modifies cluster
      ensures cluster.Valid() && cluster.trace == old(cluster.trace) + [Ack(id, hop.ack)]
      ensures Delivered(cluster.world, id, old(cluster.world).polls[id], ok, hop)
    {
      ghost var before := cluster.world;
      InvAt(cluster.trace, id);
      ok := hop.ack.Answered? && StillWaiting(cluster.world, id);
      cluster.Advance(Ack(id, hop.ack));
      if !ok {
        EndingMove(before, Ack(id, hop.ack), id);
      }
    }

    /** `poll`: one event at a time, stopping at the first error; `served` is None when the outbox request fails.
        `k` counts the confirmed events. The poll has itself published exactly its first k rows, or k + 1 when the
        reply to its last acknowledgement was lost. */
    method Poll(cluster: Cluster, id: nat, served: Option<seq<EventId>>, hops: seq<Hop>) returns (ok: bool, k: nat)
      requires cluster.Valid() && id !in cluster.world.polls && HopsLeave(hops, id)
      requires served.Some? ==> IsBatch(cluster.world.sys.db.outbox, BATCH, served.value) && |hops| == |served.value|
      modifies this, cluster
      ensures cluster.Valid() && old(cluster.trace) <= cluster.trace
      ensures served.None? ==> !ok && k == 0 && cluster.trace == old(cluster.trace) && polled == old(polled)
      ensures served.Some? ==>
                && polled == old(polled) + |served.value|
                && k <= |served.value| && (ok <==> k == |served.value|)
                && PollEnded(cluster.world, id, served.value, hops, k)
      ensures published == old(published) + k && failures == old(failures) + if ok then 0 else 1
    {
      if served.None? {
        failures := failures + 1;
        return false, 0;
      }
      polled := polled + |served.value|;
      cluster.Advance(TakeBatch(id, served.value));
      k := DeliverAll(cluster, id, served.value, hops);
      ok := k == |served.value|;
      published := published + k;
      if !ok {
        failures := failures + 1;
      }
    }

    /** Its loop over the page. */
    method DeliverAll(cluster: Cluster, id: nat, batch: seq<EventId>, hops: seq<Hop>) returns (k: nat)
      requires cluster.Valid() && HopsLeave(hops, id) && |hops| == |batch| && id in cluster.world.polls
      requires cluster.world.polls[id] == Polling(batch, 0, if batch == [] then Ended else Pushing)
      modifies cluster
      ensures cluster.Valid() && old(cluster.trace) <= cluster.trace
      ensures k <= |batch| && PollEnded(cluster.world, id, batch, hops, k)
    {
      k := 0;
      while k < |batch|
        invariant k <= |batch| && cluster.Valid() && old(cluster.trace) <= cluster.trace && HopsConfirm(hops, k)
        invariant id in cluster.world.polls
        invariant cluster.world.polls[id] == Polling(batch, k, if k < |batch| then Pushing else Ended)
      {
        var ok := DeliverOne(cluster, id, hops[k]);
        if !ok {
          return;
        }
        k := k + 1;
      }
      InvAt(cluster.trace, id);
    }
  }

  ghost predicate HopsLeave(hops: seq<Hop>, id: nat) {
    forall i | 0 <= i < |hops| :: LeavesAlone(hops[i].beforePush, id) && LeavesAlone(hops[i].beforeAck, id)
  }

  ghost predicate HopsConfirm(hops: seq<Hop>, k: nat)
    requires k <= |hops|
  {
    forall i | 0 <= i < k :: hops[i].push.Accepted? && hops[i].ack.Answered?
  }

  /** The poll is over after k confirmed events. */
  ghost predicate PollEnded(w: World, id: nat, batch: seq<EventId>, hops: seq<Hop>, k: nat)
    requires k <= |batch| == |hops|
  {
    && id in w.polls && w.polls[id] == Polling(batch, k, Ended) && HopsConfirm(hops, k)
    && (|| Owns(w, id, batch[..k])
        || (k < |batch| && hops[k].push.Accepted? && hops[k].ack.AckReplyLost? && Owns(w, id, batch[..k + 1])))
  }
}
