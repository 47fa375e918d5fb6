/**
 The SDK's send path: one idempotency key per call, a bounded retry loop over
 transport failures, and a single credential renewal inside each attempt.
 */
module Rest {
  import opened Store
  import opened Invariants
  import opened Backend
  import opened BackendTheorems

  /** A running backend together with the steps it has taken so far. */
  class Server {
    var sys: Sys
    ghost var trace: seq<Step>

    ghost predicate Valid()
      reads this
    {
      sys == Run(Initial, trace)
    }

    constructor ()
      ensures Valid() && trace == []
    {
      sys := Initial;
      trace := [];
    }

    method Advance(step: Step)
      requires Valid()
      modifies this
      ensures Valid() && trace == old(trace) + [step] && sys == Apply(old(sys), step)
    {
      assert (trace + [step])[..|trace|] == trace;
      sys := Apply(sys, step);
      trace := trace + [step];
    }

    /** Whatever other requests do in the meantime. */
    method AdvanceAll(steps: seq<Step>)
      requires Valid()
      modifies this
      ensures Valid() && trace == old(trace) + steps && sys == Run(old(sys), steps)
    {
      assert old(trace) + steps[..0] == old(trace);
      for i := 0 to |steps|
        invariant Valid() && trace == old(trace) + steps[..i] && sys == Run(old(sys), steps[..i])
      {
        assert steps[..i + 1][..i] == steps[..i];
        assert old(trace) + steps[..i + 1] == old(trace) + steps[..i] + [steps[i]];
        Advance(steps[i]);
      }
      assert steps[..|steps|] == steps;
    }
  }

  datatype Fate = RequestLost | Unauthorized | ReplyLost | Delivered

  /** One HTTP exchange as the environment decides it; `others` is what the rest of the system does around it. */
  datatype Exchange = Exchange(
    fate: Fate, call: nat, wellFormed: bool, id: MessageId, event: EventId, now: int, link: Link,
    others: seq<seq<Step>>)

  datatype Outcome =
    Success(id: MessageId, sequence: nat) | TransportFailure | HttpFailure(code: nat) | ProviderFailure

  /** The host's credential callback: none configured, an error, or a value (0 when it has none to give). An error the
      callback took from the SDK itself may be a transport failure, which the retry loop cannot tell from its own. */
  datatype Provider = Absent | Broken(transport: bool) | Gives(value: nat)

  /** One attempt: the first exchange, the provider's answer and the exchange after a renewal, should they be needed. */
  datatype Hop = Hop(first: Exchange, provider: Provider, second: Exchange)

  const UNAUTHORIZED := 10001

  /** The answer the handler of this exchange has produced, if the exchange was its own. */
  function AnswerOf(s: Sys, call: nat, req: SendRequest): Outcome {
    if call in s.calls && s.calls[call].SendReplied? && s.calls[call].req == req then
      match s.calls[call].answer
      case Stored(id, sequence, _) => Success(id, sequence)
      case SendFailed(code) => HttpFailure(code)
    else TransportFailure
  }

  ghost predicate NamesStored(db: Db, req: SendRequest, r: Outcome) {
    r.Success? ==>
      && r.id in db.messages && db.messages[r.id].sequence == r.sequence && db.messages[r.id].sender == req.user
      && (req.key.Some? ==> HasReceipt(db, req.user, req.key.value, Receipt(req.hash, r.id)))
  }

  /** r is what the handler of this request answered; a response that never came is a transport failure. */
  predicate Relays(s: Sys, call: nat, req: SendRequest, r: Outcome) {
    var answered := call in s.calls && s.calls[call].SendReplied? && s.calls[call].req == req;
    && (r.Success? <==> answered && s.calls[call].answer.Stored?)
    && (r.Success? ==> r.id == s.calls[call].answer.id && r.sequence == s.calls[call].answer.sequence)
    && (r.HttpFailure? <==> answered && s.calls[call].answer.SendFailed?)
    && (r.HttpFailure? ==> r.code == s.calls[call].answer.code)
    && !r.ProviderFailure?
  }

  lemma AnswerNamesStored(trace: seq<Step>, call: nat, req: SendRequest)
    ensures var s := Run(Initial, trace); NamesStored(s.db, req, AnswerOf(s, call, req))
  {
    var s := Run(Initial, trace);
    if AnswerOf(s, call, req).Success? {
      SuccessNamesStored(trace, call);
    }
  }

  lemma TwoSteps(s: Sys, one: Step, two: Step)
    ensures Run(s, [one, two]) == Apply(Apply(s, one), two)
  {
    assert [one, two][..1] == [one] && [one][..0] == [];
    assert Run(s, [one]) == Apply(s, one);
  }

  /** After a lost reply, a retry that reaches the server replays the stored message: it is answered before
      any transaction runs, and the database does not move. */
  lemma RetryReplays(s: Sys, call: nat, req: SendRequest, id: MessageId)
    requires ReceiptInv(s.db) && call !in s.calls && IsActive(s.db, req.conversation, req.user)
    requires req.key.Some? && HasReceipt(s.db, req.user, req.key.value, Receipt(req.hash, id))
    ensures id in s.db.messages
    ensures var t := Run(s, [SendAuthorize(call, req, true), SendLookup(call)]);
            t.db == s.db && AnswerOf(t, call, req) == Success(id, s.db.messages[id].sequence)
  {
    var one, two := SendAuthorize(call, req, true), SendLookup(call);
    TwoSteps(s, one, two);
    assert s.db.receipts[(req.user, req.key.value)].message in s.db.messages;
    assert Apply(s, one) == s.(calls := s.calls[call := SendAuthorized(req)]);
  }

  function Others(x: Exchange, i: nat): seq<Step> {
    if i < |x.others| then x.others[i] else []
  }

  /** The steps the backend takes for one exchange; none when the request is lost or stopped at the door. */
  function Exchanged(req: SendRequest, x: Exchange): seq<Step> {
    if x.fate.RequestLost? || x.fate.Unauthorized? then []
    else Others(x, 0) + [SendAuthorize(x.call, req, x.wellFormed)]
         + Others(x, 1) + [SendLookup(x.call)]
         + Others(x, 2) + [SendCommit(x.call, x.id, x.event, x.now, x.link)] + Others(x, 3)
  }

  /** An exchange that reaches the server is authorize, lookup and commit, in that order, with whatever the rest of the
      system does before, between and after them. */
  lemma ExchangeInterleaves(req: SendRequest, x: Exchange)
    requires (x.fate.Delivered? || x.fate.ReplyLost?) && |x.others| == 4
    ensures var steps := Exchanged(req, x);
            var a := |x.others[0]|; var b := a + 1 + |x.others[1]|; var c := b + 1 + |x.others[2]|;
            && |steps| == c + 1 + |x.others[3]|
            && steps[..a] == x.others[0] && steps[a] == SendAuthorize(x.call, req, x.wellFormed)
            && steps[a + 1..b] == x.others[1] && steps[b] == SendLookup(x.call)
            && steps[b + 1..c] == x.others[2] && steps[c] == SendCommit(x.call, x.id, x.event, x.now, x.link)
            && steps[c + 1..] == x.others[3]
  {
  }

  /** What the client sees of an exchange that left the backend in s. */
  function Observed(s: Sys, req: SendRequest, x: Exchange): Outcome {
    match x.fate
    case Unauthorized => HttpFailure(UNAUTHORIZED)
    case Delivered => AnswerOf(s, x.call, req)
    case _ => TransportFailure
  }

  /** The client sees a transport failure exactly when the request, the reply or the answer is missing, 10001 when it is
      stopped at the door, and otherwise the handler's own answer; a request that never arrived changes nothing. */
  lemma WhatTheClientSees(s: Sys, req: SendRequest, x: Exchange)
    ensures x.fate.RequestLost? || x.fate.ReplyLost? ==> Observed(s, req, x).TransportFailure?
    ensures x.fate.Unauthorized? ==> Observed(s, req, x) == HttpFailure(10001)
    ensures x.fate.Delivered? ==> Relays(s, x.call, req, Observed(s, req, x))
    ensures x.fate.RequestLost? || x.fate.Unauthorized? ==> Run(s, Exchanged(req, x)) == s
  {
  }

  /** Where an attempt leaves the system and the client, what the client saw, and the steps the backend took. */
  datatype Attempted = Attempted(sys: Sys, credential: nat, outcome: Outcome, steps: seq<Step>)

  /** One attempt: at most one renewal, and a second exchange only under a different credential. */
  function Attempt(s: Sys, credential: nat, req: SendRequest, hop: Hop): Attempted {
    var first, second := Exchanged(req, hop.first), Exchanged(req, hop.second);
    var t := Run(s, first);
    var seen := Observed(t, req, hop.first);
    if seen != HttpFailure(UNAUTHORIZED) || hop.provider.Absent? || credential == 0
    then Attempted(t, credential, seen, first)
    else if hop.provider.Broken?
    then Attempted(t, credential, if hop.provider.transport then TransportFailure else ProviderFailure, first)
    else if hop.provider.value == 0 || hop.provider.value == credential then Attempted(t, credential, seen, first)
    else
      var u := Run(t, second);
      Attempted(u, hop.provider.value, Observed(u, req, hop.second), first + second)
  }

  /** The rule of renewal: the credential changes, and a second exchange is made, exactly when the first is answered
      10001, a credential was in use, and the provider gives a different one; the second exchange's answer is then the
      attempt's, and any first answer but 10001 stands. */
  lemma RenewalRule(s: Sys, credential: nat, req: SendRequest, hop: Hop)
    ensures var a := Attempt(s, credential, req, hop); var first := Exchanged(req, hop.first);
            var seen := Observed(Run(s, first), req, hop.first);
            if seen == HttpFailure(10001) && credential != 0 && hop.provider.Gives?
               && hop.provider.value != 0 && hop.provider.value != credential
            then && a.credential == hop.provider.value && a.steps == first + Exchanged(req, hop.second)
                 && a.outcome == Observed(a.sys, req, hop.second)
            else && a.credential == credential && a.steps == first && a.sys == Run(s, first)
                 && (seen != HttpFailure(10001) || hop.provider.Absent? || hop.provider.Gives? ==> a.outcome == seen)
                 && (seen == HttpFailure(10001) && credential != 0 && hop.provider.Broken? ==>
                       a.outcome == if hop.provider.transport then TransportFailure else ProviderFailure)
  {
  }

  /** The whole call from attempt k on: the next attempt happens exactly after a transport failure, while k is
      within the bound. */
  function Attempts(s: Sys, credential: nat, req: SendRequest, hops: seq<Hop>, k: nat, bound: nat): Attempted
    requires k <= bound < |hops|
    decreases bound - k
  {
    var a := Attempt(s, credential, req, hops[k]);
    if !a.outcome.TransportFailure? || k == bound then a
    else
      var rest := Attempts(a.sys, a.credential, req, hops, k + 1, bound);
      rest.(steps := a.steps + rest.steps)
  }

  /** Every attempt from k to the bound, made in turn, is a transport failure. */
  predicate AllFail(s: Sys, credential: nat, req: SendRequest, hops: seq<Hop>, k: nat, bound: nat)
    requires k <= bound < |hops|
    decreases bound - k
  {
    var a := Attempt(s, credential, req, hops[k]);
    a.outcome.TransportFailure? && (k < bound ==> AllFail(a.sys, a.credential, req, hops, k + 1, bound))
  }

  lemma AttemptsNext(s: Sys, credential: nat, req: SendRequest, hops: seq<Hop>, k: nat, bound: nat, a: Attempted)
    requires k <= bound < |hops| && a == Attempt(s, credential, req, hops[k])
    ensures Attempts(s, credential, req, hops, k, bound).outcome
            == if !a.outcome.TransportFailure? || k == bound then a.outcome
               else Attempts(a.sys, a.credential, req, hops, k + 1, bound).outcome
    ensures AllFail(s, credential, req, hops, k, bound)
       <==> a.outcome.TransportFailure? && (k < bound ==> AllFail(a.sys, a.credential, req, hops, k + 1, bound))
  {
  }

  /** The call fails in transport exactly when every allowed attempt does. */
  lemma {:induction false} FailsOnlyWhenAllDo(s: Sys, credential: nat, req: SendRequest, hops: seq<Hop>,
                                              k: nat, bound: nat)
    requires k <= bound < |hops|
    ensures Attempts(s, credential, req, hops, k, bound).outcome.TransportFailure?
       <==> AllFail(s, credential, req, hops, k, bound)
    decreases bound - k
  {
    var a := Attempt(s, credential, req, hops[k]);
    AttemptsNext(s, credential, req, hops, k, bound, a);
    if k == bound || !a.outcome.TransportFailure? {
    } else {
      FailsOnlyWhenAllDo(a.sys, a.credential, req, hops, k + 1, bound);
    }
  }

  /** The steps of the first exchanges of attempts j to k - 1. */
  function FirstExchanges(req: SendRequest, hops: seq<Hop>, j: nat, k: nat): seq<Step>
    requires j <= k <= |hops|
    decreases k - j
  {
    if j == k then [] else Exchanged(req, hops[j].first) + FirstExchanges(req, hops, j + 1, k)
  }

  predicate Lost(x: Exchange) {
    x.fate.RequestLost? || x.fate.ReplyLost?
  }

  lemma LostAttempt(s: Sys, credential: nat, req: SendRequest, hop: Hop)
    requires Lost(hop.first)
    ensures Attempt(s, credential, req, hop)
            == Attempted(Run(s, Exchanged(req, hop.first)), credential, TransportFailure, Exchanged(req, hop.first))
  {
  }

  lemma DeliveredAttempt(s: Sys, credential: nat, req: SendRequest, hop: Hop)
    requires hop.first.fate.Delivered?
    requires AnswerOf(Run(s, Exchanged(req, hop.first)), hop.first.call, req) != HttpFailure(10001)
    ensures var t := Run(s, Exchanged(req, hop.first));
            Attempt(s, credential, req, hop)
            == Attempted(t, credential, AnswerOf(t, hop.first.call, req), Exchanged(req, hop.first))
  {
  }

  /** Retrying pays off: when the first exchanges of attempts j to k - 1 are lost, whichever way, and that of attempt k
      is delivered to a handler that answers anything but 10001, the call ends there with that answer, after exactly
      those exchanges and under the same credential. */
  lemma {:induction false} LostThenDelivered(s: Sys, credential: nat, req: SendRequest, hops: seq<Hop>,
                                             j: nat, bound: nat, k: nat)
    requires j <= k <= bound < |hops| && (forall i | j <= i < k :: Lost(hops[i].first)) && hops[k].first.fate.Delivered?
    requires var seen := AnswerOf(Run(s, FirstExchanges(req, hops, j, k + 1)), hops[k].first.call, req);
             !seen.TransportFailure? && seen != HttpFailure(10001)
    ensures var steps := FirstExchanges(req, hops, j, k + 1);
            Attempts(s, credential, req, hops, j, bound)
            == Attempted(Run(s, steps), credential, AnswerOf(Run(s, steps), hops[k].first.call, req), steps)
    decreases k - j
  {
    var first := Exchanged(req, hops[j].first);
    if j == k {
      assert FirstExchanges(req, hops, j + 1, k + 1) == [];
      assert FirstExchanges(req, hops, j, k + 1) == first;
      DeliveredAttempt(s, credential, req, hops[j]);
    } else {
      LostAttempt(s, credential, req, hops[j]);
      RunSplit(s, first, FirstExchanges(req, hops, j + 1, k + 1));
      LostThenDelivered(Run(s, first), credential, req, hops, j + 1, bound, k);
    }
  }

  /** A send that meets no race and no fault is stored under the next sequence and answered with it. */
  lemma QuietExchangeStores(s: Sys, req: SendRequest, x: Exchange)
    requires LogInv(s.db) && x.call !in s.calls && x.wellFormed && x.link.Up? && x.others == []
    requires x.fate.Delivered? || x.fate.ReplyLost?
    requires IsActive(s.db, req.conversation, req.user) && req.conversation in s.db.conversations
    requires x.id !in s.db.messages && x.event !in s.db.outbox
    requires req.key.Some? ==> (req.user, req.key.value) !in s.db.receipts
    ensures var t := Run(s, Exchanged(req, x)); var n := s.db.conversations[req.conversation].nextSequence;
            && AnswerOf(t, x.call, req) == Success(x.id, n)
            && x.call in t.calls && t.calls[x.call] == SendReplied(req, Stored(x.id, n, req.content))
            && t.db.messages == s.db.messages[x.id := Message(req.conversation, req.user, req.content, n, false)]
  {
    var one, two := SendAuthorize(x.call, req, true), SendLookup(x.call);
    var three := SendCommit(x.call, x.id, x.event, x.now, Up);
    assert Exchanged(req, x) == [one, two] + [three];
    RunSplit(s, [one, two], [three]);
    TwoSteps(s, one, two);
    ReadyToSend(s, req, x.call);
    var ready := s.(calls := s.calls[x.call := SendReady(req)]);
    assert [three][..0] == [];
    assert Run(ready, [three]) == Apply(ready, three);
    QuietCommit(ready, req, x.call, x.id, x.event, x.now);
  }

  lemma ReadyToSend(s: Sys, req: SendRequest, call: nat)
    requires call !in s.calls && IsActive(s.db, req.conversation, req.user)
    requires req.key.Some? ==> (req.user, req.key.value) !in s.db.receipts
    ensures Apply(Apply(s, SendAuthorize(call, req, true)), SendLookup(call))
            == s.(calls := s.calls[call := SendReady(req)])
  {
    assert Apply(s, SendAuthorize(call, req, true)) == s.(calls := s.calls[call := SendAuthorized(req)]);
  }

  lemma QuietCommit(s: Sys, req: SendRequest, call: nat, id: MessageId, event: EventId, now: int)
    requires LogInv(s.db) && call in s.calls && s.calls[call] == SendReady(req)
    requires req.conversation in s.db.conversations
    requires id !in s.db.messages && event !in s.db.outbox
    requires req.key.Some? ==> (req.user, req.key.value) !in s.db.receipts
    ensures var t := Apply(s, SendCommit(call, id, event, now, Up));
            var n := s.db.conversations[req.conversation].nextSequence;
            && AnswerOf(t, call, req) == Success(id, n)
            && call in t.calls && t.calls[call] == SendReplied(req, Stored(id, n, req.content))
            && t.db.messages == s.db.messages[id := Message(req.conversation, req.user, req.content, n, false)]
  {
    NextIsFree(s.db, req.conversation);
  }

  lemma NextIsFree(db: Db, c: ConversationId)
    requires LogInv(db) && c in db.conversations
    ensures !SequenceTaken(db, c, db.conversations[c].nextSequence)
  {
    forall id | id in db.messages ensures !Store.At(db.messages[id], c, db.conversations[c].nextSequence) {
      assert InRange(db, db.messages[id]);
    }
  }

  /** `requestOnce`: the server may have acted even when the client sees a transport failure. */
  method RequestOnce(server: Server, req: SendRequest, x: Exchange) returns (r: Outcome)
    requires server.Valid()
    modifies server
    ensures server.Valid() && server.trace == old(server.trace) + Exchanged(req, x)
    ensures server.sys == Run(old(server.sys), Exchanged(req, x)) && r == Observed(server.sys, req, x)
    ensures NamesStored(server.sys.db, req, r)
  {
    if x.fate.RequestLost? {
      return TransportFailure;
    }
    if x.fate.Unauthorized? {
      return HttpFailure(UNAUTHORIZED);
    }
    RunSplit(Initial, server.trace, Exchanged(req, x));
    server.AdvanceAll(Exchanged(req, x));
    if x.fate.ReplyLost? {
      return TransportFailure;
    }
    AnswerNamesStored(server.trace, x.call, req);
    r := AnswerOf(server.sys, x.call, req);
  }

  class Client {
    var credential: nat

    constructor (initial: nat)
      ensures credential == initial
    {
      credential := initial;
    }

    /** `request`: on a rejected credential ask the provider once, and try once more with a fresh one. */
    method Request(server: Server, req: SendRequest, hop: Hop) returns (r: Outcome)
      requires server.Valid()
      modifies this, server
      ensures server.Valid()
      ensures var a := Attempt(old(server.sys), old(credential), req, hop);
              && server.sys == a.sys && credential == a.credential && r == a.outcome
              && server.trace == old(server.trace) + a.steps
      ensures NamesStored(server.sys.db, req, r)
    {
      r := RequestOnce(server, req, hop.first);
      if r == HttpFailure(UNAUTHORIZED) && !hop.provider.Absent? && credential != 0 {
        if hop.provider.Broken? {
          r := if hop.provider.transport then TransportFailure else ProviderFailure;
        } else if hop.provider.value != 0 && hop.provider.value != credential {
          r := RequestRenewed(server, req, hop, old(server.sys), old(credential), old(server.trace));
        }
      }
    }

    /** The second exchange, under the credential the provider gave. */
    method RequestRenewed(server: Server, req: SendRequest, hop: Hop,
                          ghost s: Sys, ghost c: nat, ghost trace: seq<Step>)
      returns (r: Outcome)
      requires server.Valid() && server.sys == Run(s, Exchanged(req, hop.first))
      requires server.trace == trace + Exchanged(req, hop.first) && hop.provider.Gives?
      requires Observed(server.sys, req, hop.first) == HttpFailure(UNAUTHORIZED)
      requires c != 0 && hop.provider.value != 0 && hop.provider.value != c
      modifies this, server
      ensures server.Valid() && NamesStored(server.sys.db, req, r)
      ensures var a := Attempt(s, c, req, hop);
              && server.sys == a.sys && credential == a.credential && r == a.outcome
              && server.trace == trace + a.steps
    {
      Appended(trace, Exchanged(req, hop.first), Exchanged(req, hop.second));
      credential := hop.provider.value;
      r := RequestOnce(server, req, hop.second);
    }

    /** The retry loop: transport failures only, always with the same key and body. */
    method Retry(server: Server, req: SendRequest, bound: nat, hops: seq<Hop>) returns (r: Outcome)
      requires server.Valid() && |hops| > bound
      modifies this, server
      ensures server.Valid() && NamesStored(server.sys.db, req, r)
      ensures var a := Attempts(old(server.sys), old(credential), req, hops, 0, bound);
              && server.sys == a.sys && credential == a.credential && r == a.outcome
              && server.trace == old(server.trace) + a.steps
    {
      var attempt := 0;
      ghost var done: seq<Step> := [];
      ghost var whole := Attempts(server.sys, credential, req, hops, 0, bound);
      while true
        invariant server.Valid() && attempt <= bound && server.trace == old(server.trace) + done
        invariant Remains(whole, done, Attempts(server.sys, credential, req, hops, attempt, bound))
        decreases bound - attempt
      {
        ghost var a := Attempt(server.sys, credential, req, hops[attempt]);
        OneMoreAttempt(whole, done, server.sys, credential, req, hops, attempt, bound);
        r := Request(server, req, hops[attempt]);
        Appended(old(server.trace), done, a.steps);
        attempt := attempt + 1;
        done := done + a.steps;
        if !r.TransportFailure? || attempt > bound {
          break;
        }
      }
    }

    /** `SendMessage`: a transport failure is returned exactly when every allowed attempt was one. However the attempts
        fare, the backend has stored at most one message for the key, and a success names it. */
    method SendMessage(server: Server, req: SendRequest, retries: int, hops: seq<Hop>) returns (r: Outcome)
      requires server.Valid() && req.key.Some?
      requires |hops| > (if retries <= 0 then 1 else retries)
      modifies this, server
      ensures server.Valid() && NamesStored(server.sys.db, req, r)
      ensures var bound := if retries <= 0 then 1 else retries;
              var a := Attempts(old(server.sys), old(credential), req, hops, 0, bound);
              && server.sys == a.sys && credential == a.credential && r == a.outcome
              && server.trace == old(server.trace) + a.steps
              && (r.TransportFailure? <==> AllFail(old(server.sys), old(credential), req, hops, 0, bound))
      ensures forall i, j | 0 <= i < |server.trace| && 0 <= j < |server.trace|
                && StoresUnder(server.trace, i, req.user, req.key.value)
                && StoresUnder(server.trace, j, req.user, req.key.value) :: i == j
    {
      var bound := if retries <= 0 then 1 else retries;
      FailsOnlyWhenAllDo(server.sys, credential, req, hops, 0, bound);
      r := Retry(server, req, bound, hops);
      StoresAgree(server.trace, req.user, req.key.value);
    }
  }

  /** `whole` is what `rest` comes to once the steps already done are put before its own. */
  predicate Remains(whole: Attempted, done: seq<Step>, rest: Attempted) {
    whole.sys == rest.sys && whole.credential == rest.credential && whole.outcome == rest.outcome
    && whole.steps == done + rest.steps
  }

  lemma OneMoreAttempt(whole: Attempted, done: seq<Step>, s: Sys, credential: nat, req: SendRequest, hops: seq<Hop>,
                       k: nat, bound: nat)
    requires k <= bound < |hops| && Remains(whole, done, Attempts(s, credential, req, hops, k, bound))
    ensures var a := Attempt(s, credential, req, hops[k]);
            if !a.outcome.TransportFailure? || k == bound then Remains(whole, done, a)
            else Remains(whole, done + a.steps, Attempts(a.sys, a.credential, req, hops, k + 1, bound))
  {
    var a := Attempt(s, credential, req, hops[k]);
    if a.outcome.TransportFailure? && k < bound {
      Appended(done, a.steps, Attempts(a.sys, a.credential, req, hops, k + 1, bound).steps);
    }
  }

  lemma Appended(a: seq<Step>, b: seq<Step>, c: seq<Step>)
    ensures a + b + c == a + (b + c)
  {
  }

  lemma StoresAgree(trace: seq<Step>, user: UserId, key: Key)
    ensures forall i, j | 0 <= i < |trace| && 0 <= j < |trace|
              && StoresUnder(trace, i, user, key) && StoresUnder(trace, j, user, key) :: i == j
  {
    forall i, j | 0 <= i < |trace| && 0 <= j < |trace|
                && StoresUnder(trace, i, user, key) && StoresUnder(trace, j, user, key)
      ensures i == j
    {
      AtMostOneStore(trace, i, j, user, key);
    }
  }
}
