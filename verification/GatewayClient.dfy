/**
 The SDK's gateway client: connect, authenticate, receive; back off after a
 failure, renew the credential after a rejection, and drop repeated events.
 Runs cover one Connect session at a time, any number of them in sequence.
 */
module GatewayClient {
  import opened Common

  type EventId = nat
  type Credential = nat

  /** The empty credential, and the empty `refreshedFor`. */
  const NONE: Credential := 0

  const INITIAL_DELAY: nat := 500
  const MAX_DELAY: nat := 10_000
  const MAX_SEEN: nat := 10_000

  /** A parsed frame; `event` is present when it carries both an event name and an event id. */
  datatype Frame = Garbage | Parsed(code: int, hasCode: bool, hasEvent: bool, event: EventId)

  datatype Phase = Stopped | Looping | Open | Refreshing(captured: Credential)

  datatype Renewal = ProviderFailed | Renewed(value: Credential)

  /** The client's fields, plus what a run has done so far: `failures` since the last authentication, the waits
      taken, and the provider calls and rejections since the credential last changed value. */
  datatype Socket = Socket(
    phase: Phase, online: bool, rejected: bool, seen: set<EventId>, delay: nat,
    credential: Credential, refreshedFor: Credential, hasProvider: bool,
    emitted: seq<EventId>, failures: nat, waits: seq<(nat, nat)>, calls: nat, rejections: nat)

  function Fresh(credential: Credential, hasProvider: bool): Socket {
    Socket(Stopped, false, false, {}, INITIAL_DELAY, credential, NONE, hasProvider, [], 0, [], 0, 0)
  }

  datatype Step =
    | Connect
    | Dial
    | Receive(frame: Frame)
    | Hangup
    | Renew(answer: Renewal)
    | SetCredential(value: Credential)
    | Disconnect

  // ---- Pieces of the loop ----

  /** `markSeen`: the set is emptied when it is full, just before the new id goes in. */
  function Remember(seen: set<EventId>, id: EventId): set<EventId> {
    if id in seen then seen else if |seen| >= MAX_SEEN then {id} else seen + {id}
  }

  function OnEvent(s: Socket, id: EventId): Socket {
    s.(seen := Remember(s.seen, id), emitted := if id in s.seen then s.emitted else s.emitted + [id])
  }

  /** One frame of the receive loop. Before authentication anything but code 0 is a rejection. */
  function OnFrame(s: Socket, f: Frame): Socket {
    if f.Garbage? then s
    else if !s.online then
      if f.hasCode && f.code == 0 then s.(online := true, delay := INITIAL_DELAY, failures := 0)
      else s.(rejected := true)
    else if !f.hasEvent then s
    else OnEvent(s, f.event)
  }

  /** A connection ended without a rejection: wait the current delay and double it, up to the cap. */
  function OnFailure(s: Socket): Socket {
    s.(phase := Looping, online := false, waits := s.waits + [(s.failures, s.delay)],
       delay := Min(2 * s.delay, MAX_DELAY), failures := s.failures + 1)
  }

  /** A rejection: stop when there is no provider or it was already asked for this credential. */
  function OnRejection(s: Socket): Socket {
    var t := s.(online := false, rejected := false, rejections := s.rejections + 1);
    if !s.hasProvider || s.refreshedFor == s.credential then t.(phase := Stopped)
    else t.(phase := Refreshing(s.credential), refreshedFor := s.credential, calls := s.calls + 1)
  }

  /** Counters restart when the credential takes a different value. */
  function WithCredential(s: Socket, value: Credential): Socket {
    if value == s.credential then s else s.(credential := value, calls := 0, rejections := 0)
  }

  function OnRenewal(s: Socket, captured: Credential, answer: Renewal): Socket {
    var t := s.(phase := Looping);
    if answer.ProviderFailed? || answer.value == NONE || answer.value == captured then t
    else WithCredential(t, answer.value).(refreshedFor := NONE)
  }

  function Apply(s: Socket, step: Step): Socket {
    match step
    case Connect =>
      if s.phase.Stopped? then s.(phase := Looping, refreshedFor := NONE, calls := 0, rejections := 0) else s
    case Dial => if s.phase.Looping? then s.(phase := Open, online := false, rejected := false) else s
    case Receive(f) => if s.phase.Open? && !s.rejected then OnFrame(s, f) else s
    case Hangup => if !s.phase.Open? then s else if s.rejected then OnRejection(s) else OnFailure(s)
    case Renew(answer) => if s.phase.Refreshing? then OnRenewal(s, s.phase.captured, answer) else s
    case SetCredential(value) => WithCredential(s, value)
    case Disconnect => s.(phase := Stopped, online := false, rejected := false)
  }

  function Run(s: Socket, steps: seq<Step>): Socket
    decreases |steps|
  {
    if steps == [] then s else Apply(Run(s, steps[..|steps| - 1]), steps[|steps| - 1])
  }

  // ---- Deduplication ----

  /** The window an emission belongs to. */
  function Window(i: nat): nat {
    i / MAX_SEEN
  }

  /** Where the window of the latest of n emissions begins: a multiple of 10000. */
  function WindowStart(n: nat): nat {
    if n == 0 then 0 else Window(n - 1) * MAX_SEEN
  }

  function Ids(xs: seq<EventId>): set<EventId> {
    set x | x in xs
  }

  /** The remembered ids are exactly the emissions of the current window. */
  ghost predicate WindowInv(seen: set<EventId>, emitted: seq<EventId>) {
    var start := WindowStart(|emitted|);
    start <= |emitted| && seen == Ids(emitted[start..]) && |seen| == |emitted| - start
  }

  /** Equal emissions lie in different windows. */
  ghost predicate WindowsUnique(emitted: seq<EventId>) {
    forall i, j | 0 <= i < j < |emitted| && emitted[i] == emitted[j] :: Window(i) < Window(j)
  }

  lemma WindowMoves(n: nat)
    ensures WindowStart(n) <= n <= WindowStart(n) + MAX_SEEN
    ensures WindowStart(n + 1) == if n == WindowStart(n) + MAX_SEEN then n else WindowStart(n)
  {
  }

  lemma EarlierWindow(i: nat, n: nat)
    requires i < WindowStart(n)
    ensures Window(i) < Window(n)
  {
  }

  lemma IdsFrom(emitted: seq<EventId>, id: EventId, start: nat)
    requires start <= |emitted|
    ensures Ids((emitted + [id])[start..]) == Ids(emitted[start..]) + {id}
    ensures Ids((emitted + [id])[|emitted|..]) == {id}
  {
    assert (emitted + [id])[start..] == emitted[start..] + [id];
    assert (emitted + [id])[|emitted|..] == [id];
  }

  lemma EmitKeepsWindow(seen: set<EventId>, emitted: seq<EventId>, id: EventId)
    requires WindowInv(seen, emitted) && id !in seen
    ensures WindowInv(Remember(seen, id), emitted + [id])
  {
    WindowMoves(|emitted|);
    IdsFrom(emitted, id, WindowStart(|emitted|));
  }

  lemma EmitKeepsUnique(seen: set<EventId>, emitted: seq<EventId>, id: EventId)
    requires WindowInv(seen, emitted) && WindowsUnique(emitted) && id !in seen
    ensures WindowsUnique(emitted + [id])
  {
    var n := |emitted|;
    forall i | WindowStart(n) <= i < n ensures emitted[i] != id {
      assert emitted[i] in Ids(emitted[WindowStart(n)..]);
    }
    forall i | 0 <= i < n && emitted[i] == id ensures Window(i) < Window(n) {
      EarlierWindow(i, n);
    }
  }

  lemma DedupeStep(s: Socket, step: Step)
    requires WindowInv(s.seen, s.emitted) && WindowsUnique(s.emitted)
    ensures WindowInv(Apply(s, step).seen, Apply(s, step).emitted) && WindowsUnique(Apply(s, step).emitted)
  {
    if step.Receive? && s.phase.Open? && !s.rejected && step.frame.Parsed? && s.online && step.frame.hasEvent
       && step.frame.event !in s.seen {
      EmitKeepsWindow(s.seen, s.emitted, step.frame.event);
      EmitKeepsUnique(s.seen, s.emitted, step.frame.event);
    } else {
      assert Apply(s, step).seen == s.seen && Apply(s, step).emitted == s.emitted;
    }
  }

  lemma {:induction false} DedupeRun(credential: Credential, hasProvider: bool, steps: seq<Step>)
    ensures var t := Run(Fresh(credential, hasProvider), steps);
            WindowInv(t.seen, t.emitted) && WindowsUnique(t.emitted)
    decreases |steps|
  {
    if steps == [] {
    } else {
      DedupeRun(credential, hasProvider, steps[..|steps| - 1]);
      DedupeStep(Run(Fresh(credential, hasProvider), steps[..|steps| - 1]), steps[|steps| - 1]);
    }
  }

  /** Across reconnects and sessions, an event id is emitted again only after a full window of 10000 others. */
  lemma RepeatsAreFarApart(credential: Credential, hasProvider: bool, steps: seq<Step>, i: nat, j: nat)
    requires var e := Run(Fresh(credential, hasProvider), steps).emitted; i < j < |e| && e[i] == e[j]
    ensures i / 10_000 < j / 10_000
  {
    DedupeRun(credential, hasProvider, steps);
    FarApart(Run(Fresh(credential, hasProvider), steps).emitted, i, j);
  }

  lemma FarApart(emitted: seq<EventId>, i: nat, j: nat)
    requires WindowsUnique(emitted) && i < j < |emitted| && emitted[i] == emitted[j]
    ensures i / MAX_SEEN < j / MAX_SEEN
  {
    assert Window(i) < Window(j);
  }

  /** An event frame on an authenticated connection is dropped only if that event was emitted before. */
  lemma NothingDropped(credential: Credential, hasProvider: bool, steps: seq<Step>, f: Frame)
    requires f.Parsed? && f.hasEvent
    requires var s := Run(Fresh(credential, hasProvider), steps); s.phase.Open? && s.online && !s.rejected
    ensures var s := Run(Fresh(credential, hasProvider), steps);
            f.event in Apply(s, Receive(f)).emitted && s.emitted <= Apply(s, Receive(f)).emitted
  {
    DedupeRun(credential, hasProvider, steps);
    var s := Run(Fresh(credential, hasProvider), steps);
    if f.event in s.seen {
      assert f.event in Ids(s.emitted[WindowStart(|s.emitted|)..]);
    }
  }

  // ---- Backoff ----

  function Pow2(k: nat): nat {
    if k == 0 then 1 else 2 * Pow2(k - 1)
  }

  function Backoff(k: nat): nat {
    Min(INITIAL_DELAY * Pow2(k), MAX_DELAY)
  }

  ghost predicate DelayInv(s: Socket) {
    && s.delay == Backoff(s.failures)
    && forall i | 0 <= i < |s.waits| :: s.waits[i].1 == Backoff(s.waits[i].0)
  }

  lemma DelayStep(s: Socket, step: Step)
    requires DelayInv(s)
    ensures DelayInv(Apply(s, step))
  {
    assert Pow2(s.failures + 1) == 2 * Pow2(s.failures);
    assert Pow2(0) == 1;
  }

  /** The wait after k failures since the last authentication is min(500 * 2^k, 10000) ms, in every run. */
  lemma {:induction false} WaitsFollowBackoff(credential: Credential, hasProvider: bool, steps: seq<Step>)
    ensures var s := Run(Fresh(credential, hasProvider), steps);
            && DelayInv(s) && s.delay == Min(500 * Pow2(s.failures), 10_000)
            && forall i | 0 <= i < |s.waits| :: s.waits[i].1 == Min(500 * Pow2(s.waits[i].0), 10_000)
    decreases |steps|
  {
    if steps == [] {
      assert Pow2(0) == 1;
    } else {
      WaitsFollowBackoff(credential, hasProvider, steps[..|steps| - 1]);
      DelayStep(Run(Fresh(credential, hasProvider), steps[..|steps| - 1]), steps[|steps| - 1]);
    }
  }

  // ---- Credential renewal ----

  /** Once the provider has been asked about the present credential, it is not asked again: either the call is
      still out, or its answer left the credential marked. A second rejection then stops the loop. */
  ghost predicate RenewalInv(s: Socket) {
    && s.calls <= 1 && s.rejections <= 2
    && (s.rejections == 2 ==> s.phase.Stopped?)
    && (s.calls == 1 && !s.phase.Stopped? ==> s.refreshedFor == s.credential)
    && (s.calls == 1 && s.phase.Refreshing? ==> s.phase.captured == s.credential)
    && (s.rejections >= 1 && !s.phase.Stopped? ==> s.calls == 1)
    && (s.phase.Refreshing? ==> s.refreshedFor == s.phase.captured)
  }

  lemma RenewalStep(s: Socket, step: Step)
    requires RenewalInv(s)
    ensures RenewalInv(Apply(s, step))
  {
  }

  /** Within a session, between two changes of the credential the provider is called at most once, and at most
      two rejections happen before the loop stops. */
  lemma {:induction false} RenewsOncePerCredential(credential: Credential, hasProvider: bool, steps: seq<Step>)
    ensures var s := Run(Fresh(credential, hasProvider), steps);
            RenewalInv(s) && s.calls <= 1 && s.rejections <= 2 && (s.rejections == 2 ==> s.phase.Stopped?)
    decreases |steps|
  {
    if steps == [] {
    } else {
      RenewsOncePerCredential(credential, hasProvider, steps[..|steps| - 1]);
      RenewalStep(Run(Fresh(credential, hasProvider), steps[..|steps| - 1]), steps[|steps| - 1]);
    }
  }

  /** What a renewal does, from any state that waits for one: the loop goes on; a value that is neither empty nor the
      rejected one is adopted and the mark cleared; anything else leaves credential and mark alone. */
  lemma RenewalAdopts(s: Socket, answer: Renewal)
    requires s.phase.Refreshing?
    ensures var t := Apply(s, Renew(answer));
            && t.phase.Looping? && t.emitted == s.emitted && t.seen == s.seen && t.delay == s.delay
            && (if answer.Renewed? && answer.value != 0 && answer.value != s.phase.captured
                then t.credential == answer.value && t.refreshedFor == 0
                else t.credential == s.credential && t.refreshedFor == s.refreshedFor)
  {
  }

  /** The step ends a connection with a rejection that makes the client ask its provider. */
  predicate Asks(s: Socket, step: Step) {
    step.Hangup? && Apply(s, step).phase.Refreshing? && !s.phase.Refreshing?
  }

  /** The step brings a new credential from the provider. */
  predicate Adopts(s: Socket, step: Step) {
    step.Renew? && s.phase.Refreshing? && step.answer.Renewed? && step.answer.value != 0
    && step.answer.value != s.phase.captured
  }

  /** The counters count: provider calls and rejections since the credential last changed value or the session began,
      failures since the last authentication. */
  lemma CountersCount(s: Socket, step: Step)
    ensures var t := Apply(s, step); var anew := t.credential != s.credential || (step.Connect? && s.phase.Stopped?);
            var rejected := step.Hangup? && s.phase.Open? && s.rejected;
            && t.calls == (if anew then 0 else if Asks(s, step) then s.calls + 1 else s.calls)
            && t.rejections == (if anew then 0 else if rejected then s.rejections + 1 else s.rejections)
            && (rejected ==> t.phase.Stopped? || t.phase.Refreshing?)
            && t.failures == (if t.online && !s.online then 0
                              else if step.Hangup? && s.phase.Open? && !s.rejected then s.failures + 1 else s.failures)
  {
  }

  /** The credential the provider was last asked about in this session, unless it has given a new one since. */
  ghost function AskedFor(s: Socket, steps: seq<Step>): Option<Credential>
    decreases |steps|
  {
    if steps == [] then None
    else
      var n := |steps| - 1;
      var t := Run(s, steps[..n]);
      if steps[n].Connect? && t.phase.Stopped? then None
      else if Asks(t, steps[n]) then Some(t.credential)
      else if Adopts(t, steps[n]) then None
      else AskedFor(s, steps[..n])
  }

  lemma {:induction false} MarkIsAsked(credential: Credential, hasProvider: bool, steps: seq<Step>)
    ensures var s := Fresh(credential, hasProvider);
            Run(s, steps).refreshedFor == (match AskedFor(s, steps) case Some(c) => c case None => 0)
            && Run(s, steps).hasProvider == hasProvider
    decreases |steps|
  {
    if steps == [] {
    } else {
      MarkIsAsked(credential, hasProvider, steps[..|steps| - 1]);
    }
  }

  /** A rejection stops the loop if and only if there is no provider, or the provider was already asked about the
      present credential and gave none since, or there was no credential to begin with; otherwise the provider is asked
      about the present one. */
  lemma RejectionStopsIff(credential: Credential, hasProvider: bool, steps: seq<Step>)
    requires var t := Run(Fresh(credential, hasProvider), steps); t.phase.Open? && t.rejected
    ensures var s := Fresh(credential, hasProvider); var t := Run(s, steps); var u := Apply(t, Hangup);
            if !hasProvider || AskedFor(s, steps) == Some(t.credential)
               || (AskedFor(s, steps).None? && t.credential == 0)
            then u.phase.Stopped? else u.phase == Refreshing(t.credential)
  {
    MarkIsAsked(credential, hasProvider, steps);
  }

  /** So a rejection right after a successful renewal asks again, about the new credential. */
  lemma AsksAgain(s: Socket, value: Credential, f: Frame)
    requires s.phase.Refreshing? && s.hasProvider && value != 0 && value != s.phase.captured
    requires f.Parsed? && !(f.hasCode && f.code == 0)
    ensures var dialled := Apply(Apply(s, Renew(Renewed(value))), Dial);
            Apply(Apply(dialled, Receive(f)), Hangup).phase == Refreshing(value)
  {
  }

  /** The host's controls: Connect starts a stopped loop with no mark, Disconnect stops it, SetCredential replaces the
      credential; none of them touches what has been emitted or remembered, or the backoff. */
  lemma HostControls(s: Socket, value: Credential)
    ensures var t := Apply(s, Connect);
            t == if s.phase.Stopped? then s.(phase := Looping, refreshedFor := 0, calls := 0, rejections := 0) else s
    ensures Apply(s, Disconnect) == s.(phase := Stopped, online := false, rejected := false)
    ensures var t := Apply(s, SetCredential(value));
            t.credential == value && t == s.(credential := value, calls := t.calls, rejections := t.rejections)
  {
  }

  /** A connection that ends without a rejection costs one wait: the present delay, recorded with the failures so far,
      after which the loop tries again. */
  lemma FailureWaits(s: Socket)
    requires s.phase.Open? && !s.rejected
    ensures var t := Apply(s, Hangup);
            && t.phase.Looping? && !t.online && t.waits == s.waits + [(s.failures, s.delay)]
            && t.failures == s.failures + 1 && t.credential == s.credential && t.emitted == s.emitted
  {
  }

  /** Before it is online the client takes code 0 for acceptance, which resets the backoff, anything else for a
      rejection, and ignores what it cannot parse; from then on it only emits events. */
  lemma AuthenticationDecides(s: Socket, f: Frame)
    requires s.phase.Open? && !s.rejected
    ensures var t := Apply(s, Receive(f));
            && (t.rejected <==> f.Parsed? && !s.online && !(f.hasCode && f.code == 0))
            && (t.online <==> s.online || (f.Parsed? && f.hasCode && f.code == 0))
            && (t.online && !s.online ==> t.delay == 500 && t.failures == 0)
            && (t.emitted != s.emitted ==> s.online && f.Parsed? && f.hasEvent)
            && t.credential == s.credential && t.phase.Open?
  {
  }

  // ---- The client, imperatively ----

  /** What happens while a connection is up: a frame arrives, the host sets a credential, or it disconnects. */
  datatype Incident = Heard(frame: Frame) | Set(value: Credential) | Bye

  function StepOf(x: Incident): Step {
    match x
    case Heard(f) => Receive(f)
    case Set(value) => SetCredential(value)
    case Bye => Disconnect
  }

  /** One turn of the run loop: what its connection brings (nothing when the dial fails), the credentials set while it
      waits or asks the provider, and what the provider would answer. */
  datatype Visit = Visit(during: seq<Incident>, meanwhile: seq<Credential>, answer: Renewal)

  /** The receive loop attends to incidents until it is rejected or disconnected. */
  function Attend(s: Socket, xs: seq<Incident>): Socket
    decreases |xs|
  {
    if xs == [] || s.rejected || s.phase.Stopped? then s else Attend(Apply(s, StepOf(xs[0])), xs[1..])
  }

  function SetAll(s: Socket, values: seq<Credential>): Socket
    decreases |values|
  {
    if values == [] then s else SetAll(WithCredential(s, values[0]), values[1..])
  }

  /** After the connection: hang up; unless that ended the loop, time passes and a due renewal is answered. */
  function Wound(s: Socket, v: Visit): Socket {
    var hung := Apply(s, Hangup);
    if hung.phase.Stopped? then hung else Apply(SetAll(hung, v.meanwhile), Renew(v.answer))
  }

  function Turned(s: Socket, v: Visit): Socket {
    var heard := Attend(Apply(s, Dial), v.during);
    if heard.phase.Stopped? then heard else Wound(heard, v)
  }

  function Looped(s: Socket, visits: seq<Visit>): Socket
    decreases |visits|
  {
    if visits == [] || s.phase.Stopped? then s else Looped(Turned(s, visits[0]), visits[1..])
  }

  class GatewaySocket {
    var phase: Phase
    var online: bool
    var rejected: bool
    var seen: set<EventId>
    var delay: nat
    var credential: Credential
    var refreshedFor: Credential
    var hasProvider: bool
    var emitted: seq<EventId>
    ghost var failures: nat
    ghost var waits: seq<(nat, nat)>
    ghost var calls: nat
    ghost var rejections: nat

    ghost function Value(): Socket
      reads this
    {
      Socket(phase, online, rejected, seen, delay, credential, refreshedFor, hasProvider,
             emitted, failures, waits, calls, rejections)
    }

    constructor (initial: Credential, provider: bool)
      ensures Value() == Fresh(initial, provider)
    {
      phase, online, rejected, seen, delay := Stopped, false, false, {}, INITIAL_DELAY;
      credential, refreshedFor, hasProvider, emitted := initial, NONE, provider, [];
      failures, waits, calls, rejections := 0, [], 0, 0;
    }

    method MarkSeen(id: EventId) returns (already: bool)
      modifies this`seen
      ensures already <==> id in old(seen)
      ensures seen == Remember(old(seen), id)
    {
      if id in seen {
        return true;
      }
      if |seen| >= MAX_SEEN {
        seen := {};
      }
      seen := seen + {id};
      return false;
    }

    method SetTo(value: Credential)
      modifies this`credential, this`calls, this`rejections
      ensures Value() == WithCredential(old(Value()), value)
    {
      if value != credential {
        calls, rejections := 0, 0;
      }
      credential := value;
    }

    /** One frame of the receive loop. */
    method OnText(f: Frame)
      requires phase.Open? && !rejected
      modifies this
      ensures Value() == Apply(old(Value()), Receive(f)) && phase.Open?
    {
      if f.Garbage? {
      } else if !online {
        if f.hasCode && f.code == 0 {
          online, delay, failures := true, INITIAL_DELAY, 0;
        } else {
          rejected := true;
        }
      } else if f.hasEvent {
        var already := MarkSeen(f.event);
        if !already {
          emitted := emitted + [f.event];
        }
      }
    }

    /** `openOnce` after the dial: authenticate, then emit new events until the connection ends, the credential is
        rejected or the host disconnects; the host may set credentials all the while. */
    method ReceiveAll(xs: seq<Incident>)
      requires phase.Open? && !rejected
      modifies this
      ensures Value() == Attend(old(Value()), xs) && (phase.Open? || phase.Stopped?)
    {
      for n := 0 to |xs|
        invariant phase.Open? && !rejected && Attend(old(Value()), xs) == Attend(Value(), xs[n..])
      {
        assert xs[n..][1..] == xs[n + 1..];
        match xs[n] {
          case Heard(f) => OnText(f);
          case Set(value) => SetTo(value);
          case Bye => phase, online := Stopped, false;
        }
        if rejected || phase.Stopped? {
          return;
        }
      }
    }

    /** The delay before the next attempt, doubled for the one after. */
    method TakeDelay() returns (wait: nat)
      modifies this`phase, this`online, this`delay, this`waits, this`failures
      ensures wait == old(delay)
      ensures Value() == OnFailure(old(Value()))
    {
      wait := delay;
      phase, online := Looping, false;
      waits := waits + [(failures, delay)];
      delay := if delay * 2 < MAX_DELAY then delay * 2 else MAX_DELAY;
      failures := failures + 1;
    }

    /** `refresh` up to the provider call; `false` ends the loop. */
    method BeginRefresh() returns (ask: bool)
      modifies this`phase, this`online, this`rejected, this`refreshedFor, this`calls, this`rejections
      ensures Value() == OnRejection(old(Value()))
      ensures ask <==> phase.Refreshing?
    {
      online, rejected, rejections := false, false, rejections + 1;
      if !hasProvider || refreshedFor == credential {
        phase := Stopped;
        return false;
      }
      refreshedFor, calls := credential, calls + 1;
      phase := Refreshing(credential);
      return true;
    }

    /** `refresh` after the provider answered: adopt a new credential, keep the mark otherwise. */
    method EndRefresh(answer: Renewal)
      requires phase.Refreshing?
      modifies this`phase, this`credential, this`refreshedFor, this`calls, this`rejections
      ensures Value() == OnRenewal(old(Value()), old(phase.captured), answer)
    {
      var captured := phase.captured;
      phase := Looping;
      if answer.Renewed? && answer.value != NONE && answer.value != captured {
        if answer.value != credential {
          credential, calls, rejections := answer.value, 0, 0;
        }
        refreshedFor := NONE;
      }
    }

    /** One turn of `runLoop`: connect, receive, then renew after a rejection or back off after anything else. */
    method OneTurn(v: Visit)
      requires phase.Looping?
      modifies this
      ensures Value() == Turned(old(Value()), v) && (phase.Looping? || phase.Stopped?)
    {
      phase, online, rejected := Open, false, false;
      assert Value() == Apply(old(Value()), Dial);
      ReceiveAll(v.during);
      if phase.Open? {
        EndTurn(v);
      }
    }

    /** The connection is gone: renew after a rejection, back off after anything else. */
    method EndTurn(v: Visit)
      requires phase.Open?
      modifies this
      ensures Value() == Wound(old(Value()), v) && (phase.Looping? || phase.Stopped?)
    {
      if !rejected {
        var _ := TakeDelay();
        SetEach(v.meanwhile);
        return;
      }
      var ask := BeginRefresh();
      if ask {
        SetEach(v.meanwhile);
        EndRefresh(v.answer);
      }
    }

    /** The host may set credentials while the loop waits. */
    method SetEach(values: seq<Credential>)
      modifies this`credential, this`calls, this`rejections
      ensures Value() == SetAll(old(Value()), values)
    {
      for n := 0 to |values|
        invariant SetAll(old(Value()), values) == SetAll(Value(), values[n..]) && phase == old(phase)
      {
        assert values[n..][1..] == values[n + 1..];
        SetTo(values[n]);
      }
    }

    /** `runLoop`: it returns when a rejection cannot be renewed or the host disconnects. */
    method RunLoop(visits: seq<Visit>) returns (stopped: bool)
      requires phase.Looping?
      modifies this
      ensures Value() == Looped(old(Value()), visits)
      ensures stopped <==> phase.Stopped?
    {
      for n := 0 to |visits|
        invariant phase.Looping? && Looped(old(Value()), visits) == Looped(Value(), visits[n..])
      {
        assert visits[n..][1..] == visits[n + 1..];
        OneTurn(visits[n]);
        if phase.Stopped? {
          return true;
        }
      }
      return false;
    }
  }

  // ---- The loop is a run of the step machine ----

  lemma {:induction false} RunSplit(s: Socket, a: seq<Step>, b: seq<Step>)
    ensures Run(s, a + b) == Run(Run(s, a), b)
    decreases |b|
  {
    if b == [] {
      assert a + b == a;
    } else {
      assert (a + b)[..|a + b| - 1] == a + b[..|b| - 1];
      RunSplit(s, a, b[..|b| - 1]);
    }
  }

  lemma RunOne(s: Socket, step: Step)
    ensures Run(s, [step]) == Apply(s, step)
  {
    assert [step][..0] == [];
  }

  lemma StepThen(s: Socket, step: Step, more: seq<Step>)
    ensures Run(s, [step] + more) == Run(Apply(s, step), more)
  {
    RunSplit(s, [step], more);
    RunOne(s, step);
  }

  lemma {:induction false} AttendIsARun(s: Socket, xs: seq<Incident>) returns (steps: seq<Step>)
    ensures Run(s, steps) == Attend(s, xs) && Connect !in steps
    decreases |xs|
  {
    if xs == [] || s.rejected || s.phase.Stopped? {
      steps := [];
    } else {
      var more := AttendIsARun(Apply(s, StepOf(xs[0])), xs[1..]);
      steps := [StepOf(xs[0])] + more;
      StepThen(s, StepOf(xs[0]), more);
    }
  }

  lemma {:induction false} SetsAreARun(s: Socket, values: seq<Credential>) returns (steps: seq<Step>)
    ensures Run(s, steps) == SetAll(s, values) && Connect !in steps
    decreases |values|
  {
    if values == [] {
      steps := [];
    } else {
      var more := SetsAreARun(WithCredential(s, values[0]), values[1..]);
      steps := [SetCredential(values[0])] + more;
      StepThen(s, SetCredential(values[0]), more);
    }
  }

  lemma WoundIsARun(s: Socket, v: Visit) returns (steps: seq<Step>)
    ensures Run(s, steps) == Wound(s, v) && Connect !in steps
  {
    var hung := Apply(s, Hangup);
    var more: seq<Step> := [];
    if !hung.phase.Stopped? {
      var sets := SetsAreARun(hung, v.meanwhile);
      more := sets + [Renew(v.answer)];
      RunSplit(hung, sets, [Renew(v.answer)]);
      RunOne(SetAll(hung, v.meanwhile), Renew(v.answer));
    }
    steps := [Hangup] + more;
    StepThen(s, Hangup, more);
  }

  lemma TurnIsARun(s: Socket, v: Visit) returns (steps: seq<Step>)
    ensures Run(s, steps) == Turned(s, v) && Connect !in steps
  {
    var heard := AttendIsARun(Apply(s, Dial), v.during);
    var t := Attend(Apply(s, Dial), v.during);
    var more: seq<Step> := [];
    if !t.phase.Stopped? {
      more := WoundIsARun(t, v);
    }
    steps := [Dial] + (heard + more);
    StepThen(s, Dial, heard + more);
    RunSplit(Apply(s, Dial), heard, more);
  }

  /** Whatever the loop meets, it is a run of the step machine within one session, so every run theorem holds of it. */
  lemma {:induction false} LoopIsARun(s: Socket, visits: seq<Visit>) returns (steps: seq<Step>)
    ensures Run(s, steps) == Looped(s, visits) && Connect !in steps
    decreases |visits|
  {
    if visits == [] || s.phase.Stopped? {
      steps := [];
    } else {
      var turn := TurnIsARun(s, visits[0]);
      var more := LoopIsARun(Turned(s, visits[0]), visits[1..]);
      steps := turn + more;
      RunSplit(s, turn, more);
    }
  }

  // ---- The loop gets through ----

  lemma FailedTurn(s: Socket, v: Visit)
    requires s.phase.Looping? && v.during == []
    ensures var t := Turned(s, v);
            && t.phase.Looping? && t.emitted == s.emitted && t.seen == s.seen
            && t.waits == s.waits + [(s.failures, s.delay)]
  {
    SetsKeep(OnFailure(s.(phase := Open, online := false, rejected := false)), v.meanwhile);
  }

  lemma {:induction false} SetsKeep(s: Socket, values: seq<Credential>)
    ensures var t := SetAll(s, values);
            t == s.(credential := t.credential, calls := t.calls, rejections := t.rejections)
            && (values != [] ==> t.credential == values[|values| - 1])
    decreases |values|
  {
    if values == [] {
    } else {
      SetsKeep(WithCredential(s, values[0]), values[1..]);
    }
  }

  lemma SuccessfulTurn(s: Socket, v: Visit, accepted: Frame, news: Frame)
    requires s.phase.Looping? && v.during == [Heard(accepted), Heard(news)]
    requires accepted.Parsed? && accepted.hasCode && accepted.code == 0 && news.Parsed? && news.hasEvent
    ensures var t := Turned(s, v);
            && t.phase.Looping? && t.waits == s.waits + [(0, 500)]
            && (t.emitted == s.emitted + [news.event] || (news.event in s.seen && t.emitted == s.emitted))
  {
    var open := s.(phase := Open, online := false, rejected := false);
    var online := Apply(open, Receive(accepted));
    assert v.during[1..] == [Heard(news)] && v.during[1..][1..] == [];
    var heard := Apply(online, Receive(news));
    assert Attend(online, [Heard(news)]) == Attend(heard, []) == heard;
    assert Attend(open, v.during) == Attend(online, v.during[1..]);
    SetsKeep(OnFailure(heard), v.meanwhile);
  }

  /** A turn whose connection is rejected: with a provider not yet asked about this credential the loop goes on, under
      the new credential if the answer is one; otherwise it stops. */
  lemma RejectedTurn(s: Socket, v: Visit, f: Frame)
    requires s.phase.Looping? && v.during == [Heard(f)] && v.meanwhile == []
    requires f.Parsed? && !(f.hasCode && f.code == 0)
    ensures var t := Turned(s, v);
            if !s.hasProvider || s.refreshedFor == s.credential then t.phase.Stopped? && t.credential == s.credential
            else && t.phase.Looping? && t.waits == s.waits
                 && (if v.answer.Renewed? && v.answer.value != 0 && v.answer.value != s.credential
                     then t.credential == v.answer.value && t.refreshedFor == 0
                     else t.credential == s.credential && t.refreshedFor == s.credential)
  {
    var open := s.(phase := Open, online := false, rejected := false);
    var heard := Apply(open, Receive(f));
    assert heard == open.(rejected := true);
    assert v.during[1..] == [];
    assert Attend(open, v.during) == heard;
  }

  /** The loop reconnects until it gets through: after any number of connections that fail, each of which costs one
      wait, one that is accepted and brings an event gets that event to the application, unless it was there before. */
  lemma {:induction false} ReconnectsUntilThrough(s: Socket, visits: seq<Visit>, k: nat, accepted: Frame, news: Frame)
    requires s.phase.Looping? && k < |visits| && (forall i | 0 <= i < k :: visits[i].during == [])
    requires visits[k].during == [Heard(accepted), Heard(news)] && |visits| == k + 1
    requires accepted.Parsed? && accepted.hasCode && accepted.code == 0 && news.Parsed? && news.hasEvent
    ensures var t := Looped(s, visits);
            && t.phase.Looping? && |t.waits| == |s.waits| + k + 1
            && (t.emitted == s.emitted + [news.event] || (news.event in s.seen && t.emitted == s.emitted))
    decreases k
  {
    if k == 0 {
      SuccessfulTurn(s, visits[0], accepted, news);
      assert visits[1..] == [];
    } else {
      FailedTurn(s, visits[0]);
      ReconnectsUntilThrough(Turned(s, visits[0]), visits[1..], k - 1, accepted, news);
    }
  }
}
