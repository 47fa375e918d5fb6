/**
 Whole runs of the sync engine on one conversation: the log grows, fetches run
 page by page, any page may fail, sends track their own sequence, and events
 arrive in any number and order. A call first takes the conversation's mutex out
 of the table and only then locks it; Forget drops the mutex from the table, so
 a later call is handed a new one.
 */
module SyncRuns {
  import opened Common
  import opened Sync

  /** A call that has been handed a mutex and has not locked it yet. */
  datatype Waiter = Waiter(mutex: nat, size: nat)

  /** `lock` is the mutex in the table now, `waiting` the calls with a mutex in hand, and `fetches` maps a locked mutex
      to the fetch that holds it. */
  datatype Conv = Conv(
    log: nat, cursor: Option<nat>, lock: nat, waiting: map<nat, Waiter>, fetches: map<nat, Fetch>,
    emitted: seq<nat>, sent: set<nat>)

  datatype Step =
    | Grow
    | Ask(call: nat, limit: int)
    | Event(call: nat, sequence: nat)
    | Acquire(call: nat)
    | PageOk(mutex: nat)
    | PageFails(mutex: nat)
    | Finish(mutex: nat)
    | TrackSent(sequence: nat)
    | Forget

  /** `FetchFrom` up to the mutex lookup. */
  function AskFor(s: Conv, call: nat, size: nat): Conv {
    if call in s.waiting then s else s.(waiting := s.waiting[call := Waiter(s.lock, size)])
  }

  /** The lock is granted when the mutex is free; the fetch starts at the cursor it finds then. */
  function Lock(s: Conv, call: nat): Conv {
    if call !in s.waiting || s.waiting[call].mutex in s.fetches then s
    else
      var c := LastSequence(s.cursor);
      s.(waiting := s.waiting - {call},
         fetches := s.fetches[s.waiting[call].mutex := Fetch(c, c, s.waiting[call].size, 0, false)])
  }

  function Apply(s: Conv, step: Step): Conv {
    match step
    case Grow => s.(log := s.log + 1)
    case Ask(call, limit) => AskFor(s, call, PageSize(limit))
    case Event(call, sequence) =>
      if s.cursor.None? || (sequence > 0 && sequence <= LastSequence(s.cursor)) then s else AskFor(s, call, PAGE_LIMIT)
    case Acquire(call) => Lock(s, call)
    case PageOk(m) =>
      if m !in s.fetches || s.fetches[m].done then s
      else s.(fetches := s.fetches[m := Turn(s.fetches[m], s.log)],
              emitted := s.emitted + Page(s.log, s.fetches[m].from, s.fetches[m].size))
    case PageFails(m) =>
      if m !in s.fetches || s.fetches[m].done then s else s.(fetches := s.fetches - {m})
    case Finish(m) =>
      if m !in s.fetches || !s.fetches[m].done then s
      else s.(fetches := s.fetches - {m}, cursor := Track(s.cursor, s.fetches[m].from))
    case TrackSent(q) =>
      if q < 1 || q > s.log then s else s.(cursor := Track(s.cursor, q), sent := s.sent + {q})
    case Forget => s.(cursor := None, lock := s.lock + 1)
  }

  function Run(s: Conv, steps: seq<Step>): Conv
    decreases |steps|
  {
    if steps == [] then s else Apply(Run(s, steps[..|steps| - 1]), steps[|steps| - 1])
  }

  lemma RunNext(s: Conv, steps: seq<Step>, i: nat)
    requires i < |steps|
    ensures Run(s, steps[..i + 1]) == Apply(Run(s, steps[..i]), steps[i])
  {
    assert steps[..i + 1][..i] == steps[..i];
  }

  lemma {:induction false} RunSplit(s: Conv, a: seq<Step>, b: seq<Step>)
    ensures Run(s, a + b) == Run(Run(s, a), b)
    decreases |b|
  {
    if b == [] {
      assert a + b == a;
    } else {
      assert (a + b)[..|a + b| - 1] == a + b[..|b| - 1];
      RunSplit(s, a, b[..|b| - 1]);
    }
  }

  // ---- A fetch of the engine is a run of these steps ----

  lemma {:induction false} GrowTo(s: Conv, n: nat) returns (steps: seq<Step>)
    requires s.log <= n
    ensures Run(s, steps) == s.(log := n) && NoForget(steps)
    decreases n - s.log
  {
    if s.log == n {
      steps := [];
    } else {
      var front := GrowTo(s, n - 1);
      steps := front + [Grow];
      assert steps[..|front|] == front;
    }
  }

  /** Replies a growing log can give, starting from n messages. */
  ghost predicate Growing(n: nat, replies: seq<Reply>)
    decreases |replies|
  {
    replies != [] ==>
      if replies[0].Failed? then true else replies[0].n >= n && Growing(replies[0].n, replies[1..])
  }

  /** The log grows to n and the fetch reads its next page. */
  lemma PageAt(s: Conv, m: nat, n: nat) returns (steps: seq<Step>)
    requires s.log <= n
    ensures Run(s, steps) == Apply(s.(log := n), PageOk(m)) && NoForget(steps)
  {
    var grow := GrowTo(s, n);
    RunOne(s.(log := n), PageOk(m));
    RunSplit(s, grow, [PageOk(m)]);
    steps := grow + [PageOk(m)];
  }

  /** t is where the page loop leaves s: the same sequences emitted, the cursor tracked when it ended well, and
      nothing tracked when it failed. */
  ghost predicate LoopOutcome(s: Conv, t: Conv, m: nat, r: FetchResult) {
    && t.emitted == s.emitted + r.emitted && t.fetches == s.fetches - {m}
    && t.cursor == (if r.ok then Track(s.cursor, r.from) else s.cursor)
  }

  /** Whatever the page loop does with its replies, some run of page steps over a growing log does the same. */
  lemma {:induction false} LoopIsARun(s: Conv, m: nat, replies: seq<Reply>) returns (steps: seq<Step>)
    requires m in s.fetches && !s.fetches[m].done && s.fetches[m].pages + |replies| == MAX_PAGES && replies != []
    requires Growing(s.log, replies)
    ensures NoForget(steps)
    ensures LoopOutcome(s, Run(s, steps), m, FetchLoop(s.fetches[m].from, s.fetches[m].size, replies))
    decreases |replies|
  {
    if replies[0].Failed? {
      steps := [PageFails(m)];
      RunOne(s, PageFails(m));
    } else {
      var first := PageAt(s, m, replies[0].n);
      var next := Apply(s.(log := replies[0].n), PageOk(m));
      var rest;
      if next.fetches[m].done {
        rest := [Finish(m)];
        RunOne(next, Finish(m));
        LastTurn(s, m, replies);
      } else {
        rest := LoopIsARun(next, m, replies[1..]);
        TurnTaken(s, m, replies[0].n);
        NextTurn(s, next, m, replies, Run(next, rest));
      }
      steps := first + rest;
      RunSplit(s, first, rest);
    }
  }

  lemma LastTurn(s: Conv, m: nat, replies: seq<Reply>)
    requires m in s.fetches && !s.fetches[m].done && s.fetches[m].pages + |replies| == MAX_PAGES
    requires replies != [] && replies[0].Listed? && Turn(s.fetches[m], replies[0].n).done
    ensures LoopOutcome(s, Apply(Apply(s.(log := replies[0].n), PageOk(m)), Finish(m)), m,
                        FetchLoop(s.fetches[m].from, s.fetches[m].size, replies))
  {
    LoopFirst(s.fetches[m].from, s.fetches[m].size, replies);
  }

  lemma OutcomeAfterPage(s: Conv, next: Conv, t: Conv, m: nat, page: seq<nat>, rest: FetchResult)
    requires LoopOutcome(next, t, m, rest) && next.emitted == s.emitted + page && next.cursor == s.cursor
    requires m in s.fetches && m in next.fetches && next.fetches == s.fetches[m := next.fetches[m]]
    ensures LoopOutcome(s, t, m, FetchResult(rest.from, page + rest.emitted, rest.ok))
  {
    assert (s.emitted + page) + rest.emitted == s.emitted + (page + rest.emitted);
    assert next.fetches - {m} == s.fetches - {m};
  }

  lemma NextTurn(s: Conv, next: Conv, m: nat, replies: seq<Reply>, t: Conv)
    requires m in s.fetches && replies != [] && replies[0].Listed?
    requires var f := s.fetches[m]; var page := Page(replies[0].n, f.from, f.size);
             && next.fetches == s.fetches[m := Turn(f, replies[0].n)] && next.cursor == s.cursor
             && next.emitted == s.emitted + page && |page| == f.size
    requires LoopOutcome(next, t, m, FetchLoop(next.fetches[m].from, next.fetches[m].size, replies[1..]))
    ensures LoopOutcome(s, t, m, FetchLoop(s.fetches[m].from, s.fetches[m].size, replies))
  {
    var f := s.fetches[m];
    var page := Page(replies[0].n, f.from, f.size);
    assert next.fetches[m].from == f.from + |page| && next.fetches[m].size == f.size;
    var rest := FetchLoop(f.from + |page|, f.size, replies[1..]);
    OutcomeAfterPage(s, next, t, m, page, rest);
    LoopFirst(f.from, f.size, replies);
  }

  lemma TurnTaken(s: Conv, m: nat, n: nat)
    requires m in s.fetches && !s.fetches[m].done
    ensures var next := Apply(s.(log := n), PageOk(m)); var f := s.fetches[m];
            && next.fetches == s.fetches[m := Turn(f, n)] && next.cursor == s.cursor
            && next.emitted == s.emitted + Page(n, f.from, f.size)
            && (!Turn(f, n).done ==> |Page(n, f.from, f.size)| == f.size)
  {
  }

  lemma LoopFirst(from: nat, size: nat, replies: seq<Reply>)
    requires replies != [] && replies[0].Listed?
    ensures var page := Page(replies[0].n, from, size); var r := FetchLoop(from, size, replies);
            && (|page| < size || |replies| == 1 ==> r == FetchResult(from + |page|, page, true))
            && (|page| == size ==> var rest := FetchLoop(from + |page|, size, replies[1..]);
                                   r == FetchResult(rest.from, page + rest.emitted, rest.ok))
  {
  }

  lemma RunOne(s: Conv, step: Step)
    ensures Run(s, [step]) == Apply(s, step)
  {
    assert [step][..0] == [];
  }

  /** Nobody is inside `FetchFrom`: no fetch is in flight, and no call has the mutex in hand. */
  predicate Idle(s: Conv) {
    s.fetches == map[] && s.waiting == map[]
  }

  /** A freshly opened engine, possibly with a restored cursor. */
  ghost predicate Fresh(s: Conv) {
    Idle(s) && s.emitted == [] && s.sent == {} && LastSequence(s.cursor) <= s.log
  }

  ghost predicate NoForget(steps: seq<Step>) {
    Forget !in steps
  }

  lemma NoForgetAt(steps: seq<Step>, i: nat)
    requires NoForget(steps) && i < |steps|
    ensures NoForget(steps[..i]) && !steps[i].Forget?
  {
  }

  // ---- Mutual exclusion and ranges ----

  ghost predicate FetchInv(s: Conv, f: Fetch) {
    && f.start <= LastSequence(s.cursor) && f.start <= f.from <= s.log && f.size >= 1
    && (forall k | f.start < k <= f.from :: k in s.emitted)
    && (f.pages == 0 ==> f.from == f.start && !f.done)
  }

  /** Every mutex held or in hand is the one in the table, so at most one fetch runs; nothing points past the log. */
  ghost predicate Basic(s: Conv) {
    && (forall m | m in s.fetches :: m == s.lock && FetchInv(s, s.fetches[m]))
    && (forall call | call in s.waiting :: s.waiting[call].mutex == s.lock && s.waiting[call].size >= 1)
    && LastSequence(s.cursor) <= s.log
    && (forall k | k in s.emitted :: 1 <= k <= s.log)
  }

  lemma BasicStep(s: Conv, step: Step)
    requires Basic(s) && !step.Forget?
    ensures Basic(Apply(s, step))
    ensures LastSequence(s.cursor) <= LastSequence(Apply(s, step).cursor)
    ensures s.emitted <= Apply(s, step).emitted && s.sent <= Apply(s, step).sent
  {
    var t := Apply(s, step);
    if step.PageOk? && step.mutex in s.fetches && !s.fetches[step.mutex].done {
      var f := s.fetches[step.mutex];
      var page := Page(s.log, f.from, f.size);
      assert FetchInv(s, f);
      forall k | f.start < k <= f.from + |page| ensures k in t.emitted {
        if k > f.from {
          assert page[k - f.from - 1] == k;
        }
      }
      forall k | k in t.emitted ensures 1 <= k <= t.log {
        if k !in s.emitted {
          assert k in page;
        }
      }
    }
  }

  lemma {:induction false} BasicRun(s: Conv, steps: seq<Step>)
    requires Fresh(s) && NoForget(steps)
    ensures Basic(Run(s, steps)) && LastSequence(s.cursor) <= LastSequence(Run(s, steps).cursor)
    decreases |steps|
  {
    if steps == [] {
    } else {
      NoForgetAt(steps, |steps| - 1);
      BasicRun(s, steps[..|steps| - 1]);
      BasicStep(Run(s, steps[..|steps| - 1]), steps[|steps| - 1]);
    }
  }

  // ---- When fetches of one conversation exclude each other ----

  ghost predicate Exclusive(s: Conv) {
    forall a, b | a in s.fetches && b in s.fetches :: a == b
  }

  lemma {:induction false} BasicStays(s: Conv, steps: seq<Step>)
    requires Basic(s) && NoForget(steps)
    ensures Basic(Run(s, steps))
    decreases |steps|
  {
    if steps == [] {
    } else {
      NoForgetAt(steps, |steps| - 1);
      BasicStays(s, steps[..|steps| - 1]);
      BasicStep(Run(s, steps[..|steps| - 1]), steps[|steps| - 1]);
    }
  }

  /** Whatever follows a Forget, up to the next one, runs one fetch at a time. */
  ghost predicate SafeToForget(s: Conv) {
    forall more | NoForget(more) :: Exclusive(Run(Apply(s, Forget), more))
  }

  /** After a Forget the conversation is untracked: events are left to the application until a fetch asked for by it
      has finished, and such a fetch starts over from the first message. */
  lemma ForgetStartsOver(s: Conv, call: nat, sequence: nat, limit: int)
    requires call !in s.waiting && s.lock + 1 !in s.fetches
    ensures var t := Apply(s, Forget);
            && Apply(t, Event(call, sequence)) == t && t.emitted == s.emitted && t.log == s.log && t.sent == s.sent
            && var u := Apply(Apply(t, Ask(call, limit)), Acquire(call));
               t.lock in u.fetches && u.fetches[t.lock] == Fetch(0, 0, PageSize(limit), 0, false)
  {
  }

  /** A Forget keeps mutual exclusion, whatever follows, if and only if nobody is inside `FetchFrom` when it is
      called. */
  lemma ForgetIsSafeIff(s: Conv)
    requires Basic(s)
    ensures SafeToForget(s) <==> Idle(s)
  {
    if Idle(s) {
      forall more | NoForget(more) ensures Exclusive(Run(Apply(s, Forget), more)) {
        BasicStays(Apply(s, Forget), more);
      }
    } else {
      var more := Overlap(s);
      assert NoForget(more) && !Exclusive(Run(Apply(s, Forget), more));
    }
  }

  /** After a Forget a newcomer is handed a new mutex and locks it, whatever else is going on. */
  lemma NewcomerLocks(s: Conv, b: nat)
    requires Basic(s) && b !in s.waiting
    ensures var t := Apply(s, Forget);
            Run(t, [Ask(b, 1), Acquire(b)]) == t.(fetches := t.fetches[t.lock := Fetch(0, 0, 1, 0, false)])
  {
    var t := Apply(s, Forget);
    assert [Ask(b, 1), Acquire(b)][..1] == [Ask(b, 1)];
    RunOne(t, Ask(b, 1));
    assert t.waiting[b := Waiter(t.lock, 1)] - {b} == t.waiting;
  }

  /** The overlapping run: the newcomer beside a fetch still in flight, or beside a call that had the old mutex in
      hand and locks it only now. */
  lemma Overlap(s: Conv) returns (more: seq<Step>)
    requires Basic(s) && !Idle(s)
    ensures NoForget(more) && !Exclusive(Run(Apply(s, Forget), more))
  {
    var t := Apply(s, Forget);
    var b := Above(s.waiting.Keys);
    more := [Ask(b, 1), Acquire(b)];
    NewcomerLocks(s, b);
    var u := Run(t, more);
    if s.fetches != map[] {
      var m :| m in s.fetches;
      assert m in u.fetches && t.lock in u.fetches && m != t.lock;
    } else {
      var a :| a in s.waiting;
      RunSplit(t, more, [Acquire(a)]);
      RunOne(u, Acquire(a));
      var v := Lock(u, a);
      assert s.waiting[a].mutex in v.fetches && t.lock in v.fetches && s.waiting[a].mutex != t.lock;
      more := more + [Acquire(a)];
    }
  }

  /** Every Forget of the run finds nobody inside `FetchFrom`. */
  ghost predicate QuietForgets(s: Conv, steps: seq<Step>) {
    forall i | 0 <= i < |steps| && steps[i].Forget? :: Idle(Run(s, steps[..i]))
  }

  lemma QuietFront(s: Conv, steps: seq<Step>, n: nat)
    requires QuietForgets(s, steps) && n <= |steps|
    ensures QuietForgets(s, steps[..n])
  {
    assert forall i | 0 <= i < n :: steps[..n][..i] == steps[..i];
  }

  lemma {:induction false} BasicQuiet(s: Conv, steps: seq<Step>)
    requires Fresh(s) && QuietForgets(s, steps)
    ensures Basic(Run(s, steps))
    decreases |steps|
  {
    if steps == [] {
    } else {
      var n := |steps| - 1;
      QuietFront(s, steps, n);
      BasicQuiet(s, steps[..n]);
      if !steps[n].Forget? {
        BasicStep(Run(s, steps[..n]), steps[n]);
      }
    }
  }

  /** Fetches of one conversation never overlap in a run whose Forgets find nobody inside `FetchFrom`. */
  lemma OneFetchAtATime(s: Conv, steps: seq<Step>, i: nat)
    requires Fresh(s) && QuietForgets(s, steps) && i <= |steps|
    ensures Exclusive(Run(s, steps[..i]))
  {
    QuietFront(s, steps, i);
    BasicQuiet(s, steps[..i]);
  }

  lemma LastForget(s: Conv, front: seq<Step>)
    requires Fresh(s) && QuietForgets(s, front)
    ensures SafeToForget(Run(s, front)) <==> Idle(Run(s, front))
  {
    BasicQuiet(s, front);
    ForgetIsSafeIff(Run(s, front));
  }

  /** Every Forget of the run is safe, whatever might follow it. */
  ghost predicate SafeForgets(s: Conv, steps: seq<Step>) {
    forall i | 0 <= i < |steps| && steps[i].Forget? :: SafeToForget(Run(s, steps[..i]))
  }

  lemma ForgetsSplit(s: Conv, steps: seq<Step>)
    requires steps != []
    ensures var n := |steps| - 1;
            && (QuietForgets(s, steps) <==>
                  QuietForgets(s, steps[..n]) && (steps[n].Forget? ==> Idle(Run(s, steps[..n]))))
            && (SafeForgets(s, steps) <==>
                  SafeForgets(s, steps[..n]) && (steps[n].Forget? ==> SafeToForget(Run(s, steps[..n]))))
  {
    var n := |steps| - 1;
    assert forall i | 0 <= i < n :: steps[..n][..i] == steps[..i] && steps[..n][i] == steps[i];
  }

  /** And no weaker rule for callers of Forget will do: over a whole run, every Forget is safe whatever might follow it
      if and only if every one of them finds nobody inside `FetchFrom`. */
  lemma {:induction false} ForgetRule(s: Conv, steps: seq<Step>)
    requires Fresh(s)
    ensures SafeForgets(s, steps) <==> QuietForgets(s, steps)
    decreases |steps|
  {
    if steps == [] {
    } else {
      ForgetsSplit(s, steps);
      ForgetRule(s, steps[..|steps| - 1]);
      if QuietForgets(s, steps[..|steps| - 1]) {
        LastForget(s, steps[..|steps| - 1]);
      }
    }
  }

  // ---- Nothing at or below the cursor is missed ----

  ghost predicate Seen(s: Conv, k: nat) {
    k in s.emitted || k in s.sent
  }

  /** Everything after the starting cursor c0, up to the cursor, has reached the application. */
  ghost predicate Covered(s: Conv, c0: nat) {
    forall k | c0 < k <= LastSequence(s.cursor) :: Seen(s, k)
  }

  /** The guard a caller can check before tracking a send: nothing lies unseen between the cursor and it. */
  ghost predicate SafeSend(s: Conv, q: nat) {
    forall k | LastSequence(s.cursor) < k < q :: Seen(s, k)
  }

  ghost predicate StepIsSafe(s: Conv, step: Step) {
    step.TrackSent? && 1 <= step.sequence <= s.log ==> SafeSend(s, step.sequence)
  }

  /** One step keeps the cover exactly when it is not a send that jumps over unseen messages. */
  lemma CoverStep(s: Conv, step: Step, c0: nat)
    requires Basic(s) && !step.Forget? && Covered(s, c0) && c0 <= LastSequence(s.cursor)
    ensures Covered(Apply(s, step), c0) <==> StepIsSafe(s, step)
  {
    var t := Apply(s, step);
    BasicStep(s, step);
    assert forall k | Seen(s, k) :: Seen(t, k);
    match step
    case TrackSent(q) =>
      if 1 <= q <= s.log {
        if Covered(t, c0) {
          forall k | LastSequence(s.cursor) < k < q ensures Seen(s, k) {
            assert Seen(t, k);
          }
        } else {
          var k :| c0 < k <= LastSequence(t.cursor) && !Seen(t, k);
          assert LastSequence(s.cursor) < k < q && !Seen(s, k);
        }
      }
    case Finish(m) =>
      if m in s.fetches && s.fetches[m].done {
        assert FetchInv(s, s.fetches[m]);
        forall k | c0 < k <= LastSequence(t.cursor) ensures Seen(t, k) {
          if k > LastSequence(s.cursor) {
            assert k in s.emitted;
          } else {
            assert Seen(s, k);
          }
        }
      }
    case _ =>
  }

  /** Cursor safety over every run without Forget: the cover holds at every point of the run if and only if no
      send tracked past messages that were still unseen at that moment. */
  lemma {:induction false} CursorSafety(s: Conv, steps: seq<Step>)
    requires Fresh(s) && NoForget(steps)
    ensures (forall i | 0 <= i <= |steps| :: Covered(Run(s, steps[..i]), LastSequence(s.cursor)))
       <==> (forall i | 0 <= i < |steps| :: StepIsSafe(Run(s, steps[..i]), steps[i]))
    decreases |steps|
  {
    var c0 := LastSequence(s.cursor);
    if forall i | 0 <= i < |steps| :: StepIsSafe(Run(s, steps[..i]), steps[i]) {
      forall i | 0 <= i <= |steps| ensures Covered(Run(s, steps[..i]), c0) {
        SafeCovers(s, steps, i);
      }
    }
    if forall i | 0 <= i <= |steps| :: Covered(Run(s, steps[..i]), c0) {
      forall i | 0 <= i < |steps| ensures StepIsSafe(Run(s, steps[..i]), steps[i]) {
        NoForgetAt(steps, i);
        BasicRun(s, steps[..i]);
        RunNext(s, steps, i);
        assert Covered(Run(s, steps[..i + 1]), c0);
        CoverStep(Run(s, steps[..i]), steps[i], c0);
      }
    }
  }

  lemma {:induction false} SafeCovers(s: Conv, steps: seq<Step>, i: nat)
    requires Fresh(s) && NoForget(steps) && i <= |steps|
    requires forall j | 0 <= j < |steps| :: StepIsSafe(Run(s, steps[..j]), steps[j])
    ensures Covered(Run(s, steps[..i]), LastSequence(s.cursor))
    decreases i
  {
    if i == 0 {
      assert Run(s, steps[..0]) == s;
    } else {
      SafeCovers(s, steps, i - 1);
      NoForgetAt(steps, i - 1);
      BasicRun(s, steps[..i - 1]);
      RunNext(s, steps, i - 1);
      CoverStep(Run(s, steps[..i - 1]), steps[i - 1], LastSequence(s.cursor));
    }
  }

  lemma SkipStep(s: Conv, step: Step, k: nat)
    requires Basic(s) && !step.Forget? && k <= LastSequence(s.cursor)
    requires forall m | m in s.fetches :: k <= s.fetches[m].from
    ensures var t := Apply(s, step);
            && Basic(t) && k <= LastSequence(t.cursor) && (forall m | m in t.fetches :: k <= t.fetches[m].from)
            && (k in t.emitted ==> k in s.emitted)
  {
    BasicStep(s, step);
  }

  /** A message jumped over is lost for good: no default fetch ever emits it again. */
  lemma {:induction false} SkippedForever(s: Conv, steps: seq<Step>, k: nat)
    requires Basic(s) && NoForget(steps) && k <= LastSequence(s.cursor)
    requires forall m | m in s.fetches :: k <= s.fetches[m].from
    ensures k in Run(s, steps).emitted ==> k in s.emitted
    ensures var t := Run(s, steps);
            Basic(t) && k <= LastSequence(t.cursor) && forall m | m in t.fetches :: k <= t.fetches[m].from
    decreases |steps|
  {
    if steps == [] {
    } else {
      var n := |steps| - 1;
      NoForgetAt(steps, n);
      SkippedForever(s, steps[..n], k);
      SkipStep(Run(s, steps[..n]), steps[n], k);
    }
  }

  /** The jump is real: someone else's message 1 is skipped when our own message 2 is tracked first. */
  lemma SendSkipsMessage()
    ensures var s := Run(Quiet(0), [Grow, Grow, TrackSent(2)]);
            s.cursor == Some(2) && !Seen(s, 1) && s.log == 2 && s.fetches == map[]
  {
    var s0 := Quiet(0);
    var steps := [Grow, Grow, TrackSent(2)];
    RunNext(s0, steps, 0);
    RunNext(s0, steps, 1);
    RunNext(s0, steps, 2);
    assert steps[..0] == [] && steps[..3] == steps;
  }

  // ---- Catching up ----

  /** How many fetches have run to their end. */
  ghost function Finished(s: Conv, steps: seq<Step>): nat
    decreases |steps|
  {
    if steps == [] then 0
    else
      var n := |steps| - 1;
      Finished(s, steps[..n]) + if Finishes(Run(s, steps[..n]), steps[n]) then 1 else 0
  }

  predicate Finishes(s: Conv, step: Step) {
    step.Finish? && step.mutex in s.fetches && s.fetches[step.mutex].done
  }

  ghost predicate AsksAtLeast(steps: seq<Step>, size: nat) {
    size <= PAGE_LIMIT && forall i | 0 <= i < |steps| && steps[i].Ask? :: PageSize(steps[i].limit) >= size
  }

  /** A fetch is at least `pages` full pages past its start, or at the end of what the log held. */
  ghost predicate Advances(f: Fetch, n: nat, size: nat) {
    && f.size >= size && f.pages <= MAX_PAGES && (!f.done ==> f.pages < MAX_PAGES)
    && f.from >= Min(n, f.start + (if f.done then MAX_PAGES else f.pages) * size)
  }

  /** With `goal` the point the finished fetches must have reached: the cursor has, and so has the start of any
      fetch under way. */
  ghost predicate Progress(s: Conv, n: nat, size: nat, goal: int) {
    && s.log >= n && LastSequence(s.cursor) >= Min(n, goal)
    && (forall call | call in s.waiting :: s.waiting[call].size >= size)
    && forall m | m in s.fetches :: s.fetches[m].start >= Min(n, goal) && Advances(s.fetches[m], n, size)
  }

  lemma TurnAdvances(f: Fetch, log: nat, n: nat, size: nat)
    requires Advances(f, n, size) && !f.done && log >= n
    ensures Advances(Turn(f, log), n, size) && Turn(f, log).start == f.start
  {
    OneMore(f.pages, size);
    assert MAX_PAGES * size >= (f.pages + 1) * size by {
      Monotone(f.pages + 1, MAX_PAGES, size);
    }
  }

  lemma Monotone(a: nat, b: nat, k: nat)
    requires a <= b
    ensures a * k <= b * k
  {
  }

  lemma ProgressStep(s: Conv, step: Step, n: nat, size: nat, goal: int)
    requires Basic(s) && Progress(s, n, size, goal) && !step.Forget? && size <= PAGE_LIMIT
    requires step.Ask? ==> PageSize(step.limit) >= size
    ensures Progress(Apply(s, step), n, size, if Finishes(s, step) then goal + MAX_PAGES * size else goal)
  {
    var t := Apply(s, step);
    if step.PageOk? && step.mutex in s.fetches && !s.fetches[step.mutex].done {
      TurnAdvances(s.fetches[step.mutex], s.log, n, size);
    } else if Finishes(s, step) {
      assert s.fetches[step.mutex].start >= Min(n, goal) && Advances(s.fetches[step.mutex], n, size);
      assert t.fetches == map[];
    }
  }

  /** Convergence over every run: whatever repeated, lost or reordered events, sends and failed fetches lie in
      between, once k fetches of page size at least `size` have run to their end, the cursor has reached
      min(n, c + 10 k size), n being what the log held at the start. */
  lemma {:induction false} CatchesUp(s: Conv, steps: seq<Step>, n: nat, size: nat)
    requires Fresh(s) && NoForget(steps) && s.log >= n && AsksAtLeast(steps, size)
    ensures Progress(Run(s, steps), n, size, LastSequence(s.cursor) + Finished(s, steps) * (MAX_PAGES * size))
    ensures LastSequence(Run(s, steps).cursor)
            >= Min(n, LastSequence(s.cursor) + Finished(s, steps) * (MAX_PAGES * size))
    decreases |steps|
  {
    if steps == [] {
    } else {
      var k := |steps| - 1;
      var front, done := steps[..k], Finished(s, steps[..k]);
      var goal := LastSequence(s.cursor) + done * (MAX_PAGES * size);
      NoForgetAt(steps, k);
      CatchesUp(s, front, n, size);
      assert Basic(Run(s, front)) by { BasicRun(s, front); }
      OneMore(done, MAX_PAGES * size);
      ProgressStep(Run(s, front), steps[k], n, size, goal);
    }
  }

  /** So ceil((n - c) / (10 size)) finished fetches are enough, and the cursor then stays there. */
  lemma CaughtUp(s: Conv, steps: seq<Step>, n: nat, size: nat)
    requires Fresh(s) && NoForget(steps) && s.log >= n && size >= 1 && AsksAtLeast(steps, size)
    requires Finished(s, steps) >= (Max(0, n - LastSequence(s.cursor)) + MAX_PAGES * size - 1) / (MAX_PAGES * size)
    ensures LastSequence(Run(s, steps).cursor) >= n
  {
    CatchesUp(s, steps, n, size);
    Ceiling(Max(0, n - LastSequence(s.cursor)), MAX_PAGES * size, Finished(s, steps));
  }

  lemma Ceiling(d: nat, step: nat, k: nat)
    requires step >= 1 && k >= (d + step - 1) / step
    ensures k * step >= d
  {
    var q := (d + step - 1) / step;
    assert q * step >= d by {
      assert d + step - 1 == q * step + (d + step - 1) % step;
    }
    Monotone(q, k, step);
  }

  // ---- Events are served ----

  /** A message.created event makes a new call ask for a fetch of full pages exactly when the conversation is tracked
      and the event is not about something at or below the cursor; otherwise nothing happens at all. */
  lemma EventAsks(s: Conv, call: nat, sequence: nat)
    requires call !in s.waiting
    ensures var t := Apply(s, Event(call, sequence));
            if s.cursor.Some? && (sequence == 0 || sequence > s.cursor.value)
            then t == s.(waiting := s.waiting[call := Waiter(s.lock, 200)]) else t == s
  {
  }

  /** Call `call` has the mutex in hand from step i until it locks it at step k, and its fetch is in flight from then
      until step l. */
  ghost predicate Served(s: Conv, steps: seq<Step>, call: nat, i: nat, k: nat, l: nat)
    requires i < k < l < |steps|
  {
    && (forall t | i < t <= k :: call in Run(s, steps[..t]).waiting)
    && steps[k] == Acquire(call) && call !in Run(s, steps[..k + 1]).waiting
    && (forall t | k < t <= l :: Run(s, steps[..t]).fetches != map[])
  }

  lemma {:induction false} WaiterStays(s: Conv, steps: seq<Step>, call: nat, i: nat, k: nat)
    requires i < k <= |steps| && forall t | i < t <= k :: call in Run(s, steps[..t]).waiting
    ensures Run(s, steps[..k]).waiting[call] == Run(s, steps[..i + 1]).waiting[call]
    decreases k
  {
    if k == i + 1 {
    } else {
      WaiterStays(s, steps, call, i, k - 1);
      RunNext(s, steps, k - 1);
    }
  }

  /** The fetch in flight: it began at or past c, reads pages of at least `size`, and has advanced accordingly. */
  ghost predicate FetchFrom(s: Conv, c: nat, n: nat, size: nat) {
    s.log >= n && forall m | m in s.fetches :: s.fetches[m].start >= c && Advances(s.fetches[m], n, size)
  }

  lemma FetchStays(s: Conv, step: Step, c: nat, n: nat, size: nat)
    requires Basic(s) && !step.Forget? && s.fetches != map[] && Apply(s, step).fetches != map[]
    requires FetchFrom(s, c, n, size)
    ensures FetchFrom(Apply(s, step), c, n, size)
  {
    if step.PageOk? && step.mutex in s.fetches && !s.fetches[step.mutex].done {
      TurnAdvances(s.fetches[step.mutex], s.log, n, size);
    }
  }

  lemma FetchNext(s: Conv, steps: seq<Step>, t: nat, c: nat, n: nat, size: nat)
    requires Fresh(s) && NoForget(steps) && t < |steps| && FetchFrom(Run(s, steps[..t]), c, n, size)
    requires Run(s, steps[..t]).fetches != map[] && Run(s, steps[..t + 1]).fetches != map[]
    ensures FetchFrom(Run(s, steps[..t + 1]), c, n, size)
  {
    NoForgetAt(steps, t);
    assert Basic(Run(s, steps[..t])) by { BasicRun(s, steps[..t]); }
    RunNext(s, steps, t);
    FetchStays(Run(s, steps[..t]), steps[t], c, n, size);
  }

  lemma {:induction false} FetchGoesOn(s: Conv, steps: seq<Step>, k: nat, l: nat, c: nat, n: nat, size: nat)
    requires Fresh(s) && NoForget(steps) && k < l <= |steps| && FetchFrom(Run(s, steps[..k + 1]), c, n, size)
    requires forall t | k < t <= l :: Run(s, steps[..t]).fetches != map[]
    ensures FetchFrom(Run(s, steps[..l]), c, n, size)
    decreases l
  {
    if l == k + 1 {
    } else {
      FetchGoesOn(s, steps, k, l - 1, c, n, size);
      FetchNext(s, steps, l - 1, c, n, size);
    }
  }

  lemma GrantedAt(s: Conv, call: nat, n: nat)
    requires Basic(s) && call in s.waiting && call !in Lock(s, call).waiting && n <= s.log
    requires s.waiting[call].size == PAGE_LIMIT
    ensures FetchFrom(Lock(s, call), LastSequence(s.cursor), n, PAGE_LIMIT)
  {
  }

  /** An event is served: in a run without Forget, once the fetch that an event for message q asked for has run to its
      end, the cursor is at least min(q, c + 2000), c being the cursor when the event arrived; whatever else went on. */
  lemma EventIsServed(s: Conv, steps: seq<Step>, call: nat, q: nat, i: nat, k: nat, l: nat)
    requires Fresh(s) && NoForget(steps) && i < k < l < |steps| && steps[i] == Event(call, q)
    requires var t := Run(s, steps[..i]);
             call !in t.waiting && t.cursor.Some? && t.cursor.value < q <= t.log
    requires Served(s, steps, call, i, k, l) && Finishes(Run(s, steps[..l]), steps[l])
    ensures LastSequence(Run(s, steps[..l + 1]).cursor) >= Min(q, LastSequence(Run(s, steps[..i]).cursor) + 2000)
  {
    var c := LastSequence(Run(s, steps[..i]).cursor);
    AskedByEvent(s, steps, call, q, i, k);
    assert FetchFrom(Run(s, steps[..k + 1]), c, q, PAGE_LIMIT) by { GrantedToEvent(s, steps, call, q, i, k); }
    FetchGoesOn(s, steps, k, l, c, q, PAGE_LIMIT);
    RunNext(s, steps, l);
    FinishReaches(Run(s, steps[..l]), steps[l], c, q);
  }

  lemma FinishReaches(s: Conv, step: Step, c: nat, q: nat)
    requires FetchFrom(s, c, q, PAGE_LIMIT) && Finishes(s, step)
    ensures LastSequence(Apply(s, step).cursor) >= Min(q, c + 2000)
  {
    assert Advances(s.fetches[step.mutex], q, PAGE_LIMIT);
  }

  lemma AskedByEvent(s: Conv, steps: seq<Step>, call: nat, q: nat, i: nat, k: nat)
    requires i < k < |steps| && steps[i] == Event(call, q)
    requires var t := Run(s, steps[..i]);
             call !in t.waiting && t.cursor.Some? && t.cursor.value < q
    requires forall t | i < t <= k :: call in Run(s, steps[..t]).waiting
    ensures Run(s, steps[..k]).waiting[call].size == PAGE_LIMIT
  {
    RunNext(s, steps, i);
    EventAsks(Run(s, steps[..i]), call, q);
    WaiterStays(s, steps, call, i, k);
  }

  lemma GrantedToEvent(s: Conv, steps: seq<Step>, call: nat, q: nat, i: nat, k: nat)
    requires Fresh(s) && NoForget(steps) && i < k < |steps| && steps[k] == Acquire(call)
    requires call in Run(s, steps[..k]).waiting && Run(s, steps[..k]).waiting[call].size == PAGE_LIMIT
    requires call !in Run(s, steps[..k + 1]).waiting && q <= Run(s, steps[..i]).log
    ensures FetchFrom(Run(s, steps[..k + 1]), LastSequence(Run(s, steps[..i]).cursor), q, PAGE_LIMIT)
  {
    Meanwhile(s, steps, i, k);
    NoForgetAt(steps, k);
    assert Basic(Run(s, steps[..k])) by { BasicRun(s, steps[..k]); }
    RunNext(s, steps, k);
    GrantedAt(Run(s, steps[..k]), call, q);
  }

  lemma GrowsStep(s: Conv, step: Step)
    requires !step.Forget?
    ensures s.log <= Apply(s, step).log && LastSequence(s.cursor) <= LastSequence(Apply(s, step).cursor)
  {
  }

  /** Between two points of a run without Forget the log and the cursor only grow. */
  lemma {:induction false} Meanwhile(s: Conv, steps: seq<Step>, i: nat, k: nat)
    requires NoForget(steps) && i <= k <= |steps|
    ensures var a, b := Run(s, steps[..i]), Run(s, steps[..k]);
            a.log <= b.log && LastSequence(a.cursor) <= LastSequence(b.cursor)
    decreases k
  {
    if i == k {
    } else {
      Meanwhile(s, steps, i, k - 1);
      NoForgetAt(steps, k - 1);
      RunNext(s, steps, k - 1);
      GrowsStep(Run(s, steps[..k - 1]), steps[k - 1]);
    }
  }

  // ---- Exactly once, in order ----

  ghost predicate Ascending(xs: seq<nat>) {
    forall i, j | 0 <= i < j < |xs| :: xs[i] < xs[j]
  }

  /** Nothing emitted lies past p. */
  ghost predicate AllUpTo(xs: seq<nat>, p: nat) {
    forall k | k in xs :: k <= p
  }

  /** A step emits past everything emitted before it; only a fetch's first page can fail to. */
  ghost predicate StepIsClean(s: Conv, step: Step) {
    (step.PageOk? && step.mutex in s.fetches && s.fetches[step.mutex].pages == 0
     && s.fetches[step.mutex].from < s.log) ==> AllUpTo(s.emitted, s.fetches[step.mutex].from)
  }

  /** While the stream is ascending: a fetch past its first page is the stream's own tip. */
  ghost predicate TipInv(s: Conv) {
    forall m | m in s.fetches && s.fetches[m].pages > 0 && !s.fetches[m].done :: AllUpTo(s.emitted, s.fetches[m].from)
  }

  lemma AscendingStep(s: Conv, step: Step)
    requires Basic(s) && TipInv(s) && Ascending(s.emitted) && !step.Forget?
    ensures Ascending(Apply(s, step).emitted) <==> StepIsClean(s, step)
    ensures StepIsClean(s, step) ==> TipInv(Apply(s, step))
  {
    var t := Apply(s, step);
    if step.PageOk? && step.mutex in s.fetches && !s.fetches[step.mutex].done {
      var f := s.fetches[step.mutex];
      var page := Page(s.log, f.from, f.size);
      assert FetchInv(s, f);
      if StepIsClean(s, step) {
        if page != [] {
          assert AllUpTo(s.emitted, f.from);
          forall i, j | 0 <= i < j < |t.emitted| ensures t.emitted[i] < t.emitted[j] {
            if i < |s.emitted| <= j {
              assert s.emitted[i] in s.emitted;
            }
          }
          TipAfter(s, step.mutex);
        } else {
          assert t.emitted == s.emitted;
        }
      } else {
        var k :| k in s.emitted && k > f.from;
        var i :| 0 <= i < |s.emitted| && s.emitted[i] == k;
        assert t.emitted[i] == k && t.emitted[|s.emitted|] == f.from + 1;
      }
    }
  }

  lemma TipAfter(s: Conv, m: nat)
    requires m in s.fetches && !s.fetches[m].done && AllUpTo(s.emitted, s.fetches[m].from)
    requires forall x | x in s.fetches :: x == m
    ensures TipInv(Apply(s, PageOk(m)))
  {
    var f := s.fetches[m];
    var t := Apply(s, PageOk(m));
    forall k | k in t.emitted ensures k <= t.fetches[m].from {
      assert k in s.emitted || k in Page(s.log, f.from, f.size);
    }
  }

  ghost predicate Clean(s: Conv, steps: seq<Step>) {
    forall i | 0 <= i < |steps| :: StepIsClean(Run(s, steps[..i]), steps[i])
  }

  lemma CleanSplit(s: Conv, steps: seq<Step>)
    requires steps != []
    ensures var n := |steps| - 1;
            Clean(s, steps) <==> Clean(s, steps[..n]) && StepIsClean(Run(s, steps[..n]), steps[n])
  {
    var n := |steps| - 1;
    assert forall i | 0 <= i < n :: steps[..n][..i] == steps[..i];
  }

  /** The stream handed to the application is strictly ascending (so nothing repeats and nothing is out of
      order) if and only if no fetch began below something already emitted. */
  lemma {:induction false} AscendingIff(s: Conv, steps: seq<Step>)
    requires Fresh(s) && NoForget(steps)
    ensures Ascending(Run(s, steps).emitted) <==> Clean(s, steps)
    ensures Ascending(Run(s, steps).emitted) ==> TipInv(Run(s, steps))
    decreases |steps|
  {
    if steps == [] {
    } else {
      var n := |steps| - 1;
      NoForgetAt(steps, n);
      AscendingIff(s, steps[..n]);
      BasicRun(s, steps[..n]);
      CleanSplit(s, steps);
      AscendingNext(Run(s, steps[..n]), steps[n]);
    }
  }

  lemma AscendingNext(s: Conv, step: Step)
    requires Basic(s) && !step.Forget? && (Ascending(s.emitted) ==> TipInv(s))
    ensures Ascending(Apply(s, step).emitted) <==> Ascending(s.emitted) && StepIsClean(s, step)
    ensures Ascending(Apply(s, step).emitted) ==> TipInv(Apply(s, step))
  {
    BasicStep(s, step);
    PrefixAscending(s.emitted, Apply(s, step).emitted);
    if Ascending(s.emitted) {
      AscendingStep(s, step);
    }
  }

  lemma PrefixAscending(xs: seq<nat>, ys: seq<nat>)
    requires xs <= ys
    ensures Ascending(ys) ==> Ascending(xs)
  {
    if Ascending(ys) {
      forall i, j | 0 <= i < j < |xs| ensures xs[i] < xs[j] {
        assert ys[i] < ys[j];
      }
    }
  }

  /** No fetch fails after its first page. */
  ghost predicate NoLateFailure(s: Conv, steps: seq<Step>) {
    forall i | 0 <= i < |steps| && steps[i].PageFails? ::
      var t := Run(s, steps[..i]); steps[i].mutex in t.fetches ==> t.fetches[steps[i].mutex].pages == 0
  }

  /** Between fetches the cursor is at or past everything emitted. */
  ghost predicate Settled(s: Conv) {
    && (s.fetches == map[] ==> AllUpTo(s.emitted, LastSequence(s.cursor)))
    && (forall m | m in s.fetches :: AllUpTo(s.emitted, s.fetches[m].from))
  }

  lemma SettledStep(s: Conv, step: Step)
    requires Basic(s) && Settled(s) && !step.Forget?
    requires step.PageFails? && step.mutex in s.fetches ==> s.fetches[step.mutex].pages == 0
    ensures Settled(Apply(s, step)) && StepIsClean(s, step)
  {
    var t := Apply(s, step);
    match step
    case PageOk(m) =>
      if m in s.fetches && !s.fetches[m].done {
        var f := s.fetches[m];
        forall k | k in t.emitted ensures k <= t.fetches[m].from {
          assert k in s.emitted || k in Page(s.log, f.from, f.size);
        }
      }
    case PageFails(m) =>
      if m in s.fetches && !s.fetches[m].done {
        assert FetchInv(s, s.fetches[m]);
        assert t.fetches == map[];
      }
    case Finish(m) =>
      if m in s.fetches && s.fetches[m].done {
        assert t.fetches == map[];
      }
    case _ =>
  }

  /** If no fetch fails after its first page, every emission is new and in order: exactly once. */
  lemma {:induction false} ExactlyOnce(s: Conv, steps: seq<Step>)
    requires Fresh(s) && NoForget(steps) && NoLateFailure(s, steps)
    ensures Ascending(Run(s, steps).emitted) && Settled(Run(s, steps))
    decreases |steps|
  {
    AscendingIff(s, steps);
    assert Clean(s, steps) by {
      forall i | 0 <= i < |steps| ensures StepIsClean(Run(s, steps[..i]), steps[i]) {
        SettledAt(s, steps, i);
        NoForgetAt(steps, i);
        BasicRun(s, steps[..i]);
        SettledStep(Run(s, steps[..i]), steps[i]);
      }
    }
    SettledAt(s, steps, |steps|);
    assert steps[..|steps|] == steps;
  }

  lemma {:induction false} SettledAt(s: Conv, steps: seq<Step>, i: nat)
    requires Fresh(s) && NoForget(steps) && NoLateFailure(s, steps) && i <= |steps|
    ensures Settled(Run(s, steps[..i]))
    decreases i
  {
    if i == 0 {
      assert Run(s, steps[..0]) == s;
    } else {
      SettledAt(s, steps, i - 1);
      NoForgetAt(steps, i - 1);
      BasicRun(s, steps[..i - 1]);
      RunNext(s, steps, i - 1);
      SettledStep(Run(s, steps[..i - 1]), steps[i - 1]);
    }
  }

  /** One conversation at cursor 0 with a log of n messages, nobody fetching. */
  function Quiet(n: nat): Conv {
    Conv(n, Some(0), 0, map[], map[], [], {})
  }

  lemma FetchStarts(s: Conv, call: nat)
    requires call !in s.waiting && s.lock !in s.fetches
    ensures var c := LastSequence(s.cursor);
            Apply(Apply(s, Ask(call, 1)), Acquire(call)) == s.(fetches := s.fetches[s.lock := Fetch(c, c, 1, 0, false)])
  {
    assert s.waiting[call := Waiter(s.lock, 1)] - {call} == s.waiting;
  }

  /** A failure after a first page makes the next fetch emit that page again. */
  lemma LateFailureRepeats()
    ensures var started := Apply(Apply(Quiet(2), Ask(0, 1)), Acquire(0));
            var failed := Apply(Apply(started, PageOk(0)), PageFails(0));
            Apply(Apply(Apply(failed, Ask(0, 1)), Acquire(0)), PageOk(0)).emitted == [1, 1]
  {
    FetchStarts(Quiet(2), 0);
    assert Page(2, 0, 1) == [1];
    var started := Apply(Apply(Quiet(2), Ask(0, 1)), Acquire(0));
    var failed := Apply(Apply(started, PageOk(0)), PageFails(0));
    assert failed == Quiet(2).(emitted := [1]);
    FetchStarts(failed, 0);
  }

  /** Forget during a fetch: a second fetch overlaps it, and both emit the same message although nothing failed. */
  lemma ForgetRepeats()
    ensures var started := Apply(Apply(Quiet(1), Ask(0, 1)), Acquire(0));
            var both := Apply(Apply(Apply(started, Forget), Ask(1, 1)), Acquire(1));
            !Exclusive(both) && Apply(Apply(both, PageOk(0)), PageOk(1)).emitted == [1, 1]
  {
    FetchStarts(Quiet(1), 0);
    var started := Apply(Apply(Quiet(1), Ask(0, 1)), Acquire(0));
    FetchStarts(Apply(started, Forget), 1);
    var both := Apply(Apply(Apply(started, Forget), Ask(1, 1)), Acquire(1));
    BothEmit(both);
  }

  /** Forget while nobody fetches, but call 0 has the mutex in hand: call 1 is handed a new mutex, both lock, and both
      emit the same message. */
  lemma WaiterOverlaps()
    ensures Run(Quiet(1), [Ask(0, 1)]).fetches == map[]
    ensures var both := Run(Quiet(1), [Ask(0, 1), Forget, Ask(1, 1), Acquire(1), Acquire(0)]);
            !Exclusive(both) && Apply(Apply(both, PageOk(0)), PageOk(1)).emitted == [1, 1]
  {
    var steps := [Ask(0, 1), Forget, Ask(1, 1), Acquire(1), Acquire(0)];
    var s := Quiet(1);
    FiveSteps(s, steps);
    var asked := s.(waiting := map[0 := Waiter(0, 1)]);
    assert Apply(s, steps[0]) == asked;
    RunOne(s, Ask(0, 1));
    var forgot := asked.(cursor := None, lock := 1);
    FetchStarts(forgot, 1);
    var f := Fetch(0, 0, 1, 0, false);
    assert Lock(forgot.(fetches := map[1 := f]), 0) == forgot.(waiting := map[], fetches := map[1 := f, 0 := f]);
    BothEmit(Run(s, steps));
  }

  lemma FiveSteps(s: Conv, steps: seq<Step>)
    requires |steps| == 5
    ensures Run(s, steps) == Apply(Apply(Apply(Apply(Apply(s, steps[0]), steps[1]), steps[2]), steps[3]), steps[4])
  {
    assert steps[..5] == steps && steps[..0] == [];
    forall i | 0 <= i < 5 ensures Run(s, steps[..i + 1]) == Apply(Run(s, steps[..i]), steps[i]) {
      RunNext(s, steps, i);
    }
  }

  lemma BothEmit(s: Conv)
    requires s.log == 1 && s.emitted == [] && s.fetches.Keys == {0, 1}
    requires s.fetches[0] == Fetch(0, 0, 1, 0, false) && s.fetches[1] == Fetch(0, 0, 1, 0, false)
    ensures !Exclusive(s) && Apply(Apply(s, PageOk(0)), PageOk(1)).emitted == [1, 1]
  {
    assert 0 in s.fetches && 1 in s.fetches;
    assert Page(1, 0, 1) == [1];
    assert Apply(s, PageOk(0)).fetches[1] == s.fetches[1];
  }
}
