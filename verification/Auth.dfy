/**
 Credential identity: users are registered on first sight, every credential
 issued by the backend carries the user's token version, and a revocation bumps
 that version. Reads and writes of one request are separate steps, so logins,
 issues and revocations interleave. A signature is the secret that made it.
 */
module Auth {
  import opened Common

  type Uuid = nat
  type Secret = nat

  /** `version` 0 means the claim is absent; `issuedAt` and `expiresAt` are absent when 0. */
  datatype Claims = Claims(
    uuid: Uuid, name: string, nickname: string, avatar: string, version: nat, issuedAt: int, expiresAt: int)

  datatype Credential = Credential(claims: Claims, secret: Secret)

  datatype User = User(
    id: nat, username: string, nickname: Option<string>, avatar: Option<string>, version: nat)

  type Users = map<Uuid, User>

  const CLOCK_SKEW := 60.0

  /** `VerifyCredential`: signed by an accepted secret, and inside its time window. */
  predicate Verified(c: Credential, secrets: set<Secret>, wellFormed: bool, now: real) {
    && c.secret in secrets && wellFormed
    && (c.claims.issuedAt != 0 ==> c.claims.issuedAt as real <= now + CLOCK_SKEW)
    && (c.claims.expiresAt != 0 ==> now <= c.claims.expiresAt as real + CLOCK_SKEW)
  }

  // ---- resolveUser ----

  predicate IsSpace(c: char) {
    c == ' ' || '\t' <= c <= '\r'
  }

  predicate Blank(s: string) {
    forall i | 0 <= i < |s| :: IsSpace(s[i])
  }

  function NilIfBlank(s: string): Option<string> {
    if Blank(s) then None else Some(s)
  }

  function NewUser(id: nat, claims: Claims): User {
    User(id, claims.name, NilIfBlank(claims.nickname), NilIfBlank(claims.avatar), 1)
  }

  predicate NeedsRefresh(row: User, claims: Claims, stale: bool) {
    || row.username != claims.name
    || (claims.nickname != "" && row.nickname != Some(claims.nickname))
    || (claims.avatar != "" && row.avatar != Some(claims.avatar))
    || stale
  }

  /** The row as it will be written back, computed from the row as it was read. */
  function Refreshed(row: User, claims: Claims): User {
    row.(username := claims.name,
         nickname := if claims.nickname != "" then Some(claims.nickname) else row.nickname,
         avatar := if claims.avatar != "" then Some(claims.avatar) else row.avatar)
  }

  /** The update statement: the profile columns only. */
  function WriteProfile(users: Users, uuid: Uuid, next: User): Users {
    if uuid in users
    then users[uuid := users[uuid].(username := next.username, nickname := next.nickname, avatar := next.avatar)]
    else users
  }

  // ---- Requests in progress ----

  datatype Purpose = Login | Issue

  /** `at` is how many steps had been taken when the row's version was the stored one. */
  datatype Phase =
    | Inserting(purpose: Purpose, claims: Claims)
    | Rechecking(purpose: Purpose, claims: Claims, inserted: Option<nat>)
    | Refreshing(purpose: Purpose, claims: Claims, row: User, at: nat)
    | Resolved(purpose: Purpose, claims: Claims, row: User, at: nat)
    | Admitted(claims: Claims, row: User, at: nat)
    | Refused(claims: Claims, row: User, at: nat)
    | Issued(credential: Credential, at: nat)
    | Failed

  datatype State = State(users: Users, calls: map<nat, Phase>, time: nat)

  const Initial := State(map[], map[], 0)

  /** What became of one statement: it took effect, it did not and an error says so, or it did although the driver
      reports an error. */
  datatype Outcome = Done | Undone | Unheard

  datatype Step =
    | Present(call: nat, credential: Credential, secrets: set<Secret>, wellFormed: bool, now: real, stale: bool)
    | Request(call: nat, claims: Claims, wellFormed: bool, stale: bool)
    | Insert(call: nat, id: nat, reported: bool, outcome: Outcome)
    | Recheck(call: nat, broken: bool)
    | Refresh(call: nat, outcome: Outcome)
    | Answer(call: nat, secret: Secret, issuedAt: int, expiresAt: int)
    | Revoke(uuid: Uuid)

  /** The first read of `resolveUser`. */
  function ReadUser(s: State, purpose: Purpose, claims: Claims, stale: bool): Phase {
    if claims.uuid !in s.users then Inserting(purpose, claims)
    else
      var row := s.users[claims.uuid];
      if NeedsRefresh(row, claims, stale) then Refreshing(purpose, claims, row, s.time)
      else Resolved(purpose, claims, row, s.time)
  }

  function SetPhase(s: State, call: nat, p: Phase): State {
    s.(calls := s.calls[call := p])
  }

  /** The unique index rejects a second row for the uuid; any error leads to the fall-back read. */
  function InsertUser(s: State, call: nat, id: nat, reported: bool, outcome: Outcome): State {
    if call !in s.calls || !s.calls[call].Inserting? then s
    else
      var p := s.calls[call];
      var row := NewUser(id, p.claims);
      var inserted := s.(users := s.users[p.claims.uuid := row]);
      if outcome.Undone? || p.claims.uuid in s.users then SetPhase(s, call, Rechecking(p.purpose, p.claims, None))
      else if outcome.Unheard? then SetPhase(inserted, call, Rechecking(p.purpose, p.claims, None))
      else SetPhase(inserted, call,
             if reported && id != 0 then Resolved(p.purpose, p.claims, row, s.time + 1)
             else Rechecking(p.purpose, p.claims, Some(s.time + 1)))
  }

  /** The fall-back read; without an answer, a row this request inserted is reported with id 0. */
  function RecheckUser(s: State, call: nat, broken: bool): State {
    if call !in s.calls || !s.calls[call].Rechecking? then s
    else
      var p := s.calls[call];
      SetPhase(s, call,
        if !broken && p.claims.uuid in s.users then Resolved(p.purpose, p.claims, s.users[p.claims.uuid], s.time)
        else if p.inserted.Some? then Resolved(p.purpose, p.claims, NewUser(0, p.claims), p.inserted.value)
        else Failed)
  }

  /** After an error the request goes on with the row it read, written or not. */
  function RefreshUser(s: State, call: nat, outcome: Outcome): State {
    if call !in s.calls || !s.calls[call].Refreshing? then s
    else
      var p := s.calls[call];
      var next := Refreshed(p.row, p.claims);
      var written := if outcome.Undone? then s else s.(users := WriteProfile(s.users, p.claims.uuid, next));
      SetPhase(written, call, Resolved(p.purpose, p.claims, if outcome.Done? then next else p.row, p.at))
  }

  /** A login compares versions; an issue signs the version it read. */
  function AnswerCall(s: State, call: nat, secret: Secret, issuedAt: int, expiresAt: int): State {
    if call !in s.calls || !s.calls[call].Resolved? then s
    else
      var p := s.calls[call];
      SetPhase(s, call,
        if p.purpose.Issue? then
          Issued(Credential(Claims(p.claims.uuid, p.row.username, p.claims.nickname, p.claims.avatar,
                                   p.row.version, issuedAt, expiresAt), secret), p.at)
        else if p.claims.version != 0 && p.claims.version != p.row.version then Refused(p.claims, p.row, p.at)
        else Admitted(p.claims, p.row, p.at))
  }

  function Bump(users: Users, uuid: Uuid): Users {
    if uuid in users then users[uuid := users[uuid].(version := users[uuid].version + 1)] else users
  }

  function Act(s: State, step: Step): State {
    match step
    case Present(call, credential, secrets, wellFormed, now, stale) =>
      if call in s.calls then s
      else SetPhase(s, call, if Verified(credential, secrets, wellFormed, now)
                             then ReadUser(s, Login, credential.claims, stale) else Failed)
    case Request(call, claims, wellFormed, stale) =>
      if call in s.calls then s
      else SetPhase(s, call, if wellFormed then ReadUser(s, Issue, claims.(version := 0), stale) else Failed)
    case Insert(call, id, reported, outcome) => InsertUser(s, call, id, reported, outcome)
    case Recheck(call, broken) => RecheckUser(s, call, broken)
    case Refresh(call, outcome) => RefreshUser(s, call, outcome)
    case Answer(call, secret, issuedAt, expiresAt) => AnswerCall(s, call, secret, issuedAt, expiresAt)
    case Revoke(uuid) => s.(users := Bump(s.users, uuid))
  }

  function Apply(s: State, step: Step): State {
    Act(s, step).(time := s.time + 1)
  }

  function Run(steps: seq<Step>): State
    decreases |steps|
  {
    if steps == [] then Initial else Apply(Run(steps[..|steps| - 1]), steps[|steps| - 1])
  }

  // ---- Versions count revocations ----

  predicate Revokes(step: Step, uuid: Uuid) {
    step.Revoke? && step.uuid == uuid
  }

  /** One step: a row is never deleted or renumbered, and its version moves by one exactly when it is revoked. */
  lemma StepVersion(s: State, step: Step, uuid: Uuid)
    requires uuid in s.users
    ensures uuid in Apply(s, step).users && Apply(s, step).users[uuid].id == s.users[uuid].id
    ensures Apply(s, step).users[uuid].version == s.users[uuid].version + if Revokes(step, uuid) then 1 else 0
  {
  }

  lemma {:induction false} TimeIsSteps(steps: seq<Step>)
    ensures Run(steps).time == |steps|
    decreases |steps|
  {
    if steps == [] {
    } else {
      TimeIsSteps(steps[..|steps| - 1]);
    }
  }

  function UsersAfter(steps: seq<Step>, n: nat): Users
    requires n <= |steps|
  {
    Run(steps[..n]).users
  }

  lemma RunNext(steps: seq<Step>, n: nat)
    requires n < |steps|
    ensures Run(steps[..n + 1]) == Apply(Run(steps[..n]), steps[n])
  {
    assert steps[..n + 1][..n] == steps[..n];
  }

  ghost predicate NoRevocation(steps: seq<Step>, i: nat, j: nat, uuid: Uuid)
    requires i <= j <= |steps|
  {
    forall k | i <= k < j :: !Revokes(steps[k], uuid)
  }

  lemma VersionNext(steps: seq<Step>, n: nat, uuid: Uuid)
    requires n < |steps| && uuid in UsersAfter(steps, n)
    ensures uuid in UsersAfter(steps, n + 1) && UsersAfter(steps, n + 1)[uuid].id == UsersAfter(steps, n)[uuid].id
    ensures UsersAfter(steps, n + 1)[uuid].version
            == UsersAfter(steps, n)[uuid].version + if Revokes(steps[n], uuid) then 1 else 0
  {
    RunNext(steps, n);
    StepVersion(Run(steps[..n]), steps[n], uuid);
  }

  /** Between two points of a run a user's version is unchanged exactly when nobody revoked that user. */
  lemma {:induction false} VersionIsRevocations(steps: seq<Step>, i: nat, j: nat, uuid: Uuid)
    requires i <= j <= |steps| && uuid in UsersAfter(steps, i)
    ensures uuid in UsersAfter(steps, j) && UsersAfter(steps, j)[uuid].id == UsersAfter(steps, i)[uuid].id
    ensures UsersAfter(steps, j)[uuid].version >= UsersAfter(steps, i)[uuid].version
    ensures UsersAfter(steps, j)[uuid].version == UsersAfter(steps, i)[uuid].version
       <==> NoRevocation(steps, i, j, uuid)
    decreases j
  {
    if i == j {
    } else {
      VersionIsRevocations(steps, i, j - 1, uuid);
      VersionNext(steps, j - 1, uuid);
    }
  }

  // ---- What a request holds was once stored ----

  /** The version a request holds of a user, and the point of the run it was the stored one. */
  datatype Held = Held(uuid: Uuid, version: nat, at: nat)

  function HeldBy(p: Phase): Option<Held> {
    match p
    case Rechecking(_, claims, Some(t)) => Some(Held(claims.uuid, 1, t))
    case Refreshing(_, claims, row, at) => Some(Held(claims.uuid, row.version, at))
    case Resolved(_, claims, row, at) => Some(Held(claims.uuid, row.version, at))
    case Admitted(claims, row, at) => Some(Held(claims.uuid, row.version, at))
    case Refused(claims, row, at) => Some(Held(claims.uuid, row.version, at))
    case Issued(credential, at) => Some(Held(credential.claims.uuid, credential.claims.version, at))
    case _ => None
  }

  /** An answer follows from the two versions compared. */
  predicate Justified(p: Phase) {
    && (p.Admitted? ==> p.claims.version == 0 || p.claims.version == p.row.version)
    && (p.Refused? ==> p.claims.version != 0 && p.claims.version != p.row.version)
  }

  predicate Stored(users: Users, h: Held) {
    h.uuid in users && users[h.uuid].version == h.version
  }

  /** What a step hands to a request it held before, or reads from the table just before or just after the step. */
  lemma StepHolds(s: State, step: Step, call: nat)
    requires call in Apply(s, step).calls && (call in s.calls ==> Justified(s.calls[call]))
    ensures var t := Apply(s, step); var h := HeldBy(t.calls[call]);
            && Justified(t.calls[call])
            && (|| h.None? || (call in s.calls && h == HeldBy(s.calls[call]))
                || (h.value.at == s.time && Stored(s.users, h.value))
                || (h.value.at == s.time + 1 && Stored(t.users, h.value)))
  {
  }

  ghost predicate PhaseInv(steps: seq<Step>, p: Phase) {
    && Justified(p)
    && (HeldBy(p).Some? ==>
          && HeldBy(p).value.at <= |steps|
          && Stored(UsersAfter(steps, HeldBy(p).value.at), HeldBy(p).value))
  }

  ghost predicate RunOk(steps: seq<Step>) {
    var s := Run(steps);
    s.time == |steps| && (forall u | u in s.users :: s.users[u].version >= 1)
    && forall call | call in s.calls :: PhaseInv(steps, s.calls[call])
  }

  lemma PositiveStep(s: State, step: Step)
    requires forall u | u in s.users :: s.users[u].version >= 1
    ensures forall u | u in Apply(s, step).users :: Apply(s, step).users[u].version >= 1
  {
  }

  lemma NextPhase(steps: seq<Step>, call: nat)
    requires steps != [] && RunOk(steps[..|steps| - 1]) && call in Run(steps).calls
    ensures PhaseInv(steps, Run(steps).calls[call])
  {
    var n := |steps| - 1;
    var s := Run(steps[..n]);
    if call in s.calls {
      assert PhaseInv(steps[..n], s.calls[call]);
    }
    StepHolds(s, steps[n], call);
    assert steps[..n + 1] == steps;
    assert forall k | 0 <= k <= n :: steps[..n][..k] == steps[..k];
  }

  lemma {:induction false} RunInv(steps: seq<Step>)
    ensures RunOk(steps)
    decreases |steps|
  {
    if steps == [] {
    } else {
      RunInv(steps[..|steps| - 1]);
      PositiveStep(Run(steps[..|steps| - 1]), steps[|steps| - 1]);
      forall call | call in Run(steps).calls ensures PhaseInv(steps, Run(steps).calls[call]) {
        NextPhase(steps, call);
      }
    }
  }

  // ---- Revocation ----

  predicate HasClaims(p: Phase) {
    !p.Issued? && !p.Failed?
  }

  /** Step i presents this credential as request `login`. */
  ghost predicate Presented(steps: seq<Step>, i: nat, login: nat, credential: Credential)
    requires i < |steps|
  {
    login !in Run(steps[..i]).calls && steps[i].Present? && steps[i].call == login && steps[i].credential == credential
  }

  /** What a request handles is what was presented, and it holds nothing it read earlier than that. */
  ghost predicate Handles(p: Phase, claims: Claims, i: nat) {
    (HasClaims(p) ==> p.claims == claims) && (HeldBy(p).Some? ==> HeldBy(p).value.at >= i)
  }

  lemma PresentHandles(s: State, step: Step)
    requires step.Present? && step.call !in s.calls
    ensures step.call in Apply(s, step).calls
    ensures Handles(Apply(s, step).calls[step.call], step.credential.claims, s.time)
  {
  }

  lemma HandlesStep(s: State, step: Step, call: nat, claims: Claims, i: nat)
    requires call in s.calls && Handles(s.calls[call], claims, i) && s.time >= i
    ensures call in Apply(s, step).calls && Handles(Apply(s, step).calls[call], claims, i)
  {
  }

  lemma {:induction false} PresentedHandles(steps: seq<Step>, i: nat, j: nat, login: nat, credential: Credential)
    requires i < j <= |steps| && Presented(steps, i, login, credential)
    ensures login in Run(steps[..j]).calls && Handles(Run(steps[..j]).calls[login], credential.claims, i)
    decreases j
  {
    RunNext(steps, j - 1);
    TimeIsSteps(steps[..j - 1]);
    if j - 1 == i {
      PresentHandles(Run(steps[..i]), steps[i]);
    } else {
      PresentedHandles(steps, i, j - 1, login, credential);
      HandlesStep(Run(steps[..j - 1]), steps[j - 1], login, credential.claims, i);
    }
  }

  lemma PhaseStays(steps: seq<Step>, i: nat, p: Phase)
    requires i <= |steps| && PhaseInv(steps[..i], p)
    ensures PhaseInv(steps, p) && (HeldBy(p).Some? ==> HeldBy(p).value.at <= i)
  {
    assert forall k | 0 <= k <= i :: steps[..i][..k] == steps[..k];
  }

  /** A login that presents an issued credential reads after the issue did, and handles the issued claims. */
  lemma LoginFollowsIssue(steps: seq<Step>, i: nat, issuer: nat, login: nat)
    requires i < |steps| && issuer in Run(steps[..i]).calls && Run(steps[..i]).calls[issuer].Issued?
    requires Presented(steps, i, login, Run(steps[..i]).calls[issuer].credential)
    ensures login in Run(steps).calls
    ensures var p, q := Run(steps[..i]).calls[issuer], Run(steps).calls[login];
            PhaseInv(steps, p) && p.at <= i && PhaseInv(steps, q) && Handles(q, p.credential.claims, i)
  {
    var p := Run(steps[..i]).calls[issuer];
    assert steps[..|steps|] == steps;
    assert PhaseInv(steps[..i], p) by { RunInv(steps[..i]); }
    PhaseStays(steps, i, p);
    PresentedHandles(steps, i, |steps|, login, p.credential);
    assert PhaseInv(steps, Run(steps).calls[login]) by { RunInv(steps); }
  }

  /** The version issued and the version found at login agree exactly when no revocation separates the two reads. */
  lemma VersionsDecide(steps: seq<Step>, p: Phase, q: Phase)
    requires PhaseInv(steps, p) && PhaseInv(steps, q) && p.Issued? && (q.Admitted? || q.Refused?)
    requires q.claims == p.credential.claims && p.at <= q.at <= |steps|
    ensures q.Admitted? <==> NoRevocation(steps, p.at, q.at, q.claims.uuid)
  {
    VersionIsRevocations(steps, p.at, q.at, q.claims.uuid);
    assert UsersAfter(steps, p.at)[q.claims.uuid].version >= 1 by { RunInv(steps[..p.at]); }
  }

  /** A credential is let through exactly when it is well formed, signed by an accepted secret, issued no more than a
      minute from now and expired no more than a minute ago; the times count only when they are set. */
  lemma WindowDecides(s: State, call: nat, c: Credential, secrets: set<Secret>, wellFormed: bool, now: real,
                      stale: bool)
    requires call !in s.calls
    ensures var t := Apply(s, Present(call, c, secrets, wellFormed, now, stale));
            && call in t.calls && t.users == s.users
            && (!t.calls[call].Failed? <==>
                  && wellFormed && c.secret in secrets
                  && (c.claims.issuedAt == 0 || now >= c.claims.issuedAt as real - 60.0)
                  && (c.claims.expiresAt == 0 || now <= c.claims.expiresAt as real + 60.0))
  {
  }

  lemma OnlyVerifiedGoesOn(s: State, step: Step)
    requires step.Present? && step.call !in s.calls
    ensures step.call in Apply(s, step).calls
    ensures Apply(s, step).calls[step.call].Failed?
       <==> !Verified(step.credential, step.secrets, step.wellFormed, step.now)
  {
  }

  /** Revocation is exact: when a credential that had been issued is presented, the login that results is admitted if
      and only if the user was not revoked between the issue's read and the login's, which comes later. */
  lemma RevocationDecides(steps: seq<Step>, i: nat, issuer: nat, login: nat)
    requires i < |steps| && issuer in Run(steps[..i]).calls && Run(steps[..i]).calls[issuer].Issued?
    requires Presented(steps, i, login, Run(steps[..i]).calls[issuer].credential)
    ensures login in Run(steps).calls && login in Run(steps[..i + 1]).calls
    ensures Run(steps[..i + 1]).calls[login].Failed?
       <==> !Verified(steps[i].credential, steps[i].secrets, steps[i].wellFormed, steps[i].now)
    ensures var p, q := Run(steps[..i]).calls[issuer], Run(steps).calls[login];
            q.Admitted? || q.Refused? ==>
              && p.at <= i <= q.at <= |steps| && q.claims == p.credential.claims
              && (q.Admitted? <==> NoRevocation(steps, p.at, q.at, q.claims.uuid))
  {
    RunNext(steps, i);
    OnlyVerifiedGoesOn(Run(steps[..i]), steps[i]);
    LoginFollowsIssue(steps, i, issuer, login);
    var p, q := Run(steps[..i]).calls[issuer], Run(steps).calls[login];
    if q.Admitted? || q.Refused? {
      assert HeldBy(q) == Some(Held(q.claims.uuid, q.row.version, q.at));
      VersionsDecide(steps, p, q);
    }
  }

  // ---- First logins race for one row ----

  ghost predicate SameRow(s: State, p: Phase) {
    match p
    case Refreshing(_, claims, row, _) => claims.uuid in s.users && row.id == s.users[claims.uuid].id
    case Resolved(_, claims, row, _) => claims.uuid in s.users && (row.id != 0 ==> row.id == s.users[claims.uuid].id)
    case Admitted(claims, row, _) => claims.uuid in s.users && (row.id != 0 ==> row.id == s.users[claims.uuid].id)
    case Rechecking(_, claims, Some(_)) => claims.uuid in s.users
    case _ => true
  }

  lemma RowStep(s: State, step: Step, call: nat)
    requires call in Apply(s, step).calls && (call in s.calls ==> SameRow(s, s.calls[call]))
    ensures SameRow(Apply(s, step), Apply(s, step).calls[call])
  {
    forall uuid | uuid in s.users
      ensures uuid in Apply(s, step).users && Apply(s, step).users[uuid].id == s.users[uuid].id
    {
      StepVersion(s, step, uuid);
    }
  }

  lemma {:induction false} RowsAgree(steps: seq<Step>)
    ensures forall call | call in Run(steps).calls :: SameRow(Run(steps), Run(steps).calls[call])
    decreases |steps|
  {
    if steps == [] {
    } else {
      RowsAgree(steps[..|steps| - 1]);
      forall call | call in Run(steps).calls ensures SameRow(Run(steps), Run(steps).calls[call]) {
        RowStep(Run(steps[..|steps| - 1]), steps[|steps| - 1], call);
      }
    }
  }

  /** However many first logins race, all that learn an id learn the same one. */
  lemma OneUserPerUuid(steps: seq<Step>, a: nat, b: nat)
    requires a in Run(steps).calls && b in Run(steps).calls
    requires Run(steps).calls[a].Admitted? && Run(steps).calls[b].Admitted?
    requires Run(steps).calls[a].claims.uuid == Run(steps).calls[b].claims.uuid
    requires Run(steps).calls[a].row.id != 0 && Run(steps).calls[b].row.id != 0
    ensures Run(steps).calls[a].row.id == Run(steps).calls[b].row.id
  {
    RowsAgree(steps);
    assert SameRow(Run(steps), Run(steps).calls[a]) && SameRow(Run(steps), Run(steps).calls[b]);
  }

  // ---- A minimal credential and a richer profile ----

  predicate SameDisplay(a: User, b: User) {
    a.nickname == b.nickname && a.avatar == b.avatar
  }

  /** The row a refresh works from is the one stored at the point it records. */
  ghost predicate ReadAt(steps: seq<Step>, p: Phase) {
    p.Refreshing? ==>
      && p.at <= |steps| && p.claims.uuid in UsersAfter(steps, p.at)
      && p.row == UsersAfter(steps, p.at)[p.claims.uuid]
  }

  lemma StepReads(s: State, step: Step, call: nat)
    requires call in Apply(s, step).calls && Apply(s, step).calls[call].Refreshing?
    ensures var p := Apply(s, step).calls[call];
            || (call in s.calls && s.calls[call] == p)
            || (p.at == s.time && p.claims.uuid in s.users && p.row == s.users[p.claims.uuid])
  {
  }

  lemma {:induction false} RefreshReads(steps: seq<Step>, call: nat)
    requires call in Run(steps).calls
    ensures ReadAt(steps, Run(steps).calls[call])
    decreases |steps|
  {
    if steps == [] || !Run(steps).calls[call].Refreshing? {
    } else {
      var n := |steps| - 1;
      var s := Run(steps[..n]);
      TimeIsSteps(steps[..n]);
      StepReads(s, steps[n], call);
      assert forall k | 0 <= k <= n :: steps[..n][..k] == steps[..k];
      if call in s.calls && s.calls[call] == Run(steps).calls[call] {
        RefreshReads(steps[..n], call);
      }
    }
  }

  /** The step writes this user's profile. */
  predicate Refreshes(s: State, step: Step, uuid: Uuid) {
    step.Refresh? && !step.outcome.Undone? && step.call in s.calls && s.calls[step.call].Refreshing?
    && s.calls[step.call].claims.uuid == uuid
  }

  ghost predicate NoRefresh(steps: seq<Step>, i: nat, j: nat, uuid: Uuid)
    requires i <= j <= |steps|
  {
    forall k | i <= k < j :: !Refreshes(Run(steps[..k]), steps[k], uuid)
  }

  lemma DisplayStep(s: State, step: Step, uuid: Uuid)
    requires uuid in s.users && !Refreshes(s, step, uuid)
    ensures uuid in Apply(s, step).users && SameDisplay(Apply(s, step).users[uuid], s.users[uuid])
  {
  }

  lemma DisplayNext(steps: seq<Step>, n: nat, uuid: Uuid)
    requires n < |steps| && uuid in UsersAfter(steps, n) && !Refreshes(Run(steps[..n]), steps[n], uuid)
    ensures uuid in UsersAfter(steps, n + 1)
    ensures SameDisplay(UsersAfter(steps, n + 1)[uuid], UsersAfter(steps, n)[uuid])
  {
    RunNext(steps, n);
    DisplayStep(Run(steps[..n]), steps[n], uuid);
  }

  lemma {:induction false} DisplayStays(steps: seq<Step>, i: nat, j: nat, uuid: Uuid)
    requires i <= j <= |steps| && uuid in UsersAfter(steps, i) && NoRefresh(steps, i, j, uuid)
    ensures uuid in UsersAfter(steps, j) && SameDisplay(UsersAfter(steps, j)[uuid], UsersAfter(steps, i)[uuid])
    decreases j
  {
    if i == j {
    } else {
      DisplayStays(steps, i, j - 1, uuid);
      DisplayNext(steps, j - 1, uuid);
    }
  }

  /** In every run, the refresh of a minimal credential leaves the stored display fields alone if and only if they are
      what the table held when the request read it; so it does whenever no other refresh of that user was written in
      between. It never touches id or version. */
  lemma MinimalRefresh(steps: seq<Step>, call: nat, outcome: Outcome)
    requires !outcome.Undone?
    requires call in Run(steps).calls && Run(steps).calls[call].Refreshing?
    requires Run(steps).calls[call].claims.nickname == "" && Run(steps).calls[call].claims.avatar == ""
    ensures var p := Run(steps).calls[call]; var uuid := p.claims.uuid;
            var after := Apply(Run(steps), Refresh(call, outcome)).users;
            && p.at <= |steps| && uuid in UsersAfter(steps, p.at) && uuid in Run(steps).users && uuid in after
            && after[uuid].username == p.claims.name
            && after[uuid].version == Run(steps).users[uuid].version && after[uuid].id == Run(steps).users[uuid].id
            && (SameDisplay(after[uuid], Run(steps).users[uuid])
                <==> SameDisplay(UsersAfter(steps, p.at)[uuid], Run(steps).users[uuid]))
            && (NoRefresh(steps, p.at, |steps|, uuid) ==> SameDisplay(after[uuid], Run(steps).users[uuid]))
  {
    var p := Run(steps).calls[call];
    assert steps[..|steps|] == steps;
    RefreshReads(steps, call);
    VersionIsRevocations(steps, p.at, |steps|, p.claims.uuid);
    WritesWhatItRead(Run(steps), call, outcome);
    if NoRefresh(steps, p.at, |steps|, p.claims.uuid) {
      DisplayStays(steps, p.at, |steps|, p.claims.uuid);
    }
  }

  lemma WritesWhatItRead(s: State, call: nat, outcome: Outcome)
    requires !outcome.Undone?
    requires call in s.calls && s.calls[call].Refreshing? && s.calls[call].claims.uuid in s.users
    requires s.calls[call].claims.nickname == "" && s.calls[call].claims.avatar == ""
    ensures var p := s.calls[call]; var after := Apply(s, Refresh(call, outcome)).users;
            && p.claims.uuid in after && SameDisplay(after[p.claims.uuid], p.row)
            && after[p.claims.uuid].username == p.claims.name
            && after[p.claims.uuid].version == s.users[p.claims.uuid].version
            && after[p.claims.uuid].id == s.users[p.claims.uuid].id
  {
  }

  /** It can lose them, from any state: a minimal login (a) that read the row before a richer login (b) wrote it
      puts the old nickname back. */
  lemma MinimalLoginClobbers(s: State, a: nat, b: nat, bare: Credential, rich: Credential,
                             secrets: set<Secret>, now: real)
    requires a != b && a !in s.calls && b !in s.calls
    requires bare.claims.uuid == rich.claims.uuid && rich.claims.uuid in s.users
    requires Verified(bare, secrets, true, now) && Verified(rich, secrets, true, now)
    requires bare.claims.nickname == "" && rich.claims.nickname != ""
    requires s.users[rich.claims.uuid].nickname != Some(rich.claims.nickname)
    ensures var uuid := rich.claims.uuid;
            var one := Apply(s, Present(a, bare, secrets, true, now, true));
            var read := Apply(one, Present(b, rich, secrets, true, now, false));
            var wrote := Apply(read, Refresh(b, Done)); var lost := Apply(wrote, Refresh(a, Done));
            && uuid in wrote.users && wrote.users[uuid].nickname == Some(rich.claims.nickname)
            && uuid in lost.users && lost.users[uuid].nickname == s.users[uuid].nickname
  {
    var row := s.users[rich.claims.uuid];
    var one := Apply(s, Present(a, bare, secrets, true, now, true));
    assert one.calls == s.calls[a := Refreshing(Login, bare.claims, row, s.time)];
    var two := Apply(one, Present(b, rich, secrets, true, now, false));
    assert two.calls == one.calls[b := Refreshing(Login, rich.claims, row, one.time)];
  }

  // ---- What a request comes to when nothing interferes ----

  /** The first login of a user registers it: the row carries the credential's name and whatever display fields are not
      blank, at version 1; the login is admitted unless the credential names another version. */
  lemma FirstLogin(s: State, call: nat, c: Credential, secrets: set<Secret>, now: real, id: nat)
    requires call !in s.calls && c.claims.uuid !in s.users && id != 0 && Verified(c, secrets, true, now)
    ensures var t := Apply(Apply(s, Present(call, c, secrets, true, now, false)), Insert(call, id, true, Done));
            var u := Apply(t, Answer(call, 0, 0, 0));
            && u.users == s.users[c.claims.uuid := u.users[c.claims.uuid]]
            && var row := u.users[c.claims.uuid];
               && row.id == id && row.username == c.claims.name && row.version == 1
               && (row.nickname.None? || row.nickname == Some(c.claims.nickname))
               && (row.avatar.None? || row.avatar == Some(c.claims.avatar))
               && (row.nickname.None? <==> forall i | 0 <= i < |c.claims.nickname| :: IsSpace(c.claims.nickname[i]))
               && (row.avatar.None? <==> forall i | 0 <= i < |c.claims.avatar| :: IsSpace(c.claims.avatar[i]))
               && call in u.calls && u.calls[call] == (if c.claims.version == 0 || c.claims.version == 1
                                                       then Admitted(c.claims, row, s.time + 2)
                                                       else Refused(c.claims, row, s.time + 2))
  {
    var t := Apply(s, Present(call, c, secrets, true, now, false));
    assert t == State(s.users, s.calls[call := Inserting(Login, c.claims)], s.time + 1);
  }

  /** A request of a known user, login or issue: the name always follows the credential, a display field follows it when
      the credential carries one and is kept otherwise, and nothing else of any row moves. */
  lemma KnownUser(s: State, call: nat, p: Phase, stale: bool)
    requires call !in s.calls && p.Inserting? && p.claims.uuid in s.users
    ensures var uuid := p.claims.uuid; var was := s.users[uuid];
            var read := s.(calls := s.calls[call := ReadUser(s, p.purpose, p.claims, stale)]);
            var t := if read.calls[call].Refreshing? then Apply(read, Refresh(call, Done)) else read;
            && uuid in t.users && t.users == s.users[uuid := t.users[uuid]]
            && var row := t.users[uuid];
               && row == was.(username := p.claims.name, nickname := row.nickname, avatar := row.avatar)
               && row.nickname == (if p.claims.nickname == "" then was.nickname else Some(p.claims.nickname))
               && row.avatar == (if p.claims.avatar == "" then was.avatar else Some(p.claims.avatar))
               && call in t.calls && t.calls[call] == Resolved(p.purpose, p.claims, row, s.time)
  {
  }

  /** A well-formed request starts with that read, under the purpose it was made for. */
  lemma RequestsRead(s: State, call: nat, c: Credential, secrets: set<Secret>, now: real, claims: Claims, stale: bool)
    requires call !in s.calls && Verified(c, secrets, true, now)
    ensures Apply(s, Present(call, c, secrets, true, now, stale)).calls
            == s.calls[call := ReadUser(s, Login, c.claims, stale)]
    ensures Apply(s, Request(call, claims, true, stale)).calls
            == s.calls[call := ReadUser(s, Issue, claims.(version := 0), stale)]
    ensures ReadUser(s, Login, c.claims, stale).Inserting? <==> c.claims.uuid !in s.users
  {
  }

  /** An issue signs, with the given secret and times, the user's own uuid, stored name and stored version, and the
      display fields it was asked for. */
  lemma IssueSigns(s: State, call: nat, secret: Secret, issuedAt: int, expiresAt: int)
    requires call in s.calls && s.calls[call].Resolved? && s.calls[call].purpose.Issue?
    ensures var p := s.calls[call]; var t := Apply(s, Answer(call, secret, issuedAt, expiresAt));
            && call in t.calls && t.calls[call].Issued? && t.calls[call].at == p.at && t.users == s.users
            && var c := t.calls[call].credential;
               && c.secret == secret && c.claims.issuedAt == issuedAt && c.claims.expiresAt == expiresAt
               && c.claims.uuid == p.claims.uuid && c.claims.name == p.row.username && c.claims.version == p.row.version
               && c.claims.nickname == p.claims.nickname && c.claims.avatar == p.claims.avatar
  {
  }

  /** A registration whose id the driver does not report, or whose insert it calls failed, is looked up again; without
      an answer the first goes on under id 0, the second fails. */
  lemma InsertThenRecheck(s: State, call: nat, id: nat, outcome: Outcome, broken: bool)
    requires call in s.calls && s.calls[call].Inserting? && s.calls[call].claims.uuid !in s.users && !outcome.Undone?
    ensures var p := s.calls[call]; var t := Apply(Apply(s, Insert(call, id, false, outcome)), Recheck(call, broken));
            && t.users == s.users[p.claims.uuid := NewUser(id, p.claims)] && call in t.calls
            && t.calls[call] == (if broken && !outcome.Done? then Failed
                                 else Resolved(p.purpose, p.claims, NewUser(if broken then 0 else id, p.claims),
                                               s.time + 1))
  {
  }

  /** Whoever loses the race to register falls back on the winner's row, and fails only if that read fails. */
  lemma LoserFindsWinner(s: State, call: nat, id: nat, reported: bool, outcome: Outcome, broken: bool)
    requires call in s.calls && s.calls[call].Inserting? && s.calls[call].claims.uuid in s.users
    ensures var p := s.calls[call];
            var t := Apply(Apply(s, Insert(call, id, reported, outcome)), Recheck(call, broken));
            && t.users == s.users && call in t.calls
            && t.calls[call] == (if broken then Failed
                                 else Resolved(p.purpose, p.claims, s.users[p.claims.uuid], s.time + 1))
  {
  }

  // ---- The table, imperatively ----

  class UserTable {
    var users: Users

    constructor ()
      ensures users == map[]
    {
      users := map[];
    }

    /** `RevokeUser`. */
    method RevokeUser(uuid: Uuid) returns (found: bool)
      modifies this
      ensures users == Bump(old(users), uuid) && (found <==> uuid in old(users))
      ensures found ==> users[uuid].version > old(users)[uuid].version
    {
      if uuid !in users {
        return false;
      }
      users := users[uuid := users[uuid].(version := users[uuid].version + 1)];
      return true;
    }

    /** `resolveUser`. Any statement may fail, or take effect although the driver reports an error; another request may
        register the same user between the read and the insert (`winner`); the driver may not report the new id. Only
        this user's row changes, its version never does, and the display fields change only to what the credential
        carries. */
    method ResolveUser(claims: Claims, readFails: bool, stale: bool, update: Outcome,
                       winner: Option<User>, insert: Outcome, id: nat, reported: bool, lookupFails: bool)
      returns (r: Option<User>)
      modifies this
      ensures forall u | u != claims.uuid ::
                (u in users <==> u in old(users)) && (u in users ==> users[u] == old(users)[u])
      ensures readFails ==> r.None? && users == old(users)
      ensures !readFails && claims.uuid in old(users) ==>
                var was := old(users)[claims.uuid];
                && claims.uuid in users
                && users[claims.uuid] == (if update.Undone? then was else Refreshed(was, claims))
                && r == Some(if update.Done? then Refreshed(was, claims) else was)
      ensures !readFails && claims.uuid !in old(users) && winner.Some? ==>
                && claims.uuid in users && users[claims.uuid] == winner.value
                && r == (if lookupFails then None else winner)
      ensures !readFails && claims.uuid !in old(users) && winner.None? && insert.Undone? ==>
                r.None? && users == old(users)
      ensures !readFails && claims.uuid !in old(users) && winner.None? && !insert.Undone? ==>
                && claims.uuid in users && users[claims.uuid] == NewUser(id, claims)
                && r == (if insert.Unheard? && lookupFails then None
                         else Some(NewUser(if !reported && lookupFails then 0 else id, claims)))
    {
      if readFails {
        return None;
      }
      if claims.uuid in users {
        r := RefreshProfile(claims, stale, update);
        return;
      }
      if winner.Some? {
        users := users[claims.uuid := winner.value];
      }
      if claims.uuid in users || !insert.Done? {
        if claims.uuid !in users && insert.Unheard? {
          users := users[claims.uuid := NewUser(id, claims)];
        }
        if !lookupFails && claims.uuid in users {
          return Some(users[claims.uuid]);
        }
        return None;
      }
      users := users[claims.uuid := NewUser(id, claims)];
      if (!reported || id == 0) && !lookupFails {
        return Some(users[claims.uuid]);
      }
      return Some(NewUser(if reported then id else 0, claims));
    }

    /** Its second half: write back what the credential changes, or leave the row alone. */
    method RefreshProfile(claims: Claims, stale: bool, update: Outcome) returns (r: Option<User>)
      requires claims.uuid in users
      modifies this
      ensures claims.uuid in users && users == old(users)[claims.uuid := users[claims.uuid]]
      ensures var was := old(users)[claims.uuid];
              && users[claims.uuid] == (if update.Undone? then was else Refreshed(was, claims))
              && r == Some(if update.Done? then Refreshed(was, claims) else was)
    {
      var user := users[claims.uuid];
      if user.username != claims.name || stale
         || (claims.nickname != "" && (user.nickname.None? || user.nickname.value != claims.nickname))
         || (claims.avatar != "" && (user.avatar.None? || user.avatar.value != claims.avatar)) {
        var next := user;
        if user.username != claims.name {
          next := next.(username := claims.name);
        }
        if claims.nickname != "" {
          next := next.(nickname := Some(claims.nickname));
        }
        if claims.avatar != "" {
          next := next.(avatar := Some(claims.avatar));
        }
        if !update.Undone? {
          users := users[claims.uuid := next];
        }
        return Some(if update.Done? then next else user);
      }
      return Some(user);
    }
  }
}
