// Refresh-token rotation (dashboard/src/persistentSession.ts): every function is
// cut at its awaits, and timers, 401 hooks, sign-ins and the answers of the
// server and of the OS vault interleave freely. An answer may be lost after the
// server has rotated, and a request that was given up may still arrive.
module SessionModel {
  import opened Basics

  type Token = nat

  const RENEW_MARGIN: real := 60.0
  const RETRY_DELAY: real := 30.0

  // `rotate()` at its awaits: loading the secret, waiting for the answer (the
  // server may have rotated already), storing the new token, clearing after a
  // failed store, and clearing after a refusal.
  datatype Rotation =
    | Loading
    | Presented(secret: Token)
    | Rotated(secret: Token, next: Token)
    | Storing(secret: Token, next: Token, lifetime: Option<real>)
    | Clearing(secret: Token, lifetime: Option<real>)
    | Forgetting

  // `acceptTokens()` of a sign-in at its awaits.
  datatype SignIn =
    | Keeping(token: Token, lifetime: Option<real>)
    | Dropping(lifetime: Option<real>)

  datatype State = State(
    content: Option<Token>,            // what the OS vault holds
    timer: Option<real>,               // delay of the pending renewal
    inflight: Option<nat>,             // the variable of the module
    rotations: map<nat, Rotation>,     // the calls of rotate() that have not returned
    awaited: set<nat>,                 // those a timer callback waits for
    signIns: map<nat, SignIn>,
    nextId: nat,
    issued: Token,                     // the server issues tokens in increasing order
    consumed: set<Token>,
    abandoned: set<Token>,             // those of requests given up unanswered
    presented: seq<Token>,             // refresh requests sent
    replays: nat,                      // how many of them carried a consumed token
    stale: bool)                       // the vault was left holding a consumed token

  datatype Event =
    | SignedIn(lifetime: Option<real>)
    | SignInStored(id: nat, ok: bool)
    | SignInCleared(id: nat, ok: bool)
    | TimerFires
    | Hook
    | Loaded(id: nat)
    | ServerRotates(id: nat)
    | Answered(id: nat, lifetime: Option<real>)
    | Refused(id: nat)
    | Unreachable(id: nat)
    | Bare(id: nat, jwt: bool)
    | ArrivesLate(secret: Token)
    | Stored(id: nat, ok: bool)
    | Cleared(id: nat, ok: bool)
    | Forgot(id: nat, ok: bool)
    | Configure

  // --- renewal ---------------------------------------------------------------

  function Max(x: real, y: real): real {
    if x >= y then x else y
  }

  function Lifetime(expiresIn: Option<real>): real {
    if expiresIn.Some? && expiresIn.value > 0.0 then expiresIn.value else 900.0
  }

  function RenewalDelay(expiresIn: Option<real>): real {
    var lifetime := Lifetime(expiresIn);
    Max(lifetime - RENEW_MARGIN, lifetime / 2.0)
  }

  function Schedule(s: State, delay: real): State {
    s.(timer := Some(Max(delay, 1.0)))
  }

  // The renewal fires strictly before the token expires exactly for lifetimes
  // above one second.
  lemma RenewalBeforeExpiry(s: State, expiresIn: Option<real>)
    ensures Schedule(s, RenewalDelay(expiresIn)).timer.value < Lifetime(expiresIn) <==> Lifetime(expiresIn) > 1.0
    ensures Lifetime(expiresIn) >= 120.0 ==>
              Schedule(s, RenewalDelay(expiresIn)).timer.value == Lifetime(expiresIn) - 60.0
    ensures Lifetime(expiresIn) == if expiresIn.Some? && expiresIn.value > 0.0 then expiresIn.value else 15.0 * 60.0
    ensures 2.0 <= Lifetime(expiresIn) <= 120.0 ==>
              Schedule(s, RenewalDelay(expiresIn)).timer.value == Lifetime(expiresIn) / 2.0
  {
  }

  // --- transitions -----------------------------------------------------------

  // A request for a refresh is outstanding.
  predicate Outstanding(r: Rotation) {
    r.Presented? || r.Rotated?
  }

  ghost predicate Enabled(s: State, e: Event) {
    match e
    case SignInStored(id, _) => id in s.signIns && s.signIns[id].Keeping?
    case SignInCleared(id, _) => id in s.signIns && s.signIns[id].Dropping?
    case TimerFires => s.timer.Some?
    case Loaded(id) => id in s.rotations && s.rotations[id].Loading?
    // Only a token that was not consumed is rotated.
    case ServerRotates(id) =>
      id in s.rotations && s.rotations[id].Presented? && s.rotations[id].secret !in s.consumed
    case Answered(id, _) => id in s.rotations && s.rotations[id].Rotated?
    // A 401, any other failure, and a good answer without a refresh token may come
    // from anyone on the way, whatever the server did.
    case Refused(id) => id in s.rotations && Outstanding(s.rotations[id])
    case Unreachable(id) => id in s.rotations && Outstanding(s.rotations[id])
    case Bare(id, _) => id in s.rotations && Outstanding(s.rotations[id])
    case ArrivesLate(secret) => secret in s.abandoned && secret !in s.consumed
    case Stored(id, _) => id in s.rotations && s.rotations[id].Storing?
    case Cleared(id, _) => id in s.rotations && s.rotations[id].Clearing?
    case Forgot(id, _) => id in s.rotations && s.rotations[id].Forgetting?
    case _ => true
  }

  // `inflight ??= rotate()`
  function Refresh(s: State): State {
    if s.inflight.Some? then s
    else s.(inflight := Some(s.nextId), rotations := s.rotations[s.nextId := Loading], nextId := s.nextId + 1)
  }

  // `.finally(() => { inflight = null; })`
  function Finish(s: State, id: nat): State {
    s.(inflight := None, rotations := s.rotations - {id}, awaited := s.awaited - {id})
  }

  // A timer callback retries when the server was not reached.
  function GiveUp(s: State, id: nat): State {
    if id in s.awaited then Schedule(Finish(s, id), RETRY_DELAY) else Finish(s, id)
  }

  // The client stops following a request: what the server did, or may still do,
  // with its token never reaches the vault.
  function Forsake(s: State, id: nat): State
    requires id in s.rotations && Outstanding(s.rotations[id])
  {
    var r := s.rotations[id];
    if r.Rotated? then s.(stale := s.stale || s.content == Some(r.secret))
    else s.(abandoned := s.abandoned + {r.secret})
  }

  function Write(s: State, token: Token): State {
    s.(content := Some(token), stale := false)
  }

  function Clear(s: State, ok: bool): State {
    if ok then s.(content := None, stale := false) else s
  }

  function Present(s: State, id: nat): State
    requires s.content.Some?
  {
    var secret := s.content.value;
    s.(rotations := s.rotations[id := Presented(secret)],
       presented := s.presented + [secret],
       replays := if secret in s.consumed then s.replays + 1 else s.replays)
  }

  function Step(s: State, e: Event): State
    requires Enabled(s, e)
  {
    match e
    case SignedIn(lifetime) =>
      s.(signIns := s.signIns[s.nextId := Keeping(s.issued, lifetime)], nextId := s.nextId + 1, issued := s.issued + 1)
    case SignInStored(id, ok) =>
      var op := s.signIns[id];
      if ok then
        Schedule(Write(s, op.token).(signIns := s.signIns - {id}), RenewalDelay(op.lifetime))
      else s.(signIns := s.signIns[id := Dropping(op.lifetime)])
    case SignInCleared(id, ok) =>
      Schedule(Clear(s, ok).(signIns := s.signIns - {id}), RenewalDelay(s.signIns[id].lifetime))
    case TimerFires =>
      var r := Refresh(s.(timer := None));
      r.(awaited := r.awaited + {r.inflight.value})
    case Hook => Refresh(s)
    case Loaded(id) => if s.content.None? then Finish(s, id) else Present(s, id)
    case ServerRotates(id) =>
      var secret := s.rotations[id].secret;
      s.(rotations := s.rotations[id := Rotated(secret, s.issued)],
         issued := s.issued + 1, consumed := s.consumed + {secret})
    case Answered(id, lifetime) =>
      s.(rotations := s.rotations[id := Storing(s.rotations[id].secret, s.rotations[id].next, lifetime)])
    case Refused(id) => Forsake(s, id).(timer := None, rotations := s.rotations[id := Forgetting])
    case Unreachable(id) => GiveUp(Forsake(s, id), id)
    case Bare(id, jwt) => if jwt then Finish(Forsake(s, id), id) else GiveUp(Forsake(s, id), id)
    case ArrivesLate(secret) =>
      s.(issued := s.issued + 1, consumed := s.consumed + {secret}, stale := s.stale || s.content == Some(secret))
    case Stored(id, ok) =>
      var op := s.rotations[id];
      if ok then Finish(Schedule(Write(s, op.next), RenewalDelay(op.lifetime)), id)
      else s.(rotations := s.rotations[id := Clearing(op.secret, op.lifetime)])
    case Cleared(id, ok) =>
      var op := s.rotations[id];
      var left := if ok then Clear(s, true) else s.(stale := s.stale || s.content == Some(op.secret));
      Finish(Schedule(left, RenewalDelay(op.lifetime)), id)
    case Forgot(id, ok) => Finish(Clear(s, ok), id)
    case Configure => s.(timer := None, inflight := None)
  }

  // --- the invariant ---------------------------------------------------------

  // The old token of a rotation the server has carried out but the vault not yet.
  predicate Settling(r: Rotation) {
    r.Rotated? || r.Storing? || r.Clearing?
  }

  predicate Carries(r: Rotation) {
    r.Rotated? || r.Storing?
  }

  // At most one rotation is running, the one `inflight` names.
  ghost predicate SingleFlight(s: State) {
    s.rotations.Keys == if s.inflight.Some? then {s.inflight.value} else {}
  }

  // A token on its way into the vault has never been there.
  ghost predicate Unused(s: State, t: Token) {
    && t < s.issued && t !in s.consumed && t !in s.abandoned && s.content != Some(t)
    && forall id :: id in s.rotations && s.rotations[id].Presented? ==> s.rotations[id].secret != t
  }

  ghost predicate PendingUnused(s: State) {
    && (forall id :: id in s.signIns && s.signIns[id].Keeping? ==> Unused(s, s.signIns[id].token))
    && (forall id :: id in s.rotations && Carries(s.rotations[id]) ==> Unused(s, s.rotations[id].next))
  }

  ghost predicate PendingDistinct(s: State) {
    && (forall i, j :: i in s.signIns && j in s.signIns && i != j && s.signIns[i].Keeping? && s.signIns[j].Keeping? ==>
          s.signIns[i].token != s.signIns[j].token)
    && (forall i, j :: i in s.signIns && s.signIns[i].Keeping? && j in s.rotations && Carries(s.rotations[j]) ==>
          s.signIns[i].token != s.rotations[j].next)
  }

  ghost predicate RotationsKnown(s: State) {
    forall id :: id in s.rotations ==>
      var r := s.rotations[id];
      && (r.Presented? ==> r.secret < s.issued && (s.stale ==> s.content == Some(r.secret)))
      && (Settling(r) ==> r.secret in s.consumed && !s.stale)
  }

  // The vault holds a consumed token only while the rotation that consumed it is
  // settling, or when it is stale.
  ghost predicate VaultKnown(s: State) {
    && (s.content.Some? ==> s.content.value < s.issued)
    && (s.content.Some? && s.content.value in s.consumed ==>
          s.stale || exists id :: id in s.rotations && Settling(s.rotations[id]) && s.rotations[id].secret == s.content.value)
    && (s.stale ==> s.content.Some? && s.content.value in s.consumed)
  }

  predicate HasSecret(r: Rotation) {
    Outstanding(r) || Settling(r)
  }

  // What is stored while a rotation runs was never sent.
  ghost predicate AbandonedKnown(s: State) {
    && (forall t :: t in s.abandoned ==> t < s.issued)
    && (forall id :: id in s.rotations && HasSecret(s.rotations[id]) && s.content.Some? && s.content.value in s.abandoned ==>
          s.content.value == s.rotations[id].secret)
  }

  ghost predicate Inv(s: State) {
    && SingleFlight(s)
    && PendingUnused(s)
    && PendingDistinct(s)
    && RotationsKnown(s)
    && VaultKnown(s)
    && AbandonedKnown(s)
    && (forall t :: t in s.consumed ==> t < s.issued)
    && (forall id :: id in s.rotations || id in s.signIns ==> id < s.nextId)
  }

  // The vault is configured while no rotation is running.
  ghost predicate ConfiguredIdle(s: State, e: Event) {
    e.Configure? ==> s.rotations == map[]
  }

  // The three ways the vault is left with a consumed token: the clear after a
  // failed store fails, the answer to a rotation never comes with its token, and
  // the server carries out a request the client had given up.
  ghost predicate Strands(s: State, e: Event)
    requires Enabled(s, e)
  {
    match e
    case Cleared(id, ok) => !ok && s.content == Some(s.rotations[id].secret)
    case Refused(id) => s.rotations[id].Rotated? && s.content == Some(s.rotations[id].secret)
    case Unreachable(id) => s.rotations[id].Rotated? && s.content == Some(s.rotations[id].secret)
    case Bare(id, _) => s.rotations[id].Rotated? && s.content == Some(s.rotations[id].secret)
    case ArrivesLate(secret) => s.content == Some(secret)
    case _ => false
  }

  // A request that was given up arrives ahead of the one that repeats it.
  ghost predicate Overtakes(s: State, e: Event) {
    e.ArrivesLate? && exists id :: id in s.rotations && s.rotations[id] == Presented(e.secret)
  }

  // None of these happens.
  ghost predicate Careful(s: State, e: Event)
    requires Enabled(s, e)
  {
    ConfiguredIdle(s, e) && !Strands(s, e) && !Overtakes(s, e)
  }

  lemma SignInStoredKeepsInv(s: State, id: nat, ok: bool)
    requires Inv(s) && Enabled(s, SignInStored(id, ok))
    ensures Inv(Step(s, SignInStored(id, ok)))
  {
  }

  lemma SignInKeepsInv(s: State, e: Event)
    requires Inv(s) && Enabled(s, e) && (e.SignedIn? || e.SignInCleared?)
    ensures Inv(Step(s, e))
  {
  }

  lemma RefreshKeepsInv(s: State)
    requires Inv(s)
    ensures Inv(Refresh(s))
  {
  }

  lemma ConfigureKeepsInv(s: State)
    requires Inv(s) && s.rotations == map[]
    ensures Inv(Step(s, Configure))
  {
  }

  // Which callbacks wait, and for when the timer is set, is no concern of the tokens.
  lemma TimersAreFree(s: State, timer: Option<real>, awaited: set<nat>)
    requires Inv(s)
    ensures Inv(s.(timer := timer, awaited := awaited))
  {
  }

  lemma StartKeepsInv(s: State, e: Event)
    requires Inv(s) && Enabled(s, e) && ConfiguredIdle(s, e) && (e.TimerFires? || e.Hook? || e.Configure?)
    ensures Inv(Step(s, e))
  {
    hide Inv;
    if e.Configure? {
      ConfigureKeepsInv(s);
    } else if e.Hook? {
      RefreshKeepsInv(s);
    } else {
      TimersAreFree(s, None, s.awaited);
      var r := Refresh(s.(timer := None));
      RefreshKeepsInv(s.(timer := None));
      TimersAreFree(r, r.timer, r.awaited + {r.inflight.value});
    }
  }

  lemma LoadedKeepsInv(s: State, id: nat)
    requires Inv(s) && Enabled(s, Loaded(id))
    ensures Inv(Step(s, Loaded(id)))
  {
  }

  lemma ServerKeepsInv(s: State, id: nat)
    requires Inv(s) && Enabled(s, ServerRotates(id))
    ensures Inv(Step(s, ServerRotates(id)))
  {
  }

  lemma AnsweredKeepsInv(s: State, id: nat, lifetime: Option<real>)
    requires Inv(s) && Enabled(s, Answered(id, lifetime))
    ensures Inv(Step(s, Answered(id, lifetime)))
  {
  }

  lemma RefusedKeepsInv(s: State, id: nat)
    requires Inv(s) && Enabled(s, Refused(id))
    ensures Inv(Step(s, Refused(id)))
  {
  }

  lemma ForsakenKeepsInv(s: State, id: nat)
    requires Inv(s) && id in s.rotations && Outstanding(s.rotations[id])
    ensures Inv(Finish(Forsake(s, id), id))
  {
  }

  lemma UnreachableKeepsInv(s: State, e: Event)
    requires Inv(s) && Enabled(s, e) && (e.Unreachable? || e.Bare?)
    ensures Inv(Step(s, e))
  {
    hide Inv;
    var done := Finish(Forsake(s, e.id), e.id);
    ForsakenKeepsInv(s, e.id);
    TimersAreFree(done, Schedule(done, RETRY_DELAY).timer, done.awaited);
  }

  lemma LateKeepsInv(s: State, secret: Token)
    requires Inv(s) && Enabled(s, ArrivesLate(secret))
    ensures Inv(Step(s, ArrivesLate(secret)))
  {
  }

  lemma StoredKeepsInv(s: State, id: nat, ok: bool)
    requires Inv(s) && Enabled(s, Stored(id, ok))
    ensures Inv(Step(s, Stored(id, ok)))
  {
  }

  lemma ClearKeepsInv(s: State, e: Event)
    requires Inv(s) && Enabled(s, e) && (e.Cleared? || e.Forgot?)
    ensures Inv(Step(s, e))
  {
  }

  lemma StepKeepsInv(s: State, e: Event)
    requires Inv(s) && Enabled(s, e) && ConfiguredIdle(s, e)
    ensures Inv(Step(s, e))
  {
    match e
    case SignInStored(id, ok) => SignInStoredKeepsInv(s, id, ok);
    case SignedIn(_) => SignInKeepsInv(s, e);
    case SignInCleared(_, _) => SignInKeepsInv(s, e);
    case Loaded(id) => LoadedKeepsInv(s, id);
    case ServerRotates(id) => ServerKeepsInv(s, id);
    case Stored(id, ok) => StoredKeepsInv(s, id, ok);
    case Cleared(_, _) => ClearKeepsInv(s, e);
    case Forgot(_, _) => ClearKeepsInv(s, e);
    case Answered(id, lifetime) => AnsweredKeepsInv(s, id, lifetime);
    case Refused(id) => RefusedKeepsInv(s, id);
    case Unreachable(_) => UnreachableKeepsInv(s, e);
    case Bare(_, _) => UnreachableKeepsInv(s, e);
    case ArrivesLate(secret) => LateKeepsInv(s, secret);
    case _ => StartKeepsInv(s, e);
  }

  // --- the course of a rotation and of a sign-in ----------------------------------

  // What can become of a rotation that goes on.
  predicate Follows(before: Rotation, after: Rotation) {
    match before
    case Loading => after.Presented?
    case Presented(secret) => after == Forgetting || (after.Rotated? && after.secret == secret)
    case Rotated(secret, next) => after == Forgetting || (after.Storing? && after.secret == secret && after.next == next)
    case Storing(secret, _, lifetime) => after == Clearing(secret, lifetime)
    case _ => false
  }

  // Every rotation goes through its stages in order and never back.
  lemma StagesInOrder(s: State, e: Event, id: nat)
    requires Enabled(s, e) && id in s.rotations && id in Step(s, e).rotations && id < s.nextId
    ensures Step(s, e).rotations[id] == s.rotations[id] || Follows(s.rotations[id], Step(s, e).rotations[id])
  {
  }

  // A new one starts by loading the vault.
  lemma RotationsStartLoading(s: State, e: Event, id: nat)
    requires Enabled(s, e) && id in Step(s, e).rotations && id !in s.rotations
    ensures id == s.nextId && Step(s, e).rotations[id] == Loading && (e.Hook? || e.TimerFires?)
  {
  }

  // Each request carries what the vault holds, and is sent by a rotation that has
  // loaded it and then waits for the answer.
  lemma RequestsCarryTheVault(s: State, e: Event)
    requires Enabled(s, e)
    ensures Step(s, e).presented == s.presented || (
              && e.Loaded? && s.rotations[e.id] == Loading && s.content.Some?
              && Step(s, e).rotations[e.id] == Presented(s.content.value)
              && Step(s, e).presented == s.presented + [s.content.value])
  {
  }

  // A 401: the vault is being cleared, and the renewal is off.
  lemma RefusalForgets(s: State, id: nat)
    requires Inv(s) && Enabled(s, Refused(id))
    ensures var t := Step(s, Refused(id));
            && t.rotations == map[id := Forgetting] && t.timer == None
            && t.presented == s.presented && t.content == s.content
            && !Enabled(t, Loaded(id)) && forall ok :: Enabled(t, Forgot(id, ok))
  {
    assert s.rotations.Keys == {id};
    hide Inv;
  }

  // Nothing but the end of the clear moves that rotation, and until then the
  // token is not sent again.
  lemma ForgettingStays(s: State, id: nat, e: Event)
    requires Inv(s) && id in s.rotations && s.rotations[id] == Forgetting
    requires Enabled(s, e) && !(e.Forgot? && e.id == id)
    ensures var t := Step(s, e);
            id in t.rotations && t.rotations[id] == Forgetting && t.presented == s.presented
  {
    assert s.rotations.Keys == {id} && s.inflight == Some(id) && id < s.nextId;
    hide Inv;
  }

  // Once it succeeds the vault is empty, nothing is running and the timer stays as
  // it is.
  lemma ForgottenIsGone(s: State, id: nat)
    requires Inv(s) && Enabled(s, Forgot(id, true))
    ensures var t := Step(s, Forgot(id, true));
            IdleWith(t, None) && !t.stale && t.timer == s.timer && t.presented == s.presented
  {
    assert s.rotations.Keys == {id};
    hide Inv;
  }

  ghost predicate IdleWith(s: State, content: Option<Token>) {
    s.rotations == map[] && s.inflight == None && s.content == content
  }

  // The renewal of a token with that lifetime is pending.
  ghost predicate RenewalPending(s: State, lifetime: Option<real>) {
    s.timer == Some(Max(RenewalDelay(lifetime), 1.0))
  }

  // A hook's rotation up to its answer: the vault's token goes out once, and the
  // server exchanges it for a new one.
  lemma HookPresents(s: State) returns (t: State)
    requires Inv(s) && s.rotations == map[] && s.content.Some?
    ensures var id := s.nextId;
            && Leads(s, Hook, Step(s, Hook)) && Leads(Step(s, Hook), Loaded(id), t)
            && t.rotations == map[id := Presented(s.content.value)]
            && t.presented == s.presented + [s.content.value]
            && t.content == s.content && t.timer == s.timer && t.issued == s.issued && t.consumed == s.consumed
            && t.awaited == s.awaited && t.signIns == s.signIns && Inv(t)
  {
    var s1 := Step(s, Hook);
    StepKeepsInv(s, Hook);
    t := Step(s1, Loaded(s.nextId));
    StepKeepsInv(s1, Loaded(s.nextId));
    hide Inv;
  }

  // The server exchanges the token, and the answer goes on to be stored.
  lemma AnswerGoesOn(s: State, id: nat, lifetime: Option<real>)
    requires Inv(s) && id in s.rotations && s.rotations[id].Presented? && s.rotations[id].secret !in s.consumed
    ensures var secret, t1 := s.rotations[id].secret, Step(s, ServerRotates(id));
            && Enabled(t1, Answered(id, lifetime))
            && Step(t1, Answered(id, lifetime)) == s.(
                 rotations := map[id := Storing(secret, s.issued, lifetime)],
                 issued := s.issued + 1, consumed := s.consumed + {secret})
  {
    assert s.rotations.Keys == {id};
    hide Inv;
  }

  // Stored: the new token is in the vault, the renewal pending and the slot free.
  lemma AnswerIsKept(s: State, id: nat)
    requires Inv(s) && Enabled(s, Stored(id, true))
    ensures var op, t := s.rotations[id], Step(s, Stored(id, true));
            && IdleWith(t, Some(op.next)) && RenewalPending(t, op.lifetime)
            && t.presented == s.presented && t.consumed == s.consumed && !t.stale
  {
    assert s.rotations.Keys == {id};
    hide Inv;
  }

  // Not stored: it is cleared with the old one, and a renewal is scheduled all the same.
  lemma AnswerIsNotKept(s: State, id: nat, ok: bool)
    requires Inv(s) && Enabled(s, Stored(id, false))
    ensures var t := Step(s, Stored(id, false));
            && t.content == s.content && t.timer == s.timer
            && Enabled(t, Cleared(id, ok))
            && var u := Step(t, Cleared(id, ok));
               IdleWith(u, if ok then None else s.content) && RenewalPending(u, s.rotations[id].lifetime)
  {
    assert s.rotations.Keys == {id};
    hide Inv;
  }

  // An answer that is lost ends the rotation with the vault as it was; a timer
  // callback that waited retries after 30 seconds.
  lemma FailureKeepsTheToken(s: State, e: Event)
    requires Inv(s) && Enabled(s, e) && (e.Unreachable? || e.Bare?)
    ensures var t := Step(s, e);
            && IdleWith(t, s.content) && t.presented == s.presented && t.consumed == s.consumed
            && t.timer == if e.id in s.awaited && !(e.Bare? && e.jwt) then Some(30.0) else s.timer
  {
    assert s.rotations.Keys == {e.id};
    hide Inv;
  }

  // A sign-in, whatever else is going on.
  lemma SignInIsKept(s: State, lifetime: Option<real>)
    requires Inv(s)
    ensures var id, t1 := s.nextId, Step(s, SignedIn(lifetime));
            && Enabled(t1, SignInStored(id, true)) && Enabled(t1, SignInStored(id, false))
            && var kept := Step(t1, SignInStored(id, true));
            && kept.content == Some(s.issued) && !kept.stale && RenewalPending(kept, lifetime) && kept.signIns == s.signIns
            && var t2 := Step(t1, SignInStored(id, false));
            && t2.content == s.content && t2.timer == s.timer
            && Enabled(t2, SignInCleared(id, true)) && Enabled(t2, SignInCleared(id, false))
            && (forall ok :: var dropped := Step(t2, SignInCleared(id, ok));
                  && dropped.content == (if ok then None else s.content)
                  && RenewalPending(dropped, lifetime) && dropped.signIns == s.signIns)
  {
  }

  // A timer callback waits for the rotation it joins or starts; a hook does not,
  // and neither starts a second one.
  lemma CallersShareOneRotation(s: State, e: Event)
    requires Inv(s) && Enabled(s, e) && (e.TimerFires? || e.Hook?)
    ensures var t := Step(s, e);
            && t.inflight.Some? && t.rotations.Keys == {t.inflight.value}
            && (s.inflight.Some? ==> t.rotations == s.rotations && t.inflight == s.inflight)
            && t.awaited == (if e.Hook? then s.awaited else s.awaited + {t.inflight.value})
            && t.timer == (if e.Hook? then s.timer else None)
            && t.content == s.content && t.presented == s.presented
  {
  }

  // Without a token in the vault a rotation ends where it began.
  lemma EmptyVaultEndsRotation(s: State, id: nat)
    requires Inv(s) && Enabled(s, Loaded(id)) && s.content.None?
    ensures IdleWith(Step(s, Loaded(id)), None) && Step(s, Loaded(id)).presented == s.presented
    ensures Step(s, Loaded(id)).timer == s.timer
  {
  }

  // A new vault forgets the timer and the slot, and nothing else.
  lemma ConfigureForgets(s: State)
    ensures Step(s, Configure) == s.(timer := None, inflight := None)
  {
  }

  // A request that arrives late is carried out like any other: its token is
  // consumed and a new one issued, which nobody receives.
  lemma LateRequestConsumes(s: State, secret: Token)
    requires Enabled(s, ArrivesLate(secret))
    ensures var t := Step(s, ArrivesLate(secret));
            && t.consumed == s.consumed + {secret} && t.issued == s.issued + 1
            && t.content == s.content && t.rotations == s.rotations && t.timer == s.timer && t.signIns == s.signIns
  {
  }

  // --- the theorems ------------------------------------------------------------

  // A consumed token is presented exactly when a rotation loads a stale vault,
  // and the vault becomes stale exactly in the three ways of `Strands`.
  lemma ReplayExactlyWhenStale(s: State, e: Event)
    requires Inv(s) && Enabled(s, e) && ConfiguredIdle(s, e)
    ensures Step(s, e).replays != s.replays <==> e.Loaded? && s.stale
    ensures !s.stale ==>
              (Step(s, e).stale <==> Strands(s, e))
  {
    if e.Loaded? {
      assert s.rotations.Keys == {e.id};
    }
  }

  ghost predicate Run(s: State, es: seq<Event>, careful: bool)
    decreases |es|
  {
    es == [] ||
    (&& Enabled(s, es[0])
     && (if careful then Careful(s, es[0]) else ConfiguredIdle(s, es[0]))
     && Run(Step(s, es[0]), es[1..], careful))
  }

  ghost function Final(s: State, es: seq<Event>, careful: bool): State
    requires Run(s, es, careful)
    decreases |es|
  {
    if es == [] then s else Final(Step(s, es[0]), es[1..], careful)
  }

  ghost predicate AtMostOneRequest(s: State) {
    forall i, j ::
      i in s.rotations && j in s.rotations && Outstanding(s.rotations[i]) && Outstanding(s.rotations[j]) ==> i == j
  }

  lemma {:induction false} EveryRunKeepsInv(s: State, es: seq<Event>, careful: bool)
    requires Inv(s) && Run(s, es, careful)
    ensures Inv(Final(s, es, careful)) && AtMostOneRequest(Final(s, es, careful))
    ensures careful && !s.stale ==> !Final(s, es, careful).stale && Final(s, es, careful).replays == s.replays
    decreases |es|
  {
    if es != [] {
      StepKeepsInv(s, es[0]);
      ReplayExactlyWhenStale(s, es[0]);
      EveryRunKeepsInv(Step(s, es[0]), es[1..], careful);
    }
  }

  // At start-up the vault is empty or holds a token the server still honours.
  function Start(content: Option<Token>, issued: Token): State {
    State(content, None, None, map[], {}, map[], 0, issued, {}, {}, [], 0, false)
  }

  // No request under way carries a consumed token.
  ghost predicate NoneReplays(s: State) {
    forall id :: id in s.rotations && s.rotations[id].Presented? ==> s.rotations[id].secret !in s.consumed
  }

  lemma LoadedUnderWay(s: State, id: nat)
    requires Inv(s) && Enabled(s, Loaded(id)) && NoneReplays(s)
    ensures !NoneReplays(Step(s, Loaded(id))) <==> s.stale
  {
    assert s.rotations.Keys == {id};
    assert s.stale ==> Step(s, Loaded(id)).rotations[id] == Presented(s.content.value);
  }

  lemma LateUnderWay(s: State, secret: Token)
    requires Inv(s) && Enabled(s, ArrivesLate(secret)) && NoneReplays(s)
    ensures !NoneReplays(Step(s, ArrivesLate(secret))) <==> Overtakes(s, ArrivesLate(secret))
  {
    assert Step(s, ArrivesLate(secret)).rotations == s.rotations;
    hide Inv;
    if Overtakes(s, ArrivesLate(secret)) {
      var id :| id in s.rotations && s.rotations[id] == Presented(secret);
    }
  }

  lemma OthersUnderWay(s: State, e: Event)
    requires Inv(s) && Enabled(s, e) && NoneReplays(s) && !e.Loaded? && !e.ArrivesLate?
    ensures NoneReplays(Step(s, e))
  {
    assert e.ServerRotates? ==> s.rotations.Keys == {e.id};
    hide Inv;
  }

  // One does exactly after a rotation has loaded a stale vault, or after the
  // request it repeats has arrived.
  lemma UnderWayExactly(s: State, e: Event)
    requires Inv(s) && Enabled(s, e) && NoneReplays(s)
    ensures !NoneReplays(Step(s, e)) <==> (e.Loaded? && s.stale) || Overtakes(s, e)
  {
    hide Inv, NoneReplays, Step;
    match e
    case Loaded(id) => LoadedUnderWay(s, id);
    case ArrivesLate(secret) => LateUnderWay(s, secret);
    case _ => OthersUnderWay(s, e);
  }

  lemma {:induction false} CarefulRun(s: State, es: seq<Event>)
    requires Inv(s) && Run(s, es, true) && !s.stale && NoneReplays(s)
    ensures NoneReplays(Final(s, es, true))
    decreases |es|
  {
    if es != [] {
      StepKeepsInv(s, es[0]);
      ReplayExactlyWhenStale(s, es[0]);
      UnderWayExactly(s, es[0]);
      CarefulRun(Step(s, es[0]), es[1..]);
    }
  }

  // In every interleaving in which the vault is configured while idle and never
  // left with a consumed token, and no request given up arrives ahead of the one
  // that repeats it, at most one refresh request is outstanding, none was sent
  // with a consumed token and none under way carries one.
  lemma NoTokenIsReplayed(content: Option<Token>, issued: Token, es: seq<Event>)
    requires content.Some? ==> content.value < issued
    requires Run(Start(content, issued), es, true)
    ensures var s := Final(Start(content, issued), es, true);
            AtMostOneRequest(s) && s.replays == 0 && NoneReplays(s)
  {
    EveryRunKeepsInv(Start(content, issued), es, true);
    CarefulRun(Start(content, issued), es);
  }

  // Each of the three ways breaks the property. When neither the store nor the
  // clear succeeds, the next refresh replays the consumed token.
  lemma FailedClearReplays(s: State, id: nat)
    requires Inv(s) && id in s.rotations && s.rotations[id].Clearing?
    requires s.content == Some(s.rotations[id].secret)
    ensures var s1 := Step(s, Cleared(id, false));
            var s2 := Step(s1, Hook);
            && Enabled(s2, Loaded(s.nextId))
            && Step(s2, Loaded(s.nextId)).replays == s.replays + 1
  {
    assert s.rotations.Keys == {id};
    var s1 := Step(s, Cleared(id, false));
    assert s1.inflight == None && s1.content == s.content;
  }

  // Such a state is reached from any vault that holds a token.
  lemma FailedStoreIsReachable(token: Token, issued: Token, lifetime: Option<real>)
    requires token < issued
    ensures var s1 := Step(Start(Some(token), issued), Hook);
            && Enabled(s1, Loaded(0))
            && var s2 := Step(s1, Loaded(0));
            && Enabled(s2, ServerRotates(0))
            && var s3 := Step(s2, ServerRotates(0));
            && Enabled(s3, Answered(0, lifetime))
            && var s4 := Step(s3, Answered(0, lifetime));
            && Enabled(s4, Stored(0, false))
            && var s5 := Step(s4, Stored(0, false));
            && s5.rotations == map[0 := Clearing(token, lifetime)]
            && s5.content == Some(token)
  {
  }

  ghost predicate Leads(s: State, e: Event, t: State) {
    Enabled(s, e) && ConfiguredIdle(s, e) && Step(s, e) == t
  }

  lemma {:induction false} RunsAlong(ss: seq<State>, es: seq<Event>)
    requires |ss| == |es| + 1 && forall i :: 0 <= i < |es| ==> Leads(ss[i], es[i], ss[i + 1])
    ensures Run(ss[0], es, false) && Final(ss[0], es, false) == ss[|es|]
    decreases |es|
  {
    if es != [] {
      assert Leads(ss[0], es[0], ss[1]);
      RunsAlong(ss[1..], es[1..]);
    }
  }

  // The vault holds a consumed token and no rotation is running.
  ghost predicate Stranded(s: State) {
    Inv(s) && s.stale && s.rotations == map[] && s.nextId == 1 && s.replays == 0
  }

  // The next hook then replays.
  lemma StrandedReplays(ss: seq<State>, es: seq<Event>)
    requires |es| == 4 && |ss| == 5 && (forall i :: 0 <= i < 4 ==> Leads(ss[i], es[i], ss[i + 1])) && Stranded(ss[4])
    ensures Run(ss[0], es + [Hook, Loaded(1)], false) && Final(ss[0], es + [Hook, Loaded(1)], false).replays == 1
  {
    var s5 := Step(ss[4], Hook);
    var s6 := Step(s5, Loaded(1));
    assert s6.replays == 1 && Leads(ss[4], Hook, s5) && Leads(s5, Loaded(1), s6);
    hide Leads, Step, Inv, Enabled;
    RunsAlong(ss + [s5, s6], es + [Hook, Loaded(1)]);
  }

  lemma FirstRequest(token: Token, issued: Token) returns (s1: State, s2: State)
    ensures Leads(Start(Some(token), issued), Hook, s1) && Leads(s1, Loaded(0), s2)
    ensures s2 == Start(Some(token), issued).(
      inflight := Some(0), rotations := map[0 := Presented(token)], nextId := 1, presented := [token])
  {
    s1 := Step(Start(Some(token), issued), Hook);
    s2 := Step(s1, Loaded(0));
  }

  // The answer is lost after the server has rotated.
  lemma LostAnswerReplays(token: Token, issued: Token, e: Event)
    requires token < issued && (e == Unreachable(0) || e == Bare(0, true) || e == Bare(0, false))
    ensures var es := [Hook, Loaded(0), ServerRotates(0), e] + [Hook, Loaded(1)];
            Run(Start(Some(token), issued), es, false) && Final(Start(Some(token), issued), es, false).replays == 1
  {
    var s0 := Start(Some(token), issued);
    var s1, s2 := FirstRequest(token, issued);
    var s3 := Step(s2, ServerRotates(0));
    var s4 := Step(s3, e);
    assert Leads(s2, ServerRotates(0), s3) && Leads(s3, e, s4);
    assert Stranded(s4);
    hide Leads, Step, Start, Stranded;
    StrandedReplays([s0, s1, s2, s3, s4], [Hook, Loaded(0), ServerRotates(0), e]);
  }

  // The request arrives after the client has given it up.
  lemma LateArrivalReplays(token: Token, issued: Token)
    requires token < issued
    ensures var es := [Hook, Loaded(0), Unreachable(0), ArrivesLate(token)] + [Hook, Loaded(1)];
            Run(Start(Some(token), issued), es, false) && Final(Start(Some(token), issued), es, false).replays == 1
  {
    var s0 := Start(Some(token), issued);
    var s1, s2 := FirstRequest(token, issued);
    var s3 := Step(s2, Unreachable(0));
    var s4 := Step(s3, ArrivesLate(token));
    assert Leads(s2, Unreachable(0), s3) && Leads(s3, ArrivesLate(token), s4);
    assert Stranded(s4);
    hide Leads, Step, Start, Stranded;
    StrandedReplays([s0, s1, s2, s3, s4], [Hook, Loaded(0), Unreachable(0), ArrivesLate(token)]);
  }

  // The request that was given up arrives ahead of its repetition.
  lemma OvertakenRequestReplays(token: Token, issued: Token)
    requires token < issued
    ensures var es := [Hook, Loaded(0), Unreachable(0), Hook, Loaded(1), ArrivesLate(token)];
            Run(Start(Some(token), issued), es, false) && !NoneReplays(Final(Start(Some(token), issued), es, false))
  {
    var s0 := Start(Some(token), issued);
    var s1, s2 := FirstRequest(token, issued);
    var s3 := Step(s2, Unreachable(0));
    var s4 := Step(s3, Hook);
    var s5 := Step(s4, Loaded(1));
    var s6 := Step(s5, ArrivesLate(token));
    assert s6.rotations[1] == Presented(token) && token in s6.consumed;
    RunsAlong([s0, s1, s2, s3, s4, s5, s6], [Hook, Loaded(0), Unreachable(0), Hook, Loaded(1), ArrivesLate(token)]);
  }

  // --- configuring the vault -----------------------------------------------------

  // Some run that configures the vault only while idle ends with two requests
  // outstanding.
  ghost predicate CanDouble(s: State) {
    exists es :: Run(s, es, false) && !AtMostOneRequest(Final(s, es, false))
  }

  lemma DoubledNow(s: State)
    requires !AtMostOneRequest(s)
    ensures CanDouble(s)
  {
    assert Run(s, [], false) && Final(s, [], false) == s;
  }

  lemma DoubledAfter(s: State, e: Event)
    requires Enabled(s, e) && ConfiguredIdle(s, e) && CanDouble(Step(s, e))
    ensures CanDouble(s)
  {
    hide Step, Enabled, ConfiguredIdle, AtMostOneRequest;
    var es :| Run(Step(s, e), es, false) && !AtMostOneRequest(Final(Step(s, e), es, false));
    var all := [e] + es;
    assert all[0] == e && all[1..] == es;
    assert Run(s, all, false) && Final(s, all, false) == Final(Step(s, e), es, false);
  }

  // A rotation that runs beside the slot, and a token in the vault.
  ghost predicate Astray(s: State, id: nat) {
    && id in s.rotations && id < s.nextId
    && s.content.Some?
    && s.inflight != Some(id)
    && (forall other :: other in s.rotations ==> other < s.nextId)
  }

  // With a free slot a hook starts a rotation, which presents the token.
  lemma PresentBeside(s: State, id: nat)
    requires Astray(s, id) && s.inflight == None && Outstanding(s.rotations[id])
    ensures CanDouble(s)
  {
    var j := s.nextId;
    var s1 := Step(s, Hook);
    var s2 := Step(s1, Loaded(j));
    assert Outstanding(s2.rotations[id]) && Outstanding(s2.rotations[j]);
    DoubledNow(s2);
    DoubledAfter(s1, Loaded(j));
    DoubledAfter(s, Hook);
  }

  // The event that ends a rotation which has had its answer, keeping the vault's content.
  function Ending(id: nat, r: Rotation): Event {
    match r
    case Storing(_, _, _) => Stored(id, true)
    case Clearing(_, _) => Cleared(id, false)
    case _ => Forgot(id, false)
  }

  // Its end frees the slot of the one presented beside it.
  lemma EndingFreesTheSlot(s: State, id: nat)
    requires Astray(s, id) && s.inflight == None
    requires s.rotations[id].Storing? || s.rotations[id].Clearing? || s.rotations[id].Forgetting?
    ensures CanDouble(s)
  {
    var j := s.nextId;
    var s1 := Step(s, Hook);
    var s2 := Step(s1, Loaded(j));
    var e := Ending(id, s.rotations[id]);
    var s3 := Step(s2, e);
    assert s3.inflight == None && s3.content.Some? && Outstanding(s3.rotations[j]);
    PresentBeside(s3.(inflight := None), j);
    DoubledAfter(s2, e);
    DoubledAfter(s1, Loaded(j));
    DoubledAfter(s, Hook);
  }

  lemma AstrayDoubles(s: State, id: nat)
    requires Astray(s, id) && s.inflight == None
    ensures CanDouble(s)
  {
    if Outstanding(s.rotations[id]) {
      PresentBeside(s, id);
    } else if s.rotations[id].Loading? {
      var s1 := Step(s, Loaded(id));
      PresentBeside(s1, id);
      DoubledAfter(s, Loaded(id));
    } else {
      EndingFreesTheSlot(s, id);
    }
  }

  // Configuring the vault is safe exactly while no rotation is running: otherwise
  // some run goes on to have two requests outstanding.
  lemma ConfigureIsSafeExactlyWhenIdle(s: State)
    requires Inv(s)
    ensures CanDouble(Step(s, Configure)) <==> s.rotations != map[]
  {
    var c := Step(s, Configure);
    if s.rotations == map[] {
      StepKeepsInv(s, Configure);
      forall es | Run(c, es, false)
        ensures AtMostOneRequest(Final(c, es, false))
      {
        EveryRunKeepsInv(c, es, false);
      }
    } else {
      var id :| id in s.rotations;
      var n := s.nextId;
      var s1 := Step(c, SignedIn(None));
      var s2 := Step(s1, SignInStored(n, true));
      AstrayDoubles(s2, id);
      DoubledAfter(s1, SignInStored(n, true));
      DoubledAfter(c, SignedIn(None));
    }
  }
}
