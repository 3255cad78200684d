// The module state of dashboard/src/persistentSession.ts and the code that runs
// between two awaits, each piece proved to be one transition of SessionModel.
module PersistentSession {
  import opened Basics
  import opened SessionModel

  // A renewal is pending, after at least a second, and fires before the token
  // expires whenever the token lives longer than that.
  predicate RenewsInTime(timer: Option<real>, lifetime: Option<real>) {
    timer.Some? && timer.value >= 1.0 && (Lifetime(lifetime) > 1.0 ==> timer.value < Lifetime(lifetime))
  }

  // Once the rotation has ended none is running and the next caller starts one.
  predicate Idle(inflight: Option<nat>, rotations: map<nat, Rotation>) {
    inflight == None && rotations == map[]
  }

  class Session {
    // The variables of the module.
    var timer: Option<real>
    var inflight: Option<nat>

    // The OS vault and the calls that are suspended at an await.
    var content: Option<Token>
    var rotations: map<nat, Rotation>
    var awaited: set<nat>
    var signIns: map<nat, SignIn>
    var nextId: nat

    // The server, and what went over the wire.
    ghost var issued: Token
    ghost var consumed: set<Token>
    ghost var abandoned: set<Token>
    ghost var presented: seq<Token>
    ghost var replays: nat
    ghost var stale: bool

    ghost function View(): State
      reads this
    {
      State(content, timer, inflight, rotations, awaited, signIns, nextId, issued, consumed, abandoned, presented, replays, stale)
    }

    constructor (content: Option<Token>, ghost issued: Token)
      ensures View() == Start(content, issued)
      ensures Inv(View()) <==> (content.Some? ==> content.value < issued)
    {
      this.content, timer, inflight := content, None, None;
      rotations, awaited, signIns, nextId := map[], {}, map[], 0;
      this.issued, consumed, abandoned, presented, replays, stale := issued, {}, {}, [], 0, false;
    }

    method CancelRenewal()
      modifies this`timer
      ensures timer == None
      ensures Inv(old(View())) ==> Inv(View())
    {
      timer := None;
    }

    method ScheduleRenewal(delay: real)
      modifies this`timer
      ensures View() == Schedule(old(View()), delay)
      ensures timer.Some? && timer.value >= 1.0 && timer.value >= delay && (timer.value == delay || delay < 1.0)
      ensures forall lifetime :: delay == RenewalDelay(lifetime) ==> RenewsInTime(timer, lifetime)
      ensures Inv(old(View())) ==> Inv(View())
    {
      CancelRenewal();
      timer := Some(Max(delay, 1.0));
    }

    // `refreshSession`: one rotation at a time, shared by all callers.
    method RefreshSession() returns (id: nat)
      modifies this`inflight, this`rotations, this`nextId
      ensures View() == Refresh(old(View())) && inflight == Some(id)
      ensures old(inflight).Some? ==> inflight == old(inflight) && rotations == old(rotations)
      ensures Inv(old(View())) ==> Inv(View()) && rotations.Keys == {id}
    {
      ghost var was := View();
      if Inv(was) { StepKeepsInv(was, Hook); }
      if inflight.Some? {
        return inflight.value;
      }
      id := nextId;
      rotations := rotations[id := Loading];
      nextId := nextId + 1;
      inflight := Some(id);
    }

    method OnTimer()
      requires timer.Some?
      modifies this`timer, this`inflight, this`rotations, this`nextId, this`awaited
      ensures View() == Step(old(View()), TimerFires)
      ensures timer == None && inflight.Some? && inflight.value in awaited
      ensures Inv(old(View())) ==> Inv(View()) && rotations.Keys == {inflight.value}
    {
      ghost var was := View();
      if Inv(was) { StepKeepsInv(was, TimerFires); }
      timer := None;
      var id := RefreshSession();
      awaited := awaited + {id};
    }

    method On401()
      modifies this`inflight, this`rotations, this`nextId
      ensures View() == Step(old(View()), Hook)
      ensures Inv(old(View())) ==> Inv(View()) && inflight.Some? && rotations.Keys == {inflight.value}
    {
      var _ := RefreshSession();
    }

    // The end of a rotation; a timer callback that waits for it retries when the
    // server was not reached.
    method Return(id: nat, unreachable: bool)
      modifies this`timer, this`inflight, this`rotations, this`awaited
      ensures View() == if unreachable then GiveUp(old(View()), id) else Finish(old(View()), id)
      ensures timer == if unreachable && id in old(awaited) then Some(RETRY_DELAY) else old(timer)
      ensures old(rotations).Keys == {id} ==> Idle(inflight, rotations)
    {
      var retry := unreachable && id in awaited;
      inflight, rotations, awaited := None, rotations - {id}, awaited - {id};
      if retry {
        ScheduleRenewal(RETRY_DELAY);
      }
    }

    // `vault.load()` has resolved: send the request, or return "none".
    method OnLoaded(id: nat)
      requires Enabled(View(), Loaded(id))
      modifies this
      ensures View() == Step(old(View()), Loaded(id))
      ensures Inv(old(View())) ==> Inv(View())
      ensures Inv(old(View())) && content.Some? ==>
                presented == old(presented) + [content.value] && (content.value in consumed <==> stale)
      ensures Inv(old(View())) && content.None? ==> presented == old(presented) && Idle(inflight, rotations)
    {
      ghost var was := View();
      if Inv(was) { StepKeepsInv(was, Loaded(id)); }
      if content.None? {
        Return(id, false);
        return;
      }
      var secret := content.value;
      rotations := rotations[id := Presented(secret)];
      presented := presented + [secret];
      replays := if secret in consumed then replays + 1 else replays;
    }

    // The request of a rotation is not followed any further.
    ghost method ForsakeRequest(id: nat)
      requires id in rotations && Outstanding(rotations[id])
      modifies this`abandoned, this`stale
      ensures View() == Forsake(old(View()), id)
    {
      var op := rotations[id];
      if op.Rotated? {
        stale := stale || content == Some(op.secret);
      } else {
        abandoned := abandoned + {op.secret};
      }
    }

    // A 401: cancel the renewal and start forgetting the token.
    method OnRefused(id: nat)
      requires Enabled(View(), Refused(id))
      modifies this`timer, this`rotations, this`abandoned, this`stale
      ensures View() == Step(old(View()), Refused(id))
      ensures Inv(old(View())) ==> Inv(View())
      ensures timer == None && content == old(content) && presented == old(presented)
      ensures rotations == old(rotations)[id := Forgetting] && !Enabled(View(), Loaded(id)) && Enabled(View(), Forgot(id, true))
    {
      ghost var was := View();
      if Inv(was) { StepKeepsInv(was, Refused(id)); }
      hide Inv;
      ForsakeRequest(id);
      CancelRenewal();
      rotations := rotations[id := Forgetting];
    }

    // The answer of a failure tells nothing of what the server did: the vault is
    // left stale exactly when it had rotated the token that is still there.
    method OnUnreachable(id: nat)
      requires Enabled(View(), Unreachable(id))
      modifies this`timer, this`inflight, this`rotations, this`awaited, this`abandoned, this`stale
      ensures View() == Step(old(View()), Unreachable(id))
      ensures Inv(old(View())) ==> Inv(View())
      ensures Inv(old(View())) ==> Idle(inflight, rotations)
      ensures id in old(awaited) ==> timer == Some(RETRY_DELAY)
      ensures stale <==> old(stale) || (old(rotations[id]).Rotated? && content == Some(old(rotations[id]).secret))
    {
      ghost var was := View();
      if Inv(was) { StepKeepsInv(was, Unreachable(id)); }
      ForsakeRequest(id);
      Return(id, true);
    }

    // A good answer without a refresh token: nothing is stored. Without a JWT the
    // caller hears that the server was not reached.
    method OnBareAnswer(id: nat, jwt: bool)
      requires Enabled(View(), Bare(id, jwt))
      modifies this`timer, this`inflight, this`rotations, this`awaited, this`abandoned, this`stale
      ensures View() == Step(old(View()), Bare(id, jwt))
      ensures Inv(old(View())) ==> Inv(View())
      ensures Inv(old(View())) ==> Idle(inflight, rotations)
      ensures timer == if !jwt && id in old(awaited) then Some(RETRY_DELAY) else old(timer)
      ensures stale <==> old(stale) || (old(rotations[id]).Rotated? && content == Some(old(rotations[id]).secret))
    {
      ghost var was := View();
      if Inv(was) { StepKeepsInv(was, Bare(id, jwt)); }
      ForsakeRequest(id);
      Return(id, !jwt);
    }

    // A new token pair: start storing the refresh token.
    method OnAnswer(id: nat, lifetime: Option<real>)
      requires Enabled(View(), Answered(id, lifetime))
      modifies this`rotations
      ensures View() == Step(old(View()), Answered(id, lifetime))
      ensures Inv(old(View())) ==> Inv(View())
      ensures Inv(old(View())) ==> Unused(View(), rotations[id].next)
    {
      ghost var was := View();
      if Inv(was) { StepKeepsInv(was, Answered(id, lifetime)); }
      rotations := rotations[id := Storing(rotations[id].secret, rotations[id].next, lifetime)];
    }

    // `vault.store()` has resolved inside a rotation.
    method OnStored(id: nat, ok: bool)
      requires Enabled(View(), Stored(id, ok))
      modifies this
      ensures View() == Step(old(View()), Stored(id, ok))
      ensures Inv(old(View())) ==> Inv(View())
      ensures ok ==> RenewsInTime(timer, old(rotations[id].lifetime))
      ensures Inv(old(View())) && ok ==>
                Idle(inflight, rotations) && !stale && content.Some? && content.value !in consumed
      ensures !ok ==> content == old(content) && timer == old(timer)
    {
      ghost var was := View();
      if Inv(was) { StepKeepsInv(was, Stored(id, ok)); }
      var op := rotations[id];
      if !ok {
        rotations := rotations[id := Clearing(op.secret, op.lifetime)];
        return;
      }
      content, stale := Some(op.next), false;
      ScheduleRenewal(RenewalDelay(op.lifetime));
      Return(id, false);
    }

    // `vault.clear()` has resolved after a failed store; its answer is ignored.
    method OnCleared(id: nat, ok: bool)
      requires Enabled(View(), Cleared(id, ok))
      modifies this
      ensures View() == Step(old(View()), Cleared(id, ok))
      ensures Inv(old(View())) ==> Inv(View())
      ensures RenewsInTime(timer, old(rotations[id].lifetime))
      ensures Inv(old(View())) ==>
                && Idle(inflight, rotations)
                && (stale <==> !ok && old(content) == Some(old(rotations[id].secret)))
    {
      ghost var was := View();
      if Inv(was) { StepKeepsInv(was, Cleared(id, ok)); }
      var op := rotations[id];
      if ok {
        content, stale := None, false;
      } else {
        stale := stale || content == Some(op.secret);
      }
      ScheduleRenewal(RenewalDelay(op.lifetime));
      Return(id, false);
    }

    // `vault.clear()` has resolved after a refusal.
    method OnForgot(id: nat, ok: bool)
      requires Enabled(View(), Forgot(id, ok))
      modifies this
      ensures View() == Step(old(View()), Forgot(id, ok))
      ensures Inv(old(View())) ==> Inv(View())
      ensures Inv(old(View())) ==> Idle(inflight, rotations)
      ensures timer == old(timer) && content == if ok then None else old(content)
    {
      ghost var was := View();
      if Inv(was) { StepKeepsInv(was, Forgot(id, ok)); }
      if ok {
        content, stale := None, false;
      }
      Return(id, false);
    }

    // `acceptTokens` of a sign-in, up to its first await.
    method OnSignIn(lifetime: Option<real>, token: Token)
      requires token == issued
      modifies this`signIns, this`nextId, this`issued
      ensures View() == Step(old(View()), SignedIn(lifetime))
      ensures Inv(old(View())) ==> Inv(View())
      ensures Inv(old(View())) ==> Unused(View(), token)
    {
      ghost var was := View();
      if Inv(was) { StepKeepsInv(was, SignedIn(lifetime)); }
      signIns := signIns[nextId := Keeping(token, lifetime)];
      nextId := nextId + 1;
      issued := issued + 1;
    }

    method OnSignInStored(id: nat, ok: bool)
      requires Enabled(View(), SignInStored(id, ok))
      modifies this
      ensures View() == Step(old(View()), SignInStored(id, ok))
      ensures Inv(old(View())) ==> Inv(View())
      ensures ok ==> RenewsInTime(timer, old(signIns[id].lifetime))
      ensures Inv(old(View())) && ok ==> !stale && content.Some? && content.value !in consumed
    {
      ghost var was := View();
      if Inv(was) { StepKeepsInv(was, SignInStored(id, ok)); }
      var op := signIns[id];
      if !ok {
        signIns := signIns[id := Dropping(op.lifetime)];
        return;
      }
      content, stale := Some(op.token), false;
      signIns := signIns - {id};
      ScheduleRenewal(RenewalDelay(op.lifetime));
    }

    method OnSignInCleared(id: nat, ok: bool)
      requires Enabled(View(), SignInCleared(id, ok))
      modifies this
      ensures View() == Step(old(View()), SignInCleared(id, ok))
      ensures Inv(old(View())) ==> Inv(View())
      ensures RenewsInTime(timer, old(signIns[id].lifetime))
      ensures content == if ok then None else old(content)
    {
      ghost var was := View();
      if Inv(was) { StepKeepsInv(was, SignInCleared(id, ok)); }
      var op := signIns[id];
      if ok {
        content, stale := None, false;
      }
      signIns := signIns - {id};
      ScheduleRenewal(RenewalDelay(op.lifetime));
    }

    // `configurePersistentSession`, the vault keeping its content.
    method ConfigureVault()
      modifies this`timer, this`inflight
      ensures View() == Step(old(View()), Configure)
      ensures Inv(old(View())) && rotations == map[] ==> Inv(View())
      ensures Inv(old(View())) ==> (CanDouble(View()) <==> rotations != map[])
    {
      ghost var was := View();
      if Inv(was) {
        ConfigureIsSafeExactlyWhenIdle(was);
        if rotations == map[] { StepKeepsInv(was, Configure); }
      }
      CancelRenewal();
      inflight := None;
    }
  }
}
