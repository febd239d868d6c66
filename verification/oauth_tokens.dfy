/**
 When a token request mints, and how long what it minted is good, told over runs from the consent or the mint that
 handed out what is presented. Times are in seconds: a code is good for 300, a bearer for 3600, a refresh token for
 2592000, which is 30 days.
 */
module OAuthTokens {
  import opened Common
  import opened OAuthGrants

  predicate ClientActive(t: Tables, client: int) {
    client in t.gateways && t.gateways[client].active
  }

  predicate AccountActive(t: Tables, account: int) {
    account in t.accounts && t.accounts[account].active
  }

  /** A token request at which a bearer came into being. */
  predicate Mints(s: State, e: Event, t: State) {
    e.Commit? && e.r in s.requests && e.pair.bearer in t.t.bearers
  }

  /** One that presented this code. */
  predicate SpendsCode(s: State, e: Event, t: State, h: int) {
    Mints(s, e, t) && s.requests[e.r].form.CodeForm? && s.requests[e.r].form.code == h
  }

  /** One that presented this refresh token. */
  predicate Rotates(s: State, e: Event, t: State, h: int) {
    Mints(s, e, t) && s.requests[e.r].form.RefreshForm? && s.requests[e.r].form.token == h
  }

  /** What a consent leaves under its code. */
  function CodeOf(e: Event, now: int): Code
    requires e.GiveConsent?
  {
    Code(e.app, Grant(e.account, e.client), e.redirect, e.challenge, e.scopes, now + 300)
  }

  // ---------------------------------------------------------------- what a step can do

  /** Time goes on, hashes stay used, clients stay there, and a disabled one is not enabled again. */
  ghost predicate GoesOn(s: State, t: State) {
    && s.t.now <= t.t.now && s.used <= t.used
    && forall c :: c in s.t.gateways ==> c in t.t.gateways && (ClientActive(t.t, c) ==> ClientActive(s.t, c))
  }

  /** Codes come from consents, under new hashes, and go when spent, when their client is disabled or when expired. */
  ghost predicate CodesMove(s: State, e: Event, t: State) {
    && (forall h :: h in s.t.codes && h in t.t.codes ==> t.t.codes[h] == s.t.codes[h])
    && (forall h :: h in s.t.codes && h !in t.t.codes ==>
          || !ClientActive(t.t, s.t.codes[h].grant.client) || s.t.codes[h].expires < s.t.now || SpendsCode(s, e, t, h))
    && (forall h :: h !in s.t.codes && h in t.t.codes ==>
          && e.GiveConsent? && e.code == h && h !in s.used && h in t.used
          && t.t.codes[h] == CodeOf(e, s.t.now) && e.client in t.t.gateways)
    && (forall h :: SpendsCode(s, e, t, h) ==> h in s.used && h !in t.t.codes)
  }

  /** Refresh tokens come from mints, go when expired, and are revoked by a rotation or with their client. */
  ghost predicate RefreshMove(s: State, e: Event, t: State) {
    && (forall h :: h in s.t.refresh && h in t.t.refresh ==>
          && t.t.refresh[h].(revoked := s.t.refresh[h].revoked) == s.t.refresh[h]
          && (s.t.refresh[h].revoked ==> t.t.refresh[h].revoked)
          && (t.t.refresh[h].revoked && !s.t.refresh[h].revoked ==>
                !ClientActive(t.t, s.t.refresh[h].grant.client) || Rotates(s, e, t, h)))
    && (forall h :: h in s.t.refresh && h !in t.t.refresh ==> s.t.refresh[h].expires < s.t.now)
    && (forall h :: h !in s.t.refresh && h in t.t.refresh ==>
          && Mints(s, e, t) && e.pair.refresh == h && h !in s.used && h in t.used && !t.t.refresh[h].revoked
          && t.t.refresh[h].app == s.requests[e.r].app && t.t.refresh[h].expires == s.t.now + 2592000
          && t.t.refresh[h].grant.client in t.t.gateways && Known(t.t.refresh[h].scopes))
    && (forall h :: Rotates(s, e, t, h) ==> h in s.used && (h in t.t.refresh ==> t.t.refresh[h].revoked))
  }

  /** Bearers come from mints and personal tokens, stay, and are revoked only with their client. */
  ghost predicate BearersMove(s: State, e: Event, t: State) {
    && (forall h :: h in s.t.bearers ==>
          && h in t.t.bearers && t.t.bearers[h].(revoked := s.t.bearers[h].revoked) == s.t.bearers[h]
          && (t.t.bearers[h].revoked && !s.t.bearers[h].revoked ==> !ClientActive(t.t, s.t.bearers[h].grant.client)))
    && (forall h :: h !in s.t.bearers && h in t.t.bearers ==>
          && (Issues(s, e, t, h) && !t.t.bearers[h].revoked && t.t.bearers[h].grant.client in t.t.gateways)
          && (e.Commit? ==> t.t.bearers[h].expires == Some(s.t.now + 3600))
          && (e.IssuePersonal? ==> t.t.bearers[h].expires == e.expires && t.t.bearers[h].grant == e.g))
  }

  /** The step that brought the bearer into being. */
  predicate Issues(s: State, e: Event, t: State, h: int) {
    && h !in s.t.bearers && h in t.t.bearers
    && ((e.Commit? && e.pair.bearer == h) || (e.IssuePersonal? && e.bearer == h))
  }

  /** The scopes there are. */
  predicate Known(scopes: set<string>) {
    && scopes != {}
    && scopes <= {"profile:read", "chats:list", "chat:read", "messages:read", "messages:search", "contacts:read",
                  "members:read", "media:read", "messages:send"}
  }

  /** Everything the following needs of a run. */
  ghost predicate Trace(states: seq<State>, events: seq<Event>) {
    && |states| == |events| + 1 && states[0].t.codes == map[] && states[0].t.refresh == map[] && states[0].t.bearers == map[]
    && forall i :: 0 <= i < |events| ==> Moves(states[i], events[i], states[i + 1])
  }

  ghost predicate Moves(s: State, e: Event, t: State) {
    GoesOn(s, t) && CodesMove(s, e, t) && RefreshMove(s, e, t) && BearersMove(s, e, t)
  }

  lemma StepGoesOn(s: State, e: Event)
    requires Allowed(s, e)
    ensures GoesOn(s, Apply(s, e))
  {
    if e.Commit? {
      RedeemEvolves(s.t, s.requests[e.r].app, s.requests[e.r].form, e.pair);
    }
  }

  lemma MintsIsMinted(s: State, e: Event)
    requires Inv(s) && Allowed(s, e) && e.Commit?
    ensures var q := s.requests[e.r]; Mints(s, e, Apply(s, e)) <==> Redeem(s.t, q.app, q.form, e.pair).0 == Minted
  {
    assert e.pair.bearer !in s.t.bearers;
  }

  lemma CodeCommitMovesCodes(s: State, e: Event)
    requires Inv(s) && Allowed(s, e) && e.Commit? && s.requests[e.r].form.CodeForm?
    ensures CodesMove(s, e, Apply(s, e))
  {
    MintsIsMinted(s, e);
  }

  lemma CodeCommitMovesRefresh(s: State, e: Event)
    requires Inv(s) && Allowed(s, e) && e.Commit? && s.requests[e.r].form.CodeForm?
    ensures RefreshMove(s, e, Apply(s, e))
  {
    MintsIsMinted(s, e);
  }

  lemma RotationMovesCodes(s: State, e: Event)
    requires Inv(s) && Allowed(s, e) && e.Commit? && s.requests[e.r].form.RefreshForm?
    ensures CodesMove(s, e, Apply(s, e))
  {
    MintsIsMinted(s, e);
  }

  lemma RotationMovesRefresh(s: State, e: Event)
    requires Inv(s) && Allowed(s, e) && e.Commit? && s.requests[e.r].form.RefreshForm?
    ensures RefreshMove(s, e, Apply(s, e))
  {
    MintsIsMinted(s, e);
    var q := s.requests[e.r];
    match Redeem(s.t, q.app, q.form, e.pair).0
    case Minted => RotationMintMoves(s, e);
    case Replayed => ReplayMoves(s, e);
    case Rejected =>
  }

  lemma RotationMintMoves(s: State, e: Event)
    requires Inv(s) && Allowed(s, e) && e.Commit? && s.requests[e.r].form.RefreshForm?
    requires Redeem(s.t, s.requests[e.r].app, s.requests[e.r].form, e.pair).0 == Minted
    ensures RefreshMove(s, e, Apply(s, e))
  {
  }

  lemma ReplayMoves(s: State, e: Event)
    requires Inv(s) && Allowed(s, e) && e.Commit? && s.requests[e.r].form.RefreshForm?
    requires Redeem(s.t, s.requests[e.r].app, s.requests[e.r].form, e.pair).0 == Replayed
    ensures RefreshMove(s, e, Apply(s, e))
  {
    MintsIsMinted(s, e);
  }

  lemma CommitMovesBearers(s: State, e: Event)
    requires Inv(s) && Allowed(s, e) && e.Commit?
    ensures BearersMove(s, e, Apply(s, e))
  {
    MintsIsMinted(s, e);
  }

  lemma QuietCodes(s: State, e: Event, t: State)
    requires !e.Commit? && t.t.codes == s.t.codes
    ensures CodesMove(s, e, t)
  {
  }

  lemma QuietRefresh(s: State, e: Event, t: State)
    requires !e.Commit? && t.t.refresh == s.t.refresh
    ensures RefreshMove(s, e, t)
  {
    forall h ensures !Rotates(s, e, t, h) {
    }
  }

  lemma QuietBearers(s: State, e: Event, t: State)
    requires t.t.bearers == s.t.bearers
    ensures BearersMove(s, e, t)
  {
  }

  lemma CleanupMovesCodes(s: State, e: Event)
    requires Inv(s) && Allowed(s, e) && e.Cleanup?
    ensures CodesMove(s, e, Apply(s, e))
  {
  }

  lemma CleanupMovesRefresh(s: State, e: Event)
    requires Inv(s) && Allowed(s, e) && e.Cleanup?
    ensures RefreshMove(s, e, Apply(s, e))
  {
  }

  /** A revocation disables the client of what it takes away. */
  lemma RevokeDisables(s: State, g: Grant)
    requires RowsOk(s)
    ensures forall h :: h in s.t.codes && s.t.codes[h].grant == g ==> !ClientActive(AfterRevoke(s.t, g), g.client)
    ensures forall h :: h in s.t.refresh && s.t.refresh[h].grant == g ==> !ClientActive(AfterRevoke(s.t, g), g.client)
    ensures forall h :: h in s.t.bearers && s.t.bearers[h].grant == g ==> !ClientActive(AfterRevoke(s.t, g), g.client)
  {
  }

  lemma RevokeMovesCodes(s: State, e: Event)
    requires Inv(s) && Allowed(s, e) && e.Revoke?
    ensures CodesMove(s, e, Apply(s, e))
  {
    RevokeDisables(s, e.g);
  }

  lemma RevokeMovesRefresh(s: State, e: Event)
    requires Inv(s) && Allowed(s, e) && e.Revoke?
    ensures RefreshMove(s, e, Apply(s, e))
  {
    RevokeDisables(s, e.g);
  }

  lemma RevokeMovesBearers(s: State, e: Event)
    requires Inv(s) && Allowed(s, e) && e.Revoke?
    ensures BearersMove(s, e, Apply(s, e))
  {
    RevokeDisables(s, e.g);
  }

  lemma ConsentMovesCodes(s: State, e: Event)
    requires Inv(s) && Allowed(s, e) && e.GiveConsent?
    ensures CodesMove(s, e, Apply(s, e))
  {
  }

  lemma PersonalMovesBearers(s: State, e: Event)
    requires Inv(s) && Allowed(s, e) && e.IssuePersonal?
    ensures BearersMove(s, e, Apply(s, e))
  {
  }

  lemma StepMovesCodes(s: State, e: Event)
    requires Inv(s) && Allowed(s, e)
    ensures CodesMove(s, e, Apply(s, e))
  {
    match e
    case Commit(r, _) =>
      if s.requests[r].form.CodeForm? {
        CodeCommitMovesCodes(s, e);
      } else {
        RotationMovesCodes(s, e);
      }
    case Cleanup => CleanupMovesCodes(s, e);
    case Revoke(_) => RevokeMovesCodes(s, e);
    case GiveConsent(_, _, _, _, _, _, _, _) => ConsentMovesCodes(s, e);
    case _ => QuietCodes(s, e, Apply(s, e));
  }

  lemma StepMovesRefresh(s: State, e: Event)
    requires Inv(s) && Allowed(s, e)
    ensures RefreshMove(s, e, Apply(s, e))
  {
    match e
    case Commit(r, _) =>
      if s.requests[r].form.CodeForm? {
        CodeCommitMovesRefresh(s, e);
      } else {
        RotationMovesRefresh(s, e);
      }
    case Cleanup => CleanupMovesRefresh(s, e);
    case Revoke(_) => RevokeMovesRefresh(s, e);
    case _ => QuietRefresh(s, e, Apply(s, e));
  }

  lemma StepMovesBearers(s: State, e: Event)
    requires Inv(s) && Allowed(s, e)
    ensures BearersMove(s, e, Apply(s, e))
  {
    match e
    case Commit(_, _) => CommitMovesBearers(s, e);
    case Revoke(_) => RevokeMovesBearers(s, e);
    case IssuePersonal(_, _, _, _) => PersonalMovesBearers(s, e);
    case _ => QuietBearers(s, e, Apply(s, e));
  }

  lemma RunIsTrace(states: seq<State>, events: seq<Event>)
    requires Run(states, events)
    ensures Trace(states, events)
  {
    forall i | 0 <= i < |events| ensures Moves(states[i], events[i], states[i + 1]) {
      RunKeepsInv(states, events, i);
      StepGoesOn(states[i], events[i]);
      StepMovesCodes(states[i], events[i]);
      StepMovesRefresh(states[i], events[i]);
      StepMovesBearers(states[i], events[i]);
    }
  }

  lemma {:induction false} TraceGoesOn(states: seq<State>, events: seq<Event>, i: nat, j: nat)
    requires Trace(states, events) && i <= j < |states|
    ensures GoesOn(states[i], states[j])
    decreases j - i
  {
    if i < j {
      TraceGoesOn(states, events, i, j - 1);
      assert Moves(states[j - 1], events[j - 1], states[j]);
    }
  }

  // ---------------------------------------------------------------- codes

  /** The consent that handed out the code. */
  ghost predicate HandsOut(states: seq<State>, events: seq<Event>, j: nat, h: int) {
    && j < |events| < |states| && events[j].GiveConsent? && events[j].code == h
    && h !in states[j].t.codes && h in states[j + 1].t.codes
  }

  /** A token request between two states was given a bearer for the code. */
  ghost predicate Spent(states: seq<State>, events: seq<Event>, from: nat, to: nat, h: int) {
    exists m :: from <= m < to && m < |events| < |states| && SpendsCode(states[m], events[m], states[m + 1], h)
  }

  /** A code that was handed out and not spent is there while its client is active and it has not expired. */
  lemma {:induction false} CodeIsThere(states: seq<State>, events: seq<Event>, j: nat, k: nat, h: int)
    requires Trace(states, events) && HandsOut(states, events, j, h) && j < k < |states|
    requires !Spent(states, events, j + 1, k, h)
    requires ClientActive(states[k].t, events[j].client) && states[k].t.now <= states[j].t.now + 300
    ensures h in states[k].t.codes && states[k].t.codes[h] == CodeOf(events[j], states[j].t.now)
    decreases k
  {
    assert Moves(states[j], events[j], states[j + 1]);
    if k > j + 1 {
      TraceGoesOn(states, events, j + 1, k - 1);
      assert Moves(states[k - 1], events[k - 1], states[k]);
      CodeIsThere(states, events, j, k - 1, h);
    }
  }

  /** A hash that was handed out is not handed out again: a code that is gone stays gone. */
  lemma {:induction false} GoneStaysGone(states: seq<State>, events: seq<Event>, i: nat, k: nat, h: int)
    requires Trace(states, events) && i <= k < |states| && h in states[i].used && h !in states[i].t.codes
    ensures h !in states[k].t.codes
    decreases k - i
  {
    if i < k {
      GoneStaysGone(states, events, i, k - 1, h);
      TraceGoesOn(states, events, i, k - 1);
      assert Moves(states[k - 1], events[k - 1], states[k]);
    }
  }

  lemma SpentAtIsGone(states: seq<State>, events: seq<Event>, m: nat, k: nat, h: int)
    requires Trace(states, events) && m < k < |states| && SpendsCode(states[m], events[m], states[m + 1], h)
    ensures h !in states[k].t.codes
  {
    assert Moves(states[m], events[m], states[m + 1]);
    GoneStaysGone(states, events, m + 1, k, h);
  }

  lemma SpentIsGone(states: seq<State>, events: seq<Event>, from: nat, k: nat, h: int)
    requires Trace(states, events) && k < |states| && Spent(states, events, from, k, h)
    ensures h !in states[k].t.codes
  {
    var m :| from <= m < k && m < |events| < |states| && SpendsCode(states[m], events[m], states[m + 1], h);
    SpentAtIsGone(states, events, m, k, h);
  }

  lemma NewCodeIsConsents(s: State, e: Event, t: State, h: int)
    requires CodesMove(s, e, t) && h in t.t.codes
    ensures h in s.t.codes ==> t.t.codes[h] == s.t.codes[h]
    ensures h !in s.t.codes ==> e.GiveConsent? && e.code == h && t.t.codes[h] == CodeOf(e, s.t.now)
  {
  }

  /** Every code there was handed out by a consent. */
  lemma {:induction false} CodeWasHandedOut(states: seq<State>, events: seq<Event>, k: nat, h: int) returns (j: nat)
    requires Trace(states, events) && k < |states| && h in states[k].t.codes
    ensures j < k && HandsOut(states, events, j, h) && states[k].t.codes[h] == CodeOf(events[j], states[j].t.now)
  {
    assert Moves(states[k - 1], events[k - 1], states[k]);
    NewCodeIsConsents(states[k - 1], events[k - 1], states[k], h);
    if h in states[k - 1].t.codes {
      j := CodeWasHandedOut(states, events, k - 1, h);
    } else {
      j := k - 1;
    }
  }

  lemma NoSecondConsent(states: seq<State>, events: seq<Event>, i: nat, j: nat, h: int)
    requires Trace(states, events) && i < j && HandsOut(states, events, i, h)
    ensures !HandsOut(states, events, j, h)
  {
    assert Moves(states[i], events[i], states[i + 1]);
    if j < |events| {
      TraceGoesOn(states, events, i + 1, j);
      assert Moves(states[j], events[j], states[j + 1]);
    }
  }

  /** The consent behind a code that is there is the one that handed it out. */
  lemma CodeIsConsents(states: seq<State>, events: seq<Event>, j: nat, k: nat, h: int)
    requires Trace(states, events) && HandsOut(states, events, j, h) && k < |states| && h in states[k].t.codes
    ensures states[k].t.codes[h] == CodeOf(events[j], states[j].t.now)
  {
    var i := CodeWasHandedOut(states, events, k, h);
    if i < j {
      NoSecondConsent(states, events, i, j, h);
    } else if j < i {
      NoSecondConsent(states, events, j, i, h);
    }
  }

  // ---------------------------------------------------------------- redeeming a code

  /** 43 to 128 unreserved characters (section 4.1 of RFC 7636). */
  predicate VerifierShape(v: string) {
    && 43 <= |v| <= 128
    && forall i :: 0 <= i < |v| ==> Unreserved(v[i])
  }

  predicate Unreserved(c: char) {
    'A' <= c <= 'Z' || 'a' <= c <= 'z' || '0' <= c <= '9' || c in {'-', '.', '_', '~'}
  }

  lemma ShapeIsValid(v: string)
    ensures VerifierShape(v) <==> ValidVerifier(v)
  {
  }

  /** The tokens a mint leaves. */
  predicate LeavesPair(t: Tables, pair: TokenPair, app: int, g: Grant, scopes: set<string>, now: int) {
    && pair.bearer in t.bearers && g.client in t.gateways
    && t.bearers[pair.bearer] == Bearer(g, t.gateways[g.client].user, scopes, Some(now + 3600), false)
    && pair.refresh in t.refresh
    && t.refresh[pair.refresh] == Refresh(app, g, scopes, now + 2592000, false)
  }

  /** What a request presents agrees with what the code was handed out for. */
  predicate Agrees(q: Request, row: Code)
    requires q.form.CodeForm?
  {
    && q.app == row.app && q.form.redirect == row.redirect
    && q.form.digest == row.challenge && VerifierShape(q.form.verifier)
  }

  predicate BothActive(t: Tables, g: Grant) {
    ClientActive(t, g.client) && AccountActive(t, g.account)
  }

  /** One request against the row of its code. */
  lemma CodeStepMintsIff(s: State, e: Event)
    requires Inv(s) && Allowed(s, e) && e.Commit? && s.requests[e.r].form.CodeForm?
    ensures var q, h := s.requests[e.r], s.requests[e.r].form.code;
            Mints(s, e, Apply(s, e)) <==>
              && h in s.t.codes && Agrees(q, s.t.codes[h]) && s.t.now < s.t.codes[h].expires
              && BothActive(s.t, s.t.codes[h].grant) && Known(s.t.codes[h].scopes)
    ensures Mints(s, e, Apply(s, e)) ==>
              var q, row := s.requests[e.r], s.t.codes[s.requests[e.r].form.code];
              LeavesPair(Apply(s, e).t, e.pair, row.app, row.grant, row.scopes, s.t.now)
  {
    MintsIsMinted(s, e);
    ShapeIsValid(s.requests[e.r].form.verifier);
  }

  lemma CodeMintsAt(states: seq<State>, events: seq<Event>, i: nat)
    requires Run(states, events) && i < |events| && events[i].Commit? && events[i].r in states[i].requests
    requires states[i].requests[events[i].r].form.CodeForm?
    ensures var s, q, h := states[i], states[i].requests[events[i].r], states[i].requests[events[i].r].form.code;
            && (Mints(s, events[i], states[i + 1]) <==>
                  && h in s.t.codes && Agrees(q, s.t.codes[h]) && s.t.now < s.t.codes[h].expires
                  && BothActive(s.t, s.t.codes[h].grant) && Known(s.t.codes[h].scopes))
            && (Mints(s, events[i], states[i + 1]) ==>
                  LeavesPair(states[i + 1].t, events[i].pair, s.t.codes[h].app, s.t.codes[h].grant, s.t.codes[h].scopes, s.t.now))
  {
    RunKeepsInv(states, events, i);
    CodeStepMintsIff(states[i], events[i]);
  }

  /**
   A token request for a code that a consent handed out mints if and only if it comes from the app, for the redirect
   and with a verifier for the challenge of that consent, less than 300 seconds after it, while client and account are
   active, for known scopes, and no request minted for the code before. It then leaves a bearer and a refresh token
   for what was consented to.
   */
  lemma CodeMintsIff(states: seq<State>, events: seq<Event>, j: nat, i: nat)
    requires Run(states, events) && j < i < |events| && events[i].Commit? && events[i].r in states[i].requests
    requires states[i].requests[events[i].r].form.CodeForm?
    requires HandsOut(states, events, j, states[i].requests[events[i].r].form.code)
    ensures var q, consent := states[i].requests[events[i].r], events[j];
            && (Mints(states[i], events[i], states[i + 1]) <==>
                  && q.app == consent.app && q.form.redirect == consent.redirect
                  && q.form.digest == consent.challenge && VerifierShape(q.form.verifier)
                  && states[i].t.now - states[j].t.now < 300
                  && ClientActive(states[i].t, consent.client) && AccountActive(states[i].t, consent.account)
                  && Known(consent.scopes) && !Spent(states, events, j + 1, i, q.form.code))
            && (Mints(states[i], events[i], states[i + 1]) ==>
                  LeavesPair(states[i + 1].t, events[i].pair, consent.app, Grant(consent.account, consent.client),
                             consent.scopes, states[i].t.now))
  {
    var h := states[i].requests[events[i].r].form.code;
    RunIsTrace(states, events);
    CodeMintsAt(states, events, i);
    if Spent(states, events, j + 1, i, h) {
      SpentIsGone(states, events, j + 1, i, h);
    } else if ClientActive(states[i].t, events[j].client) && states[i].t.now - states[j].t.now < 300 {
      CodeIsThere(states, events, j, i, h);
    }
    if h in states[i].t.codes {
      CodeIsConsents(states, events, j, i, h);
    }
  }

  /** No code is redeemed that no consent handed out. */
  lemma MintsHaveTheirConsent(states: seq<State>, events: seq<Event>, i: nat)
    requires Run(states, events) && i < |events| && Mints(states[i], events[i], states[i + 1])
    requires states[i].requests[events[i].r].form.CodeForm?
    ensures exists j :: 0 <= j < i && HandsOut(states, events, j, states[i].requests[events[i].r].form.code)
  {
    RunIsTrace(states, events);
    CodeMintsAt(states, events, i);
    var j := CodeWasHandedOut(states, events, i, states[i].requests[events[i].r].form.code);
  }

  /**
   A consent hands out its code if and only if the account is that user's and active, and then its client is that
   user's and active.
   */
  lemma ConsentHandsOutIff(states: seq<State>, events: seq<Event>, j: nat)
    requires Run(states, events) && j < |events| && events[j].GiveConsent?
    ensures HandsOut(states, events, j, events[j].code) <==>
              && events[j].account in states[j].t.accounts && states[j].t.accounts[events[j].account].user == events[j].user
              && states[j].t.accounts[events[j].account].active
    ensures HandsOut(states, events, j, events[j].code) ==>
              && events[j].client in states[j + 1].t.gateways
              && states[j + 1].t.gateways[events[j].client] == Gateway(events[j].user, true)
  {
    RunKeepsInv(states, events, j);
    assert Allowed(states[j], events[j]);
  }

  /** An active client stays so until it is disabled, its grant is revoked, or a spent token of it is replayed. */
  lemma ClientStaysActive(states: seq<State>, events: seq<Event>, j: nat, client: int)
    requires Run(states, events) && j < |events| && ClientActive(states[j].t, client)
    requires !ClientActive(states[j + 1].t, client)
    ensures var s, e := states[j], events[j];
            || (e.Disable? && e.client == client) || (e.Revoke? && e.g.client == client)
            || (e.Commit? && e.r in s.requests && s.requests[e.r].form.RefreshForm?
                && s.requests[e.r].form.token in s.t.refresh && s.t.refresh[s.requests[e.r].form.token].revoked
                && s.t.refresh[s.requests[e.r].form.token].grant.client == client)
  {
    assert Allowed(states[j], events[j]);
  }

  // ---------------------------------------------------------------- rotating a refresh token

  /** The mint that handed out the refresh token. */
  ghost predicate HandsOutRefresh(states: seq<State>, events: seq<Event>, j: nat, h: int) {
    && j < |events| < |states| && Mints(states[j], events[j], states[j + 1])
    && events[j].pair.refresh == h && h !in states[j].t.refresh && h in states[j + 1].t.refresh
  }

  ghost predicate Rotated(states: seq<State>, events: seq<Event>, from: nat, to: nat, h: int) {
    exists m :: from <= m < to && m < |events| < |states| && Rotates(states[m], events[m], states[m + 1], h)
  }

  /** The row of a refresh token, revoked or not. */
  predicate SameToken(a: Refresh, b: Refresh) {
    a.app == b.app && a.grant == b.grant && a.scopes == b.scopes && a.expires == b.expires
  }

  lemma {:induction false} TokenKeepsRow(states: seq<State>, events: seq<Event>, i: nat, k: nat, h: int)
    requires Trace(states, events) && i <= k < |states| && h in states[i].t.refresh && h in states[i].used
    ensures h in states[k].t.refresh ==> SameToken(states[k].t.refresh[h], states[i].t.refresh[h])
    ensures h in states[k].t.refresh && states[i].t.refresh[h].revoked ==> states[k].t.refresh[h].revoked
    decreases k - i
  {
    if i < k {
      TokenKeepsRow(states, events, i, k - 1, h);
      TraceGoesOn(states, events, i, k - 1);
      assert Moves(states[k - 1], events[k - 1], states[k]);
    }
  }

  /** A good token stays good over a step that does not rotate it, with its client active and before it expires. */
  lemma StaysGood(s: State, e: Event, t: State, h: int)
    requires RefreshMove(s, e, t) && h in s.t.refresh && !s.t.refresh[h].revoked && !Rotates(s, e, t, h)
    requires ClientActive(t.t, s.t.refresh[h].grant.client) && s.t.now <= s.t.refresh[h].expires
    ensures h in t.t.refresh && !t.t.refresh[h].revoked
  {
  }

  /** A token that was handed out and not rotated is good while its client is active and it has not expired. */
  lemma {:induction false} TokenIsGood(states: seq<State>, events: seq<Event>, j: nat, k: nat, h: int)
    requires Trace(states, events) && HandsOutRefresh(states, events, j, h) && j < k < |states|
    requires !Rotated(states, events, j + 1, k, h)
    requires ClientActive(states[k].t, states[j + 1].t.refresh[h].grant.client)
    requires states[k].t.now <= states[j].t.now + 2592000
    ensures h in states[k].t.refresh && !states[k].t.refresh[h].revoked
    decreases k
  {
    assert Moves(states[j], events[j], states[j + 1]);
    if k > j + 1 {
      TraceGoesOn(states, events, j + 1, k - 1);
      assert Moves(states[k - 1], events[k - 1], states[k]);
      TokenIsGood(states, events, j, k - 1, h);
      TokenKeepsRow(states, events, j + 1, k - 1, h);
      StaysGood(states[k - 1], events[k - 1], states[k], h);
    }
  }

  lemma {:induction false} LostStaysLost(states: seq<State>, events: seq<Event>, i: nat, k: nat, h: int)
    requires Trace(states, events) && i <= k < |states| && h in states[i].used
    requires h in states[i].t.refresh ==> states[i].t.refresh[h].revoked
    ensures h in states[k].t.refresh ==> states[k].t.refresh[h].revoked
    decreases k - i
  {
    if i < k {
      LostStaysLost(states, events, i, k - 1, h);
      TraceGoesOn(states, events, i, k - 1);
      assert Moves(states[k - 1], events[k - 1], states[k]);
    }
  }

  lemma RotatedIsLost(states: seq<State>, events: seq<Event>, from: nat, k: nat, h: int)
    requires Trace(states, events) && k < |states| && Rotated(states, events, from, k, h)
    ensures h in states[k].t.refresh ==> states[k].t.refresh[h].revoked
  {
    var m :| from <= m < k && m < |events| < |states| && Rotates(states[m], events[m], states[m + 1], h);
    RotatedAtIsLost(states, events, m, k, h);
  }

  lemma RotatedAtIsLost(states: seq<State>, events: seq<Event>, m: nat, k: nat, h: int)
    requires Trace(states, events) && m < k < |states| && Rotates(states[m], events[m], states[m + 1], h)
    ensures h in states[k].t.refresh ==> states[k].t.refresh[h].revoked
  {
    assert Moves(states[m], events[m], states[m + 1]);
    LostStaysLost(states, events, m + 1, k, h);
  }

  lemma NewTokenIsMinted(s: State, e: Event, t: State, h: int)
    requires RefreshMove(s, e, t) && h in t.t.refresh && h !in s.t.refresh
    ensures Mints(s, e, t) && e.pair.refresh == h
  {
  }

  /** Every refresh token there was handed out by a mint. */
  lemma {:induction false} TokenWasHandedOut(states: seq<State>, events: seq<Event>, k: nat, h: int) returns (j: nat)
    requires Trace(states, events) && k < |states| && h in states[k].t.refresh
    ensures j < k && HandsOutRefresh(states, events, j, h)
  {
    if h in states[k - 1].t.refresh {
      j := TokenWasHandedOut(states, events, k - 1, h);
    } else {
      j := k - 1;
      assert Moves(states[j], events[j], states[j + 1]);
      NewTokenIsMinted(states[j], events[j], states[j + 1], h);
    }
  }

  /** The scopes a rotation may ask for: none, for all that are held, or known ones that are held. */
  ghost predicate MayAsk(scope: Option<seq<string>>, held: set<string>) {
    scope.Some? ==> scope.value != [] && forall w :: w in scope.value ==> w in held
  }

  function Asked(scope: Option<seq<string>>, held: set<string>): set<string> {
    if scope.None? then held else set w | w in scope.value
  }

  lemma NarrowsIff(held: set<string>, scope: Option<seq<string>>)
    requires Known(held)
    ensures Narrowed(held, scope).Some? <==> MayAsk(scope, held)
    ensures Narrowed(held, scope).Some? ==> Narrowed(held, scope).value == Asked(scope, held) && Known(Asked(scope, held))
  {
    if scope.Some? && scope.value != [] {
      assert scope.value[0] in scope.value;
      assert scope.value[0] in Asked(scope, held);
      assert forall w :: w in Elements(scope.value) <==> w in scope.value;
    }
  }

  /** One rotation against the row of its token. */
  lemma RotationStepMintsIff(s: State, e: Event)
    requires Inv(s) && Allowed(s, e) && e.Commit? && s.requests[e.r].form.RefreshForm?
    requires s.requests[e.r].form.token in s.t.refresh ==> Known(s.t.refresh[s.requests[e.r].form.token].scopes)
    ensures var q, h := s.requests[e.r], s.requests[e.r].form.token;
            Mints(s, e, Apply(s, e)) <==>
              && h in s.t.refresh && !s.t.refresh[h].revoked && q.app == s.t.refresh[h].app && s.t.now < s.t.refresh[h].expires
              && BothActive(s.t, s.t.refresh[h].grant) && MayAsk(q.form.scope, s.t.refresh[h].scopes)
    ensures Mints(s, e, Apply(s, e)) ==>
              var q, row := s.requests[e.r], s.t.refresh[s.requests[e.r].form.token];
              LeavesPair(Apply(s, e).t, e.pair, row.app, row.grant, Asked(q.form.scope, row.scopes), s.t.now)
  {
    MintsIsMinted(s, e);
    if s.requests[e.r].form.token in s.t.refresh {
      NarrowsIff(s.t.refresh[s.requests[e.r].form.token].scopes, s.requests[e.r].form.scope);
    }
  }

  lemma {:induction false} TokensAreKnown(states: seq<State>, events: seq<Event>, k: nat, h: int)
    requires Trace(states, events) && k < |states| && h in states[k].t.refresh
    ensures Known(states[k].t.refresh[h].scopes) && h in states[k].used
  {
    assert Moves(states[k - 1], events[k - 1], states[k]);
    if h in states[k - 1].t.refresh {
      TokensAreKnown(states, events, k - 1, h);
    }
  }

  lemma RotationMintsAt(states: seq<State>, events: seq<Event>, i: nat)
    requires Run(states, events) && Trace(states, events) && i < |events| && events[i].Commit? && events[i].r in states[i].requests
    requires states[i].requests[events[i].r].form.RefreshForm?
    ensures var s, q, h := states[i], states[i].requests[events[i].r], states[i].requests[events[i].r].form.token;
            && (Mints(s, events[i], states[i + 1]) <==>
                  && h in s.t.refresh && !s.t.refresh[h].revoked && q.app == s.t.refresh[h].app
                  && s.t.now < s.t.refresh[h].expires
                  && BothActive(s.t, s.t.refresh[h].grant) && MayAsk(q.form.scope, s.t.refresh[h].scopes))
            && (Mints(s, events[i], states[i + 1]) ==>
                  LeavesPair(states[i + 1].t, events[i].pair, s.t.refresh[h].app, s.t.refresh[h].grant,
                             Asked(q.form.scope, s.t.refresh[h].scopes), s.t.now))
  {
    RunKeepsInv(states, events, i);
    var h := states[i].requests[events[i].r].form.token;
    if h in states[i].t.refresh {
      TokensAreKnown(states, events, i, h);
    }
    RotationStepMintsIff(states[i], events[i]);
  }

  /**
   A token request for a refresh token that a mint handed out mints if and only if it comes from the app of that mint,
   less than 30 days after it, while client and account are active, asks for no scope that is not held, and no request
   minted for the token before. It then leaves a bearer and a refresh token for what was asked.
   */
  lemma RotationMintsIff(states: seq<State>, events: seq<Event>, j: nat, i: nat)
    requires Run(states, events) && j < i < |events| && events[i].Commit? && events[i].r in states[i].requests
    requires states[i].requests[events[i].r].form.RefreshForm?
    requires HandsOutRefresh(states, events, j, states[i].requests[events[i].r].form.token)
    ensures var q, h := states[i].requests[events[i].r], states[i].requests[events[i].r].form.token;
            var app, row := states[j].requests[events[j].r].app, states[j + 1].t.refresh[h];
            && (Mints(states[i], events[i], states[i + 1]) <==>
                  && q.app == app && states[i].t.now - states[j].t.now < 2592000
                  && ClientActive(states[i].t, row.grant.client) && AccountActive(states[i].t, row.grant.account)
                  && MayAsk(q.form.scope, row.scopes) && !Rotated(states, events, j + 1, i, h))
            && (Mints(states[i], events[i], states[i + 1]) ==>
                  LeavesPair(states[i + 1].t, events[i].pair, app, row.grant, Asked(q.form.scope, row.scopes), states[i].t.now))
  {
    var h := states[i].requests[events[i].r].form.token;
    RunIsTrace(states, events);
    RotationMintsAt(states, events, i);
    assert Moves(states[j], events[j], states[j + 1]);
    TokenKeepsRow(states, events, j + 1, i, h);
    if Rotated(states, events, j + 1, i, h) {
      RotatedIsLost(states, events, j + 1, i, h);
    } else if ClientActive(states[i].t, states[j + 1].t.refresh[h].grant.client) && states[i].t.now - states[j].t.now < 2592000 {
      TokenIsGood(states, events, j, i, h);
    }
  }

  /** No refresh token is rotated that no mint handed out. */
  lemma RotationsHaveTheirMint(states: seq<State>, events: seq<Event>, i: nat)
    requires Run(states, events) && i < |events| && Mints(states[i], events[i], states[i + 1])
    requires states[i].requests[events[i].r].form.RefreshForm?
    ensures exists j :: 0 <= j < i && HandsOutRefresh(states, events, j, states[i].requests[events[i].r].form.token)
  {
    RunIsTrace(states, events);
    RotationMintsAt(states, events, i);
    var j := TokenWasHandedOut(states, events, i, states[i].requests[events[i].r].form.token);
  }

  // ---------------------------------------------------------------- bearers

  /** A bearer's row stays, and is revoked only together with its client. */
  lemma {:induction false} BearerStays(states: seq<State>, events: seq<Event>, i: nat, k: nat, h: int)
    requires Trace(states, events) && i <= k < |states| && h in states[i].t.bearers && !states[i].t.bearers[h].revoked
    requires states[i].t.bearers[h].grant.client in states[i].t.gateways
    ensures h in states[k].t.bearers
    ensures states[k].t.bearers[h].(revoked := false) == states[i].t.bearers[h]
    ensures states[k].t.bearers[h].revoked ==> !ClientActive(states[k].t, states[i].t.bearers[h].grant.client)
    decreases k - i
  {
    if i < k {
      BearerStays(states, events, i, k - 1, h);
      TraceGoesOn(states, events, i, k - 1);
      assert Moves(states[k - 1], events[k - 1], states[k]);
    }
  }

  /** Of a bearer whose owners match, only revocation, expiry and what is not active keep it from authenticating. */
  lemma RowAuthenticatesIff(s: State, h: int)
    requires Inv(s) && h in s.t.bearers
    ensures var b := s.t.bearers[h];
            Authenticate(s.t, h) ==
              if && !b.revoked && BothActive(s.t, b.grant)
                 && (b.expires.Some? ==> s.t.now < b.expires.value) then Some(b.grant) else None
  {
    assert SameUser(s.t, s.t.bearers[h].grant);
  }

  /**
   In every later state a bearer authenticates, to its own grant, if and only if client and account are active and its
   time is not over: 3600 seconds for a minted one, and what it was given for a personal one.
   */
  lemma BearerAuthenticatesIff(states: seq<State>, events: seq<Event>, j: nat, k: nat, h: int)
    requires Run(states, events) && j < k < |states| && Issues(states[j], events[j], states[j + 1], h)
    ensures var g := states[j + 1].t.bearers[h].grant;
            var until := if events[j].Commit? then Some(states[j].t.now + 3600) else events[j].expires;
            && (Authenticate(states[k].t, h) == Some(g) <==>
                  && ClientActive(states[k].t, g.client) && AccountActive(states[k].t, g.account)
                  && (until.Some? ==> states[k].t.now < until.value))
            && (Authenticate(states[k].t, h).Some? ==> Authenticate(states[k].t, h) == Some(g))
            && (events[j].IssuePersonal? ==> g == events[j].g)
  {
    RunIsTrace(states, events);
    RunKeepsInv(states, events, k);
    assert Moves(states[j], events[j], states[j + 1]);
    BearerStays(states, events, j + 1, k, h);
    RowAuthenticatesIff(states[k], h);
  }

  lemma NewBearerIsIssued(s: State, e: Event, t: State, h: int)
    requires BearersMove(s, e, t) && h in t.t.bearers && h !in s.t.bearers
    ensures Issues(s, e, t, h)
  {
  }

  /** Nothing authenticates that was not minted or issued. */
  lemma {:induction false} BearerWasIssued(states: seq<State>, events: seq<Event>, k: nat, h: int) returns (j: nat)
    requires Trace(states, events) && k < |states| && h in states[k].t.bearers
    ensures j < k && j < |events| && Issues(states[j], events[j], states[j + 1], h)
  {
    if h in states[k - 1].t.bearers {
      j := BearerWasIssued(states, events, k - 1, h);
    } else {
      j := k - 1;
      assert Moves(states[j], events[j], states[j + 1]);
      NewBearerIsIssued(states[j], events[j], states[j + 1], h);
    }
  }

  lemma AuthenticatedWasIssued(states: seq<State>, events: seq<Event>, k: nat, h: int)
    requires Run(states, events) && k < |states| && Authenticate(states[k].t, h).Some?
    ensures exists j :: 0 <= j < k && Issues(states[j], events[j], states[j + 1], h)
  {
    RunIsTrace(states, events);
    var j := BearerWasIssued(states, events, k, h);
  }

  /** A personal token is issued if and only if client and account are one user's and active, and it makes sense. */
  lemma PersonalIssuedIff(states: seq<State>, events: seq<Event>, j: nat)
    requires Run(states, events) && j < |events| && events[j].IssuePersonal?
    ensures var t, e := states[j].t, events[j];
            Issues(states[j], e, states[j + 1], e.bearer) <==>
              && ClientActive(t, e.g.client) && AccountActive(t, e.g.account)
              && t.gateways[e.g.client].user == t.accounts[e.g.account].user
              && Known(e.scopes) && (e.expires.Some? ==> t.now < e.expires.value)
    ensures var e := events[j];
            Issues(states[j], e, states[j + 1], e.bearer) ==> states[j + 1].t.bearers[e.bearer].scopes == e.scopes
  {
    RunKeepsInv(states, events, j);
    assert Allowed(states[j], events[j]);
  }

  /** What a cleanup leaves: codes for 300 seconds after their consent, refresh tokens for 30 days after their mint. */
  lemma CleanupForgets(states: seq<State>, events: seq<Event>, j: nat, i: nat, h: int)
    requires Run(states, events) && j < i < |events| && events[i].Cleanup?
    ensures HandsOut(states, events, j, h) ==>
              (h in states[i + 1].t.codes <==> h in states[i].t.codes && states[i].t.now - states[j].t.now <= 300)
    ensures HandsOutRefresh(states, events, j, h) ==>
              (h in states[i + 1].t.refresh <==> h in states[i].t.refresh && states[i].t.now - states[j].t.now <= 2592000)
    ensures states[i + 1].t.bearers == states[i].t.bearers && states[i + 1].t.gateways == states[i].t.gateways
  {
    RunIsTrace(states, events);
    assert Allowed(states[i], events[i]) && Moves(states[j], events[j], states[j + 1]);
    if HandsOut(states, events, j, h) && h in states[i].t.codes {
      CodeIsConsents(states, events, j, i, h);
    }
    if HandsOutRefresh(states, events, j, h) {
      TokenKeepsRow(states, events, j + 1, i, h);
    }
  }

  // ---------------------------------------------------------------- revoking by a token

  /** Right after a mint its app may revoke the grant by either token of the pair. */
  lemma EitherTokenFindsGrant(states: seq<State>, events: seq<Event>, j: nat, h: int)
    requires Run(states, events) && HandsOutRefresh(states, events, j, h)
    ensures var t, app, pair := states[j + 1].t, states[j].requests[events[j].r].app, events[j].pair;
            RevocationFinds(t, app, pair.refresh, t.refresh[h].grant) && RevocationFinds(t, app, pair.bearer, t.refresh[h].grant)
  {
    RunIsTrace(states, events);
    RunKeepsInv(states, events, j);
    assert Moves(states[j], events[j], states[j + 1]);
    assert Allowed(states[j], events[j]);
    MintsIsMinted(states[j], events[j]);
  }

  /** A refresh token is of no use to another app: it finds nothing and mints nothing there. */
  lemma OthersTokenFindsNothing(states: seq<State>, events: seq<Event>, j: nat, k: nat, h: int, app: int, g: Grant)
    requires Run(states, events) && HandsOutRefresh(states, events, j, h) && j < k < |states|
    requires app != states[j].requests[events[j].r].app && h !in states[k].t.bearers
    ensures !RevocationFinds(states[k].t, app, h, g)
  {
    RunIsTrace(states, events);
    assert Moves(states[j], events[j], states[j + 1]);
    TokenKeepsRow(states, events, j + 1, k, h);
  }
}
