/**
 The OAuth grant lifecycle: consent mints a code, the code is redeemed for a bearer and a refresh token,
 each refresh token is rotated into a successor, and a replay or a revocation closes the grant.

 A token request first finds its grant without a lock, then takes the grant's lock and reads the row
 again; every other handler may commit in between. A hash is an abstract number; the digest of a verifier
 is computed by the caller.
 */
module OAuthGrants {
  import opened Common

  /** One account's authorization of one gateway client. */
  datatype Grant = Grant(account: int, client: int)

  datatype Account = Account(user: int, active: bool)
  datatype Gateway = Gateway(user: int, active: bool)
  datatype Code = Code(app: int, grant: Grant, redirect: string, challenge: string, scopes: set<string>, expires: int)
  datatype Refresh = Refresh(app: int, grant: Grant, scopes: set<string>, expires: int, revoked: bool)
  datatype Bearer = Bearer(grant: Grant, user: int, scopes: set<string>, expires: Option<int>, revoked: bool)

  datatype Tables = Tables(
    now: int,
    accounts: map<int, Account>, gateways: map<int, Gateway>,
    codes: map<int, Code>, refresh: map<int, Refresh>, bearers: map<int, Bearer>)

  const CODE_SECONDS := 300
  const BEARER_SECONDS := 3600
  const REFRESH_SECONDS := 30 * 24 * 3600

  const ALL_SCOPES: set<string> :=
    {"profile:read", "chats:list", "chat:read", "messages:read", "messages:search",
     "contacts:read", "members:read", "media:read", "messages:send"}

  /** What the token endpoint receives. `scope` is absent, or the words of a non-empty scope parameter. */
  datatype Form =
    | CodeForm(code: int, redirect: string, verifier: string, digest: string)
    | RefreshForm(token: int, scope: Option<seq<string>>)

  datatype TokenPair = TokenPair(bearer: int, refresh: int)
  datatype Outcome = Minted | Replayed | Rejected

  // ---------------------------------------------------------------- statements and transactions

  predicate VerifierChar(c: char) {
    'A' <= c <= 'Z' || 'a' <= c <= 'z' || '0' <= c <= '9' || c == '.' || c == '_' || c == '~' || c == '-'
  }

  predicate ValidVerifier(v: string) {
    43 <= |v| <= 128 && forall i :: 0 <= i < |v| ==> VerifierChar(v[i])
  }

  function ParseScopes(words: seq<string>): Option<set<string>> {
    if words == [] || exists w :: w in words && w !in ALL_SCOPES then None else Some(Elements(words))
  }

  /** The join every issuing and revoking statement makes between the gateway client and the account. */
  predicate SameUser(t: Tables, g: Grant) {
    g.client in t.gateways && g.account in t.accounts && t.gateways[g.client].user == t.accounts[g.account].user
  }

  predicate Usable(t: Tables, g: Grant) {
    SameUser(t, g) && t.gateways[g.client].active
  }

  function AfterRevoke(t: Tables, g: Grant): Tables {
    t.(gateways := if SameUser(t, g) then t.gateways[g.client := t.gateways[g.client].(active := false)] else t.gateways,
       bearers := map h | h in t.bearers ::
                    if t.bearers[h].grant == g then t.bearers[h].(revoked := true) else t.bearers[h],
       refresh := map h | h in t.refresh ::
                    if t.refresh[h].grant == g then t.refresh[h].(revoked := true) else t.refresh[h],
       codes := map h | h in t.codes && t.codes[h].grant != g :: t.codes[h])
  }

  /** Both inserts succeed, or the transaction is rolled back. */
  predicate CanIssue(t: Tables, g: Grant, scopes: set<string>, pair: TokenPair) {
    && Usable(t, g) && t.accounts[g.account].active
    && scopes != {} && scopes <= ALL_SCOPES
    && pair.bearer !in t.bearers && pair.refresh !in t.refresh
  }

  function AfterIssue(t: Tables, app: int, g: Grant, scopes: set<string>, pair: TokenPair): Tables
    requires CanIssue(t, g, scopes, pair)
  {
    t.(bearers := t.bearers[pair.bearer :=
                    Bearer(g, t.gateways[g.client].user, scopes, Some(t.now + BEARER_SECONDS), false)],
       refresh := t.refresh[pair.refresh := Refresh(app, g, scopes, t.now + REFRESH_SECONDS, false)])
  }

  /** Consent in one transaction: a gateway client of the account's user, and a code for it. */
  predicate CanConsent(t: Tables, account: int, user: int, client: int, code: int) {
    && account in t.accounts && t.accounts[account].user == user && t.accounts[account].active
    && client !in t.gateways && code !in t.codes
  }

  function AfterConsent(t: Tables, app: int, g: Grant, user: int, scopes: set<string>, code: int,
                        redirect: string, challenge: string): Tables
  {
    t.(gateways := t.gateways[g.client := Gateway(user, true)],
       codes := t.codes[code := Code(app, g, redirect, challenge, scopes, t.now + CODE_SECONDS)])
  }

  function Discover(t: Tables, app: int, form: Form): Option<Grant> {
    match form
    case CodeForm(c, _, _, _) => if c in t.codes && t.codes[c].app == app then Some(t.codes[c].grant) else None
    case RefreshForm(h, _) => if h in t.refresh && t.refresh[h].app == app then Some(t.refresh[h].grant) else None
  }

  predicate CodeAccepted(t: Tables, app: int, form: Form)
    requires form.CodeForm?
  {
    && form.code in t.codes && t.codes[form.code].app == app && t.codes[form.code].expires > t.now
    && t.codes[form.code].redirect == form.redirect
    && ValidVerifier(form.verifier) && t.codes[form.code].challenge == form.digest
  }

  /** The scopes a rotation grants: all of the token's, or a requested subset of them. */
  function Narrowed(held: set<string>, scope: Option<seq<string>>): Option<set<string>> {
    if scope.None? then Some(held)
    else
      var asked := ParseScopes(scope.value);
      if asked.Some? && asked.value <= held then asked else None
  }

  /** The locked half of the token endpoint. */
  function Redeem(t: Tables, app: int, form: Form, pair: TokenPair): (Outcome, Tables) {
    match form
    case CodeForm(c, _, _, _) =>
      if !CodeAccepted(t, app, form) then (Rejected, t)
      else
        var row := t.codes[c];
        var spent := t.(codes := t.codes - {c});
        if CanIssue(spent, row.grant, row.scopes, pair)
        then (Minted, AfterIssue(spent, app, row.grant, row.scopes, pair)) else (Rejected, t)
    case RefreshForm(h, scope) =>
      if h !in t.refresh || t.refresh[h].app != app then (Rejected, t)
      else
        var row := t.refresh[h];
        if row.revoked then (Replayed, AfterRevoke(t, row.grant))
        else if row.expires <= t.now || Narrowed(row.scopes, scope).None? then (Rejected, t)
        else
          var scopes := Narrowed(row.scopes, scope).value;
          var spent := t.(refresh := t.refresh[h := row.(revoked := true)]);
          if CanIssue(spent, row.grant, scopes, pair)
          then (Minted, AfterIssue(spent, app, row.grant, scopes, pair)) else (Rejected, t)
  }

  function Authenticate(t: Tables, h: int): Option<Grant> {
    if && h in t.bearers
       && var b := t.bearers[h];
       && !b.revoked && (b.expires.None? || b.expires.value > t.now)
       && b.grant.client in t.gateways && t.gateways[b.grant.client].user == b.user && t.gateways[b.grant.client].active
       && b.grant.account in t.accounts && t.accounts[b.grant.account].user == b.user && t.accounts[b.grant.account].active
    then Some(t.bearers[h].grant) else None
  }

  /** The grant the revocation endpoint finds for a presented token, refresh or bearer. */
  ghost predicate RevocationFinds(t: Tables, app: int, token: int, g: Grant) {
    || (token in t.refresh && t.refresh[token].app == app && t.refresh[token].grant == g)
    || (token in t.bearers && t.bearers[token].grant == g
        && exists h :: h in t.refresh && t.refresh[h].app == app && t.refresh[h].grant == g)
  }

  // ---------------------------------------------------------------- the handlers, statement by statement

  class GrantStore {
    var now: int
    var accounts: map<int, Account>
    var gateways: map<int, Gateway>
    var codes: map<int, Code>
    var refresh: map<int, Refresh>
    var bearers: map<int, Bearer>

    ghost function Model(): Tables
      reads this
    {
      Tables(now, accounts, gateways, codes, refresh, bearers)
    }

    method RevokeGrant(g: Grant)
      modifies this`gateways, this`bearers, this`refresh, this`codes
      ensures Model() == AfterRevoke(old(Model()), g)
    {
      if g.client in gateways && g.account in accounts && gateways[g.client].user == accounts[g.account].user {
        gateways := gateways[g.client := gateways[g.client].(active := false)];
      }
      bearers := map h | h in bearers :: if bearers[h].grant == g then bearers[h].(revoked := true) else bearers[h];
      refresh := map h | h in refresh :: if refresh[h].grant == g then refresh[h].(revoked := true) else refresh[h];
      codes := map h | h in codes && codes[h].grant != g :: codes[h];
    }

    /** False is the refused consent; the transaction is rolled back. */
    method Consent(app: int, g: Grant, user: int, scopes: set<string>, code: int, redirect: string, challenge: string)
      returns (ok: bool)
      modifies this`gateways, this`codes
      ensures ok <==> CanConsent(old(Model()), g.account, user, g.client, code)
      ensures Model() == (if ok then AfterConsent(old(Model()), app, g, user, scopes, code, redirect, challenge)
                          else old(Model()))
    {
      if g.account !in accounts || accounts[g.account].user != user || !accounts[g.account].active || g.client in gateways {
        return false;
      }
      var before := gateways;
      gateways := gateways[g.client := Gateway(accounts[g.account].user, true)];
      if code in codes {
        gateways := before;
        return false;
      }
      codes := codes[code := Code(app, g, redirect, challenge, scopes, now + CODE_SECONDS)];
      return true;
    }

    method AuthenticateBearer(h: int) returns (g: Option<Grant>)
      ensures g == Authenticate(Model(), h)
    {
      if h !in bearers {
        return None;
      }
      var b := bearers[h];
      if b.grant.client !in gateways || gateways[b.grant.client].user != b.user {
        return None;
      }
      if b.grant.account !in accounts || accounts[b.grant.account].user != b.user {
        return None;
      }
      if b.revoked || (b.expires.Some? && b.expires.value <= now) {
        return None;
      }
      if !gateways[b.grant.client].active || !accounts[b.grant.account].active {
        return None;
      }
      return Some(b.grant);
    }

    /** The revocation endpoint: a token the client does not own changes nothing and is no error. */
    method Revoke(app: int, token: int) returns (found: Option<Grant>)
      modifies this`gateways, this`bearers, this`refresh, this`codes
      ensures found.None? ==> Model() == old(Model()) && forall g :: !RevocationFinds(old(Model()), app, token, g)
      ensures found.Some? ==>
                RevocationFinds(old(Model()), app, token, found.value) && Model() == AfterRevoke(old(Model()), found.value)
    {
      if token in refresh && refresh[token].app == app {
        found := Some(refresh[token].grant);
      } else if token in bearers
                && exists h :: h in refresh && refresh[h].app == app && refresh[h].grant == bearers[token].grant {
        found := Some(bearers[token].grant);
      } else {
        return None;
      }
      RevokeGrant(found.value);
    }

    method Issue(app: int, g: Grant, scopes: set<string>, pair: TokenPair) returns (ok: bool)
      modifies this`bearers, this`refresh
      ensures ok == CanIssue(old(Model()), g, scopes, pair)
      ensures Model() == if ok then AfterIssue(old(Model()), app, g, scopes, pair) else old(Model())
    {
      if !(g.client in gateways && g.account in accounts && gateways[g.client].user == accounts[g.account].user
           && gateways[g.client].active && accounts[g.account].active && scopes != {} && scopes <= ALL_SCOPES
           && pair.bearer !in bearers) {
        return false;
      }
      if pair.refresh in refresh {
        return false;
      }
      bearers := bearers[pair.bearer :=
        Bearer(g, gateways[g.client].user, scopes, Some(now + BEARER_SECONDS), false)];
      refresh := refresh[pair.refresh := Refresh(app, g, scopes, now + REFRESH_SECONDS, false)];
      return true;
    }

    method Token(app: int, form: Form, pair: TokenPair) returns (r: Outcome)
      modifies this
      ensures (r, Model()) == Redeem(old(Model()), app, form, pair)
    {
      match form {
        case CodeForm(code, redirect, verifier, digest) =>
          if code !in codes || codes[code].app != app || codes[code].expires <= now {
            return Rejected;
          }
          var row := codes[code];
          if redirect != row.redirect || !ValidVerifier(verifier) || digest != row.challenge {
            return Rejected;
          }
          var before := codes;
          codes := codes - {code};
          var ok := Issue(app, row.grant, row.scopes, pair);
          if !ok {
            codes := before;
            return Rejected;
          }
          return Minted;
        case RefreshForm(token, scope) =>
          if token !in refresh || refresh[token].app != app {
            return Rejected;
          }
          var row := refresh[token];
          if row.revoked {
            RevokeGrant(row.grant);
            return Replayed;
          }
          if row.expires <= now {
            return Rejected;
          }
          var scopes := row.scopes;
          if scope.Some? {
            var narrow := ParseScopes(scope.value);
            if narrow.None? || !(narrow.value <= scopes) {
              return Rejected;
            }
            scopes := narrow.value;
          }
          var before := refresh;
          refresh := refresh[token := row.(revoked := true)];
          var ok := Issue(app, row.grant, scopes, pair);
          if !ok {
            refresh := before;
            return Rejected;
          }
          return Minted;
      }
    }
  }

  // ---------------------------------------------------------------- all handlers, interleaved

  datatype Consent = Consent(app: int, account: int, scopes: set<string>)
  datatype Request = Request(app: int, form: Form, found: Grant)

  /**
   `requests` are token requests that have found their grant and wait for its lock; `consents` remembers
   what was consented to for each gateway client, and `used` every hash ever handed out.
   */
  datatype State = State(t: Tables, requests: map<nat, Request>, consents: map<int, Consent>, used: set<int>)

  datatype Event =
    | Tick(to: int)
    | NewAccount(account: int, user: int)
    | SetAccount(account: int, active: bool)
    | GiveConsent(app: int, account: int, user: int, scopes: set<string>, client: int, code: int,
                  redirect: string, challenge: string)
    | NewPersonalClient(client: int, user: int)
    | IssuePersonal(g: Grant, bearer: int, scopes: set<string>, expires: Option<int>)
    | Find(r: nat, app: int, form: Form)
    | Commit(r: nat, pair: TokenPair)
    | DropRequest(r: nat)
    | Revoke(g: Grant)
    | Disable(client: int)
    | Cleanup

  /** Clock and randomness: time does not run backwards and new hashes are new. */
  ghost predicate Allowed(s: State, e: Event) {
    match e
    case Tick(to) => s.t.now <= to
    case NewAccount(a, _) => a !in s.t.accounts
    case SetAccount(a, _) => a in s.t.accounts
    case GiveConsent(_, _, _, _, client, code, _, _) => client !in s.t.gateways && code !in s.used
    case NewPersonalClient(client, _) => client !in s.t.gateways
    case IssuePersonal(g, bearer, _, _) => g.client !in s.consents && bearer !in s.used
    case Find(r, app, form) => r !in s.requests && Discover(s.t, app, form).Some?
    case Commit(r, pair) =>
      r in s.requests && pair.bearer !in s.used && pair.refresh !in s.used && pair.bearer != pair.refresh
    case _ => true
  }

  ghost function Apply(s: State, e: Event): State
    requires Allowed(s, e)
  {
    match e
    case Tick(to) => s.(t := s.t.(now := to))
    case NewAccount(a, user) => s.(t := s.t.(accounts := s.t.accounts[a := Account(user, false)]))
    case SetAccount(a, active) =>
      s.(t := s.t.(accounts := s.t.accounts[a := s.t.accounts[a].(active := active)]))
    case GiveConsent(app, account, user, scopes, client, code, redirect, challenge) =>
      if CanConsent(s.t, account, user, client, code) then
        s.(t := AfterConsent(s.t, app, Grant(account, client), user, scopes, code, redirect, challenge),
           consents := s.consents[client := Consent(app, account, scopes)],
           used := s.used + {code})
      else s
    case NewPersonalClient(client, user) =>
      s.(t := s.t.(gateways := s.t.gateways[client := Gateway(user, true)]))
    case IssuePersonal(g, bearer, scopes, expires) =>
      if && Usable(s.t, g) && s.t.accounts[g.account].active
         && scopes != {} && scopes <= ALL_SCOPES && (expires.None? || expires.value > s.t.now) then
        s.(t := s.t.(bearers := s.t.bearers[bearer := Bearer(g, s.t.gateways[g.client].user, scopes, expires, false)]),
           used := s.used + {bearer})
      else s
    case Find(r, app, form) => s.(requests := s.requests[r := Request(app, form, Discover(s.t, app, form).value)])
    case Commit(r, pair) =>
      var q := s.requests[r];
      s.(t := Redeem(s.t, q.app, q.form, pair).1, requests := s.requests - {r},
         used := s.used + {pair.bearer, pair.refresh})
    case DropRequest(r) => s.(requests := s.requests - {r})
    case Revoke(g) => s.(t := AfterRevoke(s.t, g))
    case Disable(client) =>
      if client in s.t.gateways
      then s.(t := s.t.(gateways := s.t.gateways[client := s.t.gateways[client].(active := false)])) else s
    case Cleanup =>
      s.(t := s.t.(codes := map h | h in s.t.codes && s.t.codes[h].expires >= s.t.now :: s.t.codes[h],
                   refresh := map h | h in s.t.refresh && s.t.refresh[h].expires >= s.t.now :: s.t.refresh[h]))
  }

  ghost predicate Initial(s: State) {
    && s.t.gateways == map[] && s.t.codes == map[] && s.t.refresh == map[] && s.t.bearers == map[]
    && s.requests == map[] && s.consents == map[] && s.used == {}
  }

  ghost predicate Run(states: seq<State>, events: seq<Event>) {
    && |states| == |events| + 1
    && Initial(states[0])
    && forall i :: 0 <= i < |events| ==> Allowed(states[i], events[i]) && states[i + 1] == Apply(states[i], events[i])
  }

  // ---------------------------------------------------------------- invariants

  datatype Credential = CodeOf(hash: int) | RefreshOf(hash: int)

  /** An unspent code or an unrevoked refresh token of the grant. */
  predicate Spendable(t: Tables, c: Credential, g: Grant) {
    match c
    case CodeOf(h) => h in t.codes && t.codes[h].grant == g
    case RefreshOf(h) => h in t.refresh && !t.refresh[h].revoked && t.refresh[h].grant == g
  }

  ghost predicate Linear(t: Tables) {
    forall c, d, g :: Spendable(t, c, g) && Spendable(t, d, g) ==> c == d
  }

  /** Consented rows stay within the consent: its app, its account, its scopes. */
  ghost predicate Within(s: State, g: Grant, scopes: set<string>) {
    && g.client in s.consents && s.consents[g.client].account == g.account && scopes <= s.consents[g.client].scopes
  }

  ghost predicate RowsOk(s: State) {
    && (forall h :: h in s.t.codes ==> SameUser(s.t, s.t.codes[h].grant))
    && (forall h :: h in s.t.refresh ==> SameUser(s.t, s.t.refresh[h].grant))
    && (forall h :: h in s.t.bearers ==>
          SameUser(s.t, s.t.bearers[h].grant) && s.t.bearers[h].user == s.t.gateways[s.t.bearers[h].grant.client].user)
    && (forall c :: c in s.consents ==> c in s.t.gateways)
  }

  ghost predicate ScopesOk(s: State) {
    && (forall h :: h in s.t.codes ==> Within(s, s.t.codes[h].grant, s.t.codes[h].scopes))
    && (forall h :: h in s.t.refresh ==> Within(s, s.t.refresh[h].grant, s.t.refresh[h].scopes))
    && (forall h :: h in s.t.bearers && s.t.bearers[h].grant.client in s.consents ==>
          Within(s, s.t.bearers[h].grant, s.t.bearers[h].scopes))
  }

  /** The row a waiting request names still belongs to the grant whose lock it is about to take. */
  ghost predicate LocksOk(s: State) {
    && (forall h :: h in s.t.codes || h in s.t.refresh || h in s.t.bearers ==> h in s.used)
    && forall r :: r in s.requests ==>
         match s.requests[r].form
         case CodeForm(h, _, _, _) => h in s.used && (h in s.t.codes ==> s.t.codes[h].grant == s.requests[r].found)
         case RefreshForm(h, _) => h in s.used && (h in s.t.refresh ==> s.t.refresh[h].grant == s.requests[r].found)
  }

  ghost predicate Inv(s: State) {
    Linear(s.t) && RowsOk(s) && ScopesOk(s) && LocksOk(s)
  }

  lemma RevokeGrantSpends(t: Tables, g: Grant, c: Credential, x: Grant)
    ensures Spendable(AfterRevoke(t, g), c, x) <==> Spendable(t, c, x) && x != g
  {
  }

  /** Redeeming or rotating moves the grant's one credential; it never adds a second. */
  lemma RedeemKeepsLinear(t: Tables, app: int, form: Form, pair: TokenPair)
    requires Linear(t)
    ensures Linear(Redeem(t, app, form, pair).1)
  {
    var (r, t') := Redeem(t, app, form, pair);
    forall c, d, g | Spendable(t', c, g) && Spendable(t', d, g) ensures c == d {
      if r == Replayed {
        RevokeGrantSpends(t, t.refresh[form.token].grant, c, g);
        RevokeGrantSpends(t, t.refresh[form.token].grant, d, g);
      } else if r == Minted {
        var spent := if form.CodeForm? then CodeOf(form.code) else RefreshOf(form.token);
        var owner := if form.CodeForm? then t.codes[form.code].grant else t.refresh[form.token].grant;
        assert Spendable(t, spent, owner);
        assert c != RefreshOf(pair.refresh) ==> Spendable(t, c, g) && c != spent;
        assert d != RefreshOf(pair.refresh) ==> Spendable(t, d, g) && d != spent;
      }
    }
  }

  /** A minted token's grant is its predecessor's and its scopes are among its predecessor's. */
  ghost predicate Descends(t: Tables, app: int, g: Grant, scopes: set<string>) {
    || (exists h :: h in t.codes && t.codes[h].app == app && t.codes[h].grant == g && scopes <= t.codes[h].scopes)
    || (exists h :: h in t.refresh && t.refresh[h].app == app && t.refresh[h].grant == g && !t.refresh[h].revoked
          && scopes <= t.refresh[h].scopes)
  }

  ghost predicate SameOwners(t: Tables, t': Tables) {
    && t'.accounts == t.accounts && t'.gateways.Keys == t.gateways.Keys
    && forall c :: c in t.gateways ==> t'.gateways[c].user == t.gateways[c].user
  }

  /** Disabled clients stay disabled and revoked tokens stay revoked. */
  ghost predicate NothingReopens(t: Tables, t': Tables) {
    && (forall c :: c in t.gateways && c in t'.gateways && t'.gateways[c].active ==> t.gateways[c].active)
    && (forall h :: h in t.refresh && h in t'.refresh && t.refresh[h].revoked ==> t'.refresh[h].revoked)
    && (forall h :: h in t.bearers && h in t'.bearers && t.bearers[h].revoked ==> t'.bearers[h].revoked)
  }

  ghost predicate RefreshEvolve(t: Tables, t': Tables, pair: TokenPair) {
    && (forall h :: h in t'.refresh && h in t.refresh ==>
          t'.refresh[h].(revoked := t.refresh[h].revoked) == t.refresh[h])
    && (forall h :: h in t'.refresh && h !in t.refresh ==>
          h == pair.refresh && Usable(t, t'.refresh[h].grant)
          && Descends(t, t'.refresh[h].app, t'.refresh[h].grant, t'.refresh[h].scopes))
  }

  ghost predicate BearersEvolve(t: Tables, t': Tables, app: int, pair: TokenPair) {
    && (forall h :: h in t'.bearers && h in t.bearers ==>
          t'.bearers[h].(revoked := t.bearers[h].revoked) == t.bearers[h])
    && (forall h :: h in t'.bearers && h !in t.bearers ==>
          h == pair.bearer && Usable(t, t'.bearers[h].grant)
          && Descends(t, app, t'.bearers[h].grant, t'.bearers[h].scopes)
          && t'.bearers[h].user == t.gateways[t'.bearers[h].grant.client].user)
  }

  /** Every row of t' is a row of t, possibly revoked, or the new pair, descending from a row of t. */
  ghost predicate Evolves(t: Tables, t': Tables, app: int, pair: TokenPair) {
    && SameOwners(t, t') && NothingReopens(t, t')
    && (forall h :: h in t'.codes ==> h in t.codes && t'.codes[h] == t.codes[h])
    && RefreshEvolve(t, t', pair) && BearersEvolve(t, t', app, pair)
  }

  lemma RevokeEvolves(t: Tables, g: Grant, app: int, pair: TokenPair)
    ensures Evolves(t, AfterRevoke(t, g), app, pair)
  {
  }

  lemma IssuedRefreshEvolve(t: Tables, spent: Tables, g: Grant, scopes: set<string>, app: int, pair: TokenPair)
    requires CanIssue(spent, g, scopes, pair) && RefreshEvolve(t, spent, pair)
    requires spent.gateways == t.gateways && spent.accounts == t.accounts && spent.refresh.Keys == t.refresh.Keys
    requires Descends(t, app, g, scopes)
    ensures RefreshEvolve(t, AfterIssue(spent, app, g, scopes, pair), pair)
  {
  }

  lemma IssuedBearersEvolve(t: Tables, spent: Tables, g: Grant, scopes: set<string>, app: int, pair: TokenPair)
    requires CanIssue(spent, g, scopes, pair)
    requires spent.gateways == t.gateways && spent.accounts == t.accounts && spent.bearers == t.bearers
    requires Descends(t, app, g, scopes)
    ensures BearersEvolve(t, AfterIssue(spent, app, g, scopes, pair), app, pair)
  {
  }

  lemma IssueEvolves(t: Tables, spent: Tables, g: Grant, scopes: set<string>, app: int, pair: TokenPair)
    requires CanIssue(spent, g, scopes, pair) && Evolves(t, spent, app, pair)
    requires spent.gateways == t.gateways && spent.bearers == t.bearers && spent.refresh.Keys == t.refresh.Keys
    requires Descends(t, app, g, scopes)
    ensures Evolves(t, AfterIssue(spent, app, g, scopes, pair), app, pair)
  {
    IssuedRefreshEvolve(t, spent, g, scopes, app, pair);
    IssuedBearersEvolve(t, spent, g, scopes, app, pair);
  }

  lemma RedeemEvolves(t: Tables, app: int, form: Form, pair: TokenPair)
    ensures Evolves(t, Redeem(t, app, form, pair).1, app, pair)
  {
    match Redeem(t, app, form, pair).0 {
      case Rejected =>
      case Replayed => RevokeEvolves(t, t.refresh[form.token].grant, app, pair);
      case Minted =>
        if form.CodeForm? {
          var row := t.codes[form.code];
          var spent := t.(codes := t.codes - {form.code});
          IssueEvolves(t, spent, row.grant, row.scopes, app, pair);
        } else {
          var row := t.refresh[form.token];
          var spent := t.(refresh := t.refresh[form.token := row.(revoked := true)]);
          IssueEvolves(t, spent, row.grant, Narrowed(row.scopes, form.scope).value, app, pair);
        }
    }
  }

  lemma ConsentKeepsLinear(s: State, e: Event)
    requires Linear(s.t) && RowsOk(s) && Allowed(s, e) && e.GiveConsent?
    ensures Linear(Apply(s, e).t)
  {
    var t' := Apply(s, e).t;
    forall c, d, g | Spendable(t', c, g) && Spendable(t', d, g) ensures c == d {
      if g.client == e.client {
        assert forall h :: h in s.t.codes ==> s.t.codes[h].grant.client in s.t.gateways;
        assert forall h :: h in s.t.refresh ==> s.t.refresh[h].grant.client in s.t.gateways;
      } else {
        assert Spendable(s.t, c, g) && Spendable(s.t, d, g);
      }
    }
  }

  /** What can be spent afterwards could be spent before. */
  lemma QuietKeepsLinear(s: State, e: Event)
    requires Linear(s.t) && Allowed(s, e) && !e.GiveConsent? && !e.Commit?
    ensures Linear(Apply(s, e).t)
  {
    var t' := Apply(s, e).t;
    forall c, d, g | Spendable(t', c, g) && Spendable(t', d, g) ensures c == d {
      assert Spendable(s.t, c, g) && Spendable(s.t, d, g);
    }
  }

  lemma LinearStep(s: State, e: Event)
    requires Linear(s.t) && RowsOk(s) && Allowed(s, e)
    ensures Linear(Apply(s, e).t)
  {
    match e {
      case Commit(r, pair) => RedeemKeepsLinear(s.t, s.requests[r].app, s.requests[r].form, pair);
      case GiveConsent(_, _, _, _, _, _, _, _) => ConsentKeepsLinear(s, e);
      case _ => QuietKeepsLinear(s, e);
    }
  }

  lemma EvolvedRowsOk(s: State, t': Tables, app: int, pair: TokenPair)
    requires RowsOk(s) && Evolves(s.t, t', app, pair)
    ensures RowsOk(s.(t := t'))
  {
    forall h | h in t'.refresh ensures SameUser(t', t'.refresh[h].grant) {
      assert h in s.t.refresh ==> SameUser(s.t, s.t.refresh[h].grant);
    }
  }

  lemma EvolvedScopesOk(s: State, t': Tables, app: int, pair: TokenPair)
    requires ScopesOk(s) && Evolves(s.t, t', app, pair)
    ensures ScopesOk(s.(t := t'))
  {
  }

  lemma RowsStep(s: State, e: Event)
    requires RowsOk(s) && LocksOk(s) && Allowed(s, e)
    ensures RowsOk(Apply(s, e))
  {
    if e.Commit? {
      RedeemEvolves(s.t, s.requests[e.r].app, s.requests[e.r].form, e.pair);
      EvolvedRowsOk(s, Apply(s, e).t, s.requests[e.r].app, e.pair);
    } else {
      OtherRowsStep(s, e);
    }
  }

  lemma ConsentKeepsRows(s: State, e: Event)
    requires RowsOk(s) && Allowed(s, e) && e.GiveConsent?
    ensures RowsOk(Apply(s, e))
  {
  }

  lemma IssueKeepsRows(s: State, e: Event)
    requires RowsOk(s) && Allowed(s, e) && (e.IssuePersonal? || e.NewPersonalClient?)
    ensures RowsOk(Apply(s, e))
  {
  }

  lemma RevokeKeepsRows(s: State, e: Event)
    requires RowsOk(s) && Allowed(s, e) && (e.Revoke? || e.Disable?)
    ensures RowsOk(Apply(s, e))
  {
  }

  lemma CleanupKeepsRows(s: State, e: Event)
    requires RowsOk(s) && Allowed(s, e) && e.Cleanup?
    ensures RowsOk(Apply(s, e))
  {
  }

  /** No step but a token request adds a row that its owners do not match. */
  lemma OtherRowsStep(s: State, e: Event)
    requires RowsOk(s) && Allowed(s, e) && !e.Commit?
    ensures RowsOk(Apply(s, e))
  {
    match e {
      case GiveConsent(_, _, _, _, _, _, _, _) => ConsentKeepsRows(s, e);
      case IssuePersonal(_, _, _, _) => IssueKeepsRows(s, e);
      case NewPersonalClient(_, _) => IssueKeepsRows(s, e);
      case Revoke(_) => RevokeKeepsRows(s, e);
      case Disable(_) => RevokeKeepsRows(s, e);
      case Cleanup => CleanupKeepsRows(s, e);
      case _ =>
    }
  }

  lemma ScopesStep(s: State, e: Event)
    requires RowsOk(s) && ScopesOk(s) && LocksOk(s) && Allowed(s, e)
    ensures ScopesOk(Apply(s, e))
  {
    if e.Commit? {
      RedeemEvolves(s.t, s.requests[e.r].app, s.requests[e.r].form, e.pair);
      EvolvedScopesOk(s, Apply(s, e).t, s.requests[e.r].app, e.pair);
    } else {
      OtherScopesStep(s, e);
    }
  }

  lemma OtherScopesStep(s: State, e: Event)
    requires RowsOk(s) && ScopesOk(s) && Allowed(s, e) && !e.Commit?
    ensures ScopesOk(Apply(s, e))
  {
  }

  lemma LocksStep(s: State, e: Event)
    requires LocksOk(s) && Allowed(s, e)
    ensures LocksOk(Apply(s, e))
  {
    if e.Commit? {
      RedeemEvolves(s.t, s.requests[e.r].app, s.requests[e.r].form, e.pair);
    }
  }

  lemma StepKeepsInv(s: State, e: Event)
    requires Inv(s) && Allowed(s, e)
    ensures Inv(Apply(s, e))
  {
    LinearStep(s, e);
    RowsStep(s, e);
    ScopesStep(s, e);
    LocksStep(s, e);
  }

  lemma {:induction false} RunKeepsInv(states: seq<State>, events: seq<Event>, i: nat)
    requires Run(states, events) && i < |states|
    ensures Inv(states[i])
  {
    if i > 0 {
      RunKeepsInv(states, events, i - 1);
      StepKeepsInv(states[i - 1], events[i - 1]);
    }
  }

  // ---------------------------------------------------------------- linearity and scopes

  function Live(t: Tables, g: Grant): set<Credential> {
    (set h | h in t.codes && t.codes[h].grant == g :: CodeOf(h))
    + (set h | h in t.refresh && !t.refresh[h].revoked && t.refresh[h].grant == g :: RefreshOf(h))
  }

  /** In every state of every run a grant has at most one unspent code or unrevoked refresh token in total. */
  lemma GrantLinearity(states: seq<State>, events: seq<Event>, i: nat, g: Grant)
    requires Run(states, events) && i < |states|
    ensures |Live(states[i].t, g)| <= 1
  {
    RunKeepsInv(states, events, i);
    var live := Live(states[i].t, g);
    if live != {} {
      var c :| c in live;
      assert Spendable(states[i].t, c, g);
      forall d | d in live ensures d == c {
        assert Spendable(states[i].t, d, g);
      }
      assert live == {c};
    }
  }

  /** Every code and token of a consented client carries no scope beyond what was consented to. */
  lemma ScopesStayWithinConsent(states: seq<State>, events: seq<Event>, i: nat)
    requires Run(states, events) && i < |states|
    ensures ScopesOk(states[i])
  {
    RunKeepsInv(states, events, i);
  }

  /** A mint spends exactly the presented credential, and its scopes are among the ones presented. */
  lemma MintMovesCredential(t: Tables, app: int, form: Form, pair: TokenPair)
    requires Redeem(t, app, form, pair).0 == Minted
    ensures var t' := Redeem(t, app, form, pair).1;
            var spent := if form.CodeForm? then CodeOf(form.code) else RefreshOf(form.token);
            var held := if form.CodeForm? then t.codes[form.code].scopes else t.refresh[form.token].scopes;
            var g := t'.refresh[pair.refresh].grant;
            && Spendable(t, spent, g) && Live(t', g) == Live(t, g) - {spent} + {RefreshOf(pair.refresh)}
            && t'.refresh[pair.refresh].scopes == t'.bearers[pair.bearer].scopes <= held
            && t'.bearers[pair.bearer].grant == g
            && Authenticate(t', pair.bearer) == Some(g)
  {
  }

  /** A redeemed code is rejected when presented again; a rotated refresh token is recognised as a replay. */
  lemma CredentialsAreSingleUse(t: Tables, app: int, form: Form, pair: TokenPair, again: TokenPair)
    requires Redeem(t, app, form, pair).0 == Minted
    ensures form.CodeForm? ==> Redeem(Redeem(t, app, form, pair).1, app, form, again) == (Rejected, Redeem(t, app, form, pair).1)
    ensures form.RefreshForm? ==> Redeem(Redeem(t, app, form, pair).1, app, form, again).0 == Replayed
  {
  }

  // ---------------------------------------------------------------- revocation

  ghost predicate Exists(t: Tables, g: Grant) {
    g.client in t.gateways && g.account in t.accounts
  }

  /** Nothing of the grant can be used or spent, and nothing can be issued for it. */
  ghost predicate Closed(t: Tables, g: Grant) {
    && Exists(t, g) && !Usable(t, g)
    && (forall h :: h in t.codes ==> t.codes[h].grant != g)
    && (forall h :: h in t.refresh && t.refresh[h].grant == g ==> t.refresh[h].revoked)
    && (forall h :: h in t.bearers && t.bearers[h].grant == g ==> t.bearers[h].revoked)
  }

  lemma RevokeCloses(t: Tables, g: Grant)
    requires Exists(t, g)
    ensures Closed(AfterRevoke(t, g), g)
  {
  }

  /** Revoking a consented grant changes no row, and no authentication, of any other grant. */
  lemma RevokeLeavesOthers(s: State, g: Grant)
    requires Inv(s) && g.client in s.consents && s.consents[g.client].account == g.account
    ensures var t' := AfterRevoke(s.t, g);
            && (forall h :: h in s.t.codes && s.t.codes[h].grant != g ==> h in t'.codes && t'.codes[h] == s.t.codes[h])
            && (forall h :: h in s.t.refresh && s.t.refresh[h].grant != g ==> t'.refresh[h] == s.t.refresh[h])
            && (forall h :: h in s.t.bearers && s.t.bearers[h].grant != g ==>
                  t'.bearers[h] == s.t.bearers[h] && Authenticate(t', h) == Authenticate(s.t, h))
            && (forall c :: c in s.t.gateways && c != g.client ==> t'.gateways[c] == s.t.gateways[c])
            && t'.accounts == s.t.accounts
  {
  }

  /** No row of the grant is added. */
  ghost predicate NoNewRows(t: Tables, t': Tables, g: Grant) {
    && (forall h :: h in t'.bearers && t'.bearers[h].grant == g ==> h in t.bearers && t.bearers[h].grant == g)
    && (forall h :: h in t'.refresh && t'.refresh[h].grant == g ==> h in t.refresh && t.refresh[h].grant == g)
  }

  lemma EvolvedStaysClosed(t: Tables, t': Tables, app: int, pair: TokenPair, g: Grant)
    requires Closed(t, g) && Evolves(t, t', app, pair)
    ensures Closed(t', g) && NoNewRows(t, t', g)
  {
  }

  lemma ConsentKeepsClosed(s: State, e: Event, g: Grant)
    requires Inv(s) && Allowed(s, e) && Closed(s.t, g) && e.GiveConsent?
    ensures Closed(Apply(s, e).t, g) && NoNewRows(s.t, Apply(s, e).t, g)
  {
  }

  lemma IssueKeepsClosed(s: State, e: Event, g: Grant)
    requires Inv(s) && Allowed(s, e) && Closed(s.t, g) && (e.IssuePersonal? || e.NewPersonalClient?)
    ensures Closed(Apply(s, e).t, g) && NoNewRows(s.t, Apply(s, e).t, g)
  {
  }

  lemma OtherStepKeepsClosed(s: State, e: Event, g: Grant)
    requires Inv(s) && Allowed(s, e) && Closed(s.t, g) && !e.Commit?
    ensures Closed(Apply(s, e).t, g) && NoNewRows(s.t, Apply(s, e).t, g)
  {
    match e {
      case GiveConsent(_, _, _, _, _, _, _, _) => ConsentKeepsClosed(s, e, g);
      case IssuePersonal(_, _, _, _) => IssueKeepsClosed(s, e, g);
      case NewPersonalClient(_, _) => IssueKeepsClosed(s, e, g);
      case _ =>
    }
  }

  lemma StepKeepsClosed(s: State, e: Event, g: Grant)
    requires Inv(s) && Allowed(s, e) && Closed(s.t, g)
    ensures Closed(Apply(s, e).t, g) && NoNewRows(s.t, Apply(s, e).t, g)
  {
    if e.Commit? {
      RedeemEvolves(s.t, s.requests[e.r].app, s.requests[e.r].form, e.pair);
      EvolvedStaysClosed(s.t, Apply(s, e).t, s.requests[e.r].app, e.pair, g);
    } else {
      OtherStepKeepsClosed(s, e, g);
    }
  }

  /** A closed grant is dead: nothing authenticates under it and no request waiting for its lock mints. */
  lemma ClosedIsDead(s: State, g: Grant)
    requires Inv(s) && Closed(s.t, g)
    ensures forall h :: Authenticate(s.t, h) != Some(g)
    ensures forall r, pair :: r in s.requests && s.requests[r].found == g
              ==> Redeem(s.t, s.requests[r].app, s.requests[r].form, pair).0 != Minted
  {
    forall r, pair | r in s.requests && s.requests[r].found == g
      ensures Redeem(s.t, s.requests[r].app, s.requests[r].form, pair).0 != Minted
    {
      assert LocksOk(s);
    }
  }

  lemma {:induction false} ClosedForever(states: seq<State>, events: seq<Event>, i: nat, j: nat, g: Grant)
    requires Run(states, events) && i <= j < |states| && Closed(states[i].t, g)
    ensures Closed(states[j].t, g)
    ensures NoNewRows(states[i].t, states[j].t, g)
  {
    if i < j {
      RunKeepsInv(states, events, j - 1);
      ClosedForever(states, events, i, j - 1, g);
      StepKeepsClosed(states[j - 1], events[j - 1], g);
    }
  }

  /**
   Once a grant is closed it is closed in every later state: none of its bearer tokens authenticates, no
   row of it is ever added, and no waiting request mints for it, whenever that request found the grant.
   */
  lemma RevocationIsFinal(states: seq<State>, events: seq<Event>, i: nat, j: nat, g: Grant)
    requires Run(states, events) && i <= j < |states| && Closed(states[i].t, g)
    ensures Closed(states[j].t, g)
    ensures forall h :: Authenticate(states[j].t, h) != Some(g)
    ensures NoNewRows(states[i].t, states[j].t, g)
    ensures forall r, pair :: r in states[j].requests && states[j].requests[r].found == g
              ==> Redeem(states[j].t, states[j].requests[r].app, states[j].requests[r].form, pair).0 != Minted
  {
    RunKeepsInv(states, events, j);
    ClosedForever(states, events, i, j, g);
    ClosedIsDead(states[j], g);
  }

  /** A retained consumed refresh token, presented by its client, closes the grant it was found under. */
  lemma ReplayClosesGrant(states: seq<State>, events: seq<Event>, i: nat, r: nat)
    requires Run(states, events) && i < |events| && events[i].Commit? && events[i].r == r
    requires states[i].requests[r].form.RefreshForm?
    requires var q := states[i].requests[r];
             && q.form.token in states[i].t.refresh && states[i].t.refresh[q.form.token].app == q.app
             && states[i].t.refresh[q.form.token].revoked
    ensures Closed(states[i + 1].t, states[i].requests[r].found)
  {
    RunKeepsInv(states, events, i);
    var s, q := states[i], states[i].requests[r];
    assert Allowed(s, events[i]);
    assert s.t.refresh[q.form.token].grant == q.found;
    assert SameUser(s.t, q.found);
    RevokeCloses(s.t, q.found);
  }

  lemma StepKeepsExisting(s: State, e: Event, g: Grant)
    requires Allowed(s, e) && Exists(s.t, g)
    ensures Exists(Apply(s, e).t, g)
  {
    if e.Commit? {
      RedeemEvolves(s.t, s.requests[e.r].app, s.requests[e.r].form, e.pair);
    }
  }

  lemma StepAt(states: seq<State>, events: seq<Event>, i: nat, g: Grant)
    requires Run(states, events) && i < |events| && Exists(states[i].t, g)
    ensures Exists(states[i + 1].t, g)
  {
    StepKeepsExisting(states[i], events[i], g);
  }

  lemma {:induction false} GrantsKeepExisting(states: seq<State>, events: seq<Event>, i: nat, j: nat, g: Grant)
    requires Run(states, events) && i <= j < |states| && Exists(states[i].t, g)
    ensures Exists(states[j].t, g)
  {
    if i < j {
      GrantsKeepExisting(states, events, i, j - 1, g);
      StepAt(states, events, j - 1, g);
    }
  }

  /** Whatever happens between the revocation endpoint's lookup and its transaction, the grant ends up closed. */
  lemma RevocationEndpointCloses(states: seq<State>, events: seq<Event>, i: nat, j: nat, app: int, token: int, g: Grant)
    requires Run(states, events) && i <= j < |events|
    requires RevocationFinds(states[i].t, app, token, g) && events[j] == Revoke(g)
    ensures Closed(states[j + 1].t, g)
  {
    RunKeepsInv(states, events, i);
    assert SameUser(states[i].t, g);
    GrantsKeepExisting(states, events, i, j, g);
    RevokeCloses(states[j].t, g);
    assert states[j + 1] == Apply(states[j], events[j]);
  }
}
