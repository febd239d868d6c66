/**
 The pool of anonymous client registrations. Registering prunes the unused registrations first; a
 registration that was consented to, or that a request, code or refresh token refers to, is not unused.
 Registration, authorization, consent and cleanup serialise on one lock, the token endpoint does not take it.
 */
module RegistrationPool {
  import opened Common

  datatype Client = Client(created: int, activated: bool)

  /** Rows of the other tables are kept as the client they refer to. */
  datatype Tables = Tables(
    now: int, clients: map<int, Client>, requests: map<int, int>, codes: map<int, int>, refresh: map<int, int>)

  const DAY := 24 * 3600
  const POOL := 1000

  predicate Names(rows: map<int, int>, c: int) {
    exists k :: k in rows && rows[k] == c
  }

  predicate Referenced(t: Tables, c: int) {
    Names(t.requests, c) || Names(t.codes, c) || Names(t.refresh, c)
  }

  function Unused(t: Tables): set<int> {
    set c | c in t.clients && !t.clients[c].activated && !Referenced(t, c)
  }

  /** The pruning order: creation time first, then the id, newest first. */
  predicate NotOlder(clients: map<int, Client>, a: int, b: int)
    requires a in clients && b in clients
  {
    clients[a].created > clients[b].created || (clients[a].created == clients[b].created && a >= b)
  }

  /** The row number of a registration when `pool` is listed newest first. */
  function Position(clients: map<int, Client>, pool: set<int>, c: int): nat
    requires pool <= clients.Keys && c in clients
  {
    |set d | d in pool && NotOlder(clients, d, c)|
  }

  predicate Expired(t: Tables, c: int)
    requires c in t.clients
  {
    t.clients[c].created < t.now - DAY
  }

  function Stale(t: Tables, keep: nat): set<int> {
    set c | c in Unused(t) && (Expired(t, c) || Position(t.clients, Unused(t), c) > keep)
  }

  /** Rows another transaction holds are skipped rather than waited for. */
  function AfterPrune(t: Tables, keep: nat, locked: set<int>): Tables {
    t.(clients := t.clients - (Stale(t, keep) - locked))
  }

  function AfterRegister(t: Tables, id: int, locked: set<int>): Tables {
    var pruned := AfterPrune(t, POOL - 1, locked);
    if id in pruned.clients then t else pruned.(clients := pruned.clients[id := Client(t.now, false)])
  }

  class Registrations {
    var now: int
    var clients: map<int, Client>
    var requests: map<int, int>
    var codes: map<int, int>
    var refresh: map<int, int>

    ghost function Model(): Tables
      reads this
    {
      Tables(now, clients, requests, codes, refresh)
    }

    method Prune(keep: nat, locked: set<int>)
      modifies this`clients
      ensures Model() == AfterPrune(old(Model()), keep, locked)
    {
      var unused := set c | c in clients && !clients[c].activated
        && !(Names(requests, c) || Names(codes, c) || Names(refresh, c));
      var stale := set c | c in unused
        && (clients[c].created < now - DAY || Position(clients, unused, c) > keep);
      assert unused == Unused(Model());
      assert stale == Stale(Model(), keep);
      clients := clients - (stale - locked);
    }

    method Register(id: int, locked: set<int>) returns (ok: bool)
      modifies this`clients
      ensures Model() == AfterRegister(old(Model()), id, locked)
      ensures ok <==> id !in AfterPrune(old(Model()), POOL - 1, locked).clients
      ensures ok ==> id in clients && clients[id] == Client(now, false)
    {
      var before := clients;
      Prune(POOL - 1, locked);
      if id in clients {
        clients := before;
        return false;
      }
      clients := clients[id := Client(now, false)];
      return true;
    }
  }

  // ---------------------------------------------------------------- ranking

  lemma SomeMember(pool: set<int>) returns (x: int)
    requires pool != {}
    ensures x in pool
  {
    assert (forall y :: y !in pool) ==> pool == {};
    x :| x in pool;
  }

  lemma OldestExists(clients: map<int, Client>, pool: set<int>) returns (o: int)
    requires pool <= clients.Keys && pool != {}
    ensures o in pool && forall d :: d in pool ==> NotOlder(clients, d, o)
    decreases |pool|
  {
    var x := SomeMember(pool);
    o := x;
    var rest := pool - {x};
    if rest != {} {
      var p := OldestExists(clients, rest);
      if NotOlder(clients, x, p) {
        o := p;
      }
    }
    forall d | d in pool ensures NotOlder(clients, d, o) {
      assert d == x || d in rest;
    }
  }

  function Top(clients: map<int, Client>, pool: set<int>, keep: nat): set<int>
    requires pool <= clients.Keys
  {
    set c | c in pool && Position(clients, pool, c) <= keep
  }

  lemma OldestRanksLast(clients: map<int, Client>, pool: set<int>, o: int)
    requires pool <= clients.Keys && o in pool && forall d :: d in pool ==> NotOlder(clients, d, o)
    ensures Position(clients, pool, o) == |pool|
    ensures forall c :: c in pool && c != o ==> Position(clients, pool, c) == Position(clients, pool - {o}, c) < |pool|
  {
    assert (set d | d in pool && NotOlder(clients, d, o)) == pool;
    forall c | c in pool && c != o
      ensures Position(clients, pool, c) == Position(clients, pool - {o}, c) < |pool|
    {
      var upToC := set d | d in pool && NotOlder(clients, d, c);
      assert upToC == (set d | d in pool - {o} && NotOlder(clients, d, c));
      StrictSubsetIsSmaller(upToC, pool);
    }
  }

  /** Exactly the smaller of `keep` and the pool's size have a row number up to `keep`. */
  lemma {:induction false} TopOfRanking(clients: map<int, Client>, pool: set<int>, keep: nat)
    requires pool <= clients.Keys
    ensures |Top(clients, pool, keep)| == Min(keep, |pool|)
    decreases |pool|
  {
    var top := Top(clients, pool, keep);
    if pool != {} {
      var o := OldestExists(clients, pool);
      OldestRanksLast(clients, pool, o);
      if |pool| <= keep {
        assert top == pool;
      } else {
        TopOfRanking(clients, pool - {o}, keep);
        assert top == Top(clients, pool - {o}, keep);
      }
    } else {
      assert top == {};
    }
  }

  lemma NewerRanksHigher(clients: map<int, Client>, pool: set<int>, a: int, b: int)
    requires pool <= clients.Keys && a in pool && b in pool && a != b && NotOlder(clients, a, b)
    ensures Position(clients, pool, a) < Position(clients, pool, b)
  {
    var upToA := set d | d in pool && NotOlder(clients, d, a);
    var upToB := set d | d in pool && NotOlder(clients, d, b);
    assert b in upToB && b !in upToA && upToA <= upToB;
    StrictSubsetIsSmaller(upToA, upToB);
  }

  lemma StrictSubsetIsSmaller(a: set<int>, b: set<int>)
    requires a < b
    ensures |a| < |b|
  {
    assert b == a + (b - a);
  }

  // ---------------------------------------------------------------- the pool right after a prune

  /** What a token request can be holding: a registration some committed code or refresh token refers to. */
  ghost predicate HeldByTokenRequests(t: Tables, locked: set<int>) {
    forall c :: c in locked ==> Names(t.codes, c) || Names(t.refresh, c)
  }

  /** Skipping locked rows never spares an unused registration. */
  lemma PruneSurvivors(t: Tables, keep: nat, locked: set<int>)
    requires HeldByTokenRequests(t, locked)
    ensures Unused(AfterPrune(t, keep, locked)) ==
            set c | c in Unused(t) && !Expired(t, c) && Position(t.clients, Unused(t), c) <= keep
  {
    forall c | c in Stale(t, keep) ensures c !in locked {
      assert c in Unused(t);
    }
    forall c ensures c in Unused(AfterPrune(t, keep, locked)) <==>
                     c in Unused(t) && !Expired(t, c) && Position(t.clients, Unused(t), c) <= keep
    {
    }
  }

  /** Created within the last day. */
  predicate Young(t: Tables, c: int)
    requires c in t.clients
  {
    t.clients[c].created >= t.now - 86400
  }

  lemma YoungIsNotExpired(t: Tables, c: int)
    requires c in t.clients
    ensures Young(t, c) <==> !Expired(t, c)
  {
  }

  /**
   A prune leaves the newest unused registrations of the last day, at most `keep` of them: every one of the last day
   that it evicts is older than every one it keeps, and then exactly `keep` unused ones ranked before it.
   */
  lemma PruneKeepsNewest(t: Tables, keep: nat, locked: set<int>)
    requires HeldByTokenRequests(t, locked)
    ensures var left := Unused(AfterPrune(t, keep, locked));
            && |left| <= Min(keep, |Unused(t)|)
            && (forall c :: c in left ==> c in Unused(t) && Young(t, c))
            && (forall c, e :: c in left && e in Unused(t) && e !in left && Young(t, e) ==>
                  NotOlder(t.clients, c, e) && e != c)
            && (forall e :: e in Unused(t) && Young(t, e) && e !in left ==>
                  |Unused(t)| > keep && |left| == keep)
  {
    PruneSurvivors(t, keep, locked);
    forall c | c in t.clients ensures Young(t, c) <==> !Expired(t, c) {
      YoungIsNotExpired(t, c);
    }
    var left := Unused(AfterPrune(t, keep, locked));
    var top := Top(t.clients, Unused(t), keep);
    TopOfRanking(t.clients, Unused(t), keep);
    SubsetIsNoLarger(left, top);
    forall c, e | c in left && e in Unused(t) && e !in left && !Expired(t, e)
      ensures NotOlder(t.clients, c, e) && e != c
    {
      if !NotOlder(t.clients, c, e) {
        NewerRanksHigher(t.clients, Unused(t), e, c);
      }
    }
    forall e | e in Unused(t) && !Expired(t, e) && e !in left
      ensures |Unused(t)| > keep && |left| == keep
    {
      assert Position(t.clients, Unused(t), e) > keep;
      SubsetIsNoLarger((set d | d in Unused(t) && NotOlder(t.clients, d, e)), Unused(t));
      forall c | c in top ensures c in left {
        if Expired(t, c) {
          NewerRanksHigher(t.clients, Unused(t), e, c);
        }
      }
      assert left == top;
    }
  }

  lemma SubsetIsNoLarger(a: set<int>, b: set<int>)
    requires a <= b
    ensures |a| <= |b|
  {
    assert b == a + (b - a);
  }

  /**
   Right after a registration the pool holds at most 1000 unused entries, the new one among them, and exactly 1000 if
   an unused one of the last day had to go.
   */
  lemma RegisterBoundsPool(t: Tables, id: int, locked: set<int>)
    requires HeldByTokenRequests(t, locked) && id !in t.clients && !Referenced(t, id)
    ensures var t' := AfterRegister(t, id, locked);
            && |Unused(t')| <= 1000 && id in Unused(t')
            && Unused(t') == Unused(AfterPrune(t, POOL - 1, locked)) + {id}
            && (forall c :: c in Unused(t) && c !in t'.clients && Young(t, c) ==> |Unused(t')| == 1000)
  {
    PruneKeepsNewest(t, POOL - 1, locked);
    var pruned, t' := AfterPrune(t, POOL - 1, locked), AfterRegister(t, id, locked);
    assert Unused(t') == Unused(pruned) + {id};
    forall c | c in Unused(t) && c !in t'.clients && Young(t, c) ensures |Unused(t')| == 1000 {
      assert c !in Unused(pruned);
    }
  }

  // ---------------------------------------------------------------- every run

  datatype Event =
    | Tick(to: int)
    | Register(id: int, locked: set<int>)
    | Cleanup(locked: set<int>)
    | Authorize(client: int, request: int)
    | Consent(request: int, code: int)
    | Exchange(code: int, token: int)
    | Rotate(token: int, successor: int)
    | DropRequest(request: int)        // denied or expired
    | DropCode(code: int)              // expired or revoked
    | DropToken(token: int)            // expired

  ghost predicate Allowed(t: Tables, e: Event) {
    match e
    case Tick(to) => t.now <= to
    case Register(_, locked) => HeldByTokenRequests(t, locked)
    case Cleanup(locked) => HeldByTokenRequests(t, locked)
    case Consent(request, _) => request in t.requests
    case Exchange(code, _) => code in t.codes
    case Rotate(token, _) => token in t.refresh
    case _ => true
  }

  ghost function Apply(t: Tables, e: Event): Tables
    requires Allowed(t, e)
  {
    match e
    case Tick(to) => t.(now := to)
    case Register(id, locked) => AfterRegister(t, id, locked)
    case Cleanup(locked) => AfterPrune(t, POOL, locked)
    case Authorize(c, request) =>
      if c in t.clients && (t.clients[c].activated || t.clients[c].created > t.now - DAY) && request !in t.requests
      then t.(requests := t.requests[request := c]) else t
    case Consent(request, code) =>
      var c := t.requests[request];
      if c in t.clients && code !in t.codes
      then t.(clients := t.clients[c := t.clients[c].(activated := true)],
              requests := t.requests - {request}, codes := t.codes[code := c])
      else t
    case Exchange(code, token) =>
      if token !in t.refresh then t.(codes := t.codes - {code}, refresh := t.refresh[token := t.codes[code]]) else t
    case Rotate(token, successor) =>
      if successor !in t.refresh then t.(refresh := t.refresh[successor := t.refresh[token]]) else t
    case DropRequest(request) => t.(requests := t.requests - {request})
    case DropCode(code) => t.(codes := t.codes - {code})
    case DropToken(token) => t.(refresh := t.refresh - {token})
  }

  ghost predicate Run(states: seq<Tables>, events: seq<Event>) {
    && |states| == |events| + 1
    && states[0].clients == map[] && states[0].requests == map[] && states[0].codes == map[] && states[0].refresh == map[]
    && forall i :: 0 <= i < |events| ==> Allowed(states[i], events[i]) && states[i + 1] == Apply(states[i], events[i])
  }

  /** Every row refers to a registration that exists, and codes and tokens to an activated one. */
  ghost predicate Inv(t: Tables) {
    && (forall r :: r in t.requests ==> t.requests[r] in t.clients)
    && (forall h :: h in t.codes ==> t.codes[h] in t.clients && t.clients[t.codes[h]].activated)
    && (forall h :: h in t.refresh ==> t.refresh[h] in t.clients && t.clients[t.refresh[h]].activated)
  }

  lemma PruneSpares(t: Tables, keep: nat, locked: set<int>, c: int)
    requires c in t.clients && (t.clients[c].activated || Referenced(t, c))
    ensures c in AfterPrune(t, keep, locked).clients && AfterPrune(t, keep, locked).clients[c] == t.clients[c]
  {
    assert c !in Unused(t);
  }

  lemma PruneKeepsInv(t: Tables, keep: nat, locked: set<int>)
    requires Inv(t)
    ensures Inv(AfterPrune(t, keep, locked))
  {
    forall r | r in t.requests ensures t.requests[r] in AfterPrune(t, keep, locked).clients {
      PruneSpares(t, keep, locked, t.requests[r]);
    }
    forall h | h in t.codes
      ensures var p := AfterPrune(t, keep, locked).clients; t.codes[h] in p && p[t.codes[h]].activated
    {
      PruneSpares(t, keep, locked, t.codes[h]);
    }
    forall h | h in t.refresh
      ensures var p := AfterPrune(t, keep, locked).clients; t.refresh[h] in p && p[t.refresh[h]].activated
    {
      PruneSpares(t, keep, locked, t.refresh[h]);
    }
  }

  lemma StepKeepsInv(t: Tables, e: Event)
    requires Inv(t) && Allowed(t, e)
    ensures Inv(Apply(t, e))
    ensures forall c :: c in t.clients && (t.clients[c].activated || Referenced(t, c)) ==>
              c in Apply(t, e).clients && (t.clients[c].activated ==> Apply(t, e).clients[c].activated)
  {
    match e {
      case Register(id, locked) =>
        PruneKeepsInv(t, POOL - 1, locked);
        forall c | c in t.clients && (t.clients[c].activated || Referenced(t, c))
          ensures c in Apply(t, e).clients && (t.clients[c].activated ==> Apply(t, e).clients[c].activated)
        {
          PruneSpares(t, POOL - 1, locked, c);
        }
      case Cleanup(locked) =>
        PruneKeepsInv(t, POOL, locked);
        forall c | c in t.clients && (t.clients[c].activated || Referenced(t, c))
          ensures c in Apply(t, e).clients && (t.clients[c].activated ==> Apply(t, e).clients[c].activated)
        {
          PruneSpares(t, POOL, locked, c);
        }
      case _ =>
    }
  }

  lemma {:induction false} RunKeepsInv(states: seq<Tables>, events: seq<Event>, i: nat)
    requires Run(states, events) && i < |states|
    ensures Inv(states[i])
  {
    if i > 0 {
      RunKeepsInv(states, events, i - 1);
      StepKeepsInv(states[i - 1], events[i - 1]);
    }
  }

  /** In no run is an activated or referenced registration deleted; a consented one is kept for ever. */
  lemma {:induction false} ReferencedNeverDeleted(states: seq<Tables>, events: seq<Event>, i: nat, j: nat, c: int)
    requires Run(states, events) && i < j < |states|
    requires c in states[i].clients && (states[i].clients[c].activated || Referenced(states[i], c))
    ensures c in states[i + 1].clients
    ensures states[i].clients[c].activated ==> c in states[j].clients && states[j].clients[c].activated
    decreases j - i
  {
    RunKeepsInv(states, events, i);
    StepKeepsInv(states[i], events[i]);
    if i + 1 < j && states[i].clients[c].activated {
      ReferencedNeverDeleted(states, events, i + 1, j, c);
    }
  }

  lemma UnknownIsUnreferenced(t: Tables, c: int)
    requires Inv(t) && c !in t.clients
    ensures !Referenced(t, c)
  {
    assert forall r :: r in t.requests ==> t.requests[r] != c;
    assert forall h :: h in t.codes ==> t.codes[h] != c;
    assert forall h :: h in t.refresh ==> t.refresh[h] != c;
  }

  /**
   Right after every registration or cleanup of every run, the unused pool is within its bound, and at the bound if an
   unused one of the last day had to go.
   */
  lemma PoolBoundInRuns(states: seq<Tables>, events: seq<Event>, i: nat)
    requires Run(states, events) && i < |events|
    requires events[i].Cleanup? || (events[i].Register? && events[i].id !in states[i].clients)
    ensures |Unused(states[i + 1])| <= 1000
    ensures forall c :: c in Unused(states[i]) && c !in states[i + 1].clients && Young(states[i], c) ==>
              |Unused(states[i + 1])| == 1000
  {
    RunKeepsInv(states, events, i);
    var t, e := states[i], events[i];
    assert Allowed(t, e);
    if e.Cleanup? {
      PruneKeepsNewest(t, POOL, e.locked);
    } else {
      UnknownIsUnreferenced(t, e.id);
      RegisterBoundsPool(t, e.id, e.locked);
    }
  }

  /** An unused registration older than a day is gone after any registration or cleanup. */
  lemma OldOnesGo(states: seq<Tables>, events: seq<Event>, i: nat, c: int)
    requires Run(states, events) && i < |events| && c in Unused(states[i]) && !Young(states[i], c)
    requires events[i].Cleanup? || (events[i].Register? && events[i].id !in states[i].clients)
    ensures c !in states[i + 1].clients
  {
    var t, e := states[i], events[i];
    assert Allowed(t, e);
    var keep := if e.Cleanup? then POOL else POOL - 1;
    YoungIsNotExpired(t, c);
    assert c in Stale(t, keep) && c !in e.locked;
  }

  /** A request is opened only for a registration that exists and is activated or less than a day old. */
  lemma AuthorizeIff(states: seq<Tables>, events: seq<Event>, i: nat)
    requires Run(states, events) && i < |events| && events[i].Authorize? && events[i].request !in states[i].requests
    ensures events[i].request in states[i + 1].requests <==>
              && events[i].client in states[i].clients
              && (states[i].clients[events[i].client].activated
                  || states[i].now - states[i].clients[events[i].client].created < 86400)
    ensures events[i].request in states[i + 1].requests ==> states[i + 1].requests[events[i].request] == events[i].client
  {
    assert Allowed(states[i], events[i]);
  }
}
