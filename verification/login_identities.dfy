/**
 Which account a verified Telegram identity belongs to. The identity table has one row per Telegram user
 and per account, and refers to an account row with that same Telegram user.
 */
module LoginIdentities {
  import opened Common

  /** `owner` is the application user. */
  datatype Account = Account(owner: int, telegramUser: Option<int>, created: int, blocked: bool)
  datatype Tables = Tables(accounts: map<int, Account>, identities: map<int, int>)

  /** Another identity already refers to the account: the unique constraint refuses a second. */
  predicate Taken(t: Tables, account: int) {
    exists u :: u in t.identities && t.identities[u] == account
  }

  /** Another account of the same owner has this Telegram user: the unique constraint on the pair refuses a second. */
  predicate OwnerHasAnother(t: Tables, account: int, user: int)
    requires account in t.accounts
  {
    exists b :: b in t.accounts && b != account && t.accounts[b].owner == t.accounts[account].owner
                && t.accounts[b].telegramUser == Some(user)
  }

  /** Accounts connected with this Telegram user before it had an identity row. */
  function Candidates(t: Tables, user: int): set<int> {
    set a | a in t.accounts && t.accounts[a].telegramUser == Some(user)
  }

  ghost predicate Oldest(t: Tables, user: int, a: int) {
    && a in Candidates(t, user)
    && forall b :: b in Candidates(t, user) ==>
         t.accounts[a].created < t.accounts[b].created || (t.accounts[a].created == t.accounts[b].created && a <= b)
  }

  datatype Event =
    | AttachLogin(user: int, oldest: int, newAccount: int, newOwner: int, at: int)   // `oldest` is read when there are candidates
    | CreatePending(account: int, owner: int, at: int)
    | Activate(account: int, user: int)
    | SetBlocked(account: int, blocked: bool)

  ghost predicate Allowed(t: Tables, e: Event) {
    match e
    case AttachLogin(user, oldest, newAccount, _, _) =>
      newAccount !in t.accounts && (Candidates(t, user) != {} ==> Oldest(t, user, oldest))
    case CreatePending(account, _, _) => account !in t.accounts
    case Activate(_, _) => true
    case SetBlocked(account, _) => account in t.accounts
  }

  /** The account a login would get: its identity's, else the oldest connected one, else a new one. */
  function Target(t: Tables, user: int, oldest: int, newAccount: int): int {
    if user in t.identities then t.identities[user]
    else if Candidates(t, user) != {} then oldest
    else newAccount
  }

  /** A login is refused for no user, a blocked account, or an account that is another identity's. */
  predicate CanAttach(t: Tables, user: int, oldest: int, newAccount: int) {
    var account := Target(t, user, oldest, newAccount);
    && user > 0
    && (user in t.identities || !Taken(t, account))
    && (user in t.identities || Candidates(t, user) != {} ==> account in t.accounts && !t.accounts[account].blocked)
  }

  /** The first login transaction; a refused login rolls it back. */
  function AfterAttach(t: Tables, user: int, oldest: int, newAccount: int, newOwner: int, at: int): Tables {
    var account := Target(t, user, oldest, newAccount);
    if !CanAttach(t, user, oldest, newAccount) || user in t.identities then t
    else if Candidates(t, user) != {} then t.(identities := t.identities[user := account])
    else Tables(t.accounts[account := Account(newOwner, Some(user), at, false)], t.identities[user := account])
  }

  /**
   An activation is refused for no user, a blocked account, one pinned to another Telegram user, or one whose owner
   has that Telegram user on another account.
   */
  predicate CanActivate(t: Tables, account: int, user: int) {
    && user > 0 && account in t.accounts && !t.accounts[account].blocked
    && (Taken(t, account) ==> t.accounts[account].telegramUser == Some(user))
    && !OwnerHasAnother(t, account, user)
  }

  function AfterActivate(t: Tables, account: int, user: int): Tables {
    if CanActivate(t, account, user)
    then t.(accounts := t.accounts[account := t.accounts[account].(telegramUser := Some(user))]) else t
  }

  /** The account tables, updated by the first transaction of a login and by an activation. */
  class AccountDirectory {
    var accounts: map<int, Account>
    var identities: map<int, int>

    ghost function Model(): Tables
      reads this
    {
      Tables(accounts, identities)
    }

    /** None is the error answer, and rolls everything back. `oldest` is what the ordered candidate query returns. */
    method AttachLogin(user: int, oldest: int, newAccount: int, newOwner: int, at: int) returns (account: Option<int>)
      requires Candidates(Model(), user) != {} ==> Oldest(Model(), user, oldest)
      requires newAccount !in accounts
      modifies this
      ensures Model() == AfterAttach(old(Model()), user, oldest, newAccount, newOwner, at)
      ensures account.Some? <==> CanAttach(old(Model()), user, oldest, newAccount)
      ensures account.Some? ==> account.value == Target(old(Model()), user, oldest, newAccount)
      ensures account.Some? ==> user in identities && identities[user] == account.value
      ensures user in old(identities) ==>
                (account.Some? <==> && user > 0 && old(identities)[user] in old(accounts)
                                    && !old(accounts)[old(identities)[user]].blocked)
      ensures user in old(identities) && account.Some? ==> account.value == old(identities)[user]
    {
      if user <= 0 {
        return None;
      }
      var before, known := accounts, user in identities;
      var id: int;
      if known {
        id := identities[user];
      } else {
        if exists a :: a in accounts && accounts[a].telegramUser == Some(user) {
          id := oldest;
          ghost var a :| a in accounts && accounts[a].telegramUser == Some(user);
          assert a in Candidates(Model(), user);
        } else {
          assert Candidates(Model(), user) == {};
          id := newAccount;
          accounts := accounts[id := Account(newOwner, Some(user), at, false)];
        }
        if exists u :: u in identities && identities[u] == id {
          accounts := before;
          return None;
        }
      }
      if id !in accounts || accounts[id].blocked {
        return None;
      }
      if !known {
        identities := identities[user := id];
      }
      return Some(id);
    }

    method Activate(account: int, user: int) returns (ok: bool)
      modifies this`accounts
      ensures Model() == AfterActivate(old(Model()), account, user)
      ensures ok <==> CanActivate(old(Model()), account, user)
      ensures ok ==> account in accounts && accounts[account].telegramUser == Some(user)
    {
      if user <= 0 || account !in accounts || accounts[account].blocked {
        return false;
      }
      if (exists u :: u in identities && identities[u] == account) && accounts[account].telegramUser != Some(user) {
        return false;
      }
      if exists b :: b in accounts && b != account && accounts[b].owner == accounts[account].owner
                     && accounts[b].telegramUser == Some(user) {
        return false;
      }
      accounts := accounts[account := accounts[account].(telegramUser := Some(user))];
      return true;
    }
  }

  ghost function Apply(t: Tables, e: Event): Tables
    requires Allowed(t, e)
  {
    match e
    case AttachLogin(user, oldest, newAccount, newOwner, at) => AfterAttach(t, user, oldest, newAccount, newOwner, at)
    case CreatePending(account, owner, at) => t.(accounts := t.accounts[account := Account(owner, None, at, false)])
    case Activate(account, user) => AfterActivate(t, account, user)
    case SetBlocked(account, blocked) =>
      t.(accounts := t.accounts[account := t.accounts[account].(blocked := blocked)])
  }

  ghost predicate Run(states: seq<Tables>, events: seq<Event>) {
    && |states| == |events| + 1
    && Inv(states[0])
    && forall i :: 0 <= i < |events| ==> Allowed(states[i], events[i]) && states[i + 1] == Apply(states[i], events[i])
  }

  /** Identities refer to accounts with their Telegram user, and no owner has a Telegram user twice. */
  ghost predicate Inv(t: Tables) {
    && (forall u :: u in t.identities ==>
          t.identities[u] in t.accounts && t.accounts[t.identities[u]].telegramUser == Some(u))
    && forall a, b :: a in t.accounts && b in t.accounts && a != b && t.accounts[a].telegramUser.Some? ==>
         t.accounts[a].owner != t.accounts[b].owner || t.accounts[a].telegramUser != t.accounts[b].telegramUser
  }

  lemma StepKeepsIdentities(t: Tables, e: Event)
    requires Inv(t) && Allowed(t, e)
    ensures Inv(Apply(t, e))
    ensures forall u :: u in t.identities ==> u in Apply(t, e).identities && Apply(t, e).identities[u] == t.identities[u]
  {
    match e {
      case AttachLogin(user, _, _, _, _) =>
        forall a | a in t.accounts && t.accounts[a].telegramUser == Some(user) ensures a in Candidates(t, user) {
        }
      case Activate(account, user) =>
        forall u | u in t.identities && t.identities[u] == account ensures Taken(t, account) {
        }
      case _ =>
    }
  }

  lemma {:induction false} RunKeepsInv(states: seq<Tables>, events: seq<Event>, i: nat)
    requires Run(states, events) && i < |states|
    ensures Inv(states[i])
  {
    if i > 0 {
      RunKeepsInv(states, events, i - 1);
      StepKeepsIdentities(states[i - 1], events[i - 1]);
    }
  }

  /** A Telegram identity maps to one account for ever, and no account ever serves two identities. */
  lemma {:induction false} IdentityIsForEver(states: seq<Tables>, events: seq<Event>, i: nat, j: nat, user: int)
    requires Run(states, events) && i <= j < |states| && user in states[i].identities
    ensures user in states[j].identities && states[j].identities[user] == states[i].identities[user]
    ensures forall v :: v in states[j].identities && states[j].identities[v] == states[j].identities[user] ==> v == user
    decreases j - i
  {
    if i < j {
      IdentityIsForEver(states, events, i, j - 1, user);
      RunKeepsInv(states, events, j - 1);
      StepKeepsIdentities(states[j - 1], events[j - 1]);
    }
    RunKeepsInv(states, events, j);
  }

  // ---------------------------------------------------------------- who can log in

  /** No account is connected with the Telegram user. */
  ghost predicate Unconnected(t: Tables, user: int) {
    forall a :: a in t.accounts ==> t.accounts[a].telegramUser != Some(user)
  }

  /** The account is connected with the Telegram user, and no other is older. */
  ghost predicate FirstConnected(t: Tables, user: int, a: int) {
    && a in t.accounts && t.accounts[a].telegramUser == Some(user)
    && forall b :: b in t.accounts && t.accounts[b].telegramUser == Some(user) ==>
         t.accounts[a].created < t.accounts[b].created || (t.accounts[a].created == t.accounts[b].created && a <= b)
  }

  /**
   A login of a user without an identity gets one if and only if the user is real and the oldest account connected
   with it, if there is any, is not blocked: that account, or a new one that is its own owner's and not blocked.
   */
  lemma FirstLoginIff(states: seq<Tables>, events: seq<Event>, i: nat)
    requires Run(states, events) && i < |events| && events[i].AttachLogin? && events[i].user !in states[i].identities
    ensures var t, after, e := states[i], states[i + 1], events[i];
            && (forall a :: FirstConnected(t, e.user, a) ==>
                  if e.user > 0 && !t.accounts[a].blocked
                  then after == t.(identities := t.identities[e.user := a]) else after == t)
            && (Unconnected(t, e.user) ==>
                  if e.user > 0
                  then && after.identities == t.identities[e.user := e.newAccount]
                       && after.accounts == t.accounts[e.newAccount := Account(e.newOwner, Some(e.user), e.at, false)]
                  else after == t)
  {
    RunKeepsInv(states, events, i);
    var t, e := states[i], events[i];
    assert Allowed(t, e);
    assert forall a :: Taken(t, a) ==> a in t.accounts && t.accounts[a].telegramUser != Some(e.user);
    if Unconnected(t, e.user) {
      assert Candidates(t, e.user) == {};
    }
    forall a | FirstConnected(t, e.user, a) ensures a in Candidates(t, e.user) && e.oldest == a {
    }
  }

  /** A user with an identity gets nothing new, and none while its account is blocked gets in at all. */
  lemma ReturningLoginChangesNothing(states: seq<Tables>, events: seq<Event>, i: nat)
    requires Run(states, events) && i < |events| && events[i].AttachLogin? && events[i].user in states[i].identities
    ensures states[i + 1] == states[i]
    ensures var a := states[i].identities[events[i].user];
            && a in states[i].accounts
            && (CanAttach(states[i], events[i].user, events[i].oldest, events[i].newAccount)
                <==> events[i].user > 0 && !states[i].accounts[a].blocked)
  {
    RunKeepsInv(states, events, i);
    assert Allowed(states[i], events[i]);
  }

  /** An activation connects exactly one's own account: known, not blocked, not another identity's, not twice an owner's. */
  lemma ActivationIff(states: seq<Tables>, events: seq<Event>, i: nat)
    requires Run(states, events) && i < |events| && events[i].Activate?
    ensures var t, after, a, user := states[i], states[i + 1], events[i].account, events[i].user;
            if && user > 0 && a in t.accounts && !t.accounts[a].blocked
               && (forall u :: u in t.identities && t.identities[u] == a ==> u == user)
               && (forall b :: b in t.accounts && b != a && t.accounts[b].owner == t.accounts[a].owner ==>
                     t.accounts[b].telegramUser != Some(user))
            then after == t.(accounts := t.accounts[a := t.accounts[a].(telegramUser := Some(user))])
            else after == t
  {
    RunKeepsInv(states, events, i);
    var t, a, user := states[i], events[i].account, events[i].user;
    assert Allowed(t, events[i]);
    if a in t.accounts {
      PinnedIff(t, a, user);
    }
  }

  lemma PinnedIff(t: Tables, a: int, user: int)
    requires Inv(t) && a in t.accounts
    ensures (Taken(t, a) ==> t.accounts[a].telegramUser == Some(user))
            <==> forall u :: u in t.identities && t.identities[u] == a ==> u == user
  {
    if Taken(t, a) {
      var u :| u in t.identities && t.identities[u] == a;
    }
    forall u | u in t.identities && t.identities[u] == a ensures Taken(t, a) {
    }
  }
}
