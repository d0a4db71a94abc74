/**
 Provisioning a batch of accounts. A run may stop at any point; running the same manifest
 again picks up exactly what the stopped runs left.
 */
module Provisioning {
  import opened Wrappers

  const MAX_ACCOUNTS := 10_000
  const MAX_FEATHERS := 1_000_000
  const MILLI := 1_000

  datatype Account = Account(username: string, email: string, password: string, feathers: nat)

  datatype Manifest = Manifest(batch: string, accounts: seq<Account>)

  // ---------- The manifest ----------

  /** What the shared primitives accept as canonical names and as passwords. */
  datatype Rules = Rules(username: string -> bool, email: string -> bool, password: string -> bool) {
    predicate Accept(a: Account) {
      username(a.username) && email(a.email) && password(a.password) && 0 < a.feathers <= MAX_FEATHERS
    }
  }

  datatype ManifestFault = BadCount | BadRecord(at: nat) | DuplicateIdentity(at: nat) | DuplicatePassword(at: nat)

  /** No two accounts share a username, an email or a password. */
  predicate Distinct(accounts: seq<Account>) {
    forall i, j :: 0 <= i < j < |accounts| ==>
      accounts[i].username != accounts[j].username && accounts[i].email != accounts[j].email
      && accounts[i].password != accounts[j].password
  }

  predicate ValidManifest(accounts: seq<Account>, rules: Rules) {
    0 < |accounts| <= MAX_ACCOUNTS && (forall a <- accounts :: rules.Accept(a)) && Distinct(accounts)
  }

  /** What makes a manifest valid: not too many accounts, each acceptable, and nothing shared between any two. */
  lemma ManifestsExactly(accounts: seq<Account>, rules: Rules)
    ensures ValidManifest(accounts, rules) <==>
              && 1 <= |accounts| <= 10_000
              && (forall i :: 0 <= i < |accounts| ==>
                    && rules.username(accounts[i].username) && rules.email(accounts[i].email)
                    && rules.password(accounts[i].password) && 1 <= accounts[i].feathers <= 1_000_000)
              && (forall i, j :: 0 <= i < j < |accounts| ==>
                    && accounts[i].username != accounts[j].username && accounts[i].email != accounts[j].email
                    && accounts[i].password != accounts[j].password)
  {
    if ValidManifest(accounts, rules) {
      forall i | 0 <= i < |accounts| ensures rules.Accept(accounts[i]) {
        assert accounts[i] in accounts;
      }
    }
  }

  /** Accepts exactly the valid manifests, and names the first account at fault. */
  method ValidateManifest(accounts: seq<Account>, rules: Rules) returns (fault: Option<ManifestFault>)
    ensures fault.None? <==> ValidManifest(accounts, rules)
    ensures fault.Some? && !fault.value.BadCount? ==>
              fault.value.at < |accounts| && !ValidManifest(accounts[..fault.value.at + 1], rules)
              && (fault.value.at > 0 ==> ValidManifest(accounts[..fault.value.at], rules))
  {
    if |accounts| == 0 || |accounts| > MAX_ACCOUNTS {
      return Some(BadCount);
    }
    var usernames, emails, passwords: set<string> := {}, {}, {};
    for i := 0 to |accounts|
      invariant forall j :: 0 <= j < i ==> rules.Accept(accounts[j])
      invariant usernames == set j | 0 <= j < i :: accounts[j].username
      invariant emails == set j | 0 <= j < i :: accounts[j].email
      invariant passwords == set j | 0 <= j < i :: accounts[j].password
      invariant Distinct(accounts[..i])
    {
      var a := accounts[i];
      var upTo := accounts[..i + 1];
      assert upTo[i] == a && forall j :: 0 <= j < i ==> upTo[j] == accounts[j];
      if !rules.Accept(a) {
        return Some(BadRecord(i));
      }
      if a.username in usernames || a.email in emails {
        return Some(DuplicateIdentity(i));
      }
      if a.password in passwords {
        return Some(DuplicatePassword(i));
      }
      usernames, emails, passwords := usernames + {a.username}, emails + {a.email}, passwords + {a.password};
    }
    assert accounts[..|accounts|] == accounts;
    return None;
  }

  // ---------- The database ----------

  datatype User = User(username: string, email: string, password: string, eligible: bool, emailVerified: bool,
                       cached: int, wallet: int, posted: int)

  /** The welcome journal of a user; its idempotency key admits one per user. */
  datatype Grant = Grant(genuine: bool, recorded: int, postings: nat, credit: int, debit: int)

  datatype Session = Session(user: nat, agent: string, token: nat)

  datatype Database = Database(users: map<nat, User>, grants: map<nat, Grant>, sessions: set<Session>, nextId: nat)

  /** Identifiers are never reused, and everything stored refers to a user. */
  predicate Sound(db: Database) {
    && (forall id <- db.users :: id < db.nextId)
    && (forall id <- db.grants :: id in db.users)
    && (forall s <- db.sessions :: s.user in db.users)
  }

  /** Users that collide with an account in either name. */
  function MatchesOf(db: Database, a: Account): set<nat> {
    set id | id in db.users && (db.users[id].username == a.username || db.users[id].email == a.email)
  }

  /** The verification of one account: identity, eligibility, its welcome journal, and its wallet. */
  predicate Verified(db: Database, a: Account, id: nat) {
    && id in db.users && id in db.grants
    && var user := db.users[id];
       var grant := db.grants[id];
       var amount := a.feathers * MILLI;
    && user.username == a.username && user.email == a.email && user.eligible
    && grant.genuine && grant.recorded == amount && grant.postings == 2 && grant.credit == amount
    && grant.debit == -amount
    && user.posted == user.wallet == user.cached && user.wallet >= 0
  }

  /** The account exists, is this batch's own, and holds one grant of its own amount. */
  predicate Provisioned(db: Database, a: Account, id: nat) {
    MatchesOf(db, a) == {id} && Verified(db, a, id) && db.users[id].password == a.password
  }

  /** Nobody else has either name. */
  lemma MatchesOne(db: Database, a: Account, id: nat)
    requires id in MatchesOf(db, a)
    ensures MatchesOf(db, a) == {id} <==>
              forall other <- db.users ::
                db.users[other].username == a.username || db.users[other].email == a.email ==> other == id
  {
    forall other <- db.users | db.users[other].username == a.username || db.users[other].email == a.email
      ensures other in MatchesOf(db, a)
    {
    }
  }

  /** No other user has either name, and this one has the account's identity, its grant, and an honest wallet. */
  lemma ProvisionedExactly(db: Database, a: Account, id: nat)
    ensures Provisioned(db, a, id) <==>
              && id in db.users && id in db.grants
              && (forall other <- db.users ::
                    db.users[other].username == a.username || db.users[other].email == a.email ==> other == id)
              && var user, grant, amount := db.users[id], db.grants[id], a.feathers * 1_000;
                 && user.username == a.username && user.email == a.email && user.password == a.password
                 && user.eligible && user.cached == user.wallet == user.posted && 0 <= user.wallet
                 && grant.genuine && grant.postings == 2
                 && grant.recorded == grant.credit == amount && grant.debit + amount == 0
  {
    if id in db.users && db.users[id].username == a.username && db.users[id].email == a.email {
      MatchesOne(db, a, id);
    }
  }

  /** An account a run can still create, or recognizes as its own. */
  predicate Fits(db: Database, a: Account) {
    MatchesOf(db, a) == {} || exists id <- MatchesOf(db, a) :: Provisioned(db, a, id)
  }

  predicate Resumable(db: Database, accounts: seq<Account>) {
    forall a <- accounts :: Fits(db, a)
  }

  /** Registration: user, wallet, grant and session in one transaction. */
  function Registered(db: Database, a: Account, agent: string): Database {
    var id := db.nextId;
    var amount := a.feathers * MILLI;
    Database(
      db.users[id := User(a.username, a.email, a.password, true, false, amount, amount, amount)],
      db.grants[id := Grant(true, amount, 2, amount, 0 - amount)],
      db.sessions + {Session(id, agent, id)},
      id + 1)
  }

  /** Registering one account provisions it, and is invisible to every account with other names. */
  lemma RegisteringProvisions(db: Database, a: Account, agent: string)
    requires Sound(db) && MatchesOf(db, a) == {}
    ensures var after := Registered(db, a, agent);
            && Sound(after) && Provisioned(after, a, db.nextId)
            && (forall s <- after.sessions :: s.user == db.nextId ==> s == Session(db.nextId, agent, db.nextId))
  {
    var after := Registered(db, a, agent);
    assert MatchesOf(after, a) == {db.nextId};
    assert after.grants[db.nextId].debit == -(a.feathers * MILLI);
  }

  /** Registration adds one user, whose email is yet to be verified and who has the grant in the wallet. */
  lemma RegisteringAdds(db: Database, a: Account, agent: string)
    ensures var after := Registered(db, a, agent);
            && after.users.Keys == db.users.Keys + {db.nextId} && after.nextId == db.nextId + 1
            && after.users[db.nextId].eligible && !after.users[db.nextId].emailVerified
            && after.users[db.nextId].wallet == a.feathers * 1_000
            && after.sessions == db.sessions + {Session(db.nextId, agent, db.nextId)}
  {
  }

  lemma RegisteringIsLocal(db: Database, a: Account, agent: string, other: Account)
    requires Sound(db) && other.username != a.username && other.email != a.email
    ensures MatchesOf(Registered(db, a, agent), other) == MatchesOf(db, other)
    ensures forall id <- db.users :: Verified(Registered(db, a, agent), other, id) == Verified(db, other, id)
  {
  }

  /** What a run never does: change a user or a grant that exists, or drop anyone else's session. */
  ghost predicate Extends(before: Database, after: Database, m: Manifest) {
    && Sound(after) && before.nextId <= after.nextId
    && (forall id <- before.users :: id in after.users && after.users[id] == before.users[id])
    && (forall id <- before.grants :: id in after.grants && after.grants[id] == before.grants[id])
    && (forall id <- after.users :: id in before.users || exists a <- m.accounts :: Provisioned(after, a, id))
    && (forall s: Session :: s.agent != m.batch ==> (s in after.sessions <==> s in before.sessions))
    && (forall s <- before.sessions :: s !in after.sessions ==> exists a <- m.accounts :: Provisioned(after, a, s.user))
  }

  /** Sessions tagged with the batch belong to its accounts. */
  ghost predicate OwnSessions(db: Database, m: Manifest) {
    forall s <- db.sessions :: s.agent == m.batch ==> exists a <- m.accounts :: Provisioned(db, a, s.user)
  }

  datatype Line = Line(index: nat, user: nat, created: bool, feathers: nat)

  datatype Outcome = Refused(at: nat) | Interrupted | Complete(results: seq<Line>)

  /** The first `k` accounts are done: provisioned, listed, and without a session of the batch. */
  ghost predicate Done(before: Database, db: Database, m: Manifest, k: nat, results: seq<Line>) {
    && k <= |m.accounts| && |results| == k
    && forall i :: 0 <= i < k ==>
         && Provisioned(db, m.accounts[i], results[i].user)
         && results[i] == Line(i + 1, results[i].user, MatchesOf(before, m.accounts[i]) == {}, m.accounts[i].feathers)
         && forall s <- db.sessions :: s.user == results[i].user ==> s.agent != m.batch
  }

  /** What must hold after each step of a run that began at `before`. */
  ghost predicate Sane(before: Database, db: Database, m: Manifest) {
    && Extends(before, db, m) && Resumable(db, m.accounts)
    && (OwnSessions(before, m) ==> OwnSessions(db, m))
  }

  /** The accounts from `k` on are as preflight found them. */
  ghost predicate Pending(before: Database, db: Database, m: Manifest, existing: map<nat, nat>, k: nat) {
    forall i :: k <= i < |m.accounts| ==>
      && (i in existing <==> MatchesOf(before, m.accounts[i]) != {})
      && if i in existing then Provisioned(db, m.accounts[i], existing[i]) else MatchesOf(db, m.accounts[i]) == {}
  }

  lemma RegisteringKeeps(db: Database, a: Account, agent: string, other: Account, id: nat)
    requires Sound(db) && MatchesOf(db, a) == {} && Provisioned(db, other, id)
    ensures Provisioned(Registered(db, a, agent), other, id)
  {
    assert id in MatchesOf(db, other) && id !in MatchesOf(db, a);
    RegisteringIsLocal(db, a, agent, other);
  }

  lemma RegisteringExtends(before: Database, db: Database, m: Manifest, a: Account)
    requires Extends(before, db, m) && a in m.accounts && MatchesOf(db, a) == {}
    ensures Extends(before, Registered(db, a, m.batch), m)
  {
    var after := Registered(db, a, m.batch);
    RegisteringProvisions(db, a, m.batch);
    forall id <- after.users ensures id in before.users || exists b <- m.accounts :: Provisioned(after, b, id) {
      if id !in before.users && id != db.nextId {
        var b :| b in m.accounts && Provisioned(db, b, id);
        RegisteringKeeps(db, a, m.batch, b, id);
      }
    }
    forall s <- before.sessions | s !in after.sessions ensures exists b <- m.accounts :: Provisioned(after, b, s.user) {
      var b :| b in m.accounts && Provisioned(db, b, s.user);
      RegisteringKeeps(db, a, m.batch, b, s.user);
    }
  }

  lemma RegisteringIsSane(before: Database, db: Database, m: Manifest, i: nat)
    requires Sane(before, db, m) && Distinct(m.accounts) && i < |m.accounts| && MatchesOf(db, m.accounts[i]) == {}
    ensures Sane(before, Registered(db, m.accounts[i], m.batch), m)
  {
    RegisteringExtends(before, db, m, m.accounts[i]);
    RegisteringStaysResumable(db, m.accounts, i, m.batch);
    if OwnSessions(before, m) {
      RegisteringOwnsSession(db, m, m.accounts[i]);
    }
  }

  /** Whatever a run has registered, the next run can pick up. */
  lemma RegisteringStaysResumable(db: Database, accounts: seq<Account>, i: nat, batch: string)
    requires Sound(db) && Resumable(db, accounts) && Distinct(accounts) && i < |accounts|
    requires MatchesOf(db, accounts[i]) == {}
    ensures Resumable(Registered(db, accounts[i], batch), accounts)
  {
    var a := accounts[i];
    var after := Registered(db, a, batch);
    RegisteringProvisions(db, a, batch);
    forall b <- accounts ensures Fits(after, b) {
      if b == a {
        assert db.nextId in MatchesOf(after, b);
      } else {
        RegisteringIsLocal(db, a, batch, b);
        assert Fits(db, b);
      }
    }
  }

  lemma RegisteringOwnsSession(db: Database, m: Manifest, a: Account)
    requires Sound(db) && OwnSessions(db, m) && a in m.accounts && MatchesOf(db, a) == {}
    ensures OwnSessions(Registered(db, a, m.batch), m)
  {
    var after := Registered(db, a, m.batch);
    RegisteringProvisions(db, a, m.batch);
    forall s <- after.sessions | s.agent == m.batch ensures exists b <- m.accounts :: Provisioned(after, b, s.user) {
      if s in db.sessions {
        var b :| b in m.accounts && Provisioned(db, b, s.user);
        RegisteringKeeps(db, a, m.batch, b, s.user);
      }
    }
  }

  lemma RegisteringLeavesPending(before: Database, db: Database, m: Manifest, existing: map<nat, nat>, i: nat)
    requires Sound(db) && Distinct(m.accounts) && i < |m.accounts| && MatchesOf(db, m.accounts[i]) == {}
    requires Pending(before, db, m, existing, i)
    ensures Pending(before, Registered(db, m.accounts[i], m.batch), m, existing, i + 1)
  {
    forall j | i + 1 <= j < |m.accounts|
      ensures MatchesOf(Registered(db, m.accounts[i], m.batch), m.accounts[j]) == MatchesOf(db, m.accounts[j])
    {
      RegisteringIsLocal(db, m.accounts[i], m.batch, m.accounts[j]);
    }
  }

  lemma RegisteringLeavesDone(before: Database, db: Database, m: Manifest, i: nat, results: seq<Line>)
    requires Sound(db) && i < |m.accounts| && MatchesOf(db, m.accounts[i]) == {} && Done(before, db, m, i, results)
    ensures Done(before, Registered(db, m.accounts[i], m.batch), m, i, results)
  {
    forall j | 0 <= j < i ensures Provisioned(Registered(db, m.accounts[i], m.batch), m.accounts[j], results[j].user) {
      RegisteringKeeps(db, m.accounts[i], m.batch, m.accounts[j], results[j].user);
    }
  }

  /** Ending sessions of the batch that belong to a provisioned account. */
  function Ended(db: Database, user: nat, batch: string): Database {
    db.(sessions := set s | s in db.sessions && !(s.user == user && s.agent == batch))
  }

  lemma SessionsDoNotMatter(db: Database, user: nat, batch: string)
    ensures forall a :: MatchesOf(Ended(db, user, batch), a) == MatchesOf(db, a)
    ensures forall a, id :: Provisioned(Ended(db, user, batch), a, id) == Provisioned(db, a, id)
  {
  }

  lemma EndingIsSane(before: Database, db: Database, m: Manifest, a: Account, id: nat)
    requires Sane(before, db, m) && a in m.accounts && Provisioned(db, a, id)
    ensures Sane(before, Ended(db, id, m.batch), m)
  {
    SessionsDoNotMatter(db, id, m.batch);
    EndingStaysResumable(db, m.accounts, id, m.batch);
  }

  lemma EndingStaysResumable(db: Database, accounts: seq<Account>, id: nat, batch: string)
    requires Resumable(db, accounts)
    ensures Resumable(Ended(db, id, batch), accounts)
  {
    SessionsDoNotMatter(db, id, batch);
    forall b <- accounts ensures Fits(Ended(db, id, batch), b) {
      assert Fits(db, b);
    }
  }

  /** Registration as one step of a run. */
  lemma Registering(before: Database, db: Database, m: Manifest, existing: map<nat, nat>, i: nat, results: seq<Line>)
    requires Distinct(m.accounts) && i < |m.accounts| && MatchesOf(db, m.accounts[i]) == {}
    requires Sane(before, db, m) && Pending(before, db, m, existing, i) && Done(before, db, m, i, results)
    ensures var after := Registered(db, m.accounts[i], m.batch);
            && Sane(before, after, m) && Pending(before, after, m, existing, i + 1)
            && Done(before, after, m, i, results)
            && Provisioned(after, m.accounts[i], db.nextId)
            && (forall s <- after.sessions :: s.user == db.nextId ==> s == Session(db.nextId, m.batch, db.nextId))
  {
    RegisteringIsSane(before, db, m, i);
    RegisteringLeavesPending(before, db, m, existing, i);
    RegisteringLeavesDone(before, db, m, i, results);
    RegisteringProvisions(db, m.accounts[i], m.batch);
  }

  /** Dropping an account's batch sessions as one step of a run. */
  lemma Ending(before: Database, db: Database, m: Manifest, existing: map<nat, nat>, i: nat, results: seq<Line>,
               id: nat)
    requires i < |m.accounts| && Provisioned(db, m.accounts[i], id)
    requires Sane(before, db, m) && Pending(before, db, m, existing, i + 1) && Done(before, db, m, i, results)
    ensures var after := Ended(db, id, m.batch);
            && Sane(before, after, m) && Pending(before, after, m, existing, i + 1)
            && Done(before, after, m, i, results)
            && Provisioned(after, m.accounts[i], id)
  {
    EndingIsSane(before, db, m, m.accounts[i], id);
    SessionsDoNotMatter(db, id, m.batch);
  }

  /** A new user's registration session is the only one there is to drop. */
  lemma OnlySessionEnds(db: Database, id: nat, batch: string)
    requires forall s <- db.sessions :: s.user == id ==> s == Session(id, batch, id)
    ensures db.(sessions := db.sessions - {Session(id, batch, id)}) == Ended(db, id, batch)
  {
    assert db.sessions - {Session(id, batch, id)} == Ended(db, id, batch).sessions;
  }

  lemma DoneNext(before: Database, db: Database, m: Manifest, i: nat, results: seq<Line>, line: Line)
    requires i < |m.accounts| && Done(before, db, m, i, results) && Provisioned(db, m.accounts[i], line.user)
    requires line == Line(i + 1, line.user, MatchesOf(before, m.accounts[i]) == {}, m.accounts[i].feathers)
    requires forall s <- db.sessions :: s.user == line.user ==> s.agent != m.batch
    ensures Done(before, db, m, i + 1, results + [line])
  {
  }

  /** An account stays provisioned through any run. */
  lemma StaysProvisioned(before: Database, after: Database, m: Manifest, a: Account, id: nat)
    requires Sane(before, after, m) && a in m.accounts && Provisioned(before, a, id)
    ensures Provisioned(after, a, id)
  {
    assert id in MatchesOf(before, a);
    assert id in MatchesOf(after, a) && Fits(after, a);
  }

  /** Runs compose: what two of them may do together, one may. */
  lemma RunsCompose(before: Database, middle: Database, after: Database, m: Manifest)
    requires Sane(before, middle, m) && Sane(middle, after, m)
    ensures Sane(before, after, m)
  {
    forall id <- after.users ensures id in before.users || exists a <- m.accounts :: Provisioned(after, a, id) {
      if id in middle.users && id !in before.users {
        var a :| a in m.accounts && Provisioned(middle, a, id);
        StaysProvisioned(middle, after, m, a, id);
      }
    }
    forall s <- before.sessions | s !in after.sessions ensures exists a <- m.accounts :: Provisioned(after, a, s.user) {
      if s !in middle.sessions {
        var a :| a in m.accounts && Provisioned(middle, a, s.user);
        StaysProvisioned(middle, after, m, a, s.user);
      }
    }
  }

  lemma ListedAt(before: Database, db: Database, m: Manifest, results: seq<Line>, a: Account, id: nat) returns (i: nat)
    requires Done(before, db, m, |m.accounts|, results) && a in m.accounts && Provisioned(db, a, id)
    ensures i < |results| && results[i].user == id
  {
    i :| 0 <= i < |m.accounts| && m.accounts[i] == a;
    assert Provisioned(db, m.accounts[i], results[i].user);
    assert id in MatchesOf(db, a);
  }

  lemma NoBatchSessionLeft(before: Database, db: Database, m: Manifest, results: seq<Line>)
    requires OwnSessions(db, m) && Done(before, db, m, |m.accounts|, results)
    ensures forall s <- db.sessions :: s.agent != m.batch
  {
    forall s <- db.sessions ensures s.agent != m.batch {
      if a :| a in m.accounts && Provisioned(db, a, s.user) {
        var i := ListedAt(before, db, m, results, a, s.user);
      }
    }
  }

  class Directory {
    var db: Database

    constructor (db: Database)
      ensures this.db == db
    {
      this.db := db;
    }

    /** The collision review made before anyone is created: which accounts exist already. */
    method Preflight(m: Manifest) returns (r: Result<map<nat, nat>, nat>)
      ensures r.Ok? <==> Resumable(db, m.accounts)
      ensures r.Ok? ==> forall i :: 0 <= i < |m.accounts| ==>
                if i in r.value then Provisioned(db, m.accounts[i], r.value[i]) else MatchesOf(db, m.accounts[i]) == {}
    {
      var existing: map<nat, nat> := map[];
      for i := 0 to |m.accounts|
        invariant forall j :: 0 <= j < i ==> Fits(db, m.accounts[j])
        invariant forall j <- existing :: j < i
        invariant forall j :: 0 <= j < i ==>
                    if j in existing then Provisioned(db, m.accounts[j], existing[j])
                    else MatchesOf(db, m.accounts[j]) == {}
      {
        var a := m.accounts[i];
        var matches := MatchesOf(db, a);
        if matches != {} {
          var id :| id in matches;
          if matches != {id} || db.users[id].password != a.password || !Verified(db, a, id) {
            assert a in m.accounts && !Fits(db, a);
            return Err(i);
          }
          existing := existing[i := id];
        }
      }
      return Ok(existing);
    }

    /**
     The account at `i`: found by preflight, or registered now. `stop` is how many more steps
     the process survives; there is one before registration and one before its session is
     dropped again.
     */
    method Settle(m: Manifest, i: nat, existing: map<nat, nat>, stop: nat, ghost before: Database,
                  ghost results: seq<Line>)
      returns (id: nat, left: Option<nat>)
      requires Distinct(m.accounts) && i < |m.accounts|
      requires Sane(before, db, m) && Pending(before, db, m, existing, i) && Done(before, db, m, i, results)
      modifies this
      ensures Sane(before, db, m) && (left.Some? ==> left.value <= stop && stop <= left.value + 2)
      ensures stop >= 2 ==> left.Some?
      ensures left.Some? ==>
                && Provisioned(db, m.accounts[i], id) && Pending(before, db, m, existing, i + 1)
                && Done(before, db, m, i, results)
                && (i !in existing ==> forall s <- db.sessions :: s.user == id ==> s.agent != m.batch)
    {
      id := 0;
      if i in existing {
        return existing[i], Some(stop);
      }
      if stop == 0 {
        return id, None;
      }
      Registering(before, db, m, existing, i, results);
      id := db.nextId;
      db := Registered(db, m.accounts[i], m.batch);
      if stop == 1 {
        return id, None;
      }
      Ending(before, db, m, existing, i, results, id);
      OnlySessionEnds(db, id, m.batch);
      db := db.(sessions := db.sessions - {Session(id, m.batch, id)});
      left := Some(stop - 2);
    }

    /**
     One run over a manifest, which the process survives for `stop` more steps. It is refused
     exactly when some account collides with someone else's, and then changes nothing.
     However it ends, it has only added this batch's accounts, and the same manifest can be
     run again; if it completes, every account exists exactly once with its own grant, is
     listed once in order, and has no session of the batch left.
     */
    method Run(m: Manifest, stop: nat) returns (outcome: Outcome)
      requires Sound(db) && Distinct(m.accounts)
      modifies this
      ensures outcome.Refused? <==> !Resumable(old(db), m.accounts)
      ensures outcome.Refused? ==> db == old(db)
      ensures !outcome.Refused? ==> Sane(old(db), db, m)
      ensures outcome.Complete? ==> Done(old(db), db, m, |m.accounts|, outcome.results)
      ensures outcome.Interrupted? ==> stop < 3 * |m.accounts|
    {
      var reviewed := Preflight(m);
      if reviewed.Err? {
        return Refused(reviewed.error);
      }
      ghost var before := db;
      var existing := reviewed.value;
      var left: nat, results: seq<Line> := stop, [];
      for i := 0 to |m.accounts|
        invariant Sane(before, db, m) && Pending(before, db, m, existing, i) && Done(before, db, m, i, results)
        invariant stop <= left + 3 * i
      {
        var a := m.accounts[i];
        var id, survived := Settle(m, i, existing, left, before, results);
        if survived.None? || survived.value == 0 {
          return Interrupted;
        }
        left := survived.value - 1;
        // The second verification; nothing has touched the account since preflight.
        assert Verified(db, a, id);
        if i in existing {
          Ending(before, db, m, existing, i, results, id);
          db := Ended(db, id, m.batch);
        }
        DoneNext(before, db, m, i, results, Line(i + 1, id, i !in existing, a.feathers));
        results := results + [Line(i + 1, id, i !in existing, a.feathers)];
      }
      return Complete(results);
    }

    /**
     Any number of runs stopped anywhere, and then one that is not: every account exists
     exactly once with one grant of its own amount, is listed once and in order, and no
     session tagged with the batch remains. No run is ever refused on account of another.
     */
    method Provision(m: Manifest, stops: seq<nat>) returns (results: seq<Line>)
      requires Sound(db) && Distinct(m.accounts) && Resumable(db, m.accounts) && OwnSessions(db, m)
      modifies this
      ensures Sane(old(db), db, m) && |results| == |m.accounts|
      ensures forall i :: 0 <= i < |results| ==>
                results[i].index == i + 1 && Provisioned(db, m.accounts[i], results[i].user)
                && results[i].feathers == m.accounts[i].feathers
      ensures forall s <- db.sessions :: s.agent != m.batch
    {
      for k := 0 to |stops|
        invariant Sane(old(db), db, m)
      {
        ghost var middle := db;
        var outcome := Run(m, stops[k]);
        RunsCompose(old(db), middle, db, m);
      }
      ghost var middle := db;
      var last := Run(m, 3 * |m.accounts|);
      RunsCompose(old(db), middle, db, m);
      NoBatchSessionLeft(middle, db, m, last.results);
      results := last.results;
    }
  }
}
