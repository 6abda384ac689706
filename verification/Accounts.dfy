/** Sign-in and password reset over one account store: `run_login_complete` of
    rust/genesis-auth/src/login.rs and the request and completion of
    rust/genesis-auth/src/password_reset.rs, statement by statement. */
module Accounts {
  import opened Prelude
  import L = Lockout
  import R = RefreshTokens

  /** A usable bcrypt hash, or a column that holds none. */
  datatype PasswordHash = Bcrypt(password: string) | Unusable

  /** What a reset link signs. Accounts are keyed by lower-cased address. */
  datatype ResetToken = Signed(email: string, expiry: int)

  /** SHA-256 of the token text, taken to be injective. */
  datatype ResetHash = Sha256(token: ResetToken)

  /** The text a client sends back: signed by this server, with or without whitespace
      around it, or something that does not parse. */
  datatype Presented = Empty | Genuine(token: ResetToken, padded: bool) | Malformed | BadSignature

  datatype Account = Account(
    id: int, blocked: bool, password: PasswordHash, lock: L.Lock,
    resetHash: Option<ResetHash>, resetExpiry: Option<int>)

  datatype Session = Session(user: int, original: Option<int>)

  datatype Store = Store(accounts: map<string, Account>, sessions: map<string, Session>, tokens: R.Table)

  datatype Config = Config(policy: L.Policy, refreshTtlSec: nat, resetTtlMs: nat)

  datatype LoginRequest = LoginRequest(
    valid: bool, email: string, password: string, session: string, raw: string, family: string,
    now: int, failedAt: int, clock: int, issuedAt: int)

  datatype LoginError = BadRequest | Unauthorized | Blocked | Locked(seconds: int) | Transport

  datatype ResetError = Incomplete | BadPassword | BadToken | Tampered | NoAccount | LinkUsed | SessionExpired

  function RemainingSeconds(until: int, now: int): int {
    (until - now + 999) / 1000
  }

  predicate PasswordMatches(a: Account, password: string) {
    a.password == Bcrypt(password)
  }

  function SetAccount(s: Store, email: string, a: Account): Store {
    s.(accounts := s.accounts[email := a])
  }

  function WithoutSessionsOf(sessions: map<string, Session>, user: int): map<string, Session> {
    map sid | sid in sessions && sessions[sid].user != user ::
      sessions[sid].(original := if sessions[sid].original == Some(user) then None else sessions[sid].original)
  }

  /** `run_login_complete` after input validation, in the order of its statements. */
  function Login(cfg: Config, s: Store, q: LoginRequest): (Store, Result<string, LoginError>) {
    if !q.valid then (s, Err(BadRequest))
    else if q.email !in s.accounts then (s, Err(Unauthorized))
    else
      var a := s.accounts[q.email];
      if a.blocked then (s, Err(Blocked))
      else if L.IsLocked(a.lock.until, q.now) then (s, Err(Locked(RemainingSeconds(a.lock.until.value, q.now))))
      else if !PasswordMatches(a, q.password) then
        (SetAccount(s, q.email, a.(lock := L.RecordFailure(cfg.policy, a.lock, q.failedAt))), Err(Unauthorized))
      else
        var s1 := SetAccount(s, q.email, a.(lock := L.CLEAR));
        var s2 := s1.(sessions := s1.sessions[q.session := Session(a.id, None)],
                      tokens := R.Revoke(s1.tokens, a.id, q.issuedAt));
        match R.ExpiresAt(q.clock, cfg.refreshTtlSec)
        case None => (s2, Err(Transport))
        case Some(expires) =>
          (s2.(tokens := R.Issue(s2.tokens, a.id, q.raw, q.family, expires, q.issuedAt)), Ok(q.raw))
  }

  /** `try_issue_reset`: the token it mails, if the account exists. */
  function RequestReset(cfg: Config, s: Store, email: string, now: int): (Store, Option<ResetToken>) {
    if email !in s.accounts then (s, None)
    else
      var token := Signed(email, Saturate(now + cfg.resetTtlMs));
      (SetAccount(s, email, s.accounts[email].(resetHash := Some(Sha256(token)), resetExpiry := Some(token.expiry))),
       Some(token))
  }

  /** The checks of `run_password_reset_complete`, in order; the address they accept. */
  function CheckReset(s: Store, text: Presented, password: string, acceptable: bool,
          now: int): (r: Result<string, ResetError>)
    ensures r.Ok? ==> r.value in s.accounts
  {
    if text == Empty || password == "" then Err(Incomplete)
    else if !acceptable then Err(BadPassword)
    else
      match text
      case Malformed => Err(BadToken)
      case BadSignature => Err(Tampered)
      case Genuine(token, padded) =>
        if token.email == "" then Err(BadToken)
        else if now > token.expiry then Err(SessionExpired)
        else if token.email !in s.accounts then Err(NoAccount)
        else
          var a := s.accounts[token.email];
          if padded || a.resetHash != Some(Sha256(token)) then Err(LinkUsed)
          else if a.resetExpiry.Some? && now > a.resetExpiry.value then Err(SessionExpired)
          else Ok(token.email)
  }

  function CompleteReset(s: Store, text: Presented, password: string, acceptable: bool, now: int,
          revokedAt: int): (Store, Result<string, ResetError>)
  {
    var r := CheckReset(s, text, password, acceptable, now);
    if r.Err? then (s, r)
    else
      var a := s.accounts[r.value];
      var s1 := s.(sessions := WithoutSessionsOf(s.sessions, a.id), tokens := R.Revoke(s.tokens, a.id, revokedAt));
      (SetAccount(s1, r.value, a.(password := Bcrypt(password), lock := L.CLEAR, resetHash := None,
          resetExpiry := None)), r)
  }

  // ----- The store -----

  class AccountStore {
    const cfg: Config
    var accounts: map<string, Account>
    var sessions: map<string, Session>
    const tokens: R.RefreshStore

    constructor (cfg: Config, accounts: map<string, Account>)
      ensures this.cfg == cfg && fresh(tokens) && tokens.ttlSec == cfg.refreshTtlSec
      ensures State() == Store(accounts, map[], R.Table(map[], 0))
    {
      this.cfg, this.accounts, sessions := cfg, accounts, map[];
      tokens := new R.RefreshStore(cfg.refreshTtlSec);
    }

    function State(): Store
      reads this, tokens
    {
      Store(accounts, sessions, tokens.Contents())
    }

    method RecordLoginFailure(email: string, now: int)
      requires email in accounts
      modifies `accounts
      ensures State() == SetAccount(old(State()), email,
                           old(accounts[email]).(lock := L.RecordFailure(cfg.policy, old(accounts[email]).lock, now)))
    {
      var a := accounts[email];
      accounts := accounts[email := a.(lock := a.lock.(failures := a.lock.failures + 1))];
      var count := accounts[email].lock.failures;
      if count >= cfg.policy.maxFailures {
        var until := L.LockedUntil(cfg.policy, now);
        accounts := accounts[email := accounts[email].(lock := accounts[email].lock.(until := Some(until)))];
      }
    }

    method ClearLoginFailures(email: string)
      requires email in accounts
      modifies `accounts
      ensures State() == SetAccount(old(State()), email, old(accounts[email]).(lock := L.CLEAR))
    {
      accounts := accounts[email := accounts[email].(lock := L.Lock(0, None))];
    }

    method LoginComplete(q: LoginRequest) returns (r: Result<string, LoginError>)
      requires tokens.ttlSec == cfg.refreshTtlSec
      modifies this, tokens
      ensures (State(), r) == Login(cfg, old(State()), q)
    {
      if !q.valid {
        return Err(BadRequest);
      }
      if q.email !in accounts {
        return Err(Unauthorized);
      }
      var a := accounts[q.email];
      if a.blocked {
        return Err(Blocked);
      }
      if L.IsLocked(a.lock.until, q.now) {
        return Err(Locked(RemainingSeconds(a.lock.until.value, q.now)));
      }
      if !PasswordMatches(a, q.password) {
        RecordLoginFailure(q.email, q.failedAt);
        return Err(Unauthorized);
      }
      ClearLoginFailures(q.email);
      sessions := sessions[q.session := Session(a.id, None)];
      tokens.RunRevoke(a.id, q.issuedAt);
      var issued := tokens.RunIssue(a.id, q.raw, q.family, q.clock, q.issuedAt);
      if issued.None? {
        return Err(Transport);
      }
      r := Ok(issued.value);
    }

    method ResetRequest(email: string, now: int) returns (mailed: Option<ResetToken>)
      modifies `accounts
      ensures (State(), mailed) == RequestReset(cfg, old(State()), email, now)
    {
      if email !in accounts {
        return None;
      }
      var token := Signed(email, Saturate(now + cfg.resetTtlMs));
      accounts := accounts[email := accounts[email].(resetHash := Some(Sha256(token)),
          resetExpiry := Some(token.expiry))];
      mailed := Some(token);
    }

    method ResetComplete(text: Presented, password: string, acceptable: bool, now: int,
            revokedAt: int) returns (r: Result<string, ResetError>)
      modifies this, tokens
      ensures (State(), r) == CompleteReset(old(State()), text, password, acceptable, now, revokedAt)
    {
      r := CheckReset(State(), text, password, acceptable, now);
      if r.Err? {
        return;
      }
      var user := accounts[r.value].id;
      sessions := WithoutSessionsOf(sessions, user);
      tokens.RunRevoke(user, revokedAt);
      accounts := accounts[r.value := accounts[r.value].(password := Bcrypt(password),
                    resetHash := None, resetExpiry := None, lock := L.Lock(0, None))];
    }
  }

  // ----- What one call leaves behind -----

  /** A completed sign-in leaves the account unlocked with a clean counter, and as its
      only live refresh row the token just handed out. */
  lemma LoginLeavesOneLive(cfg: Config, s: Store, q: LoginRequest)
    requires Login(cfg, s, q).1.Ok? && forall id :: id in s.tokens.rows ==> id < s.tokens.nextId
    ensures var (s', r) := Login(cfg, s, q);
            && q.email in s'.accounts && s'.accounts[q.email].lock == L.CLEAR
            && var user := s'.accounts[q.email].id;
               R.LiveOf(s'.tokens, user) == {s.tokens.nextId}
               && s'.tokens.rows[s.tokens.nextId].hash == R.Sha256(r.value)
               && q.session in s'.sessions && s'.sessions[q.session].user == user
               && forall other :: other != user ==> R.LiveOf(s'.tokens, other) == R.LiveOf(s.tokens, other)
  {
    var s' := Login(cfg, s, q).0;
    var user := s'.accounts[q.email].id;
    assert R.LiveOf(s'.tokens, user) == {s.tokens.nextId};
    forall other | other != user
      ensures R.LiveOf(s'.tokens, other) == R.LiveOf(s.tokens, other)
    {
    }
  }

  /** A completed reset leaves the account no session, no live refresh row, no lock and
      no reset token, and takes nothing from other users but their impersonation of it. */
  lemma ResetLeavesNothing(s: Store, text: Presented, password: string, acceptable: bool, now: int, at: int)
    requires CompleteReset(s, text, password, acceptable, now, at).1.Ok?
    ensures var (s', r) := CompleteReset(s, text, password, acceptable, now, at);
            && r.value in s.accounts && s'.accounts.Keys == s.accounts.Keys
            && (forall e :: e in s.accounts && e != r.value ==> s'.accounts[e] == s.accounts[e])
            && var a, user := s'.accounts[r.value], s.accounts[r.value].id;
               a.id == user && a.lock == L.CLEAR && a.resetHash == None && a.password == Bcrypt(password)
               && R.LiveOf(s'.tokens, user) == {}
               && (forall sid :: sid in s'.sessions ==>
                     s'.sessions[sid].user != user && s'.sessions[sid].original != Some(user))
               && (forall sid :: sid in s.sessions && s.sessions[sid].user != user ==>
                     sid in s'.sessions && s'.sessions[sid].user == s.sessions[sid].user)
               && forall other :: other != user ==> R.LiveOf(s'.tokens, other) == R.LiveOf(s.tokens, other)
  {
  }

  /** After a completed reset the new password signs in at any moment, lock or no lock
      before, and no other password does. */
  lemma ResetThenLogin(cfg: Config, s: Store, text: Presented, password: string, acceptable: bool, now: int,
          at: int, q: LoginRequest)
    requires CompleteReset(s, text, password, acceptable, now, at).1.Ok?
    requires q.valid && q.email == CompleteReset(s, text, password, acceptable, now, at).1.value
    requires !s.accounts[q.email].blocked && R.ExpiresAt(q.clock, cfg.refreshTtlSec).Some?
    ensures Login(cfg, CompleteReset(s, text, password, acceptable, now, at).0, q).1
         == if q.password == password then Ok(q.raw) else Err(Unauthorized)
  {
  }

  // ----- Every answer and every effect, by the columns of the account -----

  predicate RunningLock(a: Account, now: int) {
    a.lock.until.Some? && now < a.lock.until.value
  }

  /** A time to live in milliseconds that fits 64 bits. */
  predicate FittingTtl(cfg: Config) {
    cfg.refreshTtlSec * 1000 <= I64_MAX
  }

  /** Who signs in: a valid request for an existing account that is neither blocked nor
      locked at that moment, with the stored password. */
  lemma SignsInExactly(cfg: Config, s: Store, q: LoginRequest)
    ensures Login(cfg, s, q).1.Ok? <==>
              && q.valid && q.email in s.accounts && FittingTtl(cfg)
              && var a := s.accounts[q.email];
                 !a.blocked && !RunningLock(a, q.now) && a.password == Bcrypt(q.password)
    ensures Login(cfg, s, q).1.Ok? ==> Login(cfg, s, q).1.value == q.raw
  {
  }

  /** The seconds a locked account is told are the fewest that outlast the lock. */
  lemma SecondsCoverLock(until: int, now: int)
    requires now < until
    ensures var n := RemainingSeconds(until, now); n >= 1 && 1000 * (n - 1) < until - now <= 1000 * n
  {
  }

  /** Why a sign-in fails: the first condition that is missing, in this order. A blocked
      account is refused before its lock is looked at, a locked one before its password. */
  lemma SignInRefusals(cfg: Config, s: Store, q: LoginRequest)
    ensures var r := Login(cfg, s, q).1;
            && (r == Err(BadRequest) <==> !q.valid)
            && (r == Err(Blocked) <==> q.valid && q.email in s.accounts && s.accounts[q.email].blocked)
            && (r.Err? && r.error.Locked? <==>
                  q.valid && q.email in s.accounts && !s.accounts[q.email].blocked
                  && RunningLock(s.accounts[q.email], q.now))
            && (r.Err? && r.error.Locked? ==>
                  1000 * (r.error.seconds - 1) < s.accounts[q.email].lock.until.value - q.now <= 1000 * r.error.seconds)
            && (r == Err(Unauthorized) <==>
                  q.valid && (q.email in s.accounts ==>
                                var a := s.accounts[q.email];
                                !a.blocked && !RunningLock(a, q.now) && a.password != Bcrypt(q.password)))
            && (r == Err(Transport) <==>
                  && q.valid && q.email in s.accounts && !FittingTtl(cfg)
                  && var a := s.accounts[q.email];
                     !a.blocked && !RunningLock(a, q.now) && a.password == Bcrypt(q.password))
  {
  }

  /** Invalid input, an unknown address, a blocked and a locked account leave everything as
      it was, whatever the password. */
  lemma RefusalKeepsStore(cfg: Config, s: Store, q: LoginRequest)
    requires !q.valid || q.email !in s.accounts || s.accounts[q.email].blocked
             || RunningLock(s.accounts[q.email], q.now)
    ensures Login(cfg, s, q).0 == s && Login(cfg, s, q).1.Err?
  {
  }

  /** A wrong password adds one failure, at the limit a lock of full length from the moment
      it is recorded, and changes nothing else. */
  lemma WrongPasswordEffect(cfg: Config, s: Store, q: LoginRequest)
    requires q.email in s.accounts && Login(cfg, s, q).1 == Err(Unauthorized)
    requires IsI64(q.failedAt) && q.failedAt + cfg.policy.lockoutMs <= I64_MAX
    ensures var s', a := Login(cfg, s, q).0, s.accounts[q.email];
            && s'.accounts.Keys == s.accounts.Keys && s'.sessions == s.sessions && s'.tokens == s.tokens
            && (forall e :: e in s.accounts && e != q.email ==> s'.accounts[e] == s.accounts[e])
            && s'.accounts[q.email].lock.failures == a.lock.failures + 1
            && s'.accounts[q.email].lock.until ==
                 (if a.lock.failures + 1 >= cfg.policy.maxFailures then Some(q.failedAt + cfg.policy.lockoutMs)
                  else a.lock.until)
            && s'.accounts[q.email].(lock := a.lock) == a
  {
  }

  /** What the right password does: the account only loses its failures and its lock, one
      session is added, the user's live refresh rows are stamped, and, unless the time to
      live does not fit, the new token gets a row of its own that expires one time to live
      after the clock was read. */
  lemma SignInEffect(cfg: Config, s: Store, q: LoginRequest)
    requires (Login(cfg, s, q).1.Ok? || Login(cfg, s, q).1 == Err(Transport)) && IsI64(q.clock)
    requires forall id :: id in s.tokens.rows ==> id < s.tokens.nextId
    ensures var (s', r) := Login(cfg, s, q);
            var a := s.accounts[q.email];
            && s'.accounts == s.accounts[q.email := a.(lock := L.Lock(0, None))]
            && s'.sessions == s.sessions[q.session := Session(a.id, None)]
            && s'.tokens.nextId == s.tokens.nextId + (if r.Ok? then 1 else 0)
            && s'.tokens.rows.Keys == s.tokens.rows.Keys + (if r.Ok? then {s.tokens.nextId} else {})
            && (forall id :: id in s.tokens.rows ==>
                  var row := s.tokens.rows[id];
                  s'.tokens.rows[id] == row.(revokedAt := if row.user == a.id && row.revokedAt == None
                                                          then Some(q.issuedAt) else row.revokedAt))
            && (r.Ok? ==>
                  s'.tokens.rows[s.tokens.nextId] ==
                    R.Row(a.id, R.Sha256(q.raw), q.family,
                          if q.clock + cfg.refreshTtlSec * 1000 <= I64_MAX then q.clock + cfg.refreshTtlSec * 1000
                          else I64_MAX,
                          q.issuedAt, None))
  {
  }

  /** A reset request mails a token for the address that expires one time to live from now,
      and makes the account wait for that token; an unknown address changes nothing. */
  lemma RequestEffect(cfg: Config, s: Store, email: string, now: int)
    requires IsI64(now) && now + cfg.resetTtlMs <= I64_MAX
    ensures var (s', mailed) := RequestReset(cfg, s, email, now);
            && (mailed.Some? <==> email in s.accounts) && (mailed.None? ==> s' == s)
            && (mailed.Some? ==>
                  && mailed.value == Signed(email, now + cfg.resetTtlMs)
                  && s' == s.(accounts := s.accounts[email := s.accounts[email].(
                                resetHash := Some(Sha256(mailed.value)), resetExpiry := Some(now + cfg.resetTtlMs))]))
  {
  }

  /** Why a reset is refused: the first check that fails, in this order. */
  lemma ResetRefusals(s: Store, text: Presented, password: string, acceptable: bool, now: int)
    ensures var r := CheckReset(s, text, password, acceptable, now);
            && (r == Err(Incomplete) <==> text == Empty || password == "")
            && (r == Err(BadPassword) <==> text != Empty && password != "" && !acceptable)
            && (r == Err(Tampered) <==> text == BadSignature && password != "" && acceptable)
            && (r == Err(BadToken) <==>
                  password != "" && acceptable && (text == Malformed || (text.Genuine? && text.token.email == "")))
            && (text.Genuine? && text.token.email != "" && password != "" && acceptable ==>
                  var t := text.token;
                  if now > t.expiry then r == Err(SessionExpired)
                  else if t.email !in s.accounts then r == Err(NoAccount)
                  else if text.padded || s.accounts[t.email].resetHash != Some(Sha256(t)) then r == Err(LinkUsed)
                  else if s.accounts[t.email].resetExpiry.Some? && now > s.accounts[t.email].resetExpiry.value
                  then r == Err(SessionExpired)
                  else r == Ok(t.email))
  {
  }

  /** A completed reset changes password, lock and reset columns of the account, drops its
      sessions, clears the marks of sessions opened from it, and stamps its live refresh
      rows; a refused one changes nothing. */
  lemma ResetEffect(s: Store, text: Presented, password: string, acceptable: bool, now: int, at: int)
    ensures var (s', r) := CompleteReset(s, text, password, acceptable, now, at);
            && (r.Err? ==> s' == s)
            && (r.Ok? ==>
                  && r.value in s.accounts
                  && var a := s.accounts[r.value];
                     && s'.accounts == s.accounts[r.value :=
                          Account(a.id, a.blocked, Bcrypt(password), L.Lock(0, None), None, None)]
                     && (forall sid :: sid in s'.sessions <==> sid in s.sessions && s.sessions[sid].user != a.id)
                     && (forall sid :: sid in s'.sessions ==>
                           s'.sessions[sid].user == s.sessions[sid].user
                           && s'.sessions[sid].original ==
                                (if s.sessions[sid].original == Some(a.id) then None else s.sessions[sid].original))
                     && s'.tokens.nextId == s.tokens.nextId && s'.tokens.rows.Keys == s.tokens.rows.Keys
                     && forall id :: id in s.tokens.rows ==>
                          var row := s.tokens.rows[id];
                          s'.tokens.rows[id] == row.(revokedAt := if row.user == a.id && row.revokedAt == None
                                                                  then Some(at) else row.revokedAt))
  {
  }

  // ----- Serial runs -----

  datatype Event = ResetIssued(token: ResetToken) | ResetCompleted(token: ResetToken)

  /** The store, the history of reset tokens, and for each account the times of the
      wrong-password checks since its last sign-in or completed reset. */
  datatype World = World(clock: int, store: Store, log: seq<Event>, checks: map<string, seq<int>>)

  datatype Step =
    | SignIn(q: LoginRequest)
    | AskReset(email: string, now: int)
    | FinishReset(text: Presented, password: string, acceptable: bool, now: int, at: int)

  predicate InTime(cfg: Config, from: int, to: int) {
    I64_MIN <= from <= to && to + cfg.policy.lockoutMs <= I64_MAX
  }

  function Checks(w: World, email: string): seq<int> {
    if email in w.checks then w.checks[email] else []
  }

  /** A request whose clock readings go back or leave the 64-bit range changes nothing. */
  function Apply(cfg: Config, w: World, step: Step): World {
    match step
    case SignIn(q) =>
      if !InTime(cfg, w.clock, q.now) || !InTime(cfg, q.now, q.failedAt) then w
      else
        var (s, r) := Login(cfg, w.store, q);
        var checks :=
          if q.email !in w.store.accounts then w.checks
          else if r == Err(Unauthorized) then w.checks[q.email := Checks(w, q.email) + [q.now]]
          else if r.Ok? || r == Err(Transport) then w.checks[q.email := []]
          else w.checks;
        World(q.failedAt, s, w.log, checks)
    case AskReset(email, now) =>
      if !InTime(cfg, w.clock, now) then w
      else
        var (s, mailed) := RequestReset(cfg, w.store, email, now);
        w.(clock := now, store := s, log := if mailed.Some? then w.log + [ResetIssued(mailed.value)] else w.log)
    case FinishReset(text, password, acceptable, now, at) =>
      if !InTime(cfg, w.clock, now) then w
      else
        var (s, r) := CompleteReset(w.store, text, password, acceptable, now, at);
        if r.Err? || !text.Genuine? then w.(clock := now, store := s)
        else World(now, s, w.log + [ResetCompleted(text.token)], w.checks[r.value := []])
  }

  ghost function Exec(cfg: Config, w: World, steps: seq<Step>): World
    decreases |steps|
  {
    if steps == [] then w else Exec(cfg, Apply(cfg, w, steps[0]), steps[1..])
  }

  /** Accounts that never failed a sign-in nor asked for a reset. */
  ghost predicate Untouched(accounts: map<string, Account>) {
    forall e :: e in accounts ==>
      accounts[e].lock == L.CLEAR && accounts[e].resetHash == None && accounts[e].resetExpiry == None
  }

  function Initial(clock: int, accounts: map<string, Account>): World {
    World(clock, Store(accounts, map[], R.Table(map[], 0)), [], map[])
  }

  // ----- Reset tokens -----

  /** Index of the account's last reset event. */
  ghost function Last(log: seq<Event>, email: string): (r: Option<nat>)
    ensures r.Some? ==> r.value < |log| && log[r.value].token.email == email
    ensures r.Some? ==> forall i :: r.value < i < |log| ==> log[i].token.email != email
    ensures r.None? ==> forall i :: 0 <= i < |log| ==> log[i].token.email != email
  {
    if log == [] then None
    else if log[|log| - 1].token.email == email then Some(|log| - 1)
    else Last(log[..|log| - 1], email)
  }

  /** The account waits for a token exactly when that token is the last thing that
      happened to it. */
  ghost predicate Waits(w: World, email: string)
    requires email in w.store.accounts
  {
    var a, last := w.store.accounts[email], Last(w.log, email);
    if last.Some? && w.log[last.value].ResetIssued?
    then a.resetHash == Some(Sha256(w.log[last.value].token)) && a.resetExpiry == Some(w.log[last.value].token.expiry)
    else a.resetHash == None
  }

  ghost predicate CompletionOk(log: seq<Event>, i: nat)
    requires i < |log|
  {
    log[i].ResetCompleted? ==>
      var last := Last(log[..i], log[i].token.email);
      last.Some? && log[last.value] == ResetIssued(log[i].token)
  }

  ghost predicate ResetInv(w: World) {
    && (forall e :: e in w.store.accounts ==> Waits(w, e))
    && (forall i :: 0 <= i < |w.log| ==> CompletionOk(w.log, i) && w.log[i].token.email in w.store.accounts)
  }

  lemma LastAppended(log: seq<Event>, e: Event, email: string)
    ensures Last(log + [e], email) == if e.token.email == email then Some(|log|) else Last(log, email)
  {
    assert (log + [e])[..|log|] == log;
  }

  lemma CompletionsAppended(log: seq<Event>, e: Event)
    requires forall i :: 0 <= i < |log| ==> CompletionOk(log, i)
    ensures forall i :: 0 <= i < |log| ==> CompletionOk(log + [e], i)
  {
    forall i | 0 <= i < |log|
      ensures CompletionOk(log + [e], i)
    {
      assert (log + [e])[..i] == log[..i];
      assert CompletionOk(log, i);
    }
  }

  lemma LoginKeepsResetColumns(cfg: Config, s: Store, q: LoginRequest, e: string)
    requires e in s.accounts
    ensures var s' := Login(cfg, s, q).0;
            s'.accounts.Keys == s.accounts.Keys
            && s'.accounts[e].resetHash == s.accounts[e].resetHash
                && s'.accounts[e].resetExpiry == s.accounts[e].resetExpiry
  {
  }

  lemma SameColumnsKeepResets(w: World, w': World)
    requires ResetInv(w) && w'.log == w.log && w'.store.accounts.Keys == w.store.accounts.Keys
    requires forall e :: e in w.store.accounts ==>
               w'.store.accounts[e].resetHash == w.store.accounts[e].resetHash
               && w'.store.accounts[e].resetExpiry == w.store.accounts[e].resetExpiry
    ensures ResetInv(w')
  {
    forall e | e in w'.store.accounts
      ensures Waits(w', e)
    {
      assert Waits(w, e);
    }
  }

  lemma SignInKeepsResets(cfg: Config, w: World, q: LoginRequest)
    requires ResetInv(w)
    ensures ResetInv(Apply(cfg, w, SignIn(q)))
  {
    var w' := Apply(cfg, w, SignIn(q));
    forall e | e in w.store.accounts
      ensures w'.store.accounts.Keys == w.store.accounts.Keys
      ensures w'.store.accounts[e].resetHash == w.store.accounts[e].resetHash
              && w'.store.accounts[e].resetExpiry == w.store.accounts[e].resetExpiry
    {
      LoginKeepsResetColumns(cfg, w.store, q, e);
    }
    SameColumnsKeepResets(w, w');
  }

  /** One event joins the history and only its account changes its reset columns. */
  lemma EventKeepsResets(w: World, w': World, e: Event)
    requires ResetInv(w) && w'.log == w.log + [e]
    requires e.token.email in w.store.accounts && w'.store.accounts.Keys == w.store.accounts.Keys
    requires forall f :: f in w.store.accounts && f != e.token.email ==> w'.store.accounts[f] == w.store.accounts[f]
    requires CompletionOk(w'.log, |w.log|) && Waits(w', e.token.email)
    ensures ResetInv(w')
  {
    CompletionsAppended(w.log, e);
    forall f | f in w'.store.accounts
      ensures Waits(w', f)
    {
      if f != e.token.email {
        LastAppended(w.log, e, f);
        assert Waits(w, f);
      }
    }
  }

  lemma AskKeepsResets(cfg: Config, w: World, email: string, now: int)
    requires ResetInv(w)
    ensures ResetInv(Apply(cfg, w, AskReset(email, now)))
  {
    var w' := Apply(cfg, w, AskReset(email, now));
    if |w'.log| > |w.log| {
      var e := w'.log[|w.log|];
      LastAppended(w.log, e, email);
      EventKeepsResets(w, w', e);
    } else {
      SameColumnsKeepResets(w, w');
    }
  }

  lemma FinishKeepsResets(cfg: Config, w: World, step: Step)
    requires ResetInv(w) && step.FinishReset?
    ensures ResetInv(Apply(cfg, w, step))
  {
    hide R.Revoke, WithoutSessionsOf, InTime, Checks;
    var w' := Apply(cfg, w, step);
    if |w'.log| > |w.log| {
      var e := w'.log[|w.log|];
      LastAppended(w.log, e, e.token.email);
      assert w'.log[..|w.log|] == w.log;
      assert Waits(w, e.token.email);
      EventKeepsResets(w, w', e);
    } else {
      SameColumnsKeepResets(w, w');
    }
  }

  lemma StepKeepsResets(cfg: Config, w: World, step: Step)
    requires ResetInv(w)
    ensures ResetInv(Apply(cfg, w, step))
  {
    match step
    case SignIn(q) => SignInKeepsResets(cfg, w, q);
    case AskReset(email, now) => AskKeepsResets(cfg, w, email, now);
    case FinishReset(_, _, _, _, _) => FinishKeepsResets(cfg, w, step);
  }

  lemma {:induction false} RunKeepsResets(cfg: Config, w: World, steps: seq<Step>)
    requires ResetInv(w)
    ensures ResetInv(Exec(cfg, w, steps))
    decreases |steps|
  {
    if steps != [] {
      StepKeepsResets(cfg, w, steps[0]);
      RunKeepsResets(cfg, Apply(cfg, w, steps[0]), steps[1..]);
    }
  }

  /** Exactly which reset texts complete, in every reachable world: the unpadded text of
      the token issued last to its account, not completed since and not expired. */
  lemma CompletesExactly(cfg: Config, clock: int, accounts: map<string, Account>, steps: seq<Step>,
                         text: Presented, password: string, acceptable: bool, now: int)
    requires Untouched(accounts)
    ensures var w := Exec(cfg, Initial(clock, accounts), steps);
            CheckReset(w.store, text, password, acceptable, now).Ok? <==>
              && password != "" && acceptable
              && text.Genuine? && !text.padded && text.token.email != "" && now <= text.token.expiry
              && text.token.email in w.store.accounts
              && var last := Last(w.log, text.token.email);
                 last.Some? && w.log[last.value] == ResetIssued(text.token)
  {
    var w := Exec(cfg, Initial(clock, accounts), steps);
    RunKeepsResets(cfg, Initial(clock, accounts), steps);
    if text.Genuine? && text.token.email in w.store.accounts {
      assert Waits(w, text.token.email);
    }
  }

  /** Every issue of a reset token is used at most once: between two completions with one
      token lies a new issue of that same token. */
  lemma CompletionNeedsIssue(cfg: Config, clock: int, accounts: map<string, Account>, steps: seq<Step>, i: nat, j: nat)
    requires Untouched(accounts)
    requires i < j < |Exec(cfg, Initial(clock, accounts), steps).log|
    requires var log := Exec(cfg, Initial(clock, accounts), steps).log;
             log[i].token.email == log[j].token.email && log[j].ResetCompleted?
    ensures var log := Exec(cfg, Initial(clock, accounts), steps).log;
            exists k :: i <= k < j && log[k] == ResetIssued(log[j].token)
                        && forall m :: k < m < j ==> log[m].token.email != log[j].token.email
  {
    var log := Exec(cfg, Initial(clock, accounts), steps).log;
    RunKeepsResets(cfg, Initial(clock, accounts), steps);
    assert CompletionOk(log, j);
    var front := log[..j];
    assert front[i] == log[i];
    var k := Last(front, log[j].token.email).value;
    assert front[k] == log[k];
    forall m | k < m < j
      ensures log[m].token.email != log[j].token.email
    {
      assert front[m] == log[m];
    }
  }

  /** With a distinct token per issue, no token completes twice. */
  lemma CompletesOnce(cfg: Config, clock: int, accounts: map<string, Account>, steps: seq<Step>, i: nat, j: nat)
    requires Untouched(accounts)
    requires var log := Exec(cfg, Initial(clock, accounts), steps).log;
             forall k, m :: 0 <= k < m < |log| && log[k].ResetIssued? && log[m].ResetIssued? ==>
                 log[k].token != log[m].token
    requires i < j < |Exec(cfg, Initial(clock, accounts), steps).log|
    requires var log := Exec(cfg, Initial(clock, accounts), steps).log; log[i].ResetCompleted? && log[j].ResetCompleted?
    ensures var log := Exec(cfg, Initial(clock, accounts), steps).log; log[i].token != log[j].token
  {
    var log := Exec(cfg, Initial(clock, accounts), steps).log;
    RunKeepsResets(cfg, Initial(clock, accounts), steps);
    if log[i].token == log[j].token {
      CompletionNeedsIssue(cfg, clock, accounts, steps, i, j);
    }
    assert CompletionOk(log, i);
    var front := log[..i];
    var p := Last(front, log[i].token.email).value;
    assert front[p] == log[p];
  }

  // ----- The lockout bound for sign-ins as the code runs them -----

  /** An account with no attempt under way, as the lockout machine sees it: attempts are
      numbered in the order of their checks, and the first max - 1 failed below the limit. */
  ghost function Idle(p: L.Policy, clock: int, lock: L.Lock, checks: seq<int>): L.World {
    L.World(clock, lock, |checks|, map[], Numbered(checks), BelowLimit(p, Numbered(checks)))
  }

  ghost function Numbered(checks: seq<int>): map<nat, int> {
    map i: nat | i < |checks| :: checks[i]
  }

  ghost function BelowLimit(p: L.Policy, checks: map<nat, int>): set<nat> {
    set i | i in checks && i < p.maxFailures - 1
  }

  ghost predicate Sorted(checks: seq<int>) {
    forall i, j :: 0 <= i <= j < |checks| ==> checks[i] <= checks[j]
  }

  /** The invariant of the machine for one account and one window, from t on. */
  ghost predicate LockOk(cfg: Config, w: World, e: string, t: int) {
    e in w.store.accounts ==>
      var lock, checks := w.store.accounts[e].lock, Checks(w, e);
      lock.failures == |checks| && Sorted(checks) && (checks != [] ==> checks[|checks| - 1] <= w.clock)
      && L.Inv(cfg.policy, Idle(cfg.policy, w.clock, lock, checks), t, 1)
  }

  lemma TickKeepsIdle(p: L.Policy, clock: int, to: int, lock: L.Lock, checks: seq<int>, t: int)
    requires L.Inv(p, Idle(p, clock, lock, checks), t, 1) && clock <= to && L.TimeOk(p, to)
    ensures L.Inv(p, Idle(p, to, lock, checks), t, 1)
  {
    L.StepKeepsInv(p, Idle(p, clock, lock, checks), L.Tick(to), t, 1);
    hide L.Inv;
  }

  /** The machine after the first steps of a wrong password: row, lock test, and the clock
      moved to when the failure is recorded. */
  lemma CheckKeeps(p: L.Policy, now: int, failedAt: int, lock: L.Lock, checks: seq<int>, t: int) returns (w: L.World)
    requires L.Inv(p, Idle(p, now, lock, checks), t, 1) && !L.IsLocked(lock.until, now) && now <= failedAt
    requires L.TimeOk(p, now) && L.TimeOk(p, failedAt)
    ensures L.Inv(p, w, t, 1)
    ensures var i := Idle(p, now, lock, checks);
            w == L.World(failedAt, lock, |checks| + 1, map[|checks| := L.Checking], i.checks[|checks| := now], i.free)
  {
    var w1 := Idle(p, now, lock, checks);
    var w2 := L.Apply(p, w1, L.ReadRow);
    var w3 := L.Apply(p, w2, L.TestLock(|checks|));
    w := L.Apply(p, w3, L.Tick(failedAt));
    hide L.Inv;
    assert w2.flight == map[|checks| := L.Reading(lock.until)];
    assert w3.flight == map[|checks| := L.Checking];
    L.StepKeepsInv(p, w1, L.ReadRow, t, 1);
    L.StepKeepsInv(p, w2, L.TestLock(|checks|), t, 1);
    L.StepKeepsInv(p, w3, L.Tick(failedAt), t, 1);
  }

  lemma CheckAppended(p: L.Policy, checks: seq<int>, now: int)
    ensures var m, m' := Numbered(checks), Numbered(checks + [now]);
            && m' == m[|checks| := now] && |checks| !in m
            && BelowLimit(p, m') == BelowLimit(p, m) + if |checks| < p.maxFailures - 1 then {|checks|} else {}
  {
  }

  lemma FailBelow(p: L.Policy, w: L.World, id: nat, t: int) returns (w': L.World)
    requires L.Inv(p, w, t, 1) && w.flight == map[id := L.Checking] && id in w.checks
    requires w.lock.failures + 1 < p.maxFailures
    ensures L.Inv(p, w', t, 1)
    ensures w' == w.(lock := L.CountFailure(w.lock), flight := map[], free := w.free + {id})
  {
    w' := L.Apply(p, w, L.Count(id));
    assert L.TimeOk(p, w.now);
    hide L.Inv;
    assert w'.flight == map[];
    L.StepKeepsInv(p, w, L.Count(id), t, 1);
  }

  lemma LimitSteps(p: L.Policy, w: L.World, id: nat)
    requires w.lock.failures + 1 >= p.maxFailures
    ensures L.Apply(p, w.(flight := map[id := L.Checking]), L.Count(id))
         == w.(lock := L.CountFailure(w.lock), flight := map[id := L.Locking])
    ensures L.Apply(p, w.(flight := map[id := L.Locking]), L.ReadClock(id)) == w.(flight := map[id := L.Writing(w.now)])
    ensures L.Apply(p, w.(flight := map[id := L.Writing(w.now)]), L.Write(id))
         == w.(lock := L.WriteLock(p, w.lock, w.now), flight := map[])
  {
    assert map[id := L.Checking][id := L.Locking] == map[id := L.Locking];
    assert map[id := L.Locking][id := L.Writing(w.now)] == map[id := L.Writing(w.now)];
    assert map[id := L.Writing(w.now)] - {id} == map[];
  }

  lemma FailAtLimit(p: L.Policy, w: L.World, id: nat, t: int) returns (w': L.World)
    requires L.Inv(p, w, t, 1) && w.flight == map[id := L.Checking]
    requires w.lock.failures + 1 >= p.maxFailures
    ensures L.Inv(p, w', t, 1)
    ensures w' == w.(lock := L.WriteLock(p, L.CountFailure(w.lock), w.now), flight := map[])
  {
    assert L.TimeOk(p, w.now);
    LimitSteps(p, w, id);
    LimitSteps(p, w.(lock := L.CountFailure(w.lock)), id);
    hide L.Inv, L.Apply, L.TimeOk;
    L.StepKeepsInv(p, w, L.Count(id), t, 1);
    var w1 := w.(lock := L.CountFailure(w.lock), flight := map[id := L.Locking]);
    L.StepKeepsInv(p, w1, L.ReadClock(id), t, 1);
    var w2 := w1.(flight := map[id := L.Writing(w.now)]);
    L.StepKeepsInv(p, w2, L.Write(id), t, 1);
    w' := L.Apply(p, w2, L.Write(id));
  }

  /** A wrong password is a check, a count and, at the limit, a clock reading and a lock of
      the machine, with nothing in between. */
  lemma WrongPasswordKeepsIdle(p: L.Policy, now: int, failedAt: int, lock: L.Lock, checks: seq<int>, t: int)
    requires L.Inv(p, Idle(p, now, lock, checks), t, 1) && !L.IsLocked(lock.until, now) && now <= failedAt
    requires L.TimeOk(p, now) && L.TimeOk(p, failedAt) && lock.failures == |checks|
    ensures L.Inv(p, Idle(p, failedAt, L.RecordFailure(p, lock, failedAt), checks + [now]), t, 1)
  {
    var id := |checks|;
    var w := CheckKeeps(p, now, failedAt, lock, checks, t);
    CheckAppended(p, checks, now);
    hide L.Inv, Numbered, BelowLimit, L.Apply, L.IsLocked, L.TimeOk;
    if id + 1 < p.maxFailures {
      var w' := FailBelow(p, w, id, t);
      assert w' == Idle(p, failedAt, L.RecordFailure(p, lock, failedAt), checks + [now]);
    } else {
      var w' := FailAtLimit(p, w, id, t);
      assert w' == Idle(p, failedAt, L.RecordFailure(p, lock, failedAt), checks + [now]);
    }
  }

  lemma ClearKeepsIdle(p: L.Policy, clock: int, to: int, lock: L.Lock, checks: seq<int>, t: int)
    requires L.Inv(p, Idle(p, clock, lock, checks), t, 1) && L.TimeOk(p, to)
    ensures L.Inv(p, Idle(p, to, L.CLEAR, []), t, 1)
  {
    FreshIdle(p, to, t);
  }

  lemma FreshIdle(p: L.Policy, clock: int, t: int)
    requires p.Valid() && p.lockoutMs >= 1 && L.TimeOk(p, clock)
    ensures L.Inv(p, Idle(p, clock, L.CLEAR, []), t, 1)
  {
    L.InitialInv(p, clock, t, 1);
    assert Idle(p, clock, L.CLEAR, []) == L.Initial(clock);
  }

  /** What a step does to the lock of an account and to its checks: nothing, a clear, or a
      wrong password that the lock did not turn away. */
  lemma AccountEffect(cfg: Config, w: World, step: Step, e: string)
    requires e in w.store.accounts && Apply(cfg, w, step) != w
    ensures var w', a := Apply(cfg, w, step), w.store.accounts[e];
            && e in w'.store.accounts && w.clock <= w'.clock && L.TimeOk(cfg.policy, w'.clock)
            && var lock', checks' := w'.store.accounts[e].lock, Checks(w', e);
               (lock' == a.lock && checks' == Checks(w, e))
               || (lock' == L.CLEAR && checks' == [])
               || (step.SignIn? && w.clock <= step.q.now <= step.q.failedAt == w'.clock
                   && !L.IsLocked(a.lock.until, step.q.now)
                   && lock' == L.RecordFailure(cfg.policy, a.lock, step.q.failedAt)
                   && checks' == Checks(w, e) + [step.q.now])
  {
    hide R.Revoke, R.Issue, R.ExpiresAt, WithoutSessionsOf, L.RecordFailure;
  }

  lemma StepKeepsLock(cfg: Config, w: World, step: Step, e: string, t: int)
    requires e in w.store.accounts && LockOk(cfg, w, e, t) && L.TimeOk(cfg.policy, w.clock)
    ensures LockOk(cfg, Apply(cfg, w, step), e, t)
  {
    var w', p := Apply(cfg, w, step), cfg.policy;
    if w' != w {
      AccountEffect(cfg, w, step, e);
      hide Apply, L.Inv, Idle, L.TimeOk, L.IsLocked;
      var lock, checks := w.store.accounts[e].lock, Checks(w, e);
      var lock', checks' := w'.store.accounts[e].lock, Checks(w', e);
      if lock' == lock && checks' == checks {
        TickKeepsIdle(p, w.clock, w'.clock, lock, checks, t);
      } else if lock' == L.CLEAR && checks' == [] {
        ClearKeepsIdle(p, w.clock, w'.clock, lock, checks, t);
      } else {
        TimeBetween(p, w.clock, step.q.now, w'.clock);
        TickKeepsIdle(p, w.clock, step.q.now, lock, checks, t);
        WrongPasswordKeepsIdle(p, step.q.now, step.q.failedAt, lock, checks, t);
      }
    }
  }

  lemma TimeBetween(p: L.Policy, from: int, at: int, to: int)
    requires L.TimeOk(p, from) && from <= at <= to && L.TimeOk(p, to)
    ensures L.TimeOk(p, at)
  {
  }

  lemma {:induction false} RunKeepsLock(cfg: Config, w: World, steps: seq<Step>, e: string, t: int)
    requires e in w.store.accounts && LockOk(cfg, w, e, t) && L.TimeOk(cfg.policy, w.clock)
    ensures e in Exec(cfg, w, steps).store.accounts && LockOk(cfg, Exec(cfg, w, steps), e, t)
    decreases |steps|
  {
    if steps != [] {
      StepKeepsLock(cfg, w, steps[0], e, t);
      if Apply(cfg, w, steps[0]) != w {
        AccountEffect(cfg, w, steps[0], e);
      }
      hide Apply, LockOk;
      RunKeepsLock(cfg, Apply(cfg, w, steps[0]), steps[1..], e, t);
    }
  }

  lemma InitialLock(cfg: Config, clock: int, accounts: map<string, Account>, e: string, t: int)
    requires cfg.policy.Valid() && cfg.policy.lockoutMs >= 1 && Untouched(accounts) && InTime(cfg, clock, clock)
    requires e in accounts
    ensures LockOk(cfg, Initial(clock, accounts), e, t)
  {
    FreshIdle(cfg.policy, clock, t);
  }

  /** The bound for attempts one after another: at most max, and one more for each
      lockout waited out between the first check and the last. */
  ghost predicate WithinSerialBound(p: L.Policy, checks: seq<int>)
    requires p.lockoutMs >= 1
  {
    checks != [] ==> |checks| <= p.maxFailures + (checks[|checks| - 1] - checks[0]) / p.lockoutMs
  }

  lemma {:induction false} NumberedSize(checks: seq<int>)
    ensures |Numbered(checks)| == |checks|
  {
    if checks != [] {
      var front, n := checks[..|checks| - 1], |checks| - 1;
      NumberedSize(front);
      assert Numbered(checks).Keys == Numbered(front).Keys + {n};
      assert |Numbered(checks).Keys| == |Numbered(checks)| && |Numbered(front).Keys| == |Numbered(front)|;
    } else {
      assert Numbered(checks) == map[];
    }
  }

  lemma SpanOfSorted(p: L.Policy, clock: int, lock: L.Lock, checks: seq<int>)
    requires checks != [] && Sorted(checks)
    ensures L.Span(Idle(p, clock, lock, checks), checks[0], checks[|checks| - 1])
  {
  }

  lemma OnePerWindow(p: L.Policy, w: L.World, t: int)
    requires L.Inv(p, w, t, 1)
    ensures |L.InWindow(p, w, t)| <= 1 && L.Basic(p, w)
  {
    L.InvBoundsWindow(p, w, t, 1);
    assert L.Triangle(1) == 1 + L.Triangle(0);
  }

  lemma SerialWindows(p: L.Policy, w: L.World, lo: int, hi: int)
    requires (forall t :: L.Inv(p, w, t, 1)) && p.lockoutMs >= 1 && L.Span(w, lo, hi)
    ensures |w.checks| <= p.maxFailures + (hi - lo) / p.lockoutMs
  {
    hide L.Inv, L.Basic, L.Span, L.InWindow;
    forall t
      ensures |L.InWindow(p, w, t)| <= 1 && L.Basic(p, w)
    {
      OnePerWindow(p, w, t);
    }
    assert |L.InWindow(p, w, 0)| <= 1;
    L.BoundFromWindows(p, w, lo, hi, 1);
  }

  lemma LockBoundsChecks(p: L.Policy, clock: int, lock: L.Lock, checks: seq<int>)
    requires forall t :: L.Inv(p, Idle(p, clock, lock, checks), t, 1)
    requires Sorted(checks) && p.lockoutMs >= 1
    ensures WithinSerialBound(p, checks)
  {
    hide L.Inv;
    if checks != [] {
      NumberedSize(checks);
      SpanOfSorted(p, clock, lock, checks);
      hide Sorted, Numbered, L.Span;
      SerialWindows(p, Idle(p, clock, lock, checks), checks[0], checks[|checks| - 1]);
    }
  }

  /** Over every serial run of sign-ins and resets, the wrong passwords checked on an
      account since its last sign-in or reset number at most the limit, and one more for
      each full lockout between the first and the last of them. */
  lemma SignInChecksBounded(cfg: Config, clock: int, accounts: map<string, Account>, steps: seq<Step>, email: string)
    requires cfg.policy.Valid() && cfg.policy.lockoutMs >= 1
    requires Untouched(accounts) && InTime(cfg, clock, clock) && email in accounts
    ensures WithinSerialBound(cfg.policy, Checks(Exec(cfg, Initial(clock, accounts), steps), email))
  {
    var w := Exec(cfg, Initial(clock, accounts), steps);
    forall t
      ensures email in w.store.accounts && LockOk(cfg, w, email, t)
    {
      InitialLock(cfg, clock, accounts, email, t);
      RunKeepsLock(cfg, Initial(clock, accounts), steps, email, t);
    }
    assert LockOk(cfg, w, email, 0);
    hide Exec, L.Inv, Idle;
    forall t
      ensures L.Inv(cfg.policy, Idle(cfg.policy, w.clock, w.store.accounts[email].lock, Checks(w, email)), t, 1)
    {
      assert LockOk(cfg, w, email, t);
    }
    LockBoundsChecks(cfg.policy, w.clock, w.store.accounts[email].lock, Checks(w, email));
  }
}
