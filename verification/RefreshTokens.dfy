/** Refresh tokens at rest: rust/genesis-auth/src/refresh.rs. Rows of
    `jwt_refresh_tokens` change by issue, rotate and revoke, each one atomic step; login
    and manager entry revoke and then issue, as two steps
    (rust/genesis-auth/src/login.rs, rust/genesis-api/src/gerente.rs). */
module RefreshTokens {
  import opened Prelude
  import opened Text

  /** SHA-256 of a raw token, taken to be injective. */
  datatype Hash = Sha256(raw: string)

  datatype Row = Row(user: int, hash: Hash, family: string, expiresAt: int, createdAt: int, revokedAt: Option<int>)

  datatype Table = Table(rows: map<nat, Row>, nextId: nat)

  datatype RotateError = TokenRequired | InvalidOrRevoked | Expired | Transport

  datatype Rotated = Rotated(user: int, token: string)

  const U64_MAX: int := 0xFFFF_FFFF_FFFF_FFFF

  /** `refresh_expires_at_ms`; no value when the time to live does not fit 64 bits. */
  function ExpiresAt(clock: int, ttlSec: nat): Option<int> {
    var ttlMs := if ttlSec * 1000 > U64_MAX then U64_MAX else ttlSec * 1000;
    if ttlMs > I64_MAX then None else Some(Saturate(clock + ttlMs))
  }

  function Insert(t: Table, row: Row): Table {
    Table(t.rows[t.nextId := row], t.nextId + 1)
  }

  function Delete(t: Table, id: nat): Table {
    t.(rows := t.rows - {id})
  }

  predicate LiveMatch(t: Table, id: nat, hash: Hash) {
    id in t.rows && t.rows[id].hash == hash && t.rows[id].revokedAt == None
  }

  /** The row `WHERE token_hash = $1 AND revoked_at IS NULL LIMIT 1` picks. */
  function FindLive(t: Table, hash: Hash, from: nat): (r: Option<nat>)
    ensures r.Some? ==> LiveMatch(t, r.value, hash) && from <= r.value < t.nextId
    ensures r.None? ==> forall id :: from <= id < t.nextId ==> !LiveMatch(t, id, hash)
    decreases t.nextId - from
  {
    if from >= t.nextId then None
    else if LiveMatch(t, from, hash) then Some(from)
    else FindLive(t, hash, from + 1)
  }

  function Issue(t: Table, user: int, raw: string, family: string, expiresAt: int, now: int): Table {
    Insert(t, Row(user, Sha256(raw), family, expiresAt, now, None))
  }

  /** `run_refresh_rotate`; `clock` is its first reading of the time, `now` its second. */
  function Rotate(t: Table, ttlSec: nat, text: string, next: string, clock: int, now: int): (Table,
          Result<Rotated, RotateError>) {
    var used := Trim(text);
    if used == [] then (t, Err(TokenRequired))
    else
      match ExpiresAt(clock, ttlSec)
      case None => (t, Err(Transport))
      case Some(expiresAt) =>
        match FindLive(t, Sha256(used), 0)
        case None => (t, Err(InvalidOrRevoked))
        case Some(id) =>
          var row := t.rows[id];
          if row.expiresAt < now then (t, Err(Expired))
          else (Insert(Delete(t, id), Row(row.user, Sha256(next), row.family, expiresAt, now, None)),
                Ok(Rotated(row.user, next)))
  }

  function Revoke(t: Table, user: int, now: int): Table {
    t.(rows := map id | id in t.rows ::
         if t.rows[id].user == user && t.rows[id].revokedAt == None
         then t.rows[id].(revokedAt := Some(now)) else t.rows[id])
  }

  // ----- The store -----

  class RefreshStore {
    const ttlSec: nat
    var rows: map<nat, Row>
    var nextId: nat

    constructor (ttlSec: nat)
      ensures this.ttlSec == ttlSec && Contents() == Table(map[], 0)
    {
      this.ttlSec, rows, nextId := ttlSec, map[], 0;
    }

    function Contents(): Table
      reads this
    {
      Table(rows, nextId)
    }

    /** `run_refresh_issue`, given the random token and family and two clock readings. */
    method RunIssue(user: int, raw: string, family: string, clock: int, now: int) returns (r: Option<string>)
      modifies this
      ensures ExpiresAt(clock, ttlSec).None? ==> r == None && Contents() == old(Contents())
      ensures ExpiresAt(clock, ttlSec).Some? ==>
                r == Some(raw) && Contents() == Issue(old(Contents()), user, raw, family, ExpiresAt(clock,
                    ttlSec).value, now)
    {
      var expiresAt := ExpiresAt(clock, ttlSec);
      if expiresAt.None? {
        return None;
      }
      rows := rows[nextId := Row(user, Sha256(raw), family, expiresAt.value, now, None)];
      nextId := nextId + 1;
      r := Some(raw);
    }

    method RunRotate(text: string, next: string, clock: int, now: int) returns (r: Result<Rotated, RotateError>)
      modifies this
      ensures (Contents(), r) == Rotate(old(Contents()), ttlSec, text, next, clock, now)
    {
      hide Trim, ExpiresAt;
      var used := Trim(text);
      if used == [] {
        return Err(TokenRequired);
      }
      var expiresAt := ExpiresAt(clock, ttlSec);
      if expiresAt.None? {
        return Err(Transport);
      }
      var id := 0;
      while id < nextId && !LiveMatch(Contents(), id, Sha256(used))
        invariant id <= nextId
        invariant FindLive(Contents(), Sha256(used), 0) == FindLive(Contents(), Sha256(used), id)
      {
        id := id + 1;
      }
      if id == nextId {
        return Err(InvalidOrRevoked);
      }
      var row := rows[id];
      if row.expiresAt < now {
        return Err(Expired);
      }
      rows := rows - {id};
      rows := rows[nextId := Row(row.user, Sha256(next), row.family, expiresAt.value, now, None)];
      nextId := nextId + 1;
      r := Ok(Rotated(row.user, next));
    }

    method RunRevoke(user: int, now: int)
      modifies this
      ensures Contents() == Revoke(old(Contents()), user, now)
    {
      rows := map id | id in rows ::
        if rows[id].user == user && rows[id].revokedAt == None
        then rows[id].(revokedAt := Some(now)) else rows[id];
    }
  }

  // ----- Runs -----

  datatype Event =
    | Issued(user: int, family: string, token: string, at: int, expires: int)
    | Accepted(user: int, family: string, used: string, token: string, at: int, expires: int)
    | Revoked(user: int)

  /** The table, every raw token and family generated so far, and the history of all
      steps that took effect. */
  datatype World = World(table: Table, tokens: set<string>, families: set<string>, log: seq<Event>)

  /** `clock` and `now` are the request's own readings, `clock` first. They are not tied
      to the readings of other requests, whose statements may overtake it. */
  datatype Step =
    | DoIssue(user: int, raw: string, family: string, clock: int, now: int)
    | DoRotate(text: string, next: string, clock: int, now: int)
    | DoRevoke(user: int, now: int)

  predicate GoodToken(raw: string) {
    raw != [] && IsTrimmed(raw)
  }

  predicate GoodClock(clock: int, now: int) {
    I64_MIN <= clock <= now <= I64_MAX
  }

  /** A step whose token or family is not fresh, or whose clock goes back, cannot happen
      and changes nothing. */
  function Apply(ttlSec: nat, w: World, step: Step): World {
    match step
    case DoIssue(user, raw, family, clock, now) =>
      if !GoodToken(raw) || raw in w.tokens || family in w.families || !GoodClock(clock, now) || ExpiresAt(clock,
          ttlSec).None? then w
      else World(Issue(w.table, user, raw, family, ExpiresAt(clock, ttlSec).value, now),
                 w.tokens + {raw}, w.families + {family}, w.log + [Issued(user, family, raw, now,
                     ExpiresAt(clock, ttlSec).value)])
    case DoRotate(text, next, clock, now) =>
      if !GoodToken(next) || next in w.tokens || !GoodClock(clock, now) then w
      else
        var (t, r) := Rotate(w.table, ttlSec, text, next, clock, now);
        if r.Err? then w.(table := t)
        else
          var row := w.table.rows[FindLive(w.table, Sha256(Trim(text)), 0).value];
          World(t, w.tokens + {r.value.token}, w.families,
                w.log + [Accepted(r.value.user, row.family, Trim(text), r.value.token, now,
                                  ExpiresAt(clock, ttlSec).value)])
    case DoRevoke(user, now) =>
      w.(table := Revoke(w.table, user, now), log := w.log + [Revoked(user)])
  }

  ghost function Exec(ttlSec: nat, w: World, steps: seq<Step>): World
    decreases |steps|
  {
    if steps == [] then w else Exec(ttlSec, Apply(ttlSec, w, steps[0]), steps[1..])
  }

  const EMPTY := World(Table(map[], 0), {}, {}, [])

  // ----- What the history says -----

  predicate OfFamily(e: Event, family: string) {
    !e.Revoked? && e.family == family
  }

  /** Index of the last event of a family. */
  ghost function Last(log: seq<Event>, family: string): (r: Option<nat>)
    ensures r.Some? ==> r.value < |log| && OfFamily(log[r.value], family)
    ensures r.Some? ==> forall i :: r.value < i < |log| ==> !OfFamily(log[i], family)
    ensures r.None? ==> forall i :: 0 <= i < |log| ==> !OfFamily(log[i], family)
  {
    if log == [] then None
    else if OfFamily(log[|log| - 1], family) then Some(|log| - 1)
    else Last(log[..|log| - 1], family)
  }

  ghost predicate RevokedAfter(log: seq<Event>, i: nat, user: int) {
    exists r :: i < r < |log| && log[r] == Revoked(user)
  }

  /** Event i fits the history before it: a family is issued once, each acceptance takes
      the token the family's previous event gave out, for the same user, within the time
      to live, and with no revoke for that user in between. */
  ghost predicate EventOk(log: seq<Event>, ttlSec: nat, i: nat)
    requires i < |log|
  {
    match log[i]
    case Issued(user, family, token, at, _) => Last(log[..i], family) == None
    case Accepted(user, family, used, token, at, _) =>
      (match Last(log[..i], family)
       case None => false
       case Some(p) =>
         && log[p].token == used && log[p].user == user
         && at <= log[p].expires && at <= log[p].at + ttlSec * 1000
         && !RevokedAfter(log[..i], p, user))
    case Revoked(_) => true
  }

  /** The row with this id carries the last token of its family and is live exactly when
      the user was not revoked since. */
  ghost predicate RowOk(w: World, ttlSec: nat, id: nat)
    requires id in w.table.rows
  {
    var row := w.table.rows[id];
    match Last(w.log, row.family)
    case None => false
    case Some(p) =>
      && row.hash == Sha256(w.log[p].token) && row.user == w.log[p].user
      && row.expiresAt == w.log[p].expires && row.expiresAt <= w.log[p].at + ttlSec * 1000
      && (row.revokedAt == None <==> !RevokedAfter(w.log, p, row.user))
  }

  ghost predicate TokensFresh(w: World) {
    && (forall i :: 0 <= i < |w.log| && !w.log[i].Revoked? ==> GoodToken(w.log[i].token) && w.log[i].token in w.tokens)
    && forall i, j :: 0 <= i < j < |w.log| && !w.log[i].Revoked? && !w.log[j].Revoked? ==>
        w.log[i].token != w.log[j].token
  }

  ghost predicate HistoryOk(w: World, ttlSec: nat) {
    TokensFresh(w) && forall i :: 0 <= i < |w.log| ==> EventOk(w.log, ttlSec, i)
  }

  ghost predicate RowsOk(w: World, ttlSec: nat) {
    forall id :: id in w.table.rows ==> id < w.table.nextId && RowOk(w, ttlSec, id)
  }

  ghost predicate HasRow(t: Table, family: string) {
    exists id :: id in t.rows && t.rows[id].family == family
  }

  /** Each family has exactly one stored row. */
  ghost predicate OneRowEach(w: World) {
    && (forall i, j :: i in w.table.rows && j in w.table.rows && i != j ==>
        w.table.rows[i].family != w.table.rows[j].family)
    && (forall f :: f in w.families <==> Last(w.log, f).Some?)
    && (forall f :: f in w.families ==> HasRow(w.table, f))
  }

  ghost predicate Inv(w: World, ttlSec: nat) {
    HistoryOk(w, ttlSec) && RowsOk(w, ttlSec) && OneRowEach(w)
  }

  // ----- The invariant holds in every run -----

  lemma LastAppended(log: seq<Event>, e: Event, family: string)
    ensures Last(log + [e], family) == if OfFamily(e, family) then Some(|log|) else Last(log, family)
  {
    assert (log + [e])[..|log|] == log;
  }

  lemma RevokedAppended(log: seq<Event>, e: Event, i: nat, user: int)
    requires i < |log|
    ensures RevokedAfter(log + [e], i, user) <==> RevokedAfter(log, i, user) || e == Revoked(user)
  {
    var log' := log + [e];
    if RevokedAfter(log, i, user) {
      var r :| i < r < |log| && log[r] == Revoked(user);
      assert log'[r] == Revoked(user);
    }
    if e == Revoked(user) {
      assert log'[|log|] == Revoked(user);
    }
  }

  lemma EventsAppended(log: seq<Event>, ttlSec: nat, e: Event)
    requires forall i :: 0 <= i < |log| ==> EventOk(log, ttlSec, i)
    ensures forall i :: 0 <= i < |log| ==> EventOk(log + [e], ttlSec, i)
  {
    forall i | 0 <= i < |log|
      ensures EventOk(log + [e], ttlSec, i)
    {
      assert (log + [e])[..i] == log[..i];
      assert EventOk(log, ttlSec, i);
    }
  }

  lemma ExpiryWithinTtl(clock: int, now: int, ttlSec: nat)
    requires GoodClock(clock, now) && ExpiresAt(clock, ttlSec).Some?
    ensures ExpiresAt(clock, ttlSec).value <= now + ttlSec * 1000
  {
  }

  /** A row of another family is as good after an event that is not its user's revoke. */
  lemma RowKept(w: World, w': World, e: Event, ttlSec: nat, id: nat)
    requires id in w.table.rows && RowOk(w, ttlSec, id)
    requires id in w'.table.rows && w'.table.rows[id] == w.table.rows[id] && w'.log == w.log + [e]
    requires !OfFamily(e, w.table.rows[id].family) && e != Revoked(w.table.rows[id].user)
    ensures RowOk(w', ttlSec, id)
  {
    var row := w.table.rows[id];
    LastAppended(w.log, e, row.family);
    RevokedAppended(w.log, e, Last(w.log, row.family).value, row.user);
  }

  /** The steps that add a token: `e` joins the history and row `n` the table, taking
      the place of the row its family had, if any. */
  ghost predicate TokenAdded(w: World, w': World, e: Event, n: nat, ttlSec: nat) {
    && !e.Revoked? && GoodToken(e.token) && e.token !in w.tokens
    && w'.log == w.log + [e] && w'.tokens == w.tokens + {e.token} && w'.families == w.families + {e.family}
    && EventOk(w'.log, ttlSec, |w.log|)
    && n == w.table.nextId && w'.table.nextId == n + 1 && n in w'.table.rows
    && (var row := w'.table.rows[n];
        && row.hash == Sha256(e.token) && row.user == e.user && row.family == e.family
        && row.expiresAt == e.expires && e.expires <= e.at + ttlSec * 1000 && row.revokedAt == None)
    && (forall id :: id != n ==> (id in w'.table.rows <==> id in w.table.rows && w.table.rows[id].family != e.family))
    && (forall id :: id != n && id in w'.table.rows ==> w'.table.rows[id] == w.table.rows[id])
  }

  lemma AddedKeepsHistory(w: World, w': World, e: Event, n: nat, ttlSec: nat)
    requires HistoryOk(w, ttlSec) && TokenAdded(w, w', e, n, ttlSec)
    ensures HistoryOk(w', ttlSec)
  {
    EventsAppended(w.log, ttlSec, e);
  }

  lemma AddedKeepsRows(w: World, w': World, e: Event, n: nat, ttlSec: nat)
    requires RowsOk(w, ttlSec) && TokenAdded(w, w', e, n, ttlSec)
    ensures RowsOk(w', ttlSec)
  {
    forall id | id in w'.table.rows
      ensures id < w'.table.nextId && RowOk(w', ttlSec, id)
    {
      if id == n {
        LastAppended(w.log, e, e.family);
      } else {
        RowKept(w, w', e, ttlSec, id);
      }
    }
  }

  lemma AddedKeepsOneRow(w: World, w': World, e: Event, n: nat, ttlSec: nat)
    requires RowsOk(w, ttlSec) && OneRowEach(w) && TokenAdded(w, w', e, n, ttlSec)
    ensures OneRowEach(w')
  {
    hide RowOk, EventOk, GoodToken, Last;
    forall f
      ensures f in w'.families <==> Last(w'.log, f).Some?
    {
      LastAppended(w.log, e, f);
    }
    forall f | f in w'.families
      ensures HasRow(w'.table, f)
    {
      if f == e.family {
        assert w'.table.rows[n].family == f;
      } else {
        var id :| id in w.table.rows && w.table.rows[id].family == f;
        assert id != n ==> id in w'.table.rows;
      }
    }
  }

  lemma AddedKeepsInv(w: World, w': World, e: Event, n: nat, ttlSec: nat)
    requires Inv(w, ttlSec) && TokenAdded(w, w', e, n, ttlSec)
    ensures Inv(w', ttlSec)
  {
    AddedKeepsHistory(w, w', e, n, ttlSec);
    AddedKeepsRows(w, w', e, n, ttlSec);
    AddedKeepsOneRow(w, w', e, n, ttlSec);
  }

  lemma IssueAdds(w: World, ttlSec: nat, step: Step)
    requires Inv(w, ttlSec) && step.DoIssue? && Apply(ttlSec, w, step) != w && ExpiresAt(step.clock, ttlSec).Some?
    ensures TokenAdded(w, Apply(ttlSec, w, step), Issued(step.user, step.family, step.raw, step.now,
        ExpiresAt(step.clock, ttlSec).value), w.table.nextId, ttlSec)
  {
    var w' := Apply(ttlSec, w, step);
    ExpiryWithinTtl(step.clock, step.now, ttlSec);
    assert w'.log[..|w.log|] == w.log;
    forall id | id in w.table.rows
      ensures w.table.rows[id].family != step.family
    {
      assert RowOk(w, ttlSec, id);
    }
  }

  /** The row a rotation finds belongs to the family whose last token was presented. */
  lemma FoundRowFits(w: World, ttlSec: nat, id: nat, used: string, next: string, now: int, expires: int)
    requires RowsOk(w, ttlSec) && LiveMatch(w.table, id, Sha256(used)) && now <= w.table.rows[id].expiresAt
    ensures var row := w.table.rows[id];
            EventOk(w.log + [Accepted(row.user, row.family, used, next, now, expires)], ttlSec, |w.log|)
  {
    assert RowOk(w, ttlSec, id);
    var row := w.table.rows[id];
    assert (w.log + [Accepted(row.user, row.family, used, next, now, expires)])[..|w.log|] == w.log;
  }

  lemma RotateWrites(w: World, ttlSec: nat, step: Step, id: nat)
    requires step.DoRotate? && Apply(ttlSec, w, step).log != w.log
    requires FindLive(w.table, Sha256(Trim(step.text)), 0) == Some(id) && ExpiresAt(step.clock, ttlSec).Some?
    ensures GoodClock(step.clock, step.now) && GoodToken(step.next) && step.next !in w.tokens
    ensures id in w.table.rows && step.now <= w.table.rows[id].expiresAt
    ensures var row, expires := w.table.rows[id], ExpiresAt(step.clock, ttlSec).value;
            Apply(ttlSec, w, step) ==
            World(Insert(Delete(w.table, id), Row(row.user, Sha256(step.next), row.family, expires, step.now, None)),
                  w.tokens + {step.next}, w.families,
                  w.log + [Accepted(row.user, row.family, Trim(step.text), step.next, step.now, expires)])
  {
    hide Trim, GoodToken, GoodClock, ExpiresAt;
  }

  /** A live row replaced by one of the same family, with the event for it. */
  lemma ReplaceAdds(w: World, w': World, e: Event, at: int, id: nat, ttlSec: nat)
    requires RowsOk(w, ttlSec) && OneRowEach(w) && id in w.table.rows
    requires e.Accepted? && GoodToken(e.token) && e.token !in w.tokens && e.expires <= e.at + ttlSec * 1000
    requires e.user == w.table.rows[id].user && e.family == w.table.rows[id].family
    requires EventOk(w.log + [e], ttlSec, |w.log|)
    requires w'.log == w.log + [e] && w'.tokens == w.tokens + {e.token} && w'.families == w.families
    requires w'.table == Insert(Delete(w.table, id), Row(e.user, Sha256(e.token), e.family, e.expires, at, None))
    ensures TokenAdded(w, w', e, w.table.nextId, ttlSec)
  {
    hide EventOk, GoodToken, Last, RevokedAfter, HasRow;
    assert RowOk(w, ttlSec, id);
    assert e.family in w.families;
    hide RowOk;
    assert w'.families == w.families + {e.family};
  }

  lemma RotateAdds(w: World, w': World, ttlSec: nat, step: Step, id: nat)
    requires Inv(w, ttlSec) && step.DoRotate? && w' == Apply(ttlSec, w, step) && w'.log != w.log
    requires FindLive(w.table, Sha256(Trim(step.text)), 0) == Some(id) && ExpiresAt(step.clock, ttlSec).Some?
    ensures var row := w.table.rows[id];
            TokenAdded(w, w', Accepted(row.user, row.family, Trim(step.text), step.next, step.now,
                                       ExpiresAt(step.clock, ttlSec).value), w.table.nextId, ttlSec)
  {
    RotateWrites(w, ttlSec, step, id);
    var row := w.table.rows[id];
    ExpiryWithinTtl(step.clock, step.now, ttlSec);
    FoundRowFits(w, ttlSec, id, Trim(step.text), step.next, step.now, ExpiresAt(step.clock, ttlSec).value);
    hide Trim, ExpiresAt, EventOk, Apply, FindLive, GoodToken, GoodClock;
    hide TokenAdded, RowsOk, OneRowEach, Insert, Delete;
    ReplaceAdds(w, w', Accepted(row.user, row.family, Trim(step.text), step.next, step.now,
                                ExpiresAt(step.clock, ttlSec).value), step.now, id, ttlSec);
  }

  lemma RevokeKeepsRows(w: World, w': World, ttlSec: nat, user: int, now: int)
    requires RowsOk(w, ttlSec)
    requires w'.table == Revoke(w.table, user, now) && w'.log == w.log + [Revoked(user)]
    ensures RowsOk(w', ttlSec)
  {
    forall id | id in w'.table.rows
      ensures id < w'.table.nextId && RowOk(w', ttlSec, id)
    {
      assert RowOk(w, ttlSec, id);
      var row := w.table.rows[id];
      LastAppended(w.log, Revoked(user), row.family);
      RevokedAppended(w.log, Revoked(user), Last(w.log, row.family).value, row.user);
    }
  }

  lemma RevokeKeepsOneRow(w: World, w': World, user: int, now: int)
    requires OneRowEach(w)
    requires w'.table == Revoke(w.table, user, now) && w'.log == w.log + [Revoked(user)] && w'.families == w.families
    ensures OneRowEach(w')
  {
    forall f
      ensures Last(w'.log, f) == Last(w.log, f)
    {
      LastAppended(w.log, Revoked(user), f);
    }
    forall f | f in w'.families
      ensures HasRow(w'.table, f)
    {
      var id :| id in w.table.rows && w.table.rows[id].family == f;
      assert id in w'.table.rows;
    }
  }

  lemma StepKeepsInv(w: World, ttlSec: nat, step: Step)
    requires Inv(w, ttlSec)
    ensures Inv(Apply(ttlSec, w, step), ttlSec)
  {
    var w' := Apply(ttlSec, w, step);
    match step
    case DoIssue(user, raw, family, clock, now) =>
      if w' != w {
        IssueAdds(w, ttlSec, step);
        AddedKeepsInv(w, w', Issued(user, family, raw, now, ExpiresAt(clock, ttlSec).value), w.table.nextId, ttlSec);
      }
    case DoRotate(text, next, clock, now) =>
      if w'.log != w.log {
        var id := FindLive(w.table, Sha256(Trim(text)), 0).value;
        RotateAdds(w, w', ttlSec, step, id);
        var row := w.table.rows[id];
        AddedKeepsInv(w, w', Accepted(row.user, row.family, Trim(text), next, now, ExpiresAt(clock, ttlSec).value),
                      w.table.nextId, ttlSec);
      } else {
        RefusalChangesNothing(ttlSec, w, step);
      }
    case DoRevoke(user, now) =>
      EventsAppended(w.log, ttlSec, Revoked(user));
      RevokeKeepsRows(w, w', ttlSec, user, now);
      RevokeKeepsOneRow(w, w', user, now);
  }

  /** A rotation that is refused leaves the table as it was. */
  lemma RefusalChangesNothing(ttlSec: nat, w: World, step: Step)
    requires step.DoRotate?
    ensures Rotate(w.table, ttlSec, step.text, step.next, step.clock, step.now).1.Err?
            ==> Rotate(w.table, ttlSec, step.text, step.next, step.clock, step.now).0 == w.table
    ensures Apply(ttlSec, w, step).log == w.log ==> Apply(ttlSec, w, step) == w
  {
  }

  lemma {:induction false} RunKeepsInv(w: World, ttlSec: nat, steps: seq<Step>)
    requires Inv(w, ttlSec)
    ensures Inv(Exec(ttlSec, w, steps), ttlSec)
    decreases |steps|
  {
    if steps != [] {
      StepKeepsInv(w, ttlSec, steps[0]);
      RunKeepsInv(Apply(ttlSec, w, steps[0]), ttlSec, steps[1..]);
    }
  }

  // ----- Families -----

  lemma {:induction false} FamilyKeepsUser(log: seq<Event>, ttlSec: nat, i: nat, j: nat)
    requires forall k :: 0 <= k < |log| ==> EventOk(log, ttlSec, k)
    requires i <= j < |log| && !log[i].Revoked? && OfFamily(log[j], log[i].family)
    ensures log[j].user == log[i].user
  {
    if i < j {
      assert EventOk(log, ttlSec, j);
      var front := log[..j];
      assert front[i] == log[i];
      var p := Last(front, log[i].family).value;
      assert front[p] == log[p];
      FamilyKeepsUser(log, ttlSec, i, p);
    }
  }

  /** In every run each issued family has exactly one stored row, and it belongs to the
      user the family was issued to. */
  lemma OneRowPerFamily(ttlSec: nat, steps: seq<Step>, i: nat)
    requires i < |Exec(ttlSec, EMPTY, steps).log| && Exec(ttlSec, EMPTY, steps).log[i].Issued?
    ensures var w := Exec(ttlSec, EMPTY, steps);
            exists id :: id in w.table.rows && w.table.rows[id].family == w.log[i].family
                         && w.table.rows[id].user == w.log[i].user
                         && forall other :: other in w.table.rows && other != id ==>
                             w.table.rows[other].family != w.log[i].family
  {
    var w := Exec(ttlSec, EMPTY, steps);
    RunKeepsInv(EMPTY, ttlSec, steps);
    var f := w.log[i].family;
    assert f in w.families;
    var id :| id in w.table.rows && w.table.rows[id].family == f;
    assert RowOk(w, ttlSec, id);
    FamilyKeepsUser(w.log, ttlSec, i, Last(w.log, f).value);
  }

  /** Index p is the event of the family right before event j. */
  ghost predicate Precedes(log: seq<Event>, p: nat, j: nat) {
    p < j < |log| && !log[p].Revoked? && OfFamily(log[j], log[p].family)
    && forall k :: p < k < j ==> !OfFamily(log[k], log[p].family)
  }

  /** Every accepted rotation takes exactly the token its family's previous event gave
      out, at most the time to live later, with no revoke of the user in between. */
  lemma AcceptedChain(ttlSec: nat, steps: seq<Step>, j: nat) returns (p: nat)
    requires j < |Exec(ttlSec, EMPTY, steps).log| && Exec(ttlSec, EMPTY, steps).log[j].Accepted?
    ensures var log := Exec(ttlSec, EMPTY, steps).log;
            && Precedes(log, p, j)
            && log[p].token == log[j].used && log[p].user == log[j].user
            && log[j].at <= log[p].at + ttlSec * 1000
            && forall r :: p < r < j ==> log[r] != Revoked(log[j].user)
  {
    var log := Exec(ttlSec, EMPTY, steps).log;
    RunKeepsInv(EMPTY, ttlSec, steps);
    assert EventOk(log, ttlSec, j);
    var front := log[..j];
    p := Last(front, log[j].family).value;
    assert front[p] == log[p];
    forall k | p < k < j
      ensures !OfFamily(log[k], log[p].family) && log[k] != Revoked(log[j].user)
    {
      assert front[k] == log[k];
    }
  }

  /** No raw token is ever accepted twice. */
  lemma AcceptedOnce(ttlSec: nat, steps: seq<Step>, i: nat, j: nat)
    requires i < j < |Exec(ttlSec, EMPTY, steps).log|
    requires Exec(ttlSec, EMPTY, steps).log[i].Accepted? && Exec(ttlSec, EMPTY, steps).log[j].Accepted?
    ensures Exec(ttlSec, EMPTY, steps).log[i].used != Exec(ttlSec, EMPTY, steps).log[j].used
  {
    var log := Exec(ttlSec, EMPTY, steps).log;
    RunKeepsInv(EMPTY, ttlSec, steps);
    var p := AcceptedChain(ttlSec, steps, i);
    var q := AcceptedChain(ttlSec, steps, j);
    assert Precedes(log, p, i) && Precedes(log, q, j);
    assert p < i < j && (q < i || q >= i);
  }

  /** After a revoke of the user, no token of a family that existed before it is accepted. */
  lemma {:induction false} RevokeIsFinal(ttlSec: nat, steps: seq<Step>, i: nat, r: nat, j: nat)
    requires i < r < j < |Exec(ttlSec, EMPTY, steps).log|
    requires var log := Exec(ttlSec, EMPTY, steps).log; !log[i].Revoked? && log[r] == Revoked(log[i].user)
    ensures !OfFamily(Exec(ttlSec, EMPTY, steps).log[j], Exec(ttlSec, EMPTY, steps).log[i].family)
    decreases j
  {
    var log := Exec(ttlSec, EMPTY, steps).log;
    if OfFamily(log[j], log[i].family) {
      RunKeepsInv(EMPTY, ttlSec, steps);
      assert EventOk(log, ttlSec, j);
      assert log[..j][i] == log[i];
      FamilyKeepsUser(log, ttlSec, i, j);
      var p := AcceptedChain(ttlSec, steps, j);
      assert p > r;
      RevokeIsFinal(ttlSec, steps, i, r, p);
    }
  }

  /** Exactly which texts a rotation accepts, in every reachable world: those that trim
      to the last token of a family whose user was not revoked since, up to its expiry. */
  lemma AcceptedExactly(ttlSec: nat, steps: seq<Step>, text: string, next: string, clock: int, now: int)
    requires ExpiresAt(clock, ttlSec).Some?
    ensures var w := Exec(ttlSec, EMPTY, steps);
            Rotate(w.table, ttlSec, text, next, clock, now).1.Ok? <==>
              exists i :: 0 <= i < |w.log| && !w.log[i].Revoked? && w.log[i].token == Trim(text)
                          && Last(w.log, w.log[i].family) == Some(i) && !RevokedAfter(w.log, i, w.log[i].user)
                          && now <= w.log[i].expires
  {
    hide Trim, ExpiresAt, Exec, EventOk, Last, RevokedAfter;
    var w := Exec(ttlSec, EMPTY, steps);
    var found := FindLive(w.table, Sha256(Trim(text)), 0);
    RunKeepsInv(EMPTY, ttlSec, steps);
    if found.Some? {
      assert RowOk(w, ttlSec, found.value);
      assert w.log[Last(w.log, w.table.rows[found.value].family).value].token == Trim(text);
    }
    forall i | 0 <= i < |w.log| && !w.log[i].Revoked? && w.log[i].token == Trim(text)
               && Last(w.log, w.log[i].family) == Some(i) && !RevokedAfter(w.log, i, w.log[i].user)
      ensures found.Some? && w.table.rows[found.value].expiresAt == w.log[i].expires && Trim(text) != []
    {
      var id :| id in w.table.rows && w.table.rows[id].family == w.log[i].family;
      assert RowOk(w, ttlSec, id);
      assert LiveMatch(w.table, id, Sha256(Trim(text)));
      assert RowOk(w, ttlSec, found.value);
    }
  }

  // ----- What a call answers and writes -----

  /** An expiry is one time to live after the clock was read, cut off at the end of 64-bit
      time; a time to live that does not fit 64 bits in milliseconds gives none. */
  lemma ExpiresExactly(clock: int, ttlSec: nat)
    requires IsI64(clock)
    ensures ExpiresAt(clock, ttlSec).Some? <==> ttlSec * 1000 <= I64_MAX
    ensures ttlSec * 1000 <= I64_MAX ==>
              ExpiresAt(clock, ttlSec).value ==
              if clock + ttlSec * 1000 <= I64_MAX then clock + ttlSec * 1000 else I64_MAX
  {
  }

  /** A revoke stamps the user's rows that carry no stamp yet, and touches nothing else. */
  lemma RevokeStamps(t: Table, user: int, now: int)
    ensures var t' := Revoke(t, user, now);
            && t'.nextId == t.nextId && t'.rows.Keys == t.rows.Keys
            && forall id :: id in t.rows ==>
                 t'.rows[id] == t.rows[id].(revokedAt :=
                   if t.rows[id].user == user && t.rows[id].revokedAt == None then Some(now) else t.rows[id].revokedAt)
  {
  }

  /** An issue adds one live row at a fresh id and touches nothing else. */
  lemma IssueAddsRow(t: Table, user: int, raw: string, family: string, expiresAt: int, now: int)
    requires t.nextId !in t.rows
    ensures var t' := Issue(t, user, raw, family, expiresAt, now);
            && t'.nextId == t.nextId + 1 && t'.rows.Keys == t.rows.Keys + {t.nextId}
            && t'.rows[t.nextId] == Row(user, Sha256(raw), family, expiresAt, now, None)
            && forall id :: id in t.rows ==> t'.rows[id] == t.rows[id]
  {
  }

  /** An accepted rotation replaces the row of the token used by a live one of the same user
      and family, with the new token and a full time to live, and touches nothing else. */
  lemma RotateReplacesRow(t: Table, ttlSec: nat, text: string, next: string, clock: int, now: int) returns (id: nat)
    requires t.nextId !in t.rows && Rotate(t, ttlSec, text, next, clock, now).1.Ok? && IsI64(clock)
    ensures var (t', r) := Rotate(t, ttlSec, text, next, clock, now);
            && LiveMatch(t, id, Sha256(Trim(text))) && now <= t.rows[id].expiresAt
            && r.value == Rotated(t.rows[id].user, next)
            && t'.nextId == t.nextId + 1 && t'.rows.Keys == t.rows.Keys - {id} + {t.nextId}
            && t'.rows[t.nextId] ==
                 Row(t.rows[id].user, Sha256(next), t.rows[id].family,
                     if clock + ttlSec * 1000 <= I64_MAX then clock + ttlSec * 1000 else I64_MAX, now, None)
            && forall other :: other in t.rows && other != id ==> t'.rows[other] == t.rows[other]
  {
    ExpiresExactly(clock, ttlSec);
    hide Trim, ExpiresAt, FindLive, Rotate;
    id := RotateTable(t, ttlSec, text, next, clock, now);
    hide LiveMatch;
    var row := t.rows[id];
    ReplacedRows(t, id, Row(row.user, Sha256(next), row.family, ExpiresAt(clock, ttlSec).value, now, None));
    hide Insert, Delete;
  }

  lemma ReplacedRows(t: Table, id: nat, row: Row)
    requires t.nextId !in t.rows && id in t.rows
    ensures var t' := Insert(Delete(t, id), row);
            && t'.nextId == t.nextId + 1 && t'.rows.Keys == t.rows.Keys - {id} + {t.nextId} && t'.rows[t.nextId] == row
            && forall other :: other in t.rows && other != id ==> t'.rows[other] == t.rows[other]
  {
  }

  lemma RotateTable(t: Table, ttlSec: nat, text: string, next: string, clock: int, now: int) returns (id: nat)
    requires Rotate(t, ttlSec, text, next, clock, now).1.Ok?
    ensures ExpiresAt(clock, ttlSec).Some? && LiveMatch(t, id, Sha256(Trim(text))) && now <= t.rows[id].expiresAt
    ensures var row := t.rows[id];
            Rotate(t, ttlSec, text, next, clock, now) ==
            (Insert(Delete(t, id), Row(row.user, Sha256(next), row.family, ExpiresAt(clock, ttlSec).value, now, None)),
             Ok(Rotated(row.user, next)))
  {
    hide Trim, ExpiresAt;
    id := FindLive(t, Sha256(Trim(text)), 0).value;
    hide FindLive;
  }

  /** Why a rotation is refused, by what the table finds. */
  lemma RefusalsByRow(t: Table, ttlSec: nat, text: string, next: string, clock: int, now: int)
    ensures var r, found := Rotate(t, ttlSec, text, next, clock, now).1, FindLive(t, Sha256(Trim(text)), 0);
            && (r == Err(TokenRequired) <==> Trim(text) == [])
            && (r == Err(Transport) <==> Trim(text) != [] && ExpiresAt(clock, ttlSec).None?)
            && (r == Err(InvalidOrRevoked) <==> Trim(text) != [] && ExpiresAt(clock, ttlSec).Some? && found.None?)
            && (r == Err(Expired) <==>
                  Trim(text) != [] && ExpiresAt(clock, ttlSec).Some?
                  && found.Some? && t.rows[found.value].expiresAt < now)
  {
    hide Trim, ExpiresAt, FindLive;
  }

  ghost predicate Unexpired(log: seq<Event>, i: nat, token: string, now: int)
    requires i < |log|
  {
    Standing(log, i, token) && now <= log[i].expires
  }

  lemma FoundByStanding(w: World, ttlSec: nat, token: string, now: int)
    requires Inv(w, ttlSec)
    ensures var found := FindLive(w.table, Sha256(token), 0);
            && (found.None? <==> forall i :: 0 <= i < |w.log| ==> !Standing(w.log, i, token))
            && (found.Some? && w.table.rows[found.value].expiresAt < now <==>
                  exists i :: 0 <= i < |w.log| && Standing(w.log, i, token) && !Unexpired(w.log, i, token, now))
  {
    StandingExactly(w, ttlSec, token);
    hide Standing, Inv, FindLive;
    if i :| 0 <= i < |w.log| && Standing(w.log, i, token) {
      assert Unexpired(w.log, i, token, now) <==> now <= w.log[i].expires;
    }
  }

  /** Why a rotation is refused, in every reachable world: no token; a time to live that does
      not fit; a text that is not the last token of a family or whose user was revoked since;
      one that is, past its expiry. */
  lemma RotateRefusals(ttlSec: nat, steps: seq<Step>, text: string, next: string, clock: int, now: int)
    requires IsI64(clock)
    ensures var log := Exec(ttlSec, EMPTY, steps).log;
            var r := Rotate(Exec(ttlSec, EMPTY, steps).table, ttlSec, text, next, clock, now).1;
            && (r == Err(TokenRequired) <==> Blank(text))
            && (r == Err(Transport) <==> !Blank(text) && ttlSec * 1000 > I64_MAX)
            && (r == Err(Expired) <==>
                  !Blank(text) && ttlSec * 1000 <= I64_MAX
                  && exists i :: 0 <= i < |log| && Standing(log, i, Trim(text)) && !Unexpired(log, i, Trim(text), now))
            && (r == Err(InvalidOrRevoked) <==>
                  !Blank(text) && ttlSec * 1000 <= I64_MAX
                  && forall i :: 0 <= i < |log| ==> !Standing(log, i, Trim(text)))
  {
    var w := Exec(ttlSec, EMPTY, steps);
    RunKeepsInv(EMPTY, ttlSec, steps);
    ExpiresExactly(clock, ttlSec);
    TrimsBlank(text);
    hide Trim, Blank, Standing, Unexpired, ExpiresAt, Exec, Inv, Rotate, FindLive;
    FoundByStanding(w, ttlSec, Trim(text), now);
    RefusalsByRow(w.table, ttlSec, text, next, clock, now);
  }

  /** Event i gave out this token, is the last of its family, and no revoke of its user followed. */
  ghost predicate Standing(log: seq<Event>, i: nat, token: string)
    requires i < |log|
  {
    !log[i].Revoked? && log[i].token == token
    && Last(log, log[i].family) == Some(i) && !RevokedAfter(log, i, log[i].user)
  }

  /** The table finds a live row exactly for a standing token, with that event's user,
      family and expiry. */
  lemma StandingExactly(w: World, ttlSec: nat, token: string)
    requires Inv(w, ttlSec)
    ensures var found := FindLive(w.table, Sha256(token), 0);
            && (found.Some? <==> exists i :: 0 <= i < |w.log| && Standing(w.log, i, token))
            && (forall i :: 0 <= i < |w.log| && Standing(w.log, i, token) ==>
                  found.Some? && token != [] && IsTrimmed(token)
                  && var row := w.table.rows[found.value];
                     row.expiresAt == w.log[i].expires && row.user == w.log[i].user && row.family == w.log[i].family)
  {
    var found := FindLive(w.table, Sha256(token), 0);
    hide EventOk, IsTrimmed, Last, RevokedAfter;
    if found.Some? {
      assert RowOk(w, ttlSec, found.value);
      var row := w.table.rows[found.value];
      assert Standing(w.log, Last(w.log, row.family).value, token);
    }
    forall i | 0 <= i < |w.log| && Standing(w.log, i, token)
      ensures found.Some? && token != [] && IsTrimmed(token)
      ensures var row := w.table.rows[found.value];
              row.expiresAt == w.log[i].expires && row.user == w.log[i].user && row.family == w.log[i].family
    {
      var id :| id in w.table.rows && w.table.rows[id].family == w.log[i].family;
      assert RowOk(w, ttlSec, id);
      assert LiveMatch(w.table, id, Sha256(token));
      assert RowOk(w, ttlSec, found.value);
    }
  }

  /** What an accepted rotation hands out, in every reachable world: the user the family was
      issued to and the fresh token its `Accepted` event gives out. That very token is then
      accepted up to the new expiry and no longer. */
  lemma RotateHandsOut(ttlSec: nat, steps: seq<Step>, step: Step, next: string, clock: int, now: int)
    requires step.DoRotate? && ExpiresAt(clock, ttlSec).Some? && IsI64(step.clock)
    requires Apply(ttlSec, Exec(ttlSec, EMPTY, steps), step).log != Exec(ttlSec, EMPTY, steps).log
    ensures var w := Exec(ttlSec, EMPTY, steps);
            var (t, r) := Rotate(w.table, ttlSec, step.text, step.next, step.clock, step.now);
            var w' := Apply(ttlSec, w, step);
            && r.Ok? && |w'.log| == |w.log| + 1 && w'.table == t
            && var e := w'.log[|w.log|];
               && e.Accepted? && e.token == step.next && e.used == Trim(step.text)
               && r.value == Rotated(e.user, e.token)
               && (exists i :: 0 <= i < |w.log| && Standing(w.log, i, e.used) && w.log[i].user == e.user
                               && w.log[i].family == e.family)
               && e.expires == (if step.clock + ttlSec * 1000 <= I64_MAX then step.clock + ttlSec * 1000 else I64_MAX)
               && (Rotate(w'.table, ttlSec, r.value.token, next, clock, now).1.Ok? <==> now <= e.expires)
  {
    var w := Exec(ttlSec, EMPTY, steps);
    var w' := Apply(ttlSec, w, step);
    RunKeepsInv(EMPTY, ttlSec, steps);
    StepKeepsInv(w, ttlSec, step);
    RotateEvent(w, ttlSec, step);
    hide Apply, Exec, Inv, Standing, ExpiresAt, Rotate;
    var e := w'.log[|w.log|];
    StandingExactly(w, ttlSec, Trim(step.text));
    NewTokenStands(w, w', e);
    AcceptedUntilExpiry(w', ttlSec, |w.log|, next, clock, now);
  }

  /** The event an accepted rotation adds, from the answer and the row it found. */
  lemma RotateEvent(w: World, ttlSec: nat, step: Step)
    requires step.DoRotate? && IsI64(step.clock) && Apply(ttlSec, w, step).log != w.log
    ensures var (t, r) := Rotate(w.table, ttlSec, step.text, step.next, step.clock, step.now);
            var w', found := Apply(ttlSec, w, step), FindLive(w.table, Sha256(Trim(step.text)), 0);
            && r.Ok? && found.Some? && w'.table == t && |w'.log| == |w.log| + 1
            && var e := w'.log[|w.log|];
               && w'.log == w.log + [e]
               && e.Accepted? && e.token == step.next && e.used == Trim(step.text)
               && r.value == Rotated(e.user, e.token)
               && e.user == w.table.rows[found.value].user && e.family == w.table.rows[found.value].family
               && e.expires == (if step.clock + ttlSec * 1000 <= I64_MAX then step.clock + ttlSec * 1000 else I64_MAX)
  {
    ExpiresExactly(step.clock, ttlSec);
    hide Trim, GoodToken, ExpiresAt;
  }

  /** A standing token is accepted up to the expiry of its event and no longer. */
  lemma AcceptedUntilExpiry(w: World, ttlSec: nat, i: nat, next: string, clock: int, now: int)
    requires Inv(w, ttlSec) && i < |w.log| && !w.log[i].Revoked? && Standing(w.log, i, w.log[i].token)
    requires ExpiresAt(clock, ttlSec).Some?
    ensures Rotate(w.table, ttlSec, w.log[i].token, next, clock, now).1.Ok? <==> now <= w.log[i].expires
  {
    StandingExactly(w, ttlSec, w.log[i].token);
    hide Inv, Standing, ExpiresAt;
    assert Trim(w.log[i].token) == w.log[i].token;
    hide Trim;
  }

  lemma NewTokenStands(w: World, w': World, e: Event)
    requires w'.log == w.log + [e] && !e.Revoked?
    ensures Standing(w'.log, |w.log|, e.token)
  {
    LastAppended(w.log, e, e.family);
  }

  // ----- Live rows -----

  ghost function LiveOf(t: Table, user: int): set<nat> {
    set id | id in t.rows && t.rows[id].user == user && t.rows[id].revokedAt == None
  }

  predicate IssueTo(e: Event, user: int) {
    e.Issued? && e.user == user
  }

  /** Issues to the user since the user's last revoke. */
  ghost function IssuedSince(log: seq<Event>, user: int): nat {
    if log == [] then 0
    else
      var e, front := log[|log| - 1], log[..|log| - 1];
      if e == Revoked(user) then 0
      else IssuedSince(front, user) + if IssueTo(e, user) then 1 else 0
  }

  lemma LiveAfterInsert(t: Table, row: Row, user: int)
    requires t.nextId !in t.rows && row.revokedAt == None
    ensures |LiveOf(Insert(t, row), user)| == |LiveOf(t, user)| + if row.user == user then 1 else 0
  {
    assert LiveOf(Insert(t, row), user) == LiveOf(t, user) + if row.user == user then {t.nextId} else {};
  }

  lemma LiveAfterDelete(t: Table, id: nat, user: int)
    requires id in t.rows && t.rows[id].revokedAt == None
    ensures |LiveOf(Delete(t, id), user)| == |LiveOf(t, user)| - if t.rows[id].user == user then 1 else 0
  {
    if t.rows[id].user == user {
      assert id in LiveOf(t, user);
      assert LiveOf(Delete(t, id), user) == LiveOf(t, user) - {id};
    } else {
      assert LiveOf(Delete(t, id), user) == LiveOf(t, user);
    }
  }

  lemma IssuedAppended(log: seq<Event>, e: Event, user: int)
    ensures IssuedSince(log + [e], user)
         == if e == Revoked(user) then 0 else IssuedSince(log, user) + if IssueTo(e, user) then 1 else 0
  {
    assert (log + [e])[..|log|] == log;
  }

  /** A rotation replaces one live row by another of the same user. */
  lemma RotateKeepsLiveCount(t: Table, ttlSec: nat, text: string, next: string, clock: int, now: int, user: int)
    requires t.nextId !in t.rows && Rotate(t, ttlSec, text, next, clock, now).1.Ok?
    ensures |LiveOf(Rotate(t, ttlSec, text, next, clock, now).0, user)| == |LiveOf(t, user)|
  {
    var id := FindLive(t, Sha256(Trim(text)), 0).value;
    var row := t.rows[id];
    LiveAfterDelete(t, id, user);
    LiveAfterInsert(Delete(t, id), Row(row.user, Sha256(next), row.family, ExpiresAt(clock, ttlSec).value, now,
        None), user);
  }

  lemma StepKeepsLiveCount(w: World, ttlSec: nat, step: Step, user: int)
    requires w.table.nextId !in w.table.rows && |LiveOf(w.table, user)| == IssuedSince(w.log, user)
    ensures |LiveOf(Apply(ttlSec, w, step).table, user)| == IssuedSince(Apply(ttlSec, w, step).log, user)
  {
    var w' := Apply(ttlSec, w, step);
    if w'.log == w.log {
      RefusalsKeepWorld(ttlSec, w, step);
    } else {
      var e := w'.log[|w.log|];
      IssuedAppended(w.log, e, user);
      match step
      case DoIssue(u, raw, family, clock, now) =>
        LiveAfterInsert(w.table, Row(u, Sha256(raw), family, ExpiresAt(clock, ttlSec).value, now, None), user);
      case DoRotate(text, next, clock, now) =>
        RotateKeepsLiveCount(w.table, ttlSec, text, next, clock, now, user);
      case DoRevoke(u, _) =>
        assert LiveOf(w'.table, user) == if u == user then {} else LiveOf(w.table, user);
    }
  }

  lemma RefusalsKeepWorld(ttlSec: nat, w: World, step: Step)
    requires Apply(ttlSec, w, step).log == w.log
    ensures Apply(ttlSec, w, step) == w
  {
    if step.DoRotate? {
      RefusalChangesNothing(ttlSec, w, step);
    }
  }

  lemma {:induction false} RunKeepsLiveCount(w: World, ttlSec: nat, steps: seq<Step>, user: int)
    requires Inv(w, ttlSec) && |LiveOf(w.table, user)| == IssuedSince(w.log, user)
    ensures var w' := Exec(ttlSec, w, steps); |LiveOf(w'.table, user)| == IssuedSince(w'.log, user)
    decreases |steps|
  {
    if steps != [] {
      StepKeepsLiveCount(w, ttlSec, steps[0], user);
      StepKeepsInv(w, ttlSec, steps[0]);
      RunKeepsLiveCount(Apply(ttlSec, w, steps[0]), ttlSec, steps[1..], user);
    }
  }

  /** In every run, rotations interleaved at will, a user has exactly as many live rows
      as issues since the user's last revoke. */
  lemma LiveRowsExactly(ttlSec: nat, steps: seq<Step>, user: int)
    ensures var w := Exec(ttlSec, EMPTY, steps); |LiveOf(w.table, user)| == IssuedSince(w.log, user)
  {
    assert LiveOf(EMPTY.table, user) == {};
    RunKeepsLiveCount(EMPTY, ttlSec, steps, user);
  }

  /** Between any two issues to the user lies a revoke of the user. */
  ghost predicate IssuesApart(log: seq<Event>, user: int) {
    forall i, j :: 0 <= i < j < |log| && IssueTo(log[i], user) && IssueTo(log[j], user) ==>
                     exists r :: i < r < j && log[r] == Revoked(user)
  }

  lemma {:induction false} NoIssueSince(log: seq<Event>, user: int)
    ensures IssuedSince(log, user) >= 1 <==>
            exists i :: 0 <= i < |log| && IssueTo(log[i], user) && !RevokedAfter(log, i, user)
  {
    if log != [] {
      var e, front := log[|log| - 1], log[..|log| - 1];
      assert log == front + [e];
      NoIssueSince(front, user);
      forall i | 0 <= i < |front|
        ensures front[i] == log[i]
            && (RevokedAfter(log, i, user) <==> RevokedAfter(front, i, user) || e == Revoked(user))
      {
        RevokedAppended(front, e, i, user);
      }
      assert !RevokedAfter(log, |front|, user);
      if IssuedSince(front, user) >= 1 && e != Revoked(user) {
        var i :| 0 <= i < |front| && IssueTo(front[i], user) && !RevokedAfter(front, i, user);
        assert IssueTo(log[i], user) && !RevokedAfter(log, i, user);
      }
    }
  }

  lemma {:induction false} ApartMeansOne(log: seq<Event>, user: int, k: nat)
    requires k <= |log| && IssuesApart(log, user)
    ensures IssuedSince(log[..k], user) <= 1
  {
    if k > 0 {
      var front, e := log[..k - 1], log[k - 1];
      assert log[..k][..k - 1] == front;
      ApartMeansOne(log, user, k - 1);
      NoIssueSince(front, user);
      assert forall i :: 0 <= i < k - 1 ==> front[i] == log[i];
    }
  }

  /** At most one issue stands unrevoked at every moment exactly when a revoke lies
      between any two issues. */
  lemma IssuesApartExactly(log: seq<Event>, user: int)
    ensures IssuesApart(log, user) <==> forall k :: 0 <= k <= |log| ==> IssuedSince(log[..k], user) <= 1
  {
    if IssuesApart(log, user) {
      forall k | 0 <= k <= |log|
        ensures IssuedSince(log[..k], user) <= 1
      {
        ApartMeansOne(log, user, k);
      }
    } else {
      var i, j :| 0 <= i < j < |log| && IssueTo(log[i], user) && IssueTo(log[j], user)
                  && !exists r :: i < r < j && log[r] == Revoked(user);
      var front := log[..j];
      assert front[i] == log[i] && IssueTo(front[i], user);
      assert !RevokedAfter(front, i, user);
      NoIssueSince(front, user);
      assert log[..j + 1][..j] == front && log[..j + 1][j] == log[j];
      assert IssuedSince(log[..j + 1], user) >= 2;
    }
  }

  /** With a revoke between any two issues, a user never has two live rows. */
  lemma AtMostOneLive(ttlSec: nat, steps: seq<Step>, user: int)
    requires IssuesApart(Exec(ttlSec, EMPTY, steps).log, user)
    ensures |LiveOf(Exec(ttlSec, EMPTY, steps).table, user)| <= 1
  {
    var log := Exec(ttlSec, EMPTY, steps).log;
    LiveRowsExactly(ttlSec, steps, user);
    ApartMeansOne(log, user, |log|);
    assert log[..|log|] == log;
  }
}
