/** Revoke-then-issue spans: sign-in (rust/genesis-auth/src/login.rs), manager entry
    (rust/genesis-api/src/gerente.rs) and impersonation revoke a user's refresh tokens and
    then issue a new one, in two requests that anything may come between. */
module RefreshSpans {
  import opened Prelude
  import R = RefreshTokens

  /** The refresh tokens, and the spans that have revoked and not yet issued, by an id of
      their own, with the user each is for. */
  datatype World = World(store: R.World, open: map<nat, int>)

  datatype Step =
    | Begin(span: nat, user: int, now: int)
    | Finish(span: nat, raw: string, family: string, clock: int, now: int)
    | Abandon(span: nat)
    | Other(step: R.Step)

  /** Rotations and other revokes come in between as they like; issues belong to spans. A
      span that fails, or whose issue is refused, is over. */
  function Apply(ttlSec: nat, w: World, step: Step): World {
    match step
    case Begin(span, user, now) =>
      if span in w.open then w
      else World(R.Apply(ttlSec, w.store, R.DoRevoke(user, now)), w.open[span := user])
    case Finish(span, raw, family, clock, now) =>
      if span !in w.open then w
      else World(R.Apply(ttlSec, w.store, R.DoIssue(w.open[span], raw, family, clock, now)), w.open - {span})
    case Abandon(span) =>
      w.(open := w.open - {span})
    case Other(other) =>
      if other.DoIssue? then w else w.(store := R.Apply(ttlSec, w.store, other))
  }

  ghost function Exec(ttlSec: nat, w: World, steps: seq<Step>): World
    decreases |steps|
  {
    if steps == [] then w else Exec(ttlSec, Apply(ttlSec, w, steps[0]), steps[1..])
  }

  const EMPTY := World(R.EMPTY, map[])

  ghost predicate NoneOpen(w: World, user: int) {
    forall span :: span in w.open ==> w.open[span] != user
  }

  /** No span of the user begins while another of the user is open; spans of other users
      may overlap at will. */
  ghost predicate NoOverlapOf(ttlSec: nat, w: World, steps: seq<Step>, user: int)
    decreases |steps|
  {
    steps != [] ==>
      && (steps[0].Begin? && steps[0].user == user ==> NoneOpen(w, user))
      && NoOverlapOf(ttlSec, Apply(ttlSec, w, steps[0]), steps[1..], user)
  }

  /** What the refresh tokens keep in every run of spans. */
  ghost predicate StoreOk(w: World, ttlSec: nat, user: int) {
    R.Inv(w.store, ttlSec) && |R.LiveOf(w.store.table, user)| == R.IssuedSince(w.store.log, user)
  }

  lemma StepKeepsStore(w: World, ttlSec: nat, step: Step, user: int)
    requires StoreOk(w, ttlSec, user)
    ensures StoreOk(Apply(ttlSec, w, step), ttlSec, user)
  {
    var inner :=
      match step
      case Begin(_, u, now) => Some(R.DoRevoke(u, now))
      case Finish(span, raw, family, clock, now) =>
        if span in w.open then Some(R.DoIssue(w.open[span], raw, family, clock, now)) else None
      case Abandon(_) => None
      case Other(other) => Some(other);
    hide R.Inv, R.Apply, R.LiveOf, R.IssuedSince;
    if inner.Some? {
      AllocatedBelow(w.store, ttlSec);
      R.StepKeepsInv(w.store, ttlSec, inner.value);
      R.StepKeepsLiveCount(w.store, ttlSec, inner.value, user);
    }
  }

  lemma AllocatedBelow(s: R.World, ttlSec: nat)
    requires R.Inv(s, ttlSec)
    ensures s.table.nextId !in s.table.rows
  {
  }

  // ----- Spans of one user that never overlap -----

  ghost predicate SpansOk(w: World, user: int) {
    && (forall a, b :: a in w.open && b in w.open && w.open[a] == user && w.open[b] == user ==> a == b)
    && (!NoneOpen(w, user) ==> R.IssuedSince(w.store.log, user) == 0)
    && R.IssuedSince(w.store.log, user) <= 1
    && R.IssuesApart(w.store.log, user)
  }

  /** A new issue when none stands keeps issues apart. */
  lemma IssueKeepsApart(log: seq<R.Event>, e: R.Event, user: int)
    requires R.IssuesApart(log, user) && (R.IssueTo(e, user) ==> R.IssuedSince(log, user) == 0)
    ensures R.IssuesApart(log + [e], user)
  {
    R.NoIssueSince(log, user);
    var log' := log + [e];
    forall i, j | 0 <= i < j < |log'| && R.IssueTo(log'[i], user) && R.IssueTo(log'[j], user)
      ensures exists r :: i < r < j && log'[r] == R.Revoked(user)
    {
      assert log'[i] == log[i];
      if j < |log| {
        assert log'[j] == log[j];
        var r :| i < r < j && log[r] == R.Revoked(user);
        assert log'[r] == R.Revoked(user);
      } else {
        assert R.RevokedAfter(log, i, user);
        var r :| i < r < |log| && log[r] == R.Revoked(user);
        assert log'[r] == R.Revoked(user);
      }
    }
  }

  /** Each step adds at most one event to the history. */
  lemma StepLog(ttlSec: nat, s: R.World, step: R.Step) returns (e: Option<R.Event>)
    ensures R.Apply(ttlSec, s, step).log == if e.Some? then s.log + [e.value] else s.log
    ensures e.Some? && e.value.Issued? ==> step.DoIssue? && step.user == e.value.user
    ensures step.DoRevoke? ==> e == Some(R.Revoked(step.user))
  {
    var log' := R.Apply(ttlSec, s, step).log;
    e := if log' == s.log then None else Some(log'[|s.log|]);
  }

  lemma LogKeepsSpans(w: World, w': World, e: Option<R.Event>, user: int)
    requires SpansOk(w, user)
    requires w'.store.log == if e.Some? then w.store.log + [e.value] else w.store.log
    requires forall span :: span in w'.open && w'.open[span] == user ==> span in w.open && w.open[span] == user
    requires e.Some? && R.IssueTo(e.value, user) ==> !NoneOpen(w, user) && NoneOpen(w', user)
    ensures SpansOk(w', user)
  {
    if e.Some? {
      R.IssuedAppended(w.store.log, e.value, user);
      IssueKeepsApart(w.store.log, e.value, user);
    }
  }

  lemma StepKeepsSpans(w: World, ttlSec: nat, step: Step, user: int)
    requires SpansOk(w, user)
    requires step.Begin? && step.user == user ==> NoneOpen(w, user)
    ensures SpansOk(Apply(ttlSec, w, step), user)
  {
    hide R.Apply, R.IssuesApart, R.IssuedSince;
    var w' := Apply(ttlSec, w, step);
    match step
    case Begin(span, u, now) =>
      if span !in w.open {
        var e := StepLog(ttlSec, w.store, R.DoRevoke(u, now));
        R.IssuedAppended(w.store.log, e.value, user);
        IssueKeepsApart(w.store.log, e.value, user);
      }
    case Finish(span, raw, family, clock, now) =>
      if span in w.open {
        var e := StepLog(ttlSec, w.store, R.DoIssue(w.open[span], raw, family, clock, now));
        LogKeepsSpans(w, w', e, user);
      }
    case Abandon(span) =>
      LogKeepsSpans(w, w', None, user);
    case Other(other) =>
      if !other.DoIssue? {
        var e := StepLog(ttlSec, w.store, other);
        LogKeepsSpans(w, w', e, user);
      }
  }

  lemma {:induction false} RunKeeps(w: World, ttlSec: nat, steps: seq<Step>, user: int)
    requires StoreOk(w, ttlSec, user)
    ensures StoreOk(Exec(ttlSec, w, steps), ttlSec, user)
    ensures SpansOk(w, user) && NoOverlapOf(ttlSec, w, steps, user) ==> SpansOk(Exec(ttlSec, w, steps), user)
    decreases |steps|
  {
    if steps != [] {
      StepKeepsStore(w, ttlSec, steps[0], user);
      if SpansOk(w, user) && NoOverlapOf(ttlSec, w, steps, user) {
        StepKeepsSpans(w, ttlSec, steps[0], user);
      }
      RunKeeps(Apply(ttlSec, w, steps[0]), ttlSec, steps[1..], user);
    }
  }

  lemma EmptyOk(ttlSec: nat, user: int)
    ensures StoreOk(EMPTY, ttlSec, user) && SpansOk(EMPTY, user)
  {
    assert R.LiveOf(R.EMPTY.table, user) == {};
  }

  /** When the spans of a user never overlap, every reachable state has at most one live
      row for the user and a revoke between any two issues, with rotations, other revokes
      and spans of other users interleaved at will. */
  lemma OneLiveWithoutOverlap(ttlSec: nat, steps: seq<Step>, user: int)
    requires NoOverlapOf(ttlSec, EMPTY, steps, user)
    ensures var w := Exec(ttlSec, EMPTY, steps);
            |R.LiveOf(w.store.table, user)| <= 1 && R.IssuesApart(w.store.log, user)
  {
    EmptyOk(ttlSec, user);
    RunKeeps(EMPTY, ttlSec, steps, user);
  }

  // ----- Two spans of one user open at once -----

  /** A token and family nobody generated before, with clock readings that give an expiry. */
  ghost predicate FreshIssue(ttlSec: nat, s: R.World, raw: string, family: string, clock: int, now: int) {
    R.GoodToken(raw) && raw !in s.tokens && family !in s.families
    && R.GoodClock(clock, now) && R.ExpiresAt(clock, ttlSec).Some?
  }

  /** A step that ends an open span of the user with an issue that cannot be refused. */
  ghost predicate CanFinish(ttlSec: nat, w: World, step: Step, user: int) {
    step.Finish? && step.span in w.open && w.open[step.span] == user
    && FreshIssue(ttlSec, w.store, step.raw, step.family, step.clock, step.now)
  }

  lemma FinishAddsLive(ttlSec: nat, w: World, step: Step, user: int)
    requires StoreOk(w, ttlSec, user) && CanFinish(ttlSec, w, step, user)
    ensures |R.LiveOf(Apply(ttlSec, w, step).store.table, user)| == |R.LiveOf(w.store.table, user)| + 1
  {
    var expires := R.ExpiresAt(step.clock, ttlSec).value;
    AllocatedBelow(w.store, ttlSec);
    R.LiveAfterInsert(w.store.table,
                      R.Row(user, R.Sha256(step.raw), step.family, expires, step.now, None), user);
  }

  lemma FinishLeavesOther(ttlSec: nat, w: World, a: Step, b: Step, user: int)
    requires CanFinish(ttlSec, w, a, user) && CanFinish(ttlSec, w, b, user)
    requires a.span != b.span && a.raw != b.raw && a.family != b.family
    ensures CanFinish(ttlSec, Apply(ttlSec, w, a), b, user)
  {
  }

  /** Without that, the promise is gone: from any reachable state in which two spans of a
      user are open, finishing both leaves the user two more live rows. */
  lemma OverlapLeavesTwo(ttlSec: nat, steps: seq<Step>, user: int, a: Step, b: Step)
    requires var w := Exec(ttlSec, EMPTY, steps); CanFinish(ttlSec, w, a, user) && CanFinish(ttlSec, w, b, user)
    requires a.span != b.span && a.raw != b.raw && a.family != b.family
    ensures var w := Exec(ttlSec, EMPTY, steps);
            |R.LiveOf(Apply(ttlSec, Apply(ttlSec, w, a), b).store.table, user)| == |R.LiveOf(w.store.table, user)| + 2
  {
    var w := Exec(ttlSec, EMPTY, steps);
    EmptyOk(ttlSec, user);
    RunKeeps(EMPTY, ttlSec, steps, user);
    FinishLeavesOther(ttlSec, w, a, b, user);
    hide StoreOk, Apply, Exec, CanFinish, R.LiveOf;
    FinishAddsLive(ttlSec, w, a, user);
    StepKeepsStore(w, ttlSec, a, user);
    FinishAddsLive(ttlSec, Apply(ttlSec, w, a), b, user);
  }

  /** Such a state is two steps away: two sign-ins of one user that both revoke before
      either issues. */
  lemma TwoSpansOpen(ttlSec: nat, user: int, now: int)
    ensures var steps := [Begin(0, user, now), Begin(1, user, now)];
            var w := Exec(ttlSec, EMPTY, steps);
            && 0 in w.open && w.open[0] == user && 1 in w.open && w.open[1] == user
            && w.store.tokens == {} && w.store.families == {}
            && !NoOverlapOf(ttlSec, EMPTY, steps, user)
  {
    var first, second := Begin(0, user, now), Begin(1, user, now);
    var w := Apply(ttlSec, EMPTY, first);
    assert [first, second][1..] == [second] && [second][1..] == [];
    assert Exec(ttlSec, w, [second]) == Exec(ttlSec, Apply(ttlSec, w, second), []);
    assert w.open[0] == user && !NoneOpen(w, user);
    assert !NoOverlapOf(ttlSec, w, [second], user);
  }
}
