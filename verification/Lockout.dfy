/** Failed-login counting and lockout: `record_login_failure` and `clear_login_failures`
    of rust/genesis-auth/src/login.rs, `is_account_locked` of
    rust/genesis-core/src/auth/lockout.rs. An attempt with a wrong password reads the row,
    reads the clock and tests the lock, counts its failure, reads the clock again and
    writes the lock, each a step of its own that other attempts interleave. */
module Lockout {
  import opened Prelude

  /** `LOGIN_MAX_FAILURES` and `LOGIN_LOCKOUT_MS`. */
  datatype Policy = Policy(maxFailures: nat, lockoutMs: nat) {
    predicate Valid() {
      maxFailures >= 1
    }
  }

  /** `login_failure_count` and `login_locked_until` of one account. */
  datatype Lock = Lock(failures: nat, until: Option<int>)

  const CLEAR := Lock(0, None)

  predicate IsLocked(until: Option<int>, now: int) {
    until.Some? && now < until.value
  }

  function LockedUntil(p: Policy, reading: int): int {
    Saturate(reading + p.lockoutMs)
  }

  /** The first statement of `record_login_failure`. */
  function CountFailure(lock: Lock): Lock {
    lock.(failures := lock.failures + 1)
  }

  /** The second, reached only when the count it was given is the limit or more, with the
      clock as it was read before. */
  function WriteLock(p: Policy, lock: Lock, reading: int): Lock {
    lock.(until := Some(LockedUntil(p, reading)))
  }

  /** Both statements with nothing in between. */
  function RecordFailure(p: Policy, lock: Lock, now: int): Lock {
    var counted := CountFailure(lock);
    if counted.failures >= p.maxFailures then WriteLock(p, counted, now) else counted
  }

  // ----- Interleaved attempts on one account -----

  /** Where an attempt with a wrong password stands: it has read the row, passed the lock
      test, counted a failure at the limit, or read the clock for the lock it will write. */
  datatype Phase = Reading(until: Option<int>) | Checking | Locking | Writing(reading: int)

  /** `flight` holds the attempts under way. `checks` gives the time of each wrong-password
      check since the last clear, `free` those whose failure was counted below the limit. */
  datatype World = World(
    now: int, lock: Lock, next: nat, flight: map<nat, Phase>, checks: map<nat, int>, free: set<nat>)

  datatype Step =
    | Tick(to: int)
    | ReadRow
    | TestLock(id: nat)
    | Count(id: nat)
    | ReadClock(id: nat)
    | Write(id: nat)
    | Clear // a right password, or a completed password reset

  function Apply(p: Policy, w: World, step: Step): World {
    match step
    case Tick(to) => if to >= w.now then w.(now := to) else w
    case ReadRow => w.(next := w.next + 1, flight := w.flight[w.next := Reading(w.lock.until)])
    case TestLock(id) =>
      if id !in w.flight || !w.flight[id].Reading? then w
      else if IsLocked(w.flight[id].until, w.now) then w.(flight := w.flight - {id})
      else w.(flight := w.flight[id := Checking], checks := w.checks[id := w.now])
    case Count(id) =>
      if id !in w.flight || w.flight[id] != Checking then w
      else
        var lock := CountFailure(w.lock);
        if lock.failures >= p.maxFailures then w.(lock := lock, flight := w.flight[id := Locking])
        else w.(lock := lock, flight := w.flight - {id}, free := if id in w.checks then w.free + {id} else w.free)
    case ReadClock(id) =>
      if id !in w.flight || w.flight[id] != Locking then w
      else w.(flight := w.flight[id := Writing(w.now)])
    case Write(id) =>
      if id !in w.flight || !w.flight[id].Writing? then w
      else w.(lock := WriteLock(p, w.lock, w.flight[id].reading), flight := w.flight - {id})
    case Clear => w.(lock := CLEAR, checks := map[], free := {})
  }

  ghost function Exec(p: Policy, w: World, steps: seq<Step>): World
    decreases |steps|
  {
    if steps == [] then w else Exec(p, Apply(p, w, steps[0]), steps[1..])
  }

  function Initial(now: int): World {
    World(now, CLEAR, 0, map[], map[], {})
  }

  /** 64-bit time, with room for a lockout. */
  predicate TimeOk(p: Policy, now: int) {
    I64_MIN <= now && now + p.lockoutMs <= I64_MAX
  }

  /** A run that never leaves that time and has at most c wrong-password attempts under
      way at any moment. */
  ghost predicate Within(p: Policy, w: World, steps: seq<Step>, c: nat)
    decreases |steps|
  {
    TimeOk(p, w.now) && |w.flight| <= c && (steps != [] ==> Within(p, Apply(p, w, steps[0]), steps[1..], c))
  }

  // ----- What every run keeps -----

  ghost predicate Basic(p: Policy, w: World) {
    && p.Valid() && TimeOk(p, w.now)
    && (forall id :: id in w.flight || id in w.checks ==> id < w.next)
    && (forall id :: id in w.checks ==> w.checks[id] <= w.now)
    && (forall id :: id in w.flight && w.flight[id].Writing? ==> I64_MIN <= w.flight[id].reading <= w.now)
    && (forall id :: id in w.flight && id in w.checks ==>
          !w.flight[id].Reading? && id !in w.free
          && (w.flight[id].Writing? ==> w.checks[id] <= w.flight[id].reading))
    && (w.lock.until.Some? ==> w.lock.until.value <= w.now + p.lockoutMs)
    && w.free <= w.checks.Keys && |w.free| <= w.lock.failures && |w.free| <= p.maxFailures - 1
  }

  lemma CountKeepsBasic(p: Policy, w: World, id: nat)
    requires Basic(p, w)
    ensures Basic(p, Apply(p, w, Count(id)))
  {
  }

  lemma WriteKeepsBasic(p: Policy, w: World, id: nat)
    requires Basic(p, w)
    ensures Basic(p, Apply(p, w, Write(id)))
  {
  }

  lemma StepKeepsBasic(p: Policy, w: World, step: Step)
    requires Basic(p, w) && TimeOk(p, Apply(p, w, step).now)
    ensures Basic(p, Apply(p, w, step))
  {
    if step.Count? {
      CountKeepsBasic(p, w, step.id);
      hide Basic;
    } else if step.Write? {
      WriteKeepsBasic(p, w, step.id);
      hide Basic;
    }
  }

  // ----- One window of a lockout, from t on -----

  /** Checks of the window whose failure was, or will be, counted at the limit or more. */
  ghost function InWindow(p: Policy, w: World, t: int): set<nat> {
    set id | id in w.checks && id !in w.free && t <= w.checks[id] < t + p.lockoutMs
  }

  /** Those of them whose attempt is over. */
  ghost function Done(p: Policy, w: World, t: int): set<nat> {
    set id | id in InWindow(p, w, t) && id !in w.flight
  }

  /** Attempts that will write a lock which ends inside the window. */
  ghost function Old(w: World, t: int): set<nat> {
    set id | id in w.flight && w.flight[id].Writing? && w.flight[id].reading < t
  }

  /** Attempts whose row lets them pass the lock test inside the window. */
  ghost function MayPass(p: Policy, w: World, t: int): set<nat> {
    set id | id in w.flight && w.flight[id].Reading? && !IsLocked(w.flight[id].until, t + p.lockoutMs - 1)
  }

  /** 1 + 2 + ... + k. */
  function Triangle(k: int): nat
    decreases if k > 0 then k else 0
  {
    if k <= 0 then 0 else k + Triangle(k - 1)
  }

  /** While the row is unlocked for some moment of the window, the checks that are over came
      in earlier rounds, one round for each old write spent. While it is locked past the
      window, no more attempts than already may pass will pass. */
  ghost predicate WindowOk(p: Policy, w: World, t: int, c: nat) {
    if IsLocked(w.lock.until, t + p.lockoutMs - 1)
    then |InWindow(p, w, t)| + |MayPass(p, w, t)| <= Triangle(c - |Old(w, t)|)
    else |Done(p, w, t)| <= Triangle(c - |Old(w, t)| - 1)
  }

  ghost predicate Inv(p: Policy, w: World, t: int, c: nat) {
    Basic(p, w) && |w.flight| <= c && p.lockoutMs >= 1 && WindowOk(p, w, t, c)
  }

  lemma {:induction false} TriangleGrows(a: int, b: int)
    requires a <= b
    ensures Triangle(a) <= Triangle(b)
    decreases b - a
  {
    if a < b {
      TriangleGrows(a, b - 1);
    }
  }

  lemma SubsetSize<T>(a: set<T>, b: set<T>)
    requires a <= b
    ensures |a| <= |b|
  {
    assert b == a + (b - a);
  }

  lemma FlightSets(p: Policy, w: World, t: int)
    requires Basic(p, w)
    ensures var under := InWindow(p, w, t) - Done(p, w, t);
            && Done(p, w, t) <= InWindow(p, w, t)
            && under + MayPass(p, w, t) + Old(w, t) <= w.flight.Keys
            && under !! MayPass(p, w, t) && under + MayPass(p, w, t) !! Old(w, t)
  {
  }

  /** Old writers, attempts that may pass, and checks under way are different attempts. */
  lemma FlightHolds(p: Policy, w: World, t: int)
    requires Basic(p, w)
    ensures |InWindow(p, w, t)| + |MayPass(p, w, t)| + |Old(w, t)| <= |Done(p, w, t)| + |w.flight|
  {
    FlightSets(p, w, t);
    hide InWindow, Done, Old, MayPass, Basic;
    var all, done := InWindow(p, w, t), Done(p, w, t);
    var under := all - done;
    assert all == done + under;
    SubsetSize(under + MayPass(p, w, t) + Old(w, t), w.flight.Keys);
    assert |w.flight.Keys| == |w.flight|;
  }

  /** What keeps a window: the same lock and old writers, nothing more over while it is
      open, nothing more that may pass while it is closed. */
  lemma SameLockKeeps(p: Policy, w: World, w': World, t: int, c: nat)
    requires WindowOk(p, w, t, c) && w'.lock.until == w.lock.until && Old(w', t) == Old(w, t)
    requires if IsLocked(w.lock.until, t + p.lockoutMs - 1)
             then |InWindow(p, w', t)| + |MayPass(p, w', t)| <= |InWindow(p, w, t)| + |MayPass(p, w, t)|
             else Done(p, w', t) <= Done(p, w, t)
    ensures WindowOk(p, w', t, c)
  {
    hide InWindow, Done, Old, MayPass, Triangle, IsLocked;
    if Done(p, w', t) <= Done(p, w, t) {
      SubsetSize(Done(p, w', t), Done(p, w, t));
    }
  }

  lemma ReadRowKeeps(p: Policy, w: World, t: int, c: nat)
    requires Inv(p, w, t, c)
    ensures WindowOk(p, Apply(p, w, ReadRow), t, c)
  {
    var w' := Apply(p, w, ReadRow);
    assert InWindow(p, w', t) == InWindow(p, w, t);
    assert Done(p, w', t) == Done(p, w, t);
    assert Old(w', t) == Old(w, t);
    if IsLocked(w.lock.until, t + p.lockoutMs - 1) {
      assert MayPass(p, w', t) == MayPass(p, w, t);
    }
    hide InWindow, Done, Old, MayPass, WindowOk, Basic;
    SameLockKeeps(p, w, w', t, c);
  }

  lemma PassingSets(p: Policy, w: World, id: nat, t: int)
    requires Basic(p, w) && id in w.flight && w.flight[id].Reading? && !IsLocked(w.flight[id].until, w.now)
    ensures var w' := Apply(p, w, TestLock(id));
            && Old(w', t) == Old(w, t) && Done(p, w', t) == Done(p, w, t)
            && MayPass(p, w', t) == MayPass(p, w, t) - {id}
            && id !in InWindow(p, w, t)
            && (if t <= w.now < t + p.lockoutMs
                then id in MayPass(p, w, t) && InWindow(p, w', t) == InWindow(p, w, t) + {id}
                else InWindow(p, w', t) == InWindow(p, w, t))
  {
  }

  /** An attempt that passes the lock test was one that may pass, if the window is now. */
  lemma TestLockPasses(p: Policy, w: World, id: nat, t: int)
    requires Basic(p, w) && id in w.flight && w.flight[id].Reading? && !IsLocked(w.flight[id].until, w.now)
    ensures var w' := Apply(p, w, TestLock(id));
            && Old(w', t) == Old(w, t) && Done(p, w', t) == Done(p, w, t)
            && |InWindow(p, w', t)| + |MayPass(p, w', t)| <= |InWindow(p, w, t)| + |MayPass(p, w, t)|
  {
    PassingSets(p, w, id, t);
    hide InWindow, Done, Old, MayPass, Basic, Apply;
    SubsetSize(MayPass(p, w, t) - {id}, MayPass(p, w, t));
  }

  /** An attempt that leaves without having been checked. */
  lemma TestLockRefuses(p: Policy, w: World, id: nat, t: int, c: nat)
    requires Inv(p, w, t, c) && id in w.flight && w.flight[id].Reading? && IsLocked(w.flight[id].until, w.now)
    ensures var w' := Apply(p, w, TestLock(id));
            && Old(w', t) == Old(w, t) && Done(p, w', t) == Done(p, w, t)
            && InWindow(p, w', t) == InWindow(p, w, t) && MayPass(p, w', t) <= MayPass(p, w, t)
  {
    hide WindowOk;
  }

  lemma TestLockKeeps(p: Policy, w: World, id: nat, t: int, c: nat)
    requires Inv(p, w, t, c)
    ensures WindowOk(p, Apply(p, w, TestLock(id)), t, c)
  {
    var w' := Apply(p, w, TestLock(id));
    if id in w.flight && w.flight[id].Reading? {
      if IsLocked(w.flight[id].until, w.now) {
        TestLockRefuses(p, w, id, t, c);
      } else {
        TestLockPasses(p, w, id, t);
      }
      hide InWindow, Done, Old, MayPass, WindowOk, Basic;
      if MayPass(p, w', t) <= MayPass(p, w, t) {
        SubsetSize(MayPass(p, w', t), MayPass(p, w, t));
      }
      SameLockKeeps(p, w, w', t, c);
    }
  }

  lemma CountSets(p: Policy, w: World, id: nat, t: int)
    requires Basic(p, w) && id in w.flight && w.flight[id] == Checking
    ensures var w' := Apply(p, w, Count(id));
            && Old(w', t) == Old(w, t) && MayPass(p, w', t) == MayPass(p, w, t)
            && Done(p, w', t) == Done(p, w, t) && InWindow(p, w', t) <= InWindow(p, w, t)
  {
  }

  lemma CountKeeps(p: Policy, w: World, id: nat, t: int, c: nat)
    requires Inv(p, w, t, c)
    ensures WindowOk(p, Apply(p, w, Count(id)), t, c)
  {
    var w' := Apply(p, w, Count(id));
    if id in w.flight && w.flight[id] == Checking {
      CountSets(p, w, id, t);
      hide InWindow, Done, Old, MayPass, WindowOk, Basic;
      SubsetSize(InWindow(p, w', t), InWindow(p, w, t));
      SameLockKeeps(p, w, w', t, c);
    }
  }

  lemma ReadClockKeeps(p: Policy, w: World, id: nat, t: int, c: nat)
    requires Inv(p, w, t, c)
    ensures WindowOk(p, Apply(p, w, ReadClock(id)), t, c)
  {
    var w' := Apply(p, w, ReadClock(id));
    if id in w.flight && w.flight[id] == Locking {
      assert InWindow(p, w', t) == InWindow(p, w, t);
      assert MayPass(p, w', t) == MayPass(p, w, t);
      assert Done(p, w', t) == Done(p, w, t);
      if w.now < t {
        assert Done(p, w', t) == {};
      } else {
        assert Old(w', t) == Old(w, t);
      }
    }
  }

  lemma WriteSets(p: Policy, w: World, id: nat, t: int)
    requires Basic(p, w) && id in w.flight && w.flight[id].Writing?
    ensures var w' := Apply(p, w, Write(id));
            && InWindow(p, w', t) == InWindow(p, w, t) && MayPass(p, w', t) == MayPass(p, w, t)
            && Old(w', t) == Old(w, t) - {id}
            && (id in Old(w, t) <==> w.flight[id].reading < t)
            && (id in Old(w, t) ==> Done(p, w', t) == Done(p, w, t))
            && (id !in Old(w, t) ==> Old(w, t) <= w.flight.Keys - {id})
            && Done(p, w, t) <= InWindow(p, w, t)
  {
  }

  lemma WriteCounts(p: Policy, w: World, id: nat, t: int)
    requires Basic(p, w) && id in w.flight && w.flight[id].Writing?
    ensures var w' := Apply(p, w, Write(id));
            && |Done(p, w, t)| <= |InWindow(p, w, t)|
            && (if w.flight[id].reading < t
                then |Old(w', t)| == |Old(w, t)| - 1 && Done(p, w', t) == Done(p, w, t)
                else Old(w', t) == Old(w, t) && |Old(w, t)| < |w.flight|)
  {
    WriteSets(p, w, id, t);
    hide InWindow, Done, Old, MayPass, Basic, Apply;
    SubsetSize(Done(p, w, t), InWindow(p, w, t));
    if id !in Old(w, t) {
      SubsetSize(Old(w, t), w.flight.Keys - {id});
      assert |w.flight.Keys| == |w.flight|;
    }
  }

  lemma WriteTimes(p: Policy, w: World, id: nat, t: int)
    requires Basic(p, w) && p.lockoutMs >= 1 && id in w.flight && w.flight[id].Writing?
    ensures IsLocked(Apply(p, w, Write(id)).lock.until, t + p.lockoutMs - 1) <==> w.flight[id].reading >= t
  {
  }

  /** A write of a reading from before the window reopens it and uses up an old writer; any
      other write closes it, with at most one round more behind it. */
  lemma WriteKeeps(p: Policy, w: World, id: nat, t: int, c: nat)
    requires Inv(p, w, t, c)
    ensures WindowOk(p, Apply(p, w, Write(id)), t, c)
  {
    if id in w.flight && w.flight[id].Writing? {
      WriteSets(p, w, id, t);
      WriteCounts(p, w, id, t);
      WriteTimes(p, w, id, t);
      FlightHolds(p, w, t);
      TriangleGrows(c - |Old(w, t)| - 1, c - |Old(w, t)|);
      hide InWindow, Done, Old, MayPass, Basic, Apply, IsLocked;
    }
  }

  lemma ClearKeeps(p: Policy, w: World, t: int, c: nat)
    ensures WindowOk(p, Apply(p, w, Clear), t, c)
  {
    assert Done(p, Apply(p, w, Clear), t) == {};
  }

  lemma TickKeeps(p: Policy, w: World, to: int, t: int, c: nat)
    requires WindowOk(p, w, t, c)
    ensures WindowOk(p, Apply(p, w, Tick(to)), t, c)
  {
    var w' := Apply(p, w, Tick(to));
    assert InWindow(p, w', t) == InWindow(p, w, t) && Done(p, w', t) == Done(p, w, t);
    assert Old(w', t) == Old(w, t) && MayPass(p, w', t) == MayPass(p, w, t);
    hide InWindow, Done, Old, MayPass, WindowOk;
    SameLockKeeps(p, w, w', t, c);
  }

  lemma StepKeepsInv(p: Policy, w: World, step: Step, t: int, c: nat)
    requires Inv(p, w, t, c)
    requires TimeOk(p, Apply(p, w, step).now) && |Apply(p, w, step).flight| <= c
    ensures Inv(p, Apply(p, w, step), t, c)
  {
    hide WindowOk, Basic, Apply;
    StepKeepsBasic(p, w, step);
    match step
    case Tick(to) => TickKeeps(p, w, to, t, c);
    case ReadRow => ReadRowKeeps(p, w, t, c);
    case TestLock(id) => TestLockKeeps(p, w, id, t, c);
    case Count(id) => CountKeeps(p, w, id, t, c);
    case ReadClock(id) => ReadClockKeeps(p, w, id, t, c);
    case Write(id) => WriteKeeps(p, w, id, t, c);
    case Clear => ClearKeeps(p, w, t, c);
  }

  lemma {:induction false} RunKeepsInv(p: Policy, w: World, steps: seq<Step>, t: int, c: nat)
    requires Inv(p, w, t, c) && Within(p, w, steps, c)
    ensures Inv(p, Exec(p, w, steps), t, c)
    decreases |steps|
  {
    if steps != [] {
      StepKeepsInv(p, w, steps[0], t, c);
      RunKeepsInv(p, Apply(p, w, steps[0]), steps[1..], t, c);
    }
  }

  lemma InitialInv(p: Policy, now: int, t: int, c: nat)
    requires p.Valid() && p.lockoutMs >= 1 && TimeOk(p, now)
    ensures Inv(p, Initial(now), t, c)
  {
    assert Done(p, Initial(now), t) == {};
  }

  lemma InvBoundsWindow(p: Policy, w: World, t: int, c: nat)
    requires Inv(p, w, t, c)
    ensures |InWindow(p, w, t)| <= Triangle(c)
  {
    FlightHolds(p, w, t);
    var old_ := |Old(w, t)|;
    hide InWindow, Done, MayPass, Basic, IsLocked, Old;
    TriangleGrows(c - old_, c);
  }

  /** In every interleaving with at most c attempts under way at once, at most 1 + ... + c
      checks of any window of one lockout fail at the limit, wherever the window begins. */
  lemma WindowBound(p: Policy, now: int, steps: seq<Step>, t: int, c: nat)
    requires p.Valid() && p.lockoutMs >= 1 && Within(p, Initial(now), steps, c)
    ensures |InWindow(p, Exec(p, Initial(now), steps), t)| <= Triangle(c)
  {
    InitialInv(p, now, t, c);
    RunKeepsInv(p, Initial(now), steps, t, c);
    InvBoundsWindow(p, Exec(p, Initial(now), steps), t, c);
  }

  /** Limit checks of n windows in a row. */
  ghost function InWindows(p: Policy, w: World, t: int, n: nat): set<nat> {
    set id | id in w.checks && id !in w.free && t <= w.checks[id] < t + n * p.lockoutMs
  }

  lemma {:induction false} WindowsAdd(p: Policy, w: World, t: int, n: nat, bound: nat)
    requires forall from :: |InWindow(p, w, from)| <= bound
    ensures |InWindows(p, w, t, n)| <= n * bound
    decreases n
  {
    if n == 0 {
      assert InWindows(p, w, t, 0) == {};
    } else {
      WindowsAdd(p, w, t, n - 1, bound);
      SplitWindows(p, w, t, n);
      assert n * bound == (n - 1) * bound + bound;
    }
  }

  lemma SplitWindows(p: Policy, w: World, t: int, n: nat)
    requires n >= 1
    ensures |InWindows(p, w, t, n)| <= |InWindows(p, w, t, n - 1)| + |InWindow(p, w, t + (n - 1) * p.lockoutMs)|
  {
    var last := t + (n - 1) * p.lockoutMs;
    assert t + n * p.lockoutMs == last + p.lockoutMs;
    assert InWindows(p, w, t, n) <= InWindows(p, w, t, n - 1) + InWindow(p, w, last);
    SubsetSize(InWindows(p, w, t, n), InWindows(p, w, t, n - 1) + InWindow(p, w, last));
  }

  /** All checks of w lie between lo and hi. */
  ghost predicate Span(w: World, lo: int, hi: int) {
    lo <= hi && forall id :: id in w.checks ==> lo <= w.checks[id] <= hi
  }

  lemma SpanInWindows(p: Policy, w: World, lo: int, hi: int)
    requires Basic(p, w) && p.lockoutMs >= 1 && Span(w, lo, hi)
    ensures |w.checks| <= p.maxFailures - 1 + |InWindows(p, w, lo, 1 + (hi - lo) / p.lockoutMs)|
  {
    var n := 1 + (hi - lo) / p.lockoutMs;
    assert hi < lo + n * p.lockoutMs;
    assert w.checks.Keys == w.free + InWindows(p, w, lo, n);
    assert |w.checks.Keys| == |w.checks|;
  }

  lemma BoundFromWindows(p: Policy, w: World, lo: int, hi: int, bound: nat)
    requires Basic(p, w) && p.lockoutMs >= 1 && Span(w, lo, hi)
    requires forall from :: |InWindow(p, w, from)| <= bound
    ensures |w.checks| <= p.maxFailures - 1 + (1 + (hi - lo) / p.lockoutMs) * bound
  {
    SpanInWindows(p, w, lo, hi);
    WindowsAdd(p, w, lo, 1 + (hi - lo) / p.lockoutMs, bound);
  }

  /** In every interleaving of attempts on one account with at most c of them under way at
      once, the wrong-password checks since the last clear number at most
      max - 1 + (1 + ... + c) * (1 + span / lockout). The counter survives an expired lock,
      so a further lockout does not buy a fresh round; but a write that was held back can
      shorten a newer lock, once for every attempt under way. */
  lemma ChecksBounded(p: Policy, now: int, steps: seq<Step>, c: nat, lo: int, hi: int)
    requires p.Valid() && p.lockoutMs >= 1 && Within(p, Initial(now), steps, c)
    requires Span(Exec(p, Initial(now), steps), lo, hi)
    ensures |Exec(p, Initial(now), steps).checks| <= p.maxFailures - 1 + (1 + (hi - lo) / p.lockoutMs) * Triangle(c)
  {
    forall from
      ensures |InWindow(p, Exec(p, Initial(now), steps), from)| <= Triangle(c)
    {
      WindowBound(p, now, steps, from, c);
    }
    InitialInv(p, now, 0, c);
    RunKeepsInv(p, Initial(now), steps, 0, c);
    BoundFromWindows(p, Exec(p, Initial(now), steps), lo, hi, Triangle(c));
  }

  /** Attempts one after another: the limit, and one more for each full lockout. */
  lemma SerialBound(p: Policy, now: int, steps: seq<Step>, lo: int, hi: int)
    requires p.Valid() && p.lockoutMs >= 1 && Within(p, Initial(now), steps, 1)
    requires Span(Exec(p, Initial(now), steps), lo, hi)
    ensures |Exec(p, Initial(now), steps).checks| <= p.maxFailures + (hi - lo) / p.lockoutMs
  {
    ChecksBounded(p, now, steps, 1, lo, hi);
    assert Triangle(1) == 1;
  }
}
