/** The bound on wrong-password checks is met exactly, for every number of attempts under
    way and every number of lockouts waited out. */
module LockoutReached {
  import opened Division
  import opened Prelude
  import opened Lockout

  // ----- Runs from one world to another -----

  ghost predicate Leads(p: Policy, c: nat, w: World, w': World) {
    exists steps :: Within(p, w, steps, c) && Exec(p, w, steps) == w'
  }

  lemma LeadsStep(p: Policy, c: nat, w: World, step: Step)
    requires TimeOk(p, w.now) && |w.flight| <= c
    requires TimeOk(p, Apply(p, w, step).now) && |Apply(p, w, step).flight| <= c
    ensures Leads(p, c, w, Apply(p, w, step))
  {
    hide Apply, TimeOk;
    var w' := Apply(p, w, step);
    assert [step][1..] == [];
    assert Within(p, w', [], c) && Exec(p, w', []) == w';
    assert Within(p, w, [step], c) && Exec(p, w, [step]) == w';
  }

  lemma {:induction false} RunsJoin(p: Policy, c: nat, w: World, a: seq<Step>, b: seq<Step>)
    requires Within(p, w, a, c) && Within(p, Exec(p, w, a), b, c)
    ensures Within(p, w, a + b, c) && Exec(p, w, a + b) == Exec(p, Exec(p, w, a), b)
    decreases |a|
  {
    if a == [] {
      assert a + b == b;
    } else {
      assert (a + b)[0] == a[0] && (a + b)[1..] == a[1..] + b;
      RunsJoin(p, c, Apply(p, w, a[0]), a[1..], b);
      hide Apply;
    }
  }

  lemma LeadsOn(p: Policy, c: nat, w: World, w': World, w'': World)
    requires Leads(p, c, w, w') && Leads(p, c, w', w'')
    ensures Leads(p, c, w, w'')
  {
    var a :| Within(p, w, a, c) && Exec(p, w, a) == w';
    var b :| Within(p, w', b, c) && Exec(p, w', b) == w'';
    RunsJoin(p, c, w, a, b);
  }

  lemma LeadsSelf(p: Policy, c: nat, w: World)
    requires TimeOk(p, w.now) && |w.flight| <= c
    ensures Leads(p, c, w, w)
  {
    assert Within(p, w, [], c) && Exec(p, w, []) == w;
  }

  // ----- Stages of the run -----

  /** Attempts that read the clock at t and owe their write. */
  ghost function News(w: World, t: int): set<nat> {
    set id | id in w.flight && w.flight[id] == Writing(t)
  }

  /** At time t, s attempts hold a write that would end by now and j one of this moment;
      there were n checks, none before lo. */
  ghost predicate Stage(p: Policy, w: World, t: int, s: nat, j: nat, n: int, lo: int) {
    && w.now == t && TimeOk(p, t) && lo <= t
    && |w.flight| == s + j && |News(w, t)| == j
    && (forall id :: id in w.flight ==>
          id < w.next && w.flight[id].Writing? && I64_MIN <= w.flight[id].reading
          && (w.flight[id].reading == t || w.flight[id].reading + p.lockoutMs <= t))
    && (forall id :: id in w.checks ==> id < w.next && lo <= w.checks[id] <= t)
    && |w.checks| == n
  }

  ghost predicate Open(w: World) {
    !IsLocked(w.lock.until, w.now)
  }

  lemma SizeWith<T, U>(m: map<T, U>, k: T, v: U)
    ensures |m[k := v]| == if k in m then |m| else |m| + 1
    ensures |m - {k}| == if k in m then |m| - 1 else |m|
  {
    assert m[k := v].Keys == m.Keys + {k};
    assert |m[k := v].Keys| == |m[k := v]| && |m.Keys| == |m|;
    assert (m - {k}).Keys == m.Keys - {k} && |(m - {k}).Keys| == |m - {k}|;
  }

  /** An attempt that reads row and clock and passes the lock test. */
  lemma Enter(p: Policy, c: nat, w: World) returns (w': World)
    requires TimeOk(p, w.now) && |w.flight| < c && w.next !in w.flight && Open(w)
    ensures Leads(p, c, w, w')
    ensures w' == w.(next := w.next + 1, flight := w.flight[w.next := Checking], checks := w.checks[w.next := w.now])
  {
    var id := w.next;
    var w1 := Apply(p, w, ReadRow);
    w' := Apply(p, w1, TestLock(id));
    SizeWith(w.flight, id, Reading(w.lock.until));
    SizeWith(w1.flight, id, Checking);
    assert w1.flight[id := Checking] == w.flight[id := Checking];
    LeadsStep(p, c, w, ReadRow);
    LeadsStep(p, c, w1, TestLock(id));
    LeadsOn(p, c, w, w1, w');
  }

  lemma FailSteps(p: Policy, c: nat, w: World) returns (w': World)
    requires TimeOk(p, w.now) && |w.flight| < c && w.next !in w.flight && Open(w)
    requires w.lock.failures + 1 < p.maxFailures
    ensures Leads(p, c, w, w')
    ensures w' == w.(next := w.next + 1, checks := w.checks[w.next := w.now], lock := CountFailure(w.lock),
                     free := w.free + {w.next})
  {
    var id := w.next;
    var w1 := Enter(p, c, w);
    w' := Apply(p, w1, Count(id));
    assert w'.flight == w.flight;
    SizeWith(w.flight, id, Checking);
    LeadsStep(p, c, w1, Count(id));
    LeadsOn(p, c, w, w1, w');
  }

  lemma CheckAdded(checks: map<nat, int>, next: nat, t: int, lo: int)
    requires lo <= t && forall id :: id in checks ==> id < next && lo <= checks[id] <= t
    ensures var more := checks[next := t];
            |more| == |checks| + 1 && forall id :: id in more ==> id < next + 1 && lo <= more[id] <= t
  {
    SizeWith(checks, next, t);
  }

  lemma CheckedStage(p: Policy, w: World, w': World, t: int, s: nat, j: nat, n: int, lo: int)
    requires Stage(p, w, t, s, j, n, lo)
    requires w'.now == t && w'.flight == w.flight && w'.next == w.next + 1
    requires w'.checks == w.checks[w.next := t]
    ensures Stage(p, w', t, s, j, n + 1, lo)
  {
    CheckAdded(w.checks, w.next, t, lo);
    assert News(w', t) == News(w, t) by {
      hide TimeOk, Stage;
    }
    hide News, TimeOk;
  }

  /** One more attempt is checked, counts a failure below the limit, and is over. */
  lemma FailOne(p: Policy, c: nat, w: World, t: int, s: nat, j: nat, n: int, lo: int) returns (w': World)
    requires Stage(p, w, t, s, j, n, lo) && Open(w) && s + j < c && w.lock.failures + 1 < p.maxFailures
    ensures Leads(p, c, w, w') && Stage(p, w', t, s, j, n + 1, lo) && Open(w')
    ensures w'.lock.failures == w.lock.failures + 1
  {
    w' := FailSteps(p, c, w);
    CheckedStage(p, w, w', t, s, j, n, lo);
    hide Leads, Stage, TimeOk;
  }

  lemma HoldSteps(p: Policy, c: nat, w: World) returns (w': World)
    requires TimeOk(p, w.now) && |w.flight| < c && w.next !in w.flight && Open(w)
    requires w.lock.failures >= p.maxFailures - 1
    ensures Leads(p, c, w, w')
    ensures w' == w.(next := w.next + 1, flight := w.flight[w.next := Writing(w.now)],
                     checks := w.checks[w.next := w.now], lock := CountFailure(w.lock))
  {
    var id := w.next;
    var w1 := Enter(p, c, w);
    var w2 := Apply(p, w1, Count(id));
    w' := Apply(p, w2, ReadClock(id));
    assert w2.flight == w.flight[id := Locking];
    assert w'.flight == w.flight[id := Writing(w.now)];
    SizeWith(w.flight, id, Checking);
    SizeWith(w.flight, id, Locking);
    SizeWith(w.flight, id, Writing(w.now));
    LeadsStep(p, c, w1, Count(id));
    LeadsStep(p, c, w2, ReadClock(id));
    LeadsOn(p, c, w1, w2, w');
    LeadsOn(p, c, w, w1, w');
  }

  lemma HeldNews(w: World, w': World, t: int)
    requires w.next !in w.flight && w'.flight == w.flight[w.next := Writing(t)]
    ensures |News(w', t)| == |News(w, t)| + 1
  {
    assert News(w', t) == News(w, t) + {w.next};
  }

  lemma HeldFlight(p: Policy, w: World, w': World, t: int)
    requires w.next !in w.flight && I64_MIN <= t
    requires w'.flight == w.flight[w.next := Writing(t)] && w'.next == w.next + 1
    requires forall id :: id in w.flight ==>
               id < w.next && w.flight[id].Writing? && I64_MIN <= w.flight[id].reading
               && (w.flight[id].reading == t || w.flight[id].reading + p.lockoutMs <= t)
    ensures forall id :: id in w'.flight ==>
              id < w'.next && w'.flight[id].Writing? && I64_MIN <= w'.flight[id].reading
              && (w'.flight[id].reading == t || w'.flight[id].reading + p.lockoutMs <= t)
  {
  }

  lemma HeldStage(p: Policy, w: World, w': World, t: int, s: nat, j: nat, n: int, lo: int)
    requires Stage(p, w, t, s, j, n, lo)
    requires w' == w.(next := w.next + 1, flight := w.flight[w.next := Writing(t)],
                      checks := w.checks[w.next := t], lock := CountFailure(w.lock))
    ensures Stage(p, w', t, s, j + 1, n + 1, lo)
  {
    HeldNews(w, w', t);
    HeldFlight(p, w, w', t);
    SizeWith(w.flight, w.next, Writing(t));
    CheckAdded(w.checks, w.next, t, lo);
    hide News, TimeOk;
  }

  /** One more attempt is checked, fails at the limit, and holds its write. */
  lemma HoldOne(p: Policy, c: nat, w: World, t: int, s: nat, j: nat, n: int, lo: int) returns (w': World)
    requires Stage(p, w, t, s, j, n, lo) && Open(w) && s + j < c && w.lock.failures >= p.maxFailures - 1
    ensures Leads(p, c, w, w') && Stage(p, w', t, s, j + 1, n + 1, lo) && Open(w')
    ensures w'.lock.failures >= p.maxFailures - 1
  {
    w' := HoldSteps(p, c, w);
    HeldStage(p, w, w', t, s, j, n, lo);
    hide Leads, Stage;
  }

  /** An attempt of this moment writes its lock. */
  lemma WriteNew(p: Policy, c: nat, w: World, t: int, s: nat, j: nat, n: int, lo: int) returns (w': World)
    requires Stage(p, w, t, s, j, n, lo) && s + j <= c && j > 0
    ensures Leads(p, c, w, w') && Stage(p, w', t, s, j - 1, n, lo) && w'.lock.failures == w.lock.failures
  {
    var id :| id in News(w, t);
    w' := Apply(p, w, Write(id));
    SizeWith(w.flight, id, Checking);
    assert News(w', t) == News(w, t) - {id};
    LeadsStep(p, c, w, Write(id));
  }

  /** An attempt that held its write for a lockout makes it, and the row is unlocked. */
  lemma WriteOld(p: Policy, c: nat, w: World, t: int, s: nat, j: nat, n: int, lo: int) returns (w': World)
    requires Stage(p, w, t, s, j, n, lo) && s + j <= c && s > 0
    ensures Leads(p, c, w, w') && Stage(p, w', t, s - 1, j, n, lo) && Open(w') && w'.lock.failures == w.lock.failures
  {
    assert |w.flight.Keys| == |w.flight|;
    if w.flight.Keys <= News(w, t) {
      SubsetSize(w.flight.Keys, News(w, t));
    }
    var id :| id in w.flight && id !in News(w, t);
    w' := Apply(p, w, Write(id));
    SizeWith(w.flight, id, Checking);
    assert News(w', t) == News(w, t);
    LeadsStep(p, c, w, Write(id));
  }

  lemma {:induction false} HoldMany(p: Policy, c: nat, w: World, t: int, s: nat, j: nat, n: int, lo: int, more: nat)
    returns (w': World)
    requires Stage(p, w, t, s, j, n, lo) && Open(w) && s + j + more <= c && w.lock.failures >= p.maxFailures - 1
    ensures Leads(p, c, w, w') && Stage(p, w', t, s, j + more, n + more, lo) && Open(w')
    ensures w'.lock.failures >= p.maxFailures - 1
    decreases more
  {
    if more == 0 {
      LeadsSelf(p, c, w);
      w' := w;
    } else {
      var w1 := HoldOne(p, c, w, t, s, j, n, lo);
      w' := HoldMany(p, c, w1, t, s, j + 1, n + 1, lo, more - 1);
      LeadsOn(p, c, w, w1, w');
    }
  }

  lemma {:induction false} WriteMany(p: Policy, c: nat, w: World, t: int, s: nat, j: nat, n: int, lo: int)
    returns (w': World)
    requires Stage(p, w, t, s, j, n, lo) && s + j <= c
    ensures Leads(p, c, w, w') && Stage(p, w', t, s, 0, n, lo) && w'.lock.failures == w.lock.failures
    decreases j
  {
    if j == 0 {
      LeadsSelf(p, c, w);
      w' := w;
    } else {
      var w1 := WriteNew(p, c, w, t, s, j, n, lo);
      w' := WriteMany(p, c, w1, t, s, j - 1, n, lo);
      LeadsOn(p, c, w, w1, w');
    }
  }

  lemma {:induction false} FailMany(p: Policy, c: nat, w: World, t: int, s: nat, n: int, lo: int, more: nat)
    returns (w': World)
    requires Stage(p, w, t, s, 0, n, lo) && Open(w) && s < c && w.lock.failures + more <= p.maxFailures - 1
    ensures Leads(p, c, w, w') && Stage(p, w', t, s, 0, n + more, lo) && Open(w')
    ensures w'.lock.failures == w.lock.failures + more
    decreases more
  {
    if more == 0 {
      LeadsSelf(p, c, w);
      w' := w;
    } else {
      var w1 := FailOne(p, c, w, t, s, 0, n, lo);
      w' := FailMany(p, c, w1, t, s, n + 1, lo, more - 1);
      LeadsOn(p, c, w, w1, w');
    }
  }

  /** All rounds of one window: with s old writes left, c - s attempts are checked; they
      write, an old write unlocks the row, and the next round has one attempt more. The
      last round of c attempts keeps its writes for the next window. */
  lemma {:induction false} Rounds(p: Policy, c: nat, w: World, t: int, s: nat, n: int, lo: int) returns (w': World)
    requires Stage(p, w, t, s, 0, n, lo) && Open(w) && s <= c && w.lock.failures >= p.maxFailures - 1
    ensures Leads(p, c, w, w') && Open(w') && w'.lock.failures >= p.maxFailures - 1
    ensures Stage(p, w', t, 0, c, n + Triangle(c) - Triangle(c - s - 1), lo)
    decreases s
  {
    TriangleGrows(c - s - 1, c);
    var w1 := HoldMany(p, c, w, t, s, 0, n, lo, c - s);
    if s == 0 {
      w' := w1;
    } else {
      var w2 := WriteMany(p, c, w1, t, s, c - s, n + (c - s), lo);
      var w3 := WriteOld(p, c, w2, t, s, 0, n + (c - s), lo);
      w' := Rounds(p, c, w3, t, s - 1, n + (c - s), lo);
      LeadsOn(p, c, w, w1, w2);
      LeadsOn(p, c, w, w2, w3);
      LeadsOn(p, c, w, w3, w');
    }
  }

  /** A lockout later all held writes are old. */
  lemma WaitLockout(p: Policy, c: nat, w: World, t: int, n: int, lo: int) returns (w': World)
    requires Stage(p, w, t, 0, c, n, lo) && p.lockoutMs >= 1 && TimeOk(p, t + p.lockoutMs)
    ensures Leads(p, c, w, w') && Stage(p, w', t + p.lockoutMs, c, 0, n, lo) && w'.lock == w.lock
  {
    w' := Apply(p, w, Tick(t + p.lockoutMs));
    assert News(w', t + p.lockoutMs) == {};
    if exists id :: id in w.flight && id !in News(w, t) {
      var id :| id in w.flight && id !in News(w, t);
      assert News(w, t) <= w.flight.Keys - {id};
      SubsetSize(News(w, t), w.flight.Keys - {id});
      assert |w.flight.Keys| == |w.flight|;
    }
    LeadsStep(p, c, w, Tick(t + p.lockoutMs));
  }

  lemma OneMore(k: nat, x: nat)
    requires k >= 1
    ensures k * x == (k - 1) * x + x && (k - 1) * x >= 0
  {
  }

  lemma NextWindow(p: Policy, c: nat, w: World, t: int, n: int, lo: int) returns (w': World)
    requires c >= 1 && p.lockoutMs >= 1 && Stage(p, w, t, 0, c, n, lo)
    requires w.lock.failures >= p.maxFailures - 1 && TimeOk(p, t + p.lockoutMs)
    ensures Leads(p, c, w, w') && Stage(p, w', t + p.lockoutMs, 0, c, n + Triangle(c), lo)
    ensures w'.lock.failures >= p.maxFailures - 1
  {
    assert Triangle(0) == 0;
    hide Stage, Leads, Triangle;
    var t1 := t + p.lockoutMs;
    var w1 := WaitLockout(p, c, w, t, n, lo);
    var w2 := WriteOld(p, c, w1, t1, c, 0, n, lo);
    w' := Rounds(p, c, w2, t1, c - 1, n, lo);
    LeadsOn(p, c, w, w1, w2);
    LeadsOn(p, c, w, w2, w');
  }

  function Times(k: nat, x: int): int {
    k * x
  }

  lemma TimesStep(k: nat, x: int)
    ensures Times(0, x) == 0
    ensures k >= 1 && x >= 0 ==> Times(k, x) == Times(k - 1, x) + x && Times(k - 1, x) >= 0
  {
    if k >= 1 && x >= 0 {
      OneMore(k, x);
    }
  }

  lemma StageSelf(p: Policy, c: nat, w: World, t: int, n: int, lo: int)
    requires Stage(p, w, t, 0, c, n, lo)
    ensures Leads(p, c, w, w)
  {
    LeadsSelf(p, c, w);
  }

  /** One window after another. */
  lemma {:induction false} WindowsFrom(p: Policy, c: nat, w: World, t: int, n: int, lo: int, more: nat)
    returns (w': World)
    requires c >= 1 && p.lockoutMs >= 1 && Stage(p, w, t, 0, c, n, lo)
    requires w.lock.failures >= p.maxFailures - 1 && I64_MIN <= t && TimeOk(p, t + Times(more, p.lockoutMs))
    ensures Leads(p, c, w, w')
    ensures Stage(p, w', t + Times(more, p.lockoutMs), 0, c, n + Times(more, Triangle(c)), lo)
    decreases more
  {
    TimesStep(more, p.lockoutMs);
    TimesStep(more, Triangle(c));
    hide Stage, Leads, Triangle, Times;
    if more == 0 {
      StageSelf(p, c, w, t, n, lo);
      w' := w;
    } else {
      var w1 := NextWindow(p, c, w, t, n, lo);
      w' := WindowsFrom(p, c, w1, t + p.lockoutMs, n + Triangle(c), lo, more - 1);
      LeadsOn(p, c, w, w1, w');
    }
  }

  lemma Windows(p: Policy, c: nat, w: World, t: int, n: int, lo: int, more: nat) returns (w': World)
    requires c >= 1 && p.lockoutMs >= 1 && Stage(p, w, t, 0, c, n, lo)
    requires w.lock.failures >= p.maxFailures - 1 && I64_MIN <= t && TimeOk(p, t + more * p.lockoutMs)
    ensures Leads(p, c, w, w') && Stage(p, w', t + more * p.lockoutMs, 0, c, n + more * Triangle(c), lo)
  {
    hide Stage, Leads, Triangle;
    w' := WindowsFrom(p, c, w, t, n, lo, more);
  }

  /** A clear leaves the held writes of the round before it. */
  lemma ClearKeepsWrites(p: Policy, c: nat, w: World, t: int, n: int, lo: int, lo': int) returns (w': World)
    requires Stage(p, w, t, c, 0, n, lo) && lo' <= t
    ensures Leads(p, c, w, w') && Stage(p, w', t, c, 0, 0, lo') && w'.lock == CLEAR
  {
    w' := Apply(p, w, Clear);
    assert News(w', t) == News(w, t);
    LeadsStep(p, c, w, Clear);
  }

  lemma InitialStage(p: Policy)
    requires TimeOk(p, 0)
    ensures Stage(p, Initial(0), 0, 0, 0, 0, 0) && Open(Initial(0))
  {
    assert News(Initial(0), 0) == {};
  }

  /** A round cleared while c of its attempts hold their writes, a lockout ago. */
  lemma LeftOver(p: Policy, c: nat) returns (w': World)
    requires p.Valid() && p.lockoutMs >= 1 && c >= 1 && TimeOk(p, p.lockoutMs)
    ensures Leads(p, c, Initial(0), w') && w'.lock == CLEAR
    ensures Stage(p, w', p.lockoutMs, c, 0, 0, p.lockoutMs)
  {
    InitialStage(p);
    hide Stage, Leads, Open, TimeOk;
    var w0, max := Initial(0), p.maxFailures - 1;
    var w1 := FailMany(p, c, w0, 0, 0, 0, 0, max);
    var w2 := HoldMany(p, c, w1, 0, 0, 0, max, 0, c);
    var w3 := WaitLockout(p, c, w2, 0, max + c, 0);
    w' := ClearKeepsWrites(p, c, w3, p.lockoutMs, max + c, 0, p.lockoutMs);
    LeadsOn(p, c, w0, w1, w2);
    LeadsOn(p, c, w0, w2, w3);
    LeadsOn(p, c, w0, w3, w');
  }

  /** A fresh round, max - 1 failures into it, with c - 1 writes held from the round before. */
  lemma Opening(p: Policy, c: nat) returns (w': World)
    requires p.Valid() && p.lockoutMs >= 1 && c >= 1 && TimeOk(p, p.lockoutMs)
    ensures Leads(p, c, Initial(0), w') && Open(w') && w'.lock.failures == p.maxFailures - 1
    ensures Stage(p, w', p.lockoutMs, c - 1, 0, p.maxFailures - 1, p.lockoutMs)
  {
    var t := p.lockoutMs;
    var w1 := LeftOver(p, c);
    hide Stage, Leads, Open, TimeOk;
    var w2 := WriteOld(p, c, w1, t, c, 0, 0, t);
    w' := FailMany(p, c, w2, t, c - 1, 0, t, p.maxFailures - 1);
    LeadsOn(p, c, Initial(0), w1, w2);
    LeadsOn(p, c, Initial(0), w2, w');
  }

  lemma ReachesSpan(p: Policy, c: nat, w: World, lo: int, lockouts: nat, n: int)
    requires Stage(p, w, lo + lockouts * p.lockoutMs, 0, c, n, lo)
    ensures Span(w, lo, lo + lockouts * p.lockoutMs) && |w.checks| == n
  {
  }

  lemma AllWindows(p: Policy, c: nat, lockouts: nat) returns (w: World)
    requires p.Valid() && p.lockoutMs >= 1 && c >= 1 && TimeOk(p, (1 + lockouts) * p.lockoutMs)
    ensures Leads(p, c, Initial(0), w)
    ensures Stage(p, w, p.lockoutMs + lockouts * p.lockoutMs, 0, c,
                  p.maxFailures - 1 + Triangle(c) + lockouts * Triangle(c), p.lockoutMs)
  {
    OneMore(1 + lockouts, p.lockoutMs);
    assert Triangle(0) == 0 && TimeOk(p, p.lockoutMs);
    hide Triangle, Leads, Stage;
    var lo := p.lockoutMs;
    var w0 := Opening(p, c);
    var w1 := Rounds(p, c, w0, lo, c - 1, p.maxFailures - 1, lo);
    w := Windows(p, c, w1, lo, p.maxFailures - 1 + Triangle(c), lo, lockouts);
    LeadsOn(p, c, Initial(0), w0, w1);
    LeadsOn(p, c, Initial(0), w1, w);
  }

  /** For every c of 1 or more and every number of lockouts waited out, some run with at
      most c attempts under way at once meets the bound exactly. */
  lemma BoundReached(p: Policy, c: nat, lockouts: nat) returns (steps: seq<Step>, lo: int, hi: int)
    requires p.Valid() && p.lockoutMs >= 1 && c >= 1 && TimeOk(p, (1 + lockouts) * p.lockoutMs)
    ensures Within(p, Initial(0), steps, c) && Span(Exec(p, Initial(0), steps), lo, hi)
    ensures (hi - lo) / p.lockoutMs == lockouts
    ensures |Exec(p, Initial(0), steps).checks| == p.maxFailures - 1 + (1 + (hi - lo) / p.lockoutMs) * Triangle(c)
  {
    var w := AllWindows(p, c, lockouts);
    lo, hi := p.lockoutMs, p.lockoutMs + lockouts * p.lockoutMs;
    OneMore(1 + lockouts, Triangle(c));
    MultipleRemainder(p.lockoutMs, lockouts);
    assert p.lockoutMs * lockouts == lockouts * p.lockoutMs;
    ReachesSpan(p, c, w, lo, lockouts, p.maxFailures - 1 + Triangle(c) + lockouts * Triangle(c));
    hide Stage, Triangle, Within, Exec, Span, TimeOk;
    steps :| Within(p, Initial(0), steps, c) && Exec(p, Initial(0), steps) == w;
  }
}
