/** The fixed-window limiter of rust/genesis-api/src/rate_limit.rs: `INCR`, then
    `PEXPIRE` by whoever counted 1, as separate steps of many interleaved clients. */
module RateLimit {
  import opened Prelude

  datatype Limit = Limit(max: nat, windowMs: nat)

  /** `dropAtDeadline` leaves open whether a key is already gone in the very
      millisecond of its deadline; every result holds either way. */
  datatype Config = Config(limits: string -> Limit, dropAtDeadline: bool)

  datatype Entry = Entry(count: nat, deadline: Option<int>)

  datatype Server = Server(now: int, store: map<string, Entry>)

  predicate Live(cfg: Config, s: Server, key: string) {
    key in s.store
    && match s.store[key].deadline
       case None => true
       case Some(d) => s.now < d || (s.now == d && !cfg.dropAtDeadline)
  }

  /** `INCR key`: a live counter keeps its deadline, any other starts at 1 without one. */
  function Incr(cfg: Config, s: Server, key: string): Server {
    var e := if Live(cfg, s, key) then s.store[key].(count := s.store[key].count + 1) else Entry(1, None);
    s.(store := s.store[key := e])
  }

  /** `PEXPIRE key window`: no effect on a key that is gone. */
  function PExpire(cfg: Config, s: Server, key: string): Server {
    if Live(cfg, s, key)
    then s.(store := s.store[key := s.store[key].(deadline := Some(s.now + cfg.limits(key).windowMs))])
    else s
  }

  // ----- The limiter itself -----

  class RedisServer {
    const cfg: Config
    var now: int
    var store: map<string, Entry>

    constructor (cfg: Config, now: int)
      ensures this.cfg == cfg && State() == Server(now, map[])
    {
      this.cfg, this.now, this.store := cfg, now, map[];
    }

    function State(): Server
      reads this
    {
      Server(now, store)
    }

    method IncrKey(key: string) returns (count: nat)
      modifies `store
      ensures State() == Incr(cfg, old(State()), key) && count == store[key].count
    {
      if Live(cfg, State(), key) {
        store := store[key := store[key].(count := store[key].count + 1)];
      } else {
        store := store[key := Entry(1, None)];
      }
      count := store[key].count;
    }

    method PExpireKey(key: string)
      modifies `store
      ensures State() == PExpire(cfg, old(State()), key)
    {
      if Live(cfg, State(), key) {
        store := store[key := store[key].(deadline := Some(now + cfg.limits(key).windowMs))];
      }
    }
  }

  /** One call without interference. `incrFails` and `expireFails` stand for the errors
      the call logs: it allows on the first and ignores the second. */
  method FixedWindowAllow(redis: RedisServer?, key: string, incrFails: bool, expireFails: bool) returns (allowed: bool)
    modifies redis
    ensures redis == null || incrFails ==> allowed
    ensures redis != null && incrFails ==> redis.State() == old(redis.State())
    ensures redis != null && !incrFails ==>
              var counted := Incr(redis.cfg, old(redis.State()), key);
              && allowed == (counted.store[key].count <= redis.cfg.limits(key).max)
              && redis.State() == if counted.store[key].count == 1 && !expireFails
                                  then PExpire(redis.cfg, counted, key) else counted
  {
    if redis == null || incrFails {
      return true;
    }
    var count := redis.IncrKey(key);
    if count == 1 && !expireFails {
      redis.PExpireKey(key);
    }
    allowed := count <= redis.cfg.limits(key).max;
  }

  // ----- Runs: any number of clients, any interleaving -----

  /** One counted request. A key's lives are numbered from 1 in the order they began. */
  datatype Event = Event(key: string, at: int, life: nat, count: nat)

  /** The server, the `PEXPIRE` calls still to come, and the history: every counted
      request in `INCR` order and, for each key, when each of its lives began. */
  datatype World = World(server: Server, pending: multiset<string>, log: seq<Event>, starts: map<string, seq<int>>)

  datatype Step =
    | Tick(to: int)
    | CountRequest(key: string)
    | SetExpiry(key: string)
    | LoseExpiry(key: string)

  function Starts(w: World, key: string): seq<int> {
    if key in w.starts then w.starts[key] else []
  }

  /** A step that is not possible in w (a clock going back, an expiry nobody owes)
      changes nothing. */
  function Apply(cfg: Config, w: World, step: Step): World {
    match step
    case Tick(to) =>
      if to >= w.server.now then w.(server := w.server.(now := to)) else w
    case CountRequest(key) =>
      var s := Incr(cfg, w.server, key);
      var count := s.store[key].count;
      var began := if count == 1 then Starts(w, key) + [s.now] else Starts(w, key);
      World(s,
            if count == 1 then w.pending + multiset{key} else w.pending,
            w.log + [Event(key, s.now, |began|, count)],
            w.starts[key := began])
    case SetExpiry(key) =>
      if key in w.pending
      then w.(server := PExpire(cfg, w.server, key), pending := w.pending - multiset{key})
      else w
    case LoseExpiry(key) =>
      if key in w.pending then w.(pending := w.pending - multiset{key}) else w
  }

  function Exec(cfg: Config, w: World, steps: seq<Step>): World
    decreases |steps|
  {
    if steps == [] then w else Exec(cfg, Apply(cfg, w, steps[0]), steps[1..])
  }

  function Initial(now: int): World {
    World(Server(now, map[]), multiset{}, [], map[])
  }

  predicate Allowed(cfg: Config, e: Event) {
    e.count <= cfg.limits(e.key).max
  }

  // ----- Counting events -----

  /** Events of one life of a key, and those among them counted m or less. */
  ghost function InLife(log: seq<Event>, key: string, life: nat): nat {
    if log == [] then 0
    else
      var e := log[|log| - 1];
      InLife(log[..|log| - 1], key, life) + if e.key == key && e.life == life then 1 else 0
  }

  ghost function UpTo(log: seq<Event>, key: string, life: nat, m: nat): nat {
    if log == [] then 0
    else
      var e := log[|log| - 1];
      UpTo(log[..|log| - 1], key, life, m) + if e.key == key && e.life == life && e.count <= m then 1 else 0
  }

  ghost predicate InWindow(cfg: Config, e: Event, key: string, from: int) {
    e.key == key && from <= e.at < from + cfg.limits(key).windowMs
  }

  /** Allowed requests on a key in the window [from, from + windowMs). */
  ghost function AllowedInWindow(cfg: Config, log: seq<Event>, key: string, from: int): nat {
    if log == [] then 0
    else
      var e := log[|log| - 1];
      AllowedInWindow(cfg, log[..|log| - 1], key, from)
      + if InWindow(cfg, e, key, from) && Allowed(cfg, e) then 1 else 0
  }

  // ----- The invariant, for one key -----

  ghost predicate LivesApart(cfg: Config, st: seq<int>, key: string) {
    forall i :: 0 < i < |st| ==> st[i] >= st[i - 1] + cfg.limits(key).windowMs
  }

  /** Every event lies inside its life, and its count is its rank in that life. */
  ghost predicate EventOk(w: World, key: string, i: nat)
    requires i < |w.log|
  {
    var e, st := w.log[i], Starts(w, key);
    e.key == key ==>
      && 1 <= e.life <= |st|
      && st[e.life - 1] <= e.at <= w.server.now
      && (e.life < |st| ==> e.at <= st[e.life])
      && (e.count == 1 ==> e.at == st[e.life - 1])
      && e.count == InLife(w.log[..i + 1], key, e.life)
  }

  ghost predicate EntryOk(cfg: Config, w: World, key: string) {
    var st := Starts(w, key);
    && (key in w.server.store <==> st != [])
    && InLife(w.log, key, |st| + 1) == 0
    && w.pending[key] <= 1
    && (st == [] ==> w.pending[key] == 0)
    && (st != [] ==>
          var e := w.server.store[key];
          && e.count >= 1 && e.count == InLife(w.log, key, |st|)
          && st[|st| - 1] <= w.server.now
          && (e.deadline.Some? ==> w.pending[key] == 0
                                   && e.deadline.value >= st[|st| - 1] + cfg.limits(key).windowMs))
  }

  ghost predicate Inv(cfg: Config, w: World, key: string) {
    && LivesApart(cfg, Starts(w, key), key)
    && EntryOk(cfg, w, key)
    && forall i :: 0 <= i < |w.log| ==> EventOk(w, key, i)
  }

  lemma {:induction false} NoLaterLife(log: seq<Event>, key: string, life: nat)
    requires forall i :: 0 <= i < |log| && log[i].key == key ==> log[i].life < life
    ensures InLife(log, key, life) == 0
  {
    if log != [] {
      NoLaterLife(log[..|log| - 1], key, life);
    }
  }

  lemma CountKeepsEvents(cfg: Config, w: World, step: Step, key: string)
    requires Inv(cfg, w, key) && step.CountRequest?
    ensures var w' := Apply(cfg, w, step); forall i :: 0 <= i < |w.log| ==> EventOk(w', key, i)
  {
    var w' := Apply(cfg, w, step);
    forall i | 0 <= i < |w.log|
      ensures EventOk(w', key, i)
    {
      assert EventOk(w, key, i);
      assert w'.log[..i + 1] == w.log[..i + 1];
    }
  }

  /** A count of 1 is a count of nobody before it: the new life has no earlier event. */
  lemma CountKeepsEntry(cfg: Config, w: World, step: Step, key: string)
    requires Inv(cfg, w, key) && step.CountRequest?
    ensures var w' := Apply(cfg, w, step);
            LivesApart(cfg, Starts(w', key), key) && EntryOk(cfg, w', key) && EventOk(w', key, |w.log|)
  {
    var w' := Apply(cfg, w, step);
    var st' := Starts(w', key);
    assert w'.log[..|w.log|] == w.log;
    assert w'.log[..|w'.log|] == w'.log;
    if step.key == key {
      forall i | 0 <= i < |w.log| && w.log[i].key == key
        ensures w.log[i].life < |Starts(w, key)| + 1
      {
        assert EventOk(w, key, i);
      }
      NoLaterLife(w.log, key, |Starts(w, key)| + 1);
      NoLaterLife(w.log, key, |Starts(w, key)| + 2);
      if Live(cfg, w.server, key) {
        assert w.server.store[key].count >= 1;
        assert st' == Starts(w, key);
      }
    }
  }

  lemma CountKeepsInv(cfg: Config, w: World, step: Step, key: string)
    requires Inv(cfg, w, key) && step.CountRequest?
    ensures Inv(cfg, Apply(cfg, w, step), key)
  {
    CountKeepsEvents(cfg, w, step, key);
    CountKeepsEntry(cfg, w, step, key);
  }

  lemma StepKeepsInv(cfg: Config, w: World, step: Step, key: string)
    requires Inv(cfg, w, key)
    ensures Inv(cfg, Apply(cfg, w, step), key)
  {
    if step.CountRequest? {
      CountKeepsInv(cfg, w, step, key);
    } else {
      var w' := Apply(cfg, w, step);
      forall i | 0 <= i < |w'.log|
        ensures EventOk(w', key, i)
      {
        assert EventOk(w, key, i);
      }
    }
  }

  lemma {:induction false} RunKeepsInv(cfg: Config, w: World, steps: seq<Step>, key: string)
    requires Inv(cfg, w, key)
    ensures Inv(cfg, Exec(cfg, w, steps), key)
    decreases |steps|
  {
    if steps != [] {
      StepKeepsInv(cfg, w, steps[0], key);
      RunKeepsInv(cfg, Apply(cfg, w, steps[0]), steps[1..], key);
    }
  }

  // ----- Each life allows exactly its first requests -----

  ghost function Min(a: nat, b: nat): nat {
    if a < b then a else b
  }

  ghost predicate Ranked(log: seq<Event>, key: string) {
    forall i :: 0 <= i < |log| && log[i].key == key ==> log[i].count == InLife(log[..i + 1], key, log[i].life)
  }

  lemma {:induction false} RanksFill(log: seq<Event>, key: string, life: nat, m: nat)
    requires Ranked(log, key)
    ensures UpTo(log, key, life, m) == Min(InLife(log, key, life), m)
  {
    if log != [] {
      var front := log[..|log| - 1];
      assert log[..|log|] == log;
      forall i | 0 <= i < |front| && front[i].key == key
        ensures front[i].count == InLife(front[..i + 1], key, front[i].life)
      {
        assert front[..i + 1] == log[..i + 1];
      }
      RanksFill(front, key, life, m);
    }
  }

  /** In every run, the k-th request of a life in `INCR` order is allowed exactly when
      k <= max, so of n requests in a life the first min(n, max) are allowed. */
  lemma LifeAllowsFirst(cfg: Config, now: int, steps: seq<Step>, key: string, life: nat)
    ensures var log := Exec(cfg, Initial(now), steps).log;
            && Ranked(log, key)
            && UpTo(log, key, life, cfg.limits(key).max) == Min(InLife(log, key, life), cfg.limits(key).max)
  {
    var w := Exec(cfg, Initial(now), steps);
    RunKeepsInv(cfg, Initial(now), steps, key);
    forall i | 0 <= i < |w.log| && w.log[i].key == key
      ensures w.log[i].count == InLife(w.log[..i + 1], key, w.log[i].life)
    {
      assert EventOk(w, key, i);
    }
    RanksFill(w.log, key, life, cfg.limits(key).max);
  }

  // ----- Every sliding window -----

  /** All window events lie in one life, or in two successive ones with the earlier
      life's first request outside. */
  ghost predicate WindowLives(cfg: Config, log: seq<Event>, key: string, from: int, a: nat, two: bool) {
    forall i :: 0 <= i < |log| && InWindow(cfg, log[i], key, from) ==>
                  (log[i].life == a && (two ==> log[i].count > 1)) || (two && log[i].life == a + 1)
  }

  /** Window events that belong to life `a` alone, or to it and its successor, are
      bounded by what those lives allow; with two lives, the first request of life `a`
      lies outside the window and is saved. */
  lemma {:induction false} WindowInLives(cfg: Config, log: seq<Event>, key: string, from: int, a: nat, two: bool)
    requires WindowLives(cfg, log, key, from, a, two)
    requires cfg.limits(key).max >= 1
    ensures AllowedInWindow(cfg, log, key, from) + (if two then UpTo(log, key, a, 1) else 0)
         <= UpTo(log, key, a, cfg.limits(key).max) + (if two then UpTo(log, key, a + 1, cfg.limits(key).max) else 0)
  {
    if log != [] {
      WindowInLives(cfg, log[..|log| - 1], key, from, a, two);
    }
  }

  lemma {:induction false} NoneAllowed(cfg: Config, log: seq<Event>, key: string, from: int)
    requires forall i :: 0 <= i < |log| && InWindow(cfg, log[i], key, from) ==> !Allowed(cfg, log[i])
    ensures AllowedInWindow(cfg, log, key, from) == 0
  {
    if log != [] {
      NoneAllowed(cfg, log[..|log| - 1], key, from);
    }
  }

  lemma {:induction false} StartsSpread(cfg: Config, st: seq<int>, key: string, i: nat, j: nat)
    requires LivesApart(cfg, st, key) && i < j < |st|
    ensures st[j] >= st[i] + cfg.limits(key).windowMs
  {
    if i + 1 < j {
      StartsSpread(cfg, st, key, i, j - 1);
    }
  }

  /** Two requests in one window are at most one life apart; when they are, the first
      request of the earlier life came before the window. */
  lemma NeighbouringLives(cfg: Config, w: World, key: string, from: int, i: nat, j: nat)
    requires Inv(cfg, w, key) && i < |w.log| && j < |w.log|
    requires InWindow(cfg, w.log[i], key, from) && InWindow(cfg, w.log[j], key, from)
    ensures w.log[j].life <= w.log[i].life + 1
    ensures w.log[j].life == w.log[i].life + 1 ==> w.log[i].count > 1
  {
    var st, a, b := Starts(w, key), w.log[i].life, w.log[j].life;
    assert EventOk(w, key, i) && EventOk(w, key, j);
    assert w.log[..i + 1][..i] == w.log[..i];
    if b > a + 1 {
      StartsSpread(cfg, st, key, a, b - 1);
    }
    if b == a + 1 {
      StartsSpread(cfg, st, key, a - 1, a);
    }
  }

  lemma FindLives(cfg: Config, w: World, key: string, from: int) returns (a: nat, two: bool)
    requires Inv(cfg, w, key)
    ensures WindowLives(cfg, w.log, key, from, a, two)
  {
    a, two := 0, false;
    if i :| 0 <= i < |w.log| && InWindow(cfg, w.log[i], key, from) {
      forall j, k | 0 <= j < |w.log| && 0 <= k < |w.log| && InWindow(cfg, w.log[j], key, from)
          && InWindow(cfg, w.log[k], key, from)
        ensures w.log[k].life <= w.log[j].life + 1
        ensures w.log[k].life == w.log[j].life + 1 ==> w.log[j].count > 1
      {
        NeighbouringLives(cfg, w, key, from, j, k);
      }
      var earlier := exists j ::
        0 <= j < |w.log| && InWindow(cfg, w.log[j], key, from) && w.log[j].life < w.log[i].life;
      a := if earlier then w.log[i].life - 1 else w.log[i].life;
      two := exists j :: 0 <= j < |w.log| && InWindow(cfg, w.log[j], key, from) && w.log[j].life == a + 1;
    }
  }

  lemma NothingAllowedAtZero(cfg: Config, w: World, key: string, from: int)
    requires Inv(cfg, w, key) && cfg.limits(key).max == 0
    ensures AllowedInWindow(cfg, w.log, key, from) == 0
  {
    forall i | 0 <= i < |w.log| && w.log[i].key == key
      ensures w.log[i].count >= 1
    {
      assert EventOk(w, key, i);
      assert w.log[..i + 1][i] == w.log[i];
    }
    NoneAllowed(cfg, w.log, key, from);
  }

  /** In every interleaving, with every `PEXPIRE` on time, late or lost, any window of
      one window length allows at most 2 * max - 1 requests on a key (none if max is 0). */
  lemma WindowBound(cfg: Config, now: int, steps: seq<Step>, key: string, from: int)
    ensures var max := cfg.limits(key).max;
            AllowedInWindow(cfg, Exec(cfg, Initial(now), steps).log, key, from) <= if max == 0 then 0 else 2 * max - 1
  {
    var w, max := Exec(cfg, Initial(now), steps), cfg.limits(key).max;
    RunKeepsInv(cfg, Initial(now), steps, key);
    if max == 0 {
      NothingAllowedAtZero(cfg, w, key, from);
    } else {
      var a, two := FindLives(cfg, w, key, from);
      WindowInLives(cfg, w.log, key, from, a, two);
      LifeAllowsFirst(cfg, now, steps, key, a);
      LifeAllowsFirst(cfg, now, steps, key, a + 1);
      RanksFill(w.log, key, a, 1);
    }
  }

  // ----- The bound is reached -----

  function Repeat(step: Step, n: nat): seq<Step> {
    if n == 0 then [] else [step] + Repeat(step, n - 1)
  }

  lemma {:induction false} ExecConcat(cfg: Config, w: World, a: seq<Step>, b: seq<Step>)
    ensures Exec(cfg, w, a + b) == Exec(cfg, Exec(cfg, w, a), b)
    decreases |a|
  {
    if a == [] {
      assert a + b == b;
    } else {
      assert (a + b)[1..] == a[1..] + b;
      ExecConcat(cfg, Apply(cfg, w, a[0]), a[1..], b);
    }
  }

  lemma AllowOne(cfg: Config, w: World, key: string, from: int)
    ensures var w' := Apply(cfg, w, CountRequest(key));
            var e := w'.log[|w.log|];
            AllowedInWindow(cfg, w'.log, key, from) ==
            AllowedInWindow(cfg, w.log, key, from) + if InWindow(cfg, e, key, from) && Allowed(cfg, e) then 1 else 0
  {
    assert Apply(cfg, w, CountRequest(key)).log[..|w.log|] == w.log;
  }

  /** n requests in a row at one instant inside the window, all within the limit. */
  lemma {:induction false} Burst(cfg: Config, w: World, key: string, n: nat, from: int)
    requires Live(cfg, w.server, key) && w.server.store[key].count >= 1
    requires w.server.store[key].count + n <= cfg.limits(key).max
    requires from <= w.server.now < from + cfg.limits(key).windowMs
    ensures var w' := Exec(cfg, w, Repeat(CountRequest(key), n));
            && AllowedInWindow(cfg, w'.log, key, from) == AllowedInWindow(cfg, w.log, key, from) + n
            && key in w'.server.store && w'.server.now == w.server.now
            && w'.server.store[key].deadline == w.server.store[key].deadline
    decreases n
  {
    if n > 0 {
      AllowOne(cfg, w, key, from);
      Burst(cfg, Apply(cfg, w, CountRequest(key)), key, n - 1, from);
    }
  }

  lemma ExecTwo(cfg: Config, w: World, a: Step, b: Step)
    ensures Exec(cfg, w, [a, b]) == Apply(cfg, Apply(cfg, w, a), b)
  {
    assert [a, b][1..] == [b] && [b][1..] == [];
    assert Exec(cfg, Apply(cfg, w, a), [b]) == Exec(cfg, Apply(cfg, Apply(cfg, w, a), b), []);
  }

  lemma OpenLife(cfg: Config, key: string) returns (steps: seq<Step>)
    requires cfg.limits(key).windowMs >= 3
    ensures var w := Exec(cfg, Initial(0), steps);
            && w.server == Server(cfg.limits(key).windowMs - 1, map[key := Entry(1, Some(cfg.limits(key).windowMs))])
            && AllowedInWindow(cfg, w.log, key, 2) == 0
  {
    var window := cfg.limits(key).windowMs;
    steps := [CountRequest(key), SetExpiry(key), Tick(window - 1)];
    AllowOne(cfg, Initial(0), key, 2);
    assert steps[1..] == [SetExpiry(key), Tick(window - 1)];
    ExecTwo(cfg, Apply(cfg, Initial(0), CountRequest(key)), SetExpiry(key), Tick(window - 1));
  }

  lemma ReopenLife(cfg: Config, w: World, key: string) returns (steps: seq<Step>)
    requires cfg.limits(key).max >= 1 && cfg.limits(key).windowMs >= 3
    requires key in w.server.store && w.server.store[key].deadline == Some(cfg.limits(key).windowMs)
    requires w.server.now == cfg.limits(key).windowMs - 1
    ensures var w' := Exec(cfg, w, steps);
            && w'.server.now == cfg.limits(key).windowMs + 1
            && key in w'.server.store && w'.server.store[key] == Entry(1, None)
            && AllowedInWindow(cfg, w'.log, key, 2) == AllowedInWindow(cfg, w.log, key, 2) + 1
  {
    steps := [Tick(cfg.limits(key).windowMs + 1), CountRequest(key)];
    ExecTwo(cfg, w, steps[0], steps[1]);
    AllowOne(cfg, Apply(cfg, w, steps[0]), key, 2);
  }

  /** Late in one window, then at the start of the next: 2 * max - 1 requests pass. */
  lemma BoundReached(cfg: Config, key: string) returns (steps: seq<Step>, from: int)
    requires cfg.limits(key).max >= 1 && cfg.limits(key).windowMs >= 3
    ensures AllowedInWindow(cfg, Exec(cfg, Initial(0), steps).log, key, from) == 2 * cfg.limits(key).max - 1
  {
    hide Exec, Apply, AllowedInWindow, Repeat;
    from := 2;
    var burst := Repeat(CountRequest(key), cfg.limits(key).max - 1);
    var opening := OpenLife(cfg, key);
    var w3 := Exec(cfg, Initial(0), opening);
    Burst(cfg, w3, key, cfg.limits(key).max - 1, from);
    ExecConcat(cfg, Initial(0), opening, burst);
    var w4 := Exec(cfg, Initial(0), opening + burst);
    var turn := ReopenLife(cfg, w4, key);
    ExecConcat(cfg, Initial(0), opening + burst, turn);
    Burst(cfg, Exec(cfg, Initial(0), opening + burst + turn), key, cfg.limits(key).max - 1, from);
    ExecConcat(cfg, Initial(0), opening + burst + turn, burst);
    steps := opening + burst + turn + burst;
  }

  // ----- What becomes of a life after its PEXPIRE -----

  predicate Past(cfg: Config, now: int, deadline: int) {
    now > deadline || (now == deadline && cfg.dropAtDeadline)
  }

  ghost predicate DeadlineSet(w: World, key: string, deadline: int) {
    key in w.server.store && w.server.store[key].deadline == Some(deadline) && w.pending[key] == 0
  }

  lemma StepKeepsDeadline(cfg: Config, w: World, step: Step, key: string, deadline: int)
    requires Inv(cfg, w, key) && DeadlineSet(w, key, deadline)
    ensures var w' := Apply(cfg, w, step);
            if Starts(w', key) == Starts(w, key) then DeadlineSet(w', key, deadline)
            else Starts(w', key) == Starts(w, key) + [w.server.now] && Past(cfg, w.server.now, deadline)
  {
  }

  lemma {:induction false} StartsGrow(cfg: Config, w: World, steps: seq<Step>, key: string)
    ensures Starts(w, key) <= Starts(Exec(cfg, w, steps), key)
    decreases |steps|
  {
    if steps != [] {
      StartsGrow(cfg, Apply(cfg, w, steps[0]), steps[1..], key);
    }
  }

  /** Once `PEXPIRE` has set a deadline, the life ends there and nowhere else: whatever
      any client does, the next life of the key begins past the deadline, and as long as
      it has not begun, the first request past the deadline counts 1 and is allowed
      whenever max >= 1. */
  lemma {:induction false} ExpiryReopens(cfg: Config, w: World, steps: seq<Step>, key: string, deadline: int)
    requires Inv(cfg, w, key) && DeadlineSet(w, key, deadline)
    ensures var w' := Exec(cfg, w, steps);
            var n := |Starts(w, key)|;
            if |Starts(w', key)| > n then Past(cfg, Starts(w', key)[n], deadline)
            else
              && DeadlineSet(w', key, deadline)
              && var next := Apply(cfg, w', CountRequest(key)).log[|w'.log|];
                 next.count == 1 <==> Past(cfg, w'.server.now, deadline)
    decreases |steps|
  {
    var n := |Starts(w, key)|;
    if steps == [] {
    } else {
      var v := Apply(cfg, w, steps[0]);
      StepKeepsDeadline(cfg, w, steps[0], key, deadline);
      StepKeepsInv(cfg, w, steps[0], key);
      if Starts(v, key) == Starts(w, key) {
        ExpiryReopens(cfg, v, steps[1..], key, deadline);
      } else {
        StartsGrow(cfg, v, steps[1..], key);
        assert Starts(v, key)[n] == w.server.now;
      }
    }
  }

  ghost predicate ExpiryLost(w: World, key: string) {
    key in w.server.store && w.server.store[key].deadline == None && w.pending[key] == 0
  }

  /** Once `PEXPIRE` has failed, the life never ends: the count only rises, so with the
      limit reached no later request on the key is allowed, however long the run. */
  lemma {:induction false} LostExpirySticks(cfg: Config, w: World, steps: seq<Step>, key: string)
    requires Inv(cfg, w, key) && ExpiryLost(w, key)
    ensures var w' := Exec(cfg, w, steps);
            && Starts(w', key) == Starts(w, key)
            && w.log <= w'.log
            && forall i :: |w.log| <= i < |w'.log| && w'.log[i].key == key ==>
                 w'.log[i].count > w.server.store[key].count
    decreases |steps|
  {
    if steps != [] {
      var v := Apply(cfg, w, steps[0]);
      StepKeepsInv(cfg, w, steps[0], key);
      assert w.server.store[key].count >= 1;
      assert Starts(v, key) == Starts(w, key) && ExpiryLost(v, key);
      LostExpirySticks(cfg, v, steps[1..], key);
    }
  }

  /** The two outcomes of the call that counted 1, from any reachable world: a `PEXPIRE`
      that succeeds sets the deadline one window ahead, one that fails is lost for good. */
  lemma ExpiryOutcome(cfg: Config, now: int, steps: seq<Step>, key: string)
    requires key in Exec(cfg, Initial(now), steps).pending
    ensures var w := Exec(cfg, Initial(now), steps);
            && Inv(cfg, w, key)
            && DeadlineSet(Apply(cfg, w, SetExpiry(key)), key, w.server.now + cfg.limits(key).windowMs)
            && ExpiryLost(Apply(cfg, w, LoseExpiry(key)), key)
  {
    RunKeepsInv(cfg, Initial(now), steps, key);
  }
}
