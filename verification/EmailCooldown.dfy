/** The resend cooldown of rust/genesis-auth/src/email_verify.rs: a map from address to
    the time it was last marked, pruned when it grows and cleaned as it is read. */
module EmailCooldown {
  import opened Prelude

  /** `EMAIL_RESEND_COOLDOWN_MS` and `COOLDOWN_MAP_MAX_SIZE`. */
  datatype Config = Config(cooldownMs: nat, maxSize: nat) {
    predicate Valid() {
      cooldownMs <= I64_MAX
    }
  }

  const RESEND := Config(5 * 60_000, 10_000)

  type Marks = map<string, int>

  predicate Recent(cfg: Config, last: int, now: int) {
    Saturate(now - last) < cfg.cooldownMs
  }

  predicate OnCooldown(cfg: Config, m: Marks, email: string, now: int) {
    email in m && Recent(cfg, m[email], now)
  }

  /** What a read leaves behind: an expired entry goes. */
  function AfterRead(cfg: Config, m: Marks, email: string, now: int): Marks {
    if OnCooldown(cfg, m, email, now) then m else m - {email}
  }

  function Retain(m: Marks, cutoff: int): Marks {
    map e | e in m && m[e] >= cutoff :: m[e]
  }

  function AfterMark(cfg: Config, m: Marks, email: string, now: int): Marks {
    var m' := m[email := now];
    if |m'| > cfg.maxSize then Retain(m', Saturate(now - cfg.cooldownMs)) else m'
  }

  class CooldownMap {
    const cfg: Config
    var marks: Marks

    constructor (cfg: Config)
      ensures this.cfg == cfg && marks == map[]
    {
      this.cfg, marks := cfg, map[];
    }

    method IsOnCooldown(email: string, now: int) returns (on: bool)
      modifies this
      ensures on == OnCooldown(cfg, old(marks), email, now)
      ensures marks == AfterRead(cfg, old(marks), email, now)
    {
      if email in marks && Saturate(now - marks[email]) < cfg.cooldownMs {
        on := true;
      } else if email in marks {
        marks := marks - {email};
        on := false;
      } else {
        on := false;
      }
    }

    method Mark(email: string, now: int)
      modifies this
      ensures marks == AfterMark(cfg, old(marks), email, now)
    {
      marks := marks[email := now];
      if |marks| > cfg.maxSize {
        var cutoff := Saturate(now - cfg.cooldownMs);
        marks := map e | e in marks && marks[e] >= cutoff :: marks[e];
      }
    }
  }

  // ----- What one read and one mark do, entry by entry -----

  /** A read answers whether less than a cooldown has passed since the mark, and drops the
      entry it looked at exactly when it answers no. */
  lemma ReadEffect(cfg: Config, m: Marks, email: string, now: int)
    requires cfg.Valid() && forall e :: e in m ==> I64_MIN <= m[e] <= now <= I64_MAX
    ensures OnCooldown(cfg, m, email, now) <==> email in m && now < m[email] + cfg.cooldownMs
    ensures forall e ::
              e in AfterRead(cfg, m, email, now) <==> e in m && (e == email ==> now < m[e] + cfg.cooldownMs)
    ensures forall e :: e in AfterRead(cfg, m, email, now) ==> AfterRead(cfg, m, email, now)[e] == m[e]
  {
  }

  /** A mark stores the time; only when it makes the map larger than its maximum, the marks
      older than a cooldown go, and nothing else does. */
  lemma MarkEffect(cfg: Config, m: Marks, email: string, now: int)
    requires cfg.Valid() && IsI64(now) && forall e :: e in m ==> I64_MIN <= m[e]
    ensures var m' := AfterMark(cfg, m, email, now);
            && (forall e :: e in m' <==>
                  e == email || (e in m && (|m.Keys + {email}| <= cfg.maxSize || m[e] >= now - cfg.cooldownMs)))
            && (forall e :: e in m' ==> m'[e] == if e == email then now else m[e])
  {
    assert m[email := now].Keys == m.Keys + {email};
    assert |m[email := now].Keys| == |m[email := now]|;
  }

  // ----- Runs: requests for many addresses, each a read and, if it passes, a later mark -----

  datatype Pass = Pass(email: string, at: int)

  /** The map as kept, the map nothing was ever dropped from, the requests that passed
      and have not marked yet, the passes so far, and when the last mark was made. */
  datatype World = World(now: int, kept: Marks, full: Marks, waiting: multiset<string>, passes: seq<Pass>,
          lastMark: int)

  datatype Step = Tick(to: int) | Ask(email: string) | Finish(email: string)

  function Apply(cfg: Config, w: World, step: Step): World {
    match step
    case Tick(to) => if w.now <= to <= I64_MAX then w.(now := to) else w
    case Ask(email) =>
      var kept := AfterRead(cfg, w.kept, email, w.now);
      if OnCooldown(cfg, w.kept, email, w.now) then w.(kept := kept)
      else w.(kept := kept, waiting := w.waiting + multiset{email}, passes := w.passes + [Pass(email, w.now)])
    case Finish(email) =>
      if email !in w.waiting then w
      else w.(kept := AfterMark(cfg, w.kept, email, w.now), full := w.full[email := w.now],
              waiting := w.waiting - multiset{email}, lastMark := w.now)
  }

  ghost function Exec(cfg: Config, w: World, steps: seq<Step>): World
    decreases |steps|
  {
    if steps == [] then w else Exec(cfg, Apply(cfg, w, steps[0]), steps[1..])
  }

  function Initial(now: int): World {
    World(now, map[], map[], multiset{}, [], now)
  }

  // ----- The pruned map answers as the full one -----

  ghost predicate Agree(cfg: Config, w: World) {
    && cfg.Valid() && IsI64(w.now)
    && (forall e :: e in w.full ==> I64_MIN <= w.full[e] <= w.now)
    && (forall e :: e in w.kept ==> e in w.full && w.kept[e] == w.full[e])
    && (forall e :: e in w.full && w.now - w.full[e] < cfg.cooldownMs ==> e in w.kept)
  }

  lemma StepKeepsAgree(cfg: Config, w: World, step: Step)
    requires Agree(cfg, w)
    ensures Agree(cfg, Apply(cfg, w, step))
  {
  }

  lemma {:induction false} RunKeepsAgree(cfg: Config, w: World, steps: seq<Step>)
    requires Agree(cfg, w)
    ensures Agree(cfg, Exec(cfg, w, steps))
    decreases |steps|
  {
    if steps != [] {
      StepKeepsAgree(cfg, w, steps[0]);
      RunKeepsAgree(cfg, Apply(cfg, w, steps[0]), steps[1..]);
    }
  }

  /** In every run the pruned map gives every address the answer the never-pruned history
      gives: less than a cooldown since the last mark. */
  lemma PrunedAnswersAsFull(cfg: Config, now: int, steps: seq<Step>, email: string)
    requires cfg.Valid() && IsI64(now)
    ensures var w := Exec(cfg, Initial(now), steps);
            OnCooldown(cfg, w.kept, email, w.now) <==> email in w.full && w.now < w.full[email] + cfg.cooldownMs
  {
    RunKeepsAgree(cfg, Initial(now), steps);
  }

  // ----- Size -----

  ghost function MarkedWithin(cfg: Config, w: World, now: int): set<string> {
    set e | e in w.full && w.full[e] >= now - cfg.cooldownMs
  }

  ghost predicate SizeOk(cfg: Config, w: World) {
    |w.kept| <= cfg.maxSize || w.kept.Keys <= MarkedWithin(cfg, w, w.lastMark)
  }

  lemma StepKeepsSize(cfg: Config, w: World, step: Step)
    requires Agree(cfg, w) && SizeOk(cfg, w)
    ensures SizeOk(cfg, Apply(cfg, w, step))
  {
    var w' := Apply(cfg, w, step);
    if step.Ask? {
      assert w'.kept.Keys <= w.kept.Keys;
      SubsetSize(w'.kept.Keys, w.kept.Keys);
    }
  }

  lemma {:induction false} SubsetSize<T>(a: set<T>, b: set<T>)
    requires a <= b
    ensures |a| <= |b|
  {
    assert b == a + (b - a);
  }

  lemma {:induction false} RunKeepsSize(cfg: Config, w: World, steps: seq<Step>)
    requires Agree(cfg, w) && SizeOk(cfg, w)
    ensures SizeOk(cfg, Exec(cfg, w, steps))
    decreases |steps|
  {
    if steps != [] {
      StepKeepsSize(cfg, w, steps[0]);
      StepKeepsAgree(cfg, w, steps[0]);
      RunKeepsSize(cfg, Apply(cfg, w, steps[0]), steps[1..]);
    }
  }

  /** The map never holds more than the larger of the maximum and the number of addresses
      marked within one cooldown up to the latest mark. */
  lemma SizeBound(cfg: Config, now: int, steps: seq<Step>)
    requires cfg.Valid() && IsI64(now)
    ensures var w := Exec(cfg, Initial(now), steps);
            |w.kept| <= cfg.maxSize || |w.kept| <= |MarkedWithin(cfg, w, w.lastMark)|
  {
    var w := Exec(cfg, Initial(now), steps);
    RunKeepsSize(cfg, Initial(now), steps);
    if w.kept.Keys <= MarkedWithin(cfg, w, w.lastMark) {
      SubsetSize(w.kept.Keys, MarkedWithin(cfg, w, w.lastMark));
    }
  }

  // ----- Size against the present moment -----

  /** The addresses still on cooldown. */
  ghost function Cooling(cfg: Config, w: World): set<string> {
    set e | e in w.full && w.now - w.full[e] < cfg.cooldownMs
  }

  lemma SubsetOfSize<T>(a: set<T>, b: set<T>)
    requires a <= b
    ensures |b| <= |a| <==> a == b
  {
    assert b == a + (b - a);
  }

  /** In every run, the map is within the larger of its maximum and the number of addresses
      on cooldown now exactly when it is within its maximum or holds no expired mark. */
  lemma PresentSizeExactly(cfg: Config, now: int, steps: seq<Step>)
    requires cfg.Valid() && IsI64(now)
    ensures var w := Exec(cfg, Initial(now), steps);
            && (|w.kept| <= |Cooling(cfg, w)| <==> forall e :: e in w.kept ==> Recent(cfg, w.kept[e], w.now))
            && ((|w.kept| <= cfg.maxSize || |w.kept| <= |Cooling(cfg, w)|) <==>
                (|w.kept| <= cfg.maxSize || forall e :: e in w.kept ==> Recent(cfg, w.kept[e], w.now)))
  {
    var w := Exec(cfg, Initial(now), steps);
    RunKeepsAgree(cfg, Initial(now), steps);
    SubsetOfSize(Cooling(cfg, w), w.kept.Keys);
    forall e | e in w.kept
      ensures Recent(cfg, w.kept[e], w.now) <==> e in Cooling(cfg, w)
    {
    }
  }

  /** A request for each address, one after another. */
  function AskAndFinish(emails: seq<string>): (steps: seq<Step>)
    ensures |steps| == 2 * |emails|
  {
    if emails == [] then []
    else
      var last := emails[|emails| - 1];
      AskAndFinish(emails[..|emails| - 1]) + [Ask(last), Finish(last)]
  }

  function MarkedAt(emails: seq<string>, now: int): Marks {
    map e | e in emails :: now
  }

  lemma {:induction false} ExecConcat(cfg: Config, w: World, a: seq<Step>, b: seq<Step>)
    ensures Exec(cfg, w, a + b) == Exec(cfg, Exec(cfg, w, a), b)
    decreases |a|
  {
    if a == [] {
      assert a + b == b;
    } else {
      assert (a + b)[1..] == a[1..] + b;
      ExecConcat(cfg, Apply(cfg, w, a[0]), a[1..], b);
    }
  }

  lemma RetainsAll(m: Marks, cutoff: int)
    requires forall e :: e in m ==> m[e] >= cutoff
    ensures Retain(m, cutoff) == m
  {
  }

  /** Marks made at one instant are never pruned there, however many they are. */
  lemma MarkOne(cfg: Config, now: int, emails: seq<string>, email: string)
    requires cfg.Valid() && IsI64(now) && email !in emails
    ensures AfterRead(cfg, MarkedAt(emails, now), email, now) == MarkedAt(emails, now)
    ensures AfterMark(cfg, MarkedAt(emails, now), email, now) == MarkedAt(emails + [email], now)
  {
    assert MarkedAt(emails, now)[email := now] == MarkedAt(emails + [email], now);
    RetainsAll(MarkedAt(emails + [email], now), Saturate(now - cfg.cooldownMs));
    hide MarkedAt, Retain;
  }

  ghost predicate Marked(w: World, emails: seq<string>, now: int) {
    w.now == now && w.kept == w.full == MarkedAt(emails, now) && w.waiting == multiset{} && w.lastMark == now
  }

  lemma {:induction false} MarkAll(cfg: Config, now: int, emails: seq<string>)
    requires cfg.Valid() && IsI64(now)
    requires forall i, j :: 0 <= i < j < |emails| ==> emails[i] != emails[j]
    ensures Marked(Exec(cfg, Initial(now), AskAndFinish(emails)), emails, now)
  {
    if emails == [] {
      assert MarkedAt(emails, now) == map[];
    } else {
      var front, e := emails[..|emails| - 1], emails[|emails| - 1];
      assert emails == front + [e];
      MarkAll(cfg, now, front);
      MarkOne(cfg, now, front, e);
      var w := Exec(cfg, Initial(now), AskAndFinish(front));
      ExecConcat(cfg, Initial(now), AskAndFinish(front), [Ask(e), Finish(e)]);
      ExecThree(cfg, w, Ask(e), Finish(e), Finish(e));
      var asked := Apply(cfg, w, Ask(e));
      assert e !in w.kept && asked.kept == w.kept && asked.waiting == multiset{e};
      assert Apply(cfg, asked, Finish(e)).waiting == multiset{};
    }
  }

  lemma {:induction false} DistinctCount(emails: seq<string>, now: int)
    requires forall i, j :: 0 <= i < j < |emails| ==> emails[i] != emails[j]
    ensures |MarkedAt(emails, now)| == |emails|
  {
    if emails == [] {
      assert MarkedAt(emails, now) == map[];
    } else {
      var front, e := emails[..|emails| - 1], emails[|emails| - 1];
      DistinctCount(front, now);
      assert MarkedAt(emails, now).Keys == MarkedAt(front, now).Keys + {e};
      assert |MarkedAt(emails, now).Keys| == |MarkedAt(emails, now)|;
      assert |MarkedAt(front, now).Keys| == |MarkedAt(front, now)|;
    }
  }

  /** Nothing is dropped while nobody marks. Whatever the cooldown and the maximum, one
      address more than the maximum marked at one instant all stay in the map, any time
      later than a cooldown, when no address is on cooldown any more. */
  lemma IdleMapKeepsStale(cfg: Config, now: int, later: int, emails: seq<string>)
    requires cfg.Valid() && IsI64(now) && now + cfg.cooldownMs < later <= I64_MAX
    requires |emails| == cfg.maxSize + 1 && forall i, j :: 0 <= i < j < |emails| ==> emails[i] != emails[j]
    ensures var w := Exec(cfg, Initial(now), AskAndFinish(emails) + [Tick(later)]);
            && |w.kept| == cfg.maxSize + 1
            && Cooling(cfg, w) == {} && MarkedWithin(cfg, w, w.now) == {}
  {
    MarkAll(cfg, now, emails);
    DistinctCount(emails, now);
    ExecConcat(cfg, Initial(now), AskAndFinish(emails), [Tick(later)]);
    var w := Exec(cfg, Initial(now), AskAndFinish(emails));
    var w' := Apply(cfg, w, Tick(later));
    assert Exec(cfg, w, [Tick(later)]) == Exec(cfg, w', []);
    assert Cooling(cfg, w') == {};
    assert MarkedWithin(cfg, w', later) == {};
  }

  /** Different addresses, as many as wanted. */
  function Addresses(n: nat): (emails: seq<string>)
    ensures |emails| == n && forall i :: 0 <= i < n ==> |emails[i]| == i
  {
    seq(n, i requires 0 <= i < n => seq(i, _ => 'a'))
  }

  /** With the constants of the code: five minutes and one millisecond after 10,001 marks
      in one millisecond the map still holds them all. */
  lemma ResendMapKeepsStale(now: int)
    requires IsI64(now) && now + RESEND.cooldownMs < I64_MAX
    ensures var w := Exec(RESEND, Initial(now), AskAndFinish(Addresses(10_001)) + [Tick(now + 300_001)]);
            |w.kept| == 10_001 && MarkedWithin(RESEND, w, w.now) == {}
  {
    IdleMapKeepsStale(RESEND, now, now + 300_001, Addresses(10_001));
  }

  lemma ExecThree(cfg: Config, w: World, a: Step, b: Step, c: Step)
    ensures Exec(cfg, w, [a, b]) == Apply(cfg, Apply(cfg, w, a), b)
    ensures Exec(cfg, w, [a, b, c]) == Apply(cfg, Apply(cfg, Apply(cfg, w, a), b), c)
  {
    assert [a, b, c][1..] == [b, c] && [b, c][1..] == [c] && [c][1..] == [] && [a, b][1..] == [b] && [b][1..] == [];
    var v := Apply(cfg, w, a);
    assert Exec(cfg, Apply(cfg, v, b), [c]) == Exec(cfg, Apply(cfg, Apply(cfg, v, b), c), []);
    assert Exec(cfg, v, [b]) == Exec(cfg, Apply(cfg, v, b), []);
    assert Exec(cfg, v, [b, c]) == Exec(cfg, Apply(cfg, v, b), [c]);
  }

  // ----- Passing requests of one address -----

  /** No request for this address starts while another of its requests that passed has
      yet to mark; other addresses may overlap at will. */
  ghost predicate NoOverlapOf(cfg: Config, w: World, steps: seq<Step>, email: string)
    decreases |steps|
  {
    steps != [] ==>
      && (steps[0] == Ask(email) ==> email !in w.waiting)
      && NoOverlapOf(cfg, Apply(cfg, w, steps[0]), steps[1..], email)
  }

  ghost predicate PassesOk(cfg: Config, w: World, email: string) {
    && (forall i :: 0 <= i < |w.passes| && w.passes[i].email == email ==>
          var p := w.passes[i];
          p.at <= w.now && (email in w.waiting || (email in w.full && w.full[email] >= p.at)))
    && forall i, j :: 0 <= i < j < |w.passes| && w.passes[i].email == w.passes[j].email == email ==>
                        w.passes[j].at >= w.passes[i].at + cfg.cooldownMs
  }

  lemma StepKeepsPasses(cfg: Config, w: World, step: Step, email: string)
    requires Agree(cfg, w) && PassesOk(cfg, w, email)
    requires step == Ask(email) ==> email !in w.waiting
    ensures PassesOk(cfg, Apply(cfg, w, step), email)
  {
    hide AfterMark, AfterRead, Retain;
  }

  lemma {:induction false} RunKeepsPasses(cfg: Config, w: World, steps: seq<Step>, email: string)
    requires Agree(cfg, w) && PassesOk(cfg, w, email) && NoOverlapOf(cfg, w, steps, email)
    ensures PassesOk(cfg, Exec(cfg, w, steps), email)
    decreases |steps|
  {
    if steps != [] {
      StepKeepsPasses(cfg, w, steps[0], email);
      StepKeepsAgree(cfg, w, steps[0]);
      RunKeepsPasses(cfg, Apply(cfg, w, steps[0]), steps[1..], email);
    }
  }

  /** Requests of one address that do not overlap pass at least a cooldown apart over the
      whole run, whatever is asked, marked and pruned for other addresses. */
  lemma PassesSpaced(cfg: Config, now: int, steps: seq<Step>, email: string, i: nat, j: nat)
    requires cfg.Valid() && IsI64(now) && NoOverlapOf(cfg, Initial(now), steps, email)
    requires i < j < |Exec(cfg, Initial(now), steps).passes|
    requires Exec(cfg, Initial(now), steps).passes[i].email == email
    requires Exec(cfg, Initial(now), steps).passes[j].email == email
    ensures Exec(cfg, Initial(now), steps).passes[j].at >= Exec(cfg, Initial(now), steps).passes[i].at + cfg.cooldownMs
  {
    RunKeepsAgree(cfg, Initial(now), steps);
    RunKeepsPasses(cfg, Initial(now), steps, email);
  }

  /** The gate does not hold back requests that overlap: a second one that asks before the
      first has marked passes in the same millisecond. */
  lemma OverlappingRequestsPass(cfg: Config, now: int, email: string)
    ensures var w := Exec(cfg, Initial(now), [Ask(email), Ask(email)]);
            w.passes == [Pass(email, now), Pass(email, now)]
            && !NoOverlapOf(cfg, Initial(now), [Ask(email), Ask(email)], email)
  {
    ExecThree(cfg, Initial(now), Ask(email), Ask(email), Ask(email));
    var w := Apply(cfg, Initial(now), Ask(email));
    assert [Ask(email), Ask(email)][1..] == [Ask(email)];
    assert !NoOverlapOf(cfg, w, [Ask(email)], email);
  }
}
