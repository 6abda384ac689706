/** Stock snapshots from the admin panel: `normalize_admin_stock_snapshot` of
    rust/genesis-api/src/admin_users.rs. */
module Stock {
  import opened Prelude
  import opened Text
  import opened Doubles

  /** A JSON value where a quantity is expected: a number kept as an integer, any other
      number as the double it is read as, a text with what it parses to as a float, or
      anything else. */
  datatype RawQty = Integer(n: int) | Double(x: real) | Text(parsed: Option<Float>) | Other

  datatype Float = Finite(x: real) | NotFinite

  type Entry = (string, RawQty)

  type Snapshot = map<string, int>

  const ID_MAX_LEN := 200

  predicate IdChar(c: char) {
    'a' <= c <= 'z' || 'A' <= c <= 'Z' || '0' <= c <= '9' || c == '_' || c == '.' || c == '-'
  }

  /** `is_valid_save_game_item_id`. */
  predicate ValidId(id: string) {
    1 <= |id| <= ID_MAX_LEN && forall i :: 0 <= i < |id| ==> IdChar(id[i])
  }

  function FiniteQty(raw: RawQty): Option<real> {
    match raw
    case Integer(n) => Some(RoundToDouble(n) as real)
    case Double(x) => Some(x)
    case Text(Some(Finite(x))) => Some(x)
    case _ => None
  }

  /** The whole number an entry adds, saturated to 64 bits, or none when it is skipped. */
  function Qty(raw: RawQty): (r: Option<int>)
    ensures r.Some? ==> 0 <= r.value <= I64_MAX
  {
    var n := FiniteQty(raw);
    if n.None? || n.value < 0.0 then None else Some(Saturate(n.value.Floor))
  }

  /** What an entry contributes: an id and an amount, or nothing when it is skipped. */
  type Share = Option<(string, nat)>

  function ShareOf(e: Entry): Share {
    var id := Trim(e.0);
    if ValidId(id) && Qty(e.1).Some? then Some((id, Qty(e.1).value)) else None
  }

  function MapAll<A, B>(f: A -> B, s: seq<A>): (r: seq<B>)
    ensures |r| == |s| && forall i :: 0 <= i < |r| ==> r[i] == f(s[i])
  {
    if s == [] then [] else MapAll(f, s[..|s| - 1]) + [f(s[|s| - 1])]
  }

  function SharesOf(entries: seq<Entry>): seq<Share> {
    MapAll(ShareOf, entries)
  }

  /** 64-bit addition as a release build performs it. */
  function Wrap(x: int): int {
    (x - I64_MIN) % 0x1_0000_0000_0000_0000 + I64_MIN
  }

  function WrapAdd(a: int, b: int): int {
    Wrap(a + b)
  }

  function AddShare(out: Snapshot, share: Share): Snapshot {
    match share
    case None => out
    case Some((id, qty)) => out[id := WrapAdd(if id in out then out[id] else 0, qty)]
  }

  function Collect(shares: seq<Share>): Snapshot {
    if shares == [] then map[] else AddShare(Collect(shares[..|shares| - 1]), shares[|shares| - 1])
  }

  function Normalize(entries: seq<Entry>): Snapshot {
    Collect(SharesOf(entries))
  }

  method NormalizeAdminStockSnapshot(obj: Option<seq<Entry>>) returns (out: Snapshot)
    ensures out == if obj.None? then map[] else Normalize(obj.value)
  {
    hide Trim, Qty, IdChar;
    out := map[];
    if obj.None? {
      return;
    }
    var entries := obj.value;
    ghost var shares := SharesOf(entries);
    for i := 0 to |entries|
      invariant out == Collect(shares[..i])
    {
      assert shares[..i + 1][..i] == shares[..i];
      assert shares[..i + 1][i] == ShareOf(entries[i]);
      var id := Trim(entries[i].0);
      if id != [] && ValidId(id) {
        var qty := Qty(entries[i].1);
        if qty.Some? {
          var prev := if id in out then out[id] else 0;
          out := out[id := WrapAdd(prev, qty.value)];
        }
      }
    }
    assert shares[..|entries|] == shares;
  }

  // ----- The order-free meaning -----

  predicate Gives(share: Share, id: string) {
    share.Some? && share.value.0 == id
  }

  function Amount(share: Share, id: string): nat {
    if Gives(share, id) then share.value.1 else 0
  }

  /** The exact sum of what all entries add to an id. */
  function Total(shares: seq<Share>, id: string): nat {
    if shares == [] then 0
    else Total(shares[..|shares| - 1], id) + Amount(shares[|shares| - 1], id)
  }

  predicate Given(shares: seq<Share>, id: string) {
    exists i :: 0 <= i < |shares| && Gives(shares[i], id)
  }

  lemma WrapAdds(a: int, b: int)
    ensures WrapAdd(Wrap(a), b) == Wrap(a + b)
  {
    var m := 0x1_0000_0000_0000_0000;
    var x := a - I64_MIN;
    assert Wrap(a) == x % m + I64_MIN && x == m * (x / m) + x % m;
    assert (x % m + b) % m == (x + b) % m;
  }

  lemma GivenAppended(shares: seq<Share>, id: string)
    requires shares != []
    ensures Given(shares, id) <==> Given(shares[..|shares| - 1], id) || Gives(shares[|shares| - 1], id)
  {
    var front := shares[..|shares| - 1];
    assert forall i :: 0 <= i < |front| ==> front[i] == shares[i];
    if Given(front, id) {
      var i :| 0 <= i < |front| && Gives(front[i], id);
      assert Gives(shares[i], id);
    }
  }

  lemma {:induction false} NotGivenIsZero(shares: seq<Share>, id: string)
    requires !Given(shares, id)
    ensures Total(shares, id) == 0
  {
    if shares != [] {
      GivenAppended(shares, id);
      NotGivenIsZero(shares[..|shares| - 1], id);
    }
  }

  lemma {:induction false} CollectIsTotal(shares: seq<Share>, id: string)
    ensures id in Collect(shares) <==> Given(shares, id)
    ensures id in Collect(shares) ==> Collect(shares)[id] == Wrap(Total(shares, id))
  {
    if shares != [] {
      var front, last := shares[..|shares| - 1], shares[|shares| - 1];
      CollectIsTotal(front, id);
      GivenAppended(shares, id);
      if Gives(last, id) {
        WrapAdds(Total(front, id), last.value.1);
        if id !in Collect(front) {
          NotGivenIsZero(front, id);
        }
      }
    }
  }

  /** Each id that some raw key trims to with a countable quantity is present, zero totals
      included, with the 64-bit sum of the floored quantities over all those keys. */
  lemma NormalizeIsTotal(entries: seq<Entry>, id: string)
    ensures id in Normalize(entries)
       <==> ValidId(id) && exists i :: 0 <= i < |entries| && Trim(entries[i].0) == id && Qty(entries[i].1).Some?
    ensures id in Normalize(entries) ==> Normalize(entries)[id] == Wrap(Total(SharesOf(entries), id))
  {
    hide Trim, Qty, ValidId, Collect, Total;
    var shares := SharesOf(entries);
    CollectIsTotal(shares, id);
    assert forall i :: 0 <= i < |entries| ==>
        (Gives(shares[i], id) <==> ValidId(id) && Trim(entries[i].0) == id && Qty(entries[i].1).Some?);
    if Given(shares, id) {
      var i :| 0 <= i < |shares| && Gives(shares[i], id);
      assert Trim(entries[i].0) == id;
    }
  }

  // ----- What one entry counts for -----

  /** ASCII letters, digits, underscore, dot and dash. */
  predicate Alphanumeric(c: char) {
    'a' <= c <= 'z' || 'A' <= c <= 'Z' || '0' <= c <= '9'
  }

  /** A valid id has one to two hundred characters, each a letter, a digit or one of three marks. */
  lemma ValidIdExactly(id: string)
    ensures ValidId(id) <==>
              1 <= |id| <= 200 && forall i :: 0 <= i < |id| ==> Alphanumeric(id[i]) || id[i] in {'_', '.', '-'}
  {
  }

  /** The number a raw quantity stands for, if it is finite: an integer as the double it is
      read as, a double, or a text that parses to a finite one. */
  ghost predicate StandsFor(raw: RawQty, x: real) {
    (raw.Integer? && x == RoundToDouble(raw.n) as real) || raw == Double(x) || raw == Text(Some(Finite(x)))
  }

  /** A quantity counts exactly when it stands for a number of zero or more, and then for the
      largest whole number not above it, or the largest of 64 bits. */
  lemma QtyExactly(raw: RawQty)
    ensures Qty(raw).Some? <==> exists x :: StandsFor(raw, x) && x >= 0.0
    ensures forall x :: StandsFor(raw, x) && x >= 0.0 ==>
              var q := Qty(raw).value;
              q as real <= x && (x < q as real + 1.0 || q == I64_MAX)
  {
    hide RoundToDouble;
    if Qty(raw).Some? {
      assert StandsFor(raw, FiniteQty(raw).value);
    }
  }

  /** The 64-bit sum is the only number of 64 bits that differs from the exact sum by whole
      multiples of 2^64. */
  lemma WrapExactly(x: int)
    ensures I64_MIN <= Wrap(x) <= I64_MAX && (x - Wrap(x)) % 0x1_0000_0000_0000_0000 == 0
  {
    var m := 0x1_0000_0000_0000_0000;
    var y := x - I64_MIN;
    assert x - Wrap(x) == y - y % m == m * (y / m);
  }

  // ----- Order -----

  function Sum<A>(f: A -> nat, s: seq<A>): nat {
    if s == [] then 0 else Sum(f, s[..|s| - 1]) + f(s[|s| - 1])
  }

  lemma {:induction false} SumOfConcat<A>(f: A -> nat, a: seq<A>, b: seq<A>)
    ensures Sum(f, a + b) == Sum(f, a) + Sum(f, b)
  {
    if b == [] {
      assert a + b == a;
    } else {
      assert (a + b)[..|a + b| - 1] == a + b[..|b| - 1];
      SumOfConcat(f, a, b[..|b| - 1]);
    }
  }

  lemma SumOfOne<A>(f: A -> nat, x: A)
    ensures Sum(f, [x]) == f(x)
  {
    assert [x][..0] == [];
  }

  lemma SumWithout<A>(f: A -> nat, b: seq<A>, i: nat)
    requires i < |b|
    ensures Sum(f, b) == Sum(f, b[..i] + b[i + 1..]) + f(b[i])
  {
    hide Sum;
    var front, rest := b[..i], b[i + 1..];
    assert b == (front + [b[i]]) + rest;
    SumOfConcat(f, front + [b[i]], rest);
    SumOfConcat(f, front, [b[i]]);
    SumOfOne(f, b[i]);
    SumOfConcat(f, front, rest);
  }

  lemma {:induction false} SumOfPermutation<A>(f: A -> nat, a: seq<A>, b: seq<A>)
    requires multiset(a) == multiset(b)
    ensures Sum(f, a) == Sum(f, b)
    decreases |a|
  {
    if a == [] {
      assert |multiset(b)| == 0;
    } else {
      var front, e := a[..|a| - 1], a[|a| - 1];
      assert a == front + [e];
      assert e in multiset(b);
      var i :| 0 <= i < |b| && b[i] == e;
      assert b == b[..i] + [e] + b[i + 1..];
      assert multiset(front) == multiset(a) - multiset{e};
      assert multiset(b[..i] + b[i + 1..]) == multiset(b) - multiset{e};
      SumOfPermutation(f, front, b[..i] + b[i + 1..]);
      SumWithout(f, b, i);
    }
  }

  lemma {:induction false} TotalIsSum(f: Entry -> nat, entries: seq<Entry>, id: string)
    requires forall e :: f(e) == Amount(ShareOf(e), id)
    ensures Total(SharesOf(entries), id) == Sum(f, entries)
  {
    if entries != [] {
      var front := entries[..|entries| - 1];
      TotalIsSum(f, front, id);
      assert SharesOf(entries)[..|front|] == SharesOf(front);
    }
  }

  lemma TotalOrderFree(a: seq<Entry>, b: seq<Entry>, id: string)
    requires multiset(a) == multiset(b)
    ensures Total(SharesOf(a), id) == Total(SharesOf(b), id)
  {
    var f: Entry -> nat := e => Amount(ShareOf(e), id);
    TotalIsSum(f, a, id);
    TotalIsSum(f, b, id);
    SumOfPermutation(f, a, b);
  }

  lemma SameMembers<A, B>(f: A -> B, a: seq<A>, b: seq<A>)
    requires multiset(a) == multiset(b)
    ensures forall i :: 0 <= i < |MapAll(f, a)| ==> MapAll(f, a)[i] in MapAll(f, b)
  {
    forall i | 0 <= i < |a|
      ensures MapAll(f, a)[i] in MapAll(f, b)
    {
      assert a[i] in multiset(b);
      var j :| 0 <= j < |b| && b[j] == a[i];
      assert MapAll(f, b)[j] == f(a[i]);
    }
  }

  lemma GivenInBoth(s: seq<Share>, t: seq<Share>, id: string)
    requires (forall i :: 0 <= i < |s| ==> s[i] in t) && Given(s, id)
    ensures Given(t, id)
  {
    var i :| 0 <= i < |s| && Gives(s[i], id);
    var j :| 0 <= j < |t| && t[j] == s[i];
    assert Gives(t[j], id);
  }

  lemma SameGiven(a: seq<Entry>, b: seq<Entry>, id: string)
    requires multiset(a) == multiset(b) && Given(SharesOf(a), id)
    ensures Given(SharesOf(b), id)
  {
    SameMembers(ShareOf, a, b);
    GivenInBoth(SharesOf(a), SharesOf(b), id);
  }

  lemma SameAt(a: seq<Entry>, b: seq<Entry>, id: string)
    requires multiset(a) == multiset(b)
    ensures id in Normalize(a) <==> id in Normalize(b)
    ensures id in Normalize(a) ==> Normalize(a)[id] == Normalize(b)[id]
  {
    CollectIsTotal(SharesOf(a), id);
    CollectIsTotal(SharesOf(b), id);
    TotalOrderFree(a, b, id);
    if Given(SharesOf(a), id) {
      SameGiven(a, b, id);
    } else if Given(SharesOf(b), id) {
      SameGiven(b, a, id);
    }
  }

  lemma SameMap(s: Snapshot, t: Snapshot)
    requires forall id :: (id in s <==> id in t) && (id in s ==> s[id] == t[id])
    ensures s == t
  {
  }

  /** The order in which an object's entries are visited does not matter. */
  lemma OrderFree(a: seq<Entry>, b: seq<Entry>)
    requires multiset(a) == multiset(b)
    ensures Normalize(a) == Normalize(b)
  {
    forall id
      ensures id in Normalize(a) <==> id in Normalize(b)
      ensures id in Normalize(a) ==> Normalize(a)[id] == Normalize(b)[id]
    {
      SameAt(a, b, id);
    }
    SameMap(Normalize(a), Normalize(b));
  }

  // ----- Normalising twice -----

  /** The entries of a snapshot, in any order. */
  ghost predicate Lists(s: Snapshot, entries: seq<Entry>) {
    && (forall i :: 0 <= i < |entries| ==> entries[i].0 in s && entries[i].1 == Integer(s[entries[i].0]))
    && (forall i, j :: 0 <= i < j < |entries| ==> entries[i].0 != entries[j].0)
    && forall id :: id in s ==> exists i :: 0 <= i < |entries| && entries[i].0 == id
  }

  lemma WrapRange(x: int)
    ensures I64_MIN <= Wrap(x) <= I64_MAX
    ensures I64_MIN <= x <= I64_MAX ==> Wrap(x) == x
  {
  }

  /** What a stored total is read back as: the nearest double, saturated to 64 bits. */
  function ReadBack(n: nat): nat {
    Saturate(RoundToDouble(n))
  }

  lemma WholeFloor(n: int)
    ensures (n as real).Floor == n
  {
  }

  lemma IntegerShare(key: string, id: string, n: int)
    requires Trim(key) == id && ValidId(id)
    ensures ShareOf((key, Integer(n))) == if n >= 0 then Some((id, ReadBack(n))) else None
  {
    RoundKeepsSign(n);
    WholeFloor(RoundToDouble(n));
    hide RoundToDouble, Trim;
  }

  /** A negative total does not read back at all. */
  lemma StoredShare(id: string, n: int)
    requires ValidId(id)
    ensures ShareOf((id, Integer(n))) == if n >= 0 then Some((id, ReadBack(n))) else None
  {
    hide Trim;
    assert IsTrimmed(id);
    IntegerShare(id, id, n);
  }

  /** When an id is given by one share only, its total is that share's amount. */
  lemma {:induction false} TotalOfOne(shares: seq<Share>, id: string, k: nat)
    requires k < |shares| && forall i :: 0 <= i < |shares| && i != k ==> !Gives(shares[i], id)
    ensures Total(shares, id) == Amount(shares[k], id)
  {
    var n := |shares| - 1;
    if k < n {
      TotalOfOne(shares[..n], id, k);
    } else {
      assert !Given(shares[..n], id);
      NotGivenIsZero(shares[..n], id);
    }
  }

  /** The shares of a snapshot's entries: each non-negative total once, as it reads back. */
  ghost predicate Stored(s: Snapshot, entries: seq<Entry>, shares: seq<Share>) {
    |shares| == |entries|
    && forall i :: 0 <= i < |shares| ==>
         entries[i].0 in s
         && shares[i] == if s[entries[i].0] >= 0 then Some((entries[i].0, ReadBack(s[entries[i].0]))) else None
  }

  lemma StoredShares(s: Snapshot, entries: seq<Entry>)
    requires Lists(s, entries) && forall key :: key in s ==> ValidId(key) && I64_MIN <= s[key] <= I64_MAX
    ensures Stored(s, entries, SharesOf(entries))
  {
    forall i | 0 <= i < |entries|
      ensures SharesOf(entries)[i]
           == if s[entries[i].0] >= 0 then Some((entries[i].0, ReadBack(s[entries[i].0]))) else None
    {
      StoredShare(entries[i].0, s[entries[i].0]);
    }
  }

  lemma TwiceAt(s: Snapshot, entries: seq<Entry>, shares: seq<Share>, id: string)
    requires Lists(s, entries) && Stored(s, entries, shares)
    ensures Given(shares, id) <==> id in s && s[id] >= 0
    ensures Given(shares, id) ==> Total(shares, id) == ReadBack(s[id])
  {
    hide ReadBack;
    if id in s {
      var k :| 0 <= k < |entries| && entries[k].0 == id;
      assert Gives(shares[k], id) <==> s[id] >= 0;
      TotalOfOne(shares, id, k);
    }
  }

  /** What normalising a snapshot's own entries gives: the non-negative totals, each as it
      reads back. */
  function Renormalized(s: Snapshot): Snapshot {
    map id | id in s && s[id] >= 0 :: ReadBack(s[id])
  }

  lemma ReadBackFits(n: nat)
    ensures ReadBack(n) <= I64_MAX
  {
  }

  lemma CollectStored(s: Snapshot, entries: seq<Entry>, shares: seq<Share>)
    requires Lists(s, entries) && Stored(s, entries, shares)
    ensures Collect(shares) == Renormalized(s)
  {
    hide ReadBack;
    forall id
      ensures id in Collect(shares) <==> id in Renormalized(s)
      ensures id in Collect(shares) ==> Collect(shares)[id] == Renormalized(s)[id]
    {
      CollectIsTotal(shares, id);
      TwiceAt(s, entries, shares, id);
      WrapRange(Total(shares, id));
      if id in s && s[id] >= 0 {
        ReadBackFits(s[id]);
      }
    }
    SameMap(Collect(shares), Renormalized(s));
  }

  /** A total that normalising again leaves as it is. */
  predicate Survives(n: int) {
    n >= 0 && ReadBack(n) == n
  }

  /** Those are the non-negative totals of at most 53 significant bits, and the largest of all. */
  lemma SurvivesExactly(n: int)
    requires I64_MIN <= n <= I64_MAX
    ensures Survives(n) <==> n >= 0 && (IsDouble(n) || n == I64_MAX)
    ensures 0 <= n <= TWO_53 ==> Survives(n)
  {
    RoundsToItself(n);
    if 0 <= n <= TWO_53 {
      ExactUpTo(n);
    }
    if n == I64_MAX {
      MaxRoundsUp();
    } else if n >= 0 && ReadBack(n) == n {
      RoundIsNearest(n, 0);
    }
  }

  lemma MaxRoundsUp()
    ensures RoundToDouble(I64_MAX) == I64_MAX + 1
  {
    assert I64_MAX == 1023 * 0x20_0000_0000_0000 + 0x1F_FFFF_FFFF_FFFF;
  }

  /** Normalising the entries of a result gives the totals that are not negative, as they
      read back; so it gives the result itself exactly when every total survives. */
  lemma NormalizeTwice(raw: seq<Entry>, entries: seq<Entry>)
    requires Lists(Normalize(raw), entries)
    ensures Normalize(entries) == Renormalized(Normalize(raw))
    ensures Normalize(entries) == Normalize(raw) <==> forall id :: id in Normalize(raw) ==> Survives(Normalize(raw)[id])
  {
    var s := Normalize(raw);
    forall id | id in s
      ensures ValidId(id) && I64_MIN <= s[id] <= I64_MAX
    {
      NormalizeIsTotal(raw, id);
      WrapRange(Total(SharesOf(raw), id));
    }
    StoredShares(s, entries);
    CollectStored(s, entries, SharesOf(entries));
    SameExactly(s);
  }

  lemma SameExactly(s: Snapshot)
    ensures Renormalized(s) == s <==> forall id :: id in s ==> Survives(s[id])
  {
    hide ReadBack;
    if forall id :: id in s ==> Survives(s[id]) {
      SameMap(Renormalized(s), s);
    } else {
      var id :| id in s && !Survives(s[id]);
      assert id in Renormalized(s) ==> Renormalized(s)[id] == ReadBack(s[id]);
    }
  }

  /** No total wraps when the exact sums fit 64 bits. */
  lemma FittingTotals(raw: seq<Entry>, id: string)
    requires id in Normalize(raw) && Total(SharesOf(raw), id) <= I64_MAX
    ensures Normalize(raw)[id] == Total(SharesOf(raw), id)
  {
    NormalizeIsTotal(raw, id);
    WrapRange(Total(SharesOf(raw), id));
  }

  // ----- Two totals that do not survive -----

  lemma KeysTrim()
    ensures Trim("a") == "a" && Trim("a ") == "a" && ValidId("a")
  {
    hide Trim;
    assert "a " == [] + "a" + " ";
    TrimPadded([], "a", " ");
  }

  lemma CollectTwo(x: Share, y: Share)
    ensures Collect([x]) == AddShare(map[], x)
    ensures Collect([x, y]) == AddShare(AddShare(map[], x), y)
  {
    assert [x][..0] == [] && [x, y][..1] == [x];
    assert Collect([]) == map[];
  }

  lemma SharesOfTwo(x: Entry, y: Entry)
    ensures SharesOf([x]) == [ShareOf(x)] && SharesOf([x, y]) == [ShareOf(x), ShareOf(y)]
  {
    hide ShareOf;
  }

  lemma SmallReadBack()
    ensures ReadBack(TWO_53) == TWO_53 && ReadBack(1) == 1 && ReadBack(TWO_53 + 1) == TWO_53
  {
    ExactUpTo(TWO_53);
    ExactUpTo(1);
    hide RoundToDouble;
  }

  lemma SpelledShares()
    ensures ShareOf(("a", Integer(TWO_53))) == Some(("a", TWO_53))
    ensures ShareOf(("a ", Integer(1))) == Some(("a", 1))
    ensures ShareOf(("a", Integer(TWO_53 + 1))) == Some(("a", TWO_53))
  {
    KeysTrim();
    SmallReadBack();
    hide Trim, ValidId, ReadBack, ShareOf;
    IntegerShare("a", "a", TWO_53);
    IntegerShare("a ", "a", 1);
    IntegerShare("a", "a", TWO_53 + 1);
  }

  /** 2^53 and 1 under two spellings of one id make 2^53 + 1, which reads back as 2^53. */
  lemma RoundedTotalChanges()
    ensures Normalize([("a", Integer(TWO_53)), ("a ", Integer(1))]) == map["a" := TWO_53 + 1]
    ensures Normalize([("a", Integer(TWO_53 + 1))]) == map["a" := TWO_53]
  {
    var x, y, z := ("a", Integer(TWO_53)), ("a ", Integer(1)), ("a", Integer(TWO_53 + 1));
    SpelledShares();
    hide ShareOf, SharesOf, Collect;
    SharesOfTwo(x, y);
    SharesOfTwo(z, y);
    CollectTwo(ShareOf(x), ShareOf(y));
    CollectTwo(ShareOf(z), ShareOf(y));
  }

  lemma HugeShare(key: string)
    requires Trim(key) == "a"
    ensures ShareOf((key, Double(9223372036854775808.0))) == Some(("a", I64_MAX))
  {
    KeysTrim();
    WholeFloor(I64_MAX + 1);
    hide Trim;
  }

  /** Two quantities of 2^63, each saturated, wrap to -2, which does not read back. */
  lemma WrappedTotalVanishes()
    ensures Normalize([("a", Double(9223372036854775808.0)), ("a ", Double(9223372036854775808.0))]) == map["a" := -2]
    ensures Normalize([("a", Integer(-2))]) == map[]
  {
    var x, y := ("a", Double(9223372036854775808.0)), ("a ", Double(9223372036854775808.0));
    var z := ("a", Integer(-2));
    KeysTrim();
    hide Trim, ValidId, RoundToDouble, ShareOf, SharesOf, Collect;
    HugeShare("a");
    HugeShare("a ");
    IntegerShare("a", "a", -2);
    SharesOfTwo(x, y);
    SharesOfTwo(z, y);
    CollectTwo(ShareOf(x), ShareOf(y));
    CollectTwo(ShareOf(z), ShareOf(y));
  }
}
