/** The keys that decide which requests share a rate-limit counter: `profile_rate_key` and
    `scoped_actor_key` of rust/genesis-api/src/rate_limit.rs. */
module RateKeys {
  import opened Prelude
  import opened Text
  import opened DateRange

  /** A signed number as `{}` formats it. */
  function NumberText(n: int): string {
    if n < 0 then "-" + Decimal(-n) else Decimal(n)
  }

  function ProfileKey(ip: string, scope: string, userId: int): string {
    ip + ":" + scope + ":" + NumberText(userId)
  }

  function ActorKey(scope: string, userId: Option<int>, ip: string): string {
    scope + ":" + (if userId.Some? then NumberText(userId.value) else ip)
  }

  lemma NumberTextReadsBack(n: int)
    ensures Free(NumberText(n), ':') && NumberText(n) != []
    ensures n < 0 <==> NumberText(n)[0] == '-'
    ensures n < 0 ==> NumberText(n)[1..] == Decimal(-n)
  {
    DecimalReadsBack(if n < 0 then -n else n);
  }

  lemma NumberTextInjective(a: int, b: int)
    requires NumberText(a) == NumberText(b)
    ensures a == b
  {
    NumberTextReadsBack(a);
    NumberTextReadsBack(b);
    DecimalReadsBack(if a < 0 then -a else a);
    DecimalReadsBack(if b < 0 then -b else b);
  }

  /** A separator that neither head holds, or neither tail, tells the two halves apart. */
  lemma SameHead(a: string, b: string, a': string, b': string)
    requires Free(a, ':') && Free(a', ':') && a + ":" + b == a' + ":" + b'
    ensures a == a' && b == b'
  {
    SplitOnceAt(a, ':', b);
    SplitOnceAt(a', ':', b');
  }

  lemma SameTail(a: string, b: string, a': string, b': string)
    requires Free(b, ':') && Free(b', ':') && a + ":" + b == a' + ":" + b'
    ensures a == a' && b == b'
  {
    var s, s' := a + ":" + b, a' + ":" + b';
    assert s[|a|] == ':' && s[|a'|] == ':';
    assert forall i :: |a| < i < |s| ==> s[i] == b[i - |a| - 1];
    assert forall i :: |a'| < i < |s| ==> s[i] == b'[i - |a'| - 1];
    assert s[..|a|] == a && s'[..|a'|] == a';
    assert s[|a| + 1..] == b && s'[|a'| + 1..] == b';
  }

  /** One profile counter serves one address, one scope and one user, even when the address
      holds colons, as IPv6 addresses do. */
  lemma ProfileKeyInjective(ip: string, scope: string, user: int, ip': string, scope': string, user': int)
    requires Free(scope, ':') && Free(scope', ':')
    ensures ProfileKey(ip, scope, user) == ProfileKey(ip', scope', user')
       <==> ip == ip' && scope == scope' && user == user'
  {
    NumberTextReadsBack(user);
    NumberTextReadsBack(user');
    if ProfileKey(ip, scope, user) == ProfileKey(ip', scope', user') {
      SameTail(ip + ":" + scope, NumberText(user), ip' + ":" + scope', NumberText(user'));
      SameTail(ip, scope, ip', scope');
      NumberTextInjective(user, user');
    }
  }

  /** The actor a scoped key counts: the user when there is one, else the address. */
  function Actor(userId: Option<int>, ip: string): string {
    if userId.Some? then NumberText(userId.value) else ip
  }

  /** Two scoped keys are one counter exactly when scope and actor agree: the same user from any
      address, the same anonymous address, or an anonymous client whose address text is a user's number. */
  lemma ActorKeyExactly(scope: string, user: Option<int>, ip: string, scope': string, user': Option<int>, ip': string)
    requires Free(scope, ':') && Free(scope', ':')
    ensures ActorKey(scope, user, ip) == ActorKey(scope', user', ip')
       <==> scope == scope'
            && match (user, user')
               case (Some(u), Some(u')) => u == u'
               case (None, None) => ip == ip'
               case (Some(u), None) => ip' == NumberText(u)
               case (None, Some(u')) => ip == NumberText(u')
  {
    if ActorKey(scope, user, ip) == ActorKey(scope', user', ip') {
      SameHead(scope, Actor(user, ip), scope', Actor(user', ip'));
      if user.Some? && user'.Some? {
        NumberTextInjective(user.value, user'.value);
      }
    }
  }

  /** The keys as they are written. */
  lemma KeyTexts()
    ensures ProfileKey("1.2.3.4", "profile_identity", 7) == "1.2.3.4:profile_identity:7"
    ensures ActorKey("wallet", Some(7), "1.2.3.4") == "wallet:7"
    ensures ActorKey("wallet", None, "1.2.3.4") == "wallet:1.2.3.4"
    ensures NumberText(-12) == "-12"
  {
    assert Decimal(12) == Decimal(1) + [Digit(2)] && Decimal(1) == "1";
  }
}
