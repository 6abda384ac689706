/** The string operations of Rust's `str` that the modelled code uses: `trim`,
    `split` on one character, `split_once`, and `join` on a slice of strings. */
module Text {
  import opened Prelude

  /** Unicode White_Space, the set `char::is_whitespace` answers true for. */
  predicate IsWhitespace(c: char) {
    '\U{0009}' <= c <= '\U{000D}' || c == ' ' || c == '\U{0085}' || c == '\U{00A0}'
    || c == '\U{1680}' || '\U{2000}' <= c <= '\U{200A}' || c == '\U{2028}'
    || c == '\U{2029}' || c == '\U{202F}' || c == '\U{205F}' || c == '\U{3000}'
  }

  predicate Blank(s: string) {
    forall i :: 0 <= i < |s| ==> IsWhitespace(s[i])
  }

  predicate IsTrimmed(s: string) {
    s == [] || (!IsWhitespace(s[0]) && !IsWhitespace(s[|s| - 1]))
  }

  function TrimStart(s: string): (r: string)
    ensures |r| <= |s| && s[|s| - |r|..] == r && Blank(s[..|s| - |r|])
    ensures r == [] || !IsWhitespace(r[0])
  {
    if s != [] && IsWhitespace(s[0]) then
      var r := TrimStart(s[1..]);
      assert s[..|s| - |r|] == [s[0]] + s[1..][..|s[1..]| - |r|];
      r
    else s
  }

  function TrimEnd(s: string): (r: string)
    ensures |r| <= |s| && s[..|r|] == r && Blank(s[|r|..])
    ensures r == [] || !IsWhitespace(r[|r| - 1])
  {
    if s != [] && IsWhitespace(s[|s| - 1]) then
      var r := TrimEnd(s[..|s| - 1]);
      assert s[|r|..] == s[..|s| - 1][|r|..] + [s[|s| - 1]];
      r
    else s
  }

  function Trim(s: string): (r: string)
    ensures IsTrimmed(r)
    ensures IsTrimmed(s) ==> r == s
  {
    TrimEnd(TrimStart(s))
  }

  /** Trimming leaves nothing exactly of a blank text. */
  lemma TrimsBlank(s: string)
    ensures Trim(s) == [] <==> Blank(s)
  {
    var r := TrimStart(s);
    assert forall i :: 0 <= i < |s| - |r| ==> s[..|s| - |r|][i] == s[i];
    if r != [] {
      assert s[|s| - |r|..][0] == s[|s| - |r|];
      assert r[0..] == r;
    }
  }

  lemma {:induction false} TrimStartPadded(pad: string, s: string)
    requires Blank(pad)
    ensures TrimStart(pad + s) == TrimStart(s)
  {
    if pad == [] {
      assert pad + s == s;
    } else {
      assert IsWhitespace(pad[0]);
      assert (pad + s)[1..] == pad[1..] + s;
      TrimStartPadded(pad[1..], s);
    }
  }

  lemma {:induction false} TrimEndPadded(s: string, pad: string)
    requires Blank(pad)
    ensures TrimEnd(s + pad) == TrimEnd(s)
  {
    if pad == [] {
      assert s + pad == s;
    } else {
      assert IsWhitespace(pad[|pad| - 1]);
      assert (s + pad)[..|s + pad| - 1] == s + pad[..|pad| - 1];
      TrimEndPadded(s, pad[..|pad| - 1]);
    }
  }

  /** Trimming recovers exactly the trimmed text inside any whitespace padding. */
  lemma TrimPadded(before: string, s: string, after: string)
    requires Blank(before) && Blank(after) && IsTrimmed(s)
    ensures Trim(before + s + after) == s
  {
    assert before + s + after == before + (s + after);
    TrimStartPadded(before, s + after);
    if s == [] {
      assert s + after == after + [];
      TrimStartPadded(after, []);
    } else {
      assert TrimStart(s + after) == s + after;
      TrimEndPadded(s, after);
    }
  }

  // ----- Splitting and joining, of text or of bytes -----

  predicate Free<T(==)>(s: seq<T>, c: T) {
    forall i :: 0 <= i < |s| ==> s[i] != c
  }

  /** Index of the first c in s, or |s|. */
  function Find<T(==)>(s: seq<T>, c: T): (i: nat)
    ensures i <= |s| && Free(s[..i], c)
    ensures i < |s| ==> s[i] == c
  {
    if s == [] || s[0] == c then 0
    else
      var i := Find(s[1..], c);
      assert s[..i + 1] == [s[0]] + s[1..][..i];
      i + 1
  }

  lemma FindUnique<T>(s: seq<T>, c: T, i: nat)
    requires i <= |s| && Free(s[..i], c) && (i < |s| ==> s[i] == c)
    ensures Find(s, c) == i
  {
    var j := Find(s, c);
    assert forall k :: 0 <= k < i ==> s[..i][k] == s[k];
    assert forall k :: 0 <= k < j ==> s[..j][k] == s[k];
  }

  /** The parts of s between the occurrences of c; never empty. */
  function Split<T(==)>(s: seq<T>, c: T): (parts: seq<seq<T>>)
    ensures |parts| > 0
    decreases |s|
  {
    var i := Find(s, c);
    if i < |s| then [s[..i]] + Split(s[i + 1..], c) else [s]
  }

  /** What precedes and what follows the first c. */
  function SplitOnce<T(==)>(s: seq<T>, c: T): (r: Option<(seq<T>, seq<T>)>)
    ensures r.None? <==> Free(s, c)
    ensures r.Some? ==> s == r.value.0 + [c] + r.value.1 && Free(r.value.0, c)
  {
    var i := Find(s, c);
    if i < |s| then
      assert c == s[i];
      Some((s[..i], s[i + 1..]))
    else
      assert s[..i] == s;
      None
  }

  function Join<T>(parts: seq<seq<T>>, sep: seq<T>): seq<T> {
    if parts == [] then []
    else if |parts| == 1 then parts[0]
    else parts[0] + sep + Join(parts[1..], sep)
  }

  lemma SplitOnceAt<T>(a: seq<T>, c: T, b: seq<T>)
    requires Free(a, c)
    ensures SplitOnce(a + [c] + b, c) == Some((a, b))
  {
    var s := a + [c] + b;
    assert s[..|a|] == a && s[|a|] == c && s[|a| + 1..] == b;
    FindUnique(s, c, |a|);
  }

  lemma SplitAt<T>(a: seq<T>, c: T, b: seq<T>)
    requires Free(a, c)
    ensures Split(a + [c] + b, c) == [a] + Split(b, c)
  {
    var s := a + [c] + b;
    assert s[..|a|] == a && s[|a|] == c && s[|a| + 1..] == b;
    FindUnique(s, c, |a|);
  }

  lemma SplitFree<T>(a: seq<T>, c: T)
    requires Free(a, c)
    ensures Split(a, c) == [a]
  {
    assert a[..|a|] == a;
    FindUnique(a, c, |a|);
  }

  /** Splitting undoes joining when no part holds the separator. */
  lemma {:induction false} SplitJoin<T>(parts: seq<seq<T>>, c: T)
    requires parts != [] && forall i :: 0 <= i < |parts| ==> Free(parts[i], c)
    ensures Split(Join(parts, [c]), c) == parts
  {
    if |parts| == 1 {
      SplitFree(parts[0], c);
    } else {
      SplitAt(parts[0], c, Join(parts[1..], [c]));
      SplitJoin(parts[1..], c);
    }
  }

  lemma FindInFront<T>(a: seq<T>, c: T, b: seq<T>)
    requires !Free(a, c)
    ensures Find(a + b, c) == Find(a, c) < |a|
  {
    var i := Find(a, c);
    assert a[..|a|] == a;
    assert (a + b)[..i] == a[..i];
    FindUnique(a + b, c, i);
  }

  /** Splitting goes through a separator: the parts before it, then the parts after it. */
  lemma {:induction false} SplitConcat<T>(a: seq<T>, c: T, b: seq<T>)
    ensures Split(a + [c] + b, c) == Split(a, c) + Split(b, c)
    decreases |a|
  {
    if Free(a, c) {
      SplitAt(a, c, b);
      SplitFree(a, c);
    } else {
      var i, rest := Find(a, c), [c] + b;
      FindInFront(a, c, rest);
      assert a + [c] + b == a + rest;
      assert (a + rest)[..i] == a[..i];
      assert (a + rest)[i + 1..] == a[i + 1..] + [c] + b;
      SplitConcat(a[i + 1..], c, b);
    }
  }

  /** Trimming keeps the characters it does not drop: what was free of one stays so. */
  lemma TrimKeepsFree(s: string, c: char)
    requires Free(s, c)
    ensures Free(Trim(s), c)
  {
    var r := TrimStart(s);
    assert forall i :: 0 <= i < |r| ==> r[i] == s[|s| - |r|..][i];
    var q := TrimEnd(r);
    assert forall i :: 0 <= i < |q| ==> q[i] == r[..|q|][i];
  }

  /** Blanks before a text do not count. */
  lemma TrimSpaced(s: string)
    ensures Trim([' '] + s) == Trim(s)
  {
    TrimStartPadded([' '], s);
  }
}
