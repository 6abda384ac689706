/** Reading the Cookie header and writing Set-Cookie lines: `parse_cookies` and
    `build_set_cookie` of rust/genesis-api/src/cookies.rs (RFC 6265, sections 4.1.1 and 4.2.1). */
module Cookies {
  import opened Prelude
  import opened Text
  import D = DateRange

  type Jar = map<string, string>

  // ----- Reading -----

  /** The effect of one `;`-separated part. */
  function AddPart(jar: Jar, raw: string): Jar {
    var part := Trim(raw);
    if part == [] then jar
    else
      match SplitOnce(part, '=')
      case None => jar
      case Some((k, v)) => if Trim(k) == [] then jar else jar[Trim(k) := Trim(v)]
  }

  function AddParts(parts: seq<string>): Jar {
    if parts == [] then map[] else AddPart(AddParts(parts[..|parts| - 1]), parts[|parts| - 1])
  }

  function Parse(header: Option<string>): Jar {
    match header
    case None => map[]
    case Some(raw) => AddParts(Split(raw, ';'))
  }

  method ParseCookies(header: Option<string>) returns (out: Jar)
    ensures out == Parse(header)
  {
    out := map[];
    if header.None? {
      return;
    }
    var parts := Split(header.value, ';');
    for i := 0 to |parts|
      invariant out == AddParts(parts[..i])
    {
      assert parts[..i + 1][..i] == parts[..i];
      assert AddParts(parts[..i + 1]) == AddPart(out, parts[i]);
      var part := Trim(parts[i]);
      if part != [] {
        var pair := SplitOnce(part, '=');
        if pair.Some? {
          var key := Trim(pair.value.0);
          if key != [] {
            out := out[key := Trim(pair.value.1)];
          }
        }
      }
    }
    assert parts[..|parts|] == parts;
  }

  // ----- Cookie pairs read back -----

  /** A name and value a cookie pair can carry. */
  predicate GoodPair(name: string, value: string) {
    IsTrimmed(name) && Free(name, ';') && Free(name, '=') && IsTrimmed(value) && Free(value, ';')
  }

  function Pair(name: string, value: string): string {
    name + ['='] + value
  }

  lemma TrimsToItself(s: string)
    requires IsTrimmed(s)
    ensures Trim(s) == s
  {
  }

  /** What stands between two semicolons: a cookie with any blanks around its name and its
      value, or text that holds no pair. */
  datatype Piece =
    | Cookie(before: string, name: string, left: string, right: string, value: string, after: string)
    | Stray(text: string)

  predicate Good(c: Piece) {
    match c
    case Cookie(before, name, left, right, value, after) =>
      GoodPair(name, value) && Blank(before) && Blank(left) && Blank(right) && Blank(after)
    case Stray(text) => Free(text, ';') && Free(text, '=')
  }

  function Render(c: Piece): string {
    match c
    case Cookie(before, name, left, right, value, after) =>
      before + name + left + ['='] + (right + value + after)
    case Stray(text) => text
  }

  function RenderAll(cookies: seq<Piece>): (r: seq<string>)
    ensures |r| == |cookies| && forall i :: 0 <= i < |r| ==> r[i] == Render(cookies[i])
  {
    if cookies == [] then [] else RenderAll(cookies[..|cookies| - 1]) + [Render(cookies[|cookies| - 1])]
  }

  /** The map in which the last cookie of each name counts; a nameless one never does. */
  function LastWins(cookies: seq<Piece>): Jar {
    if cookies == [] then map[]
    else
      var front, c := LastWins(cookies[..|cookies| - 1]), cookies[|cookies| - 1];
      if c.Stray? || c.name == [] then front else front[c.name := c.value]
  }

  lemma BlankIsFree(s: string, c: char)
    requires Blank(s) && !IsWhitespace(c)
    ensures Free(s, c)
  {
  }

  lemma CoreTrimmed(name: string, left: string, right: string, value: string)
    requires IsTrimmed(name) && IsTrimmed(value)
    ensures IsTrimmed((if name == [] then [] else name + left) + ['=']
                      + (if value == [] then [] else right + value))
  {
    var s := (if name == [] then [] else name + left) + ['='] + (if value == [] then [] else right + value);
    assert s[0] == if name == [] then '=' else name[0];
    assert s[|s| - 1] == if value == [] then '=' else value[|value| - 1];
  }

  /** The part of a cookie that trimming leaves, with what trimming drops around it. */
  lemma CookieCore(c: Piece) returns (lead: string, key: string, rest: string, tail: string)
    requires c.Cookie? && Good(c)
    ensures Render(c) == lead + (key + ['='] + rest) + tail && Blank(lead) && Blank(tail)
    ensures IsTrimmed(key + ['='] + rest) && Free(key, '=')
    ensures key == (if c.name == [] then [] else c.name + c.left)
    ensures rest == (if c.value == [] then [] else c.right + c.value)
  {
    BlankIsFree(c.left, '=');
    CoreTrimmed(c.name, c.left, c.right, c.value);
    hide IsTrimmed, Blank;
    lead := if c.name == [] then c.before + c.left else c.before;
    key := if c.name == [] then [] else c.name + c.left;
    rest := if c.value == [] then [] else c.right + c.value;
    tail := if c.value == [] then c.right + c.after else c.after;
  }

  /** One part adds exactly its pair, whatever blanks stand around name and value; a part
      without a name, and text without a pair, add nothing. */
  lemma PieceReads(jar: Jar, c: Piece)
    requires Good(c)
    ensures AddPart(jar, Render(c)) == if c.Stray? || c.name == [] then jar else jar[c.name := c.value]
  {
    hide AddPart;
    match c
    case Stray(text) => StrayReads(jar, text);
    case Cookie(_, _, _, _, _, _) => CookieReads(jar, c);
  }

  lemma StrayReads(jar: Jar, text: string)
    requires Free(text, '=')
    ensures AddPart(jar, text) == jar
  {
    TrimKeepsFree(text, '=');
    hide Trim;
  }

  lemma CookieReads(jar: Jar, c: Piece)
    requires c.Cookie? && Good(c)
    ensures AddPart(jar, Render(c)) == if c.name == [] then jar else jar[c.name := c.value]
  {
    hide Trim, SplitOnce, Render, IsTrimmed, Free, GoodPair, Blank;
    var lead, key, rest, tail := CookieCore(c);
    TrimPadded(lead, key + ['='] + rest, tail);
    SplitOnceAt(key, '=', rest);
    KeyAndValueTrim(c);
    assert key + ['='] + rest != [];
  }

  lemma KeyAndValueTrim(c: Piece)
    requires c.Cookie? && Good(c)
    ensures Trim(if c.name == [] then [] else c.name + c.left) == c.name
    ensures Trim(if c.value == [] then [] else c.right + c.value) == c.value
  {
    hide Trim;
    TrimsToItself([]);
    TrimPadded([], c.name, c.left);
    TrimPadded(c.right, c.value, []);
    assert [] + c.name + c.left == c.name + c.left && c.right + c.value + [] == c.right + c.value;
  }

  lemma {:induction false} RenderedReads(cookies: seq<Piece>)
    requires forall i :: 0 <= i < |cookies| ==> Good(cookies[i])
    ensures AddParts(RenderAll(cookies)) == LastWins(cookies)
  {
    if cookies != [] {
      hide AddPart, Good, Render;
      var front, c := cookies[..|cookies| - 1], cookies[|cookies| - 1];
      assert RenderAll(cookies)[..|cookies| - 1] == RenderAll(front);
      RenderedReads(front);
      PieceReads(LastWins(front), c);
    }
  }

  lemma RenderedIsFree(c: Piece)
    requires Good(c)
    ensures Free(Render(c), ';')
  {
    if c.Cookie? {
      BlankIsFree(c.before, ';');
      BlankIsFree(c.left, ';');
      BlankIsFree(c.right, ';');
      BlankIsFree(c.after, ';');
    }
  }

  /** A header of cookie pairs, with any blanks around names and values and with stray text
      among them, joined by semicolons, reads back as the last-wins map of the pairs. */
  lemma HeaderRoundTrip(cookies: seq<Piece>)
    requires forall i :: 0 <= i < |cookies| ==> Good(cookies[i])
    ensures Parse(Some(Join(RenderAll(cookies), [';']))) == LastWins(cookies)
  {
    if cookies == [] {
      EmptyHeader();
    } else {
      forall i | 0 <= i < |cookies|
        ensures Free(RenderAll(cookies)[i], ';')
      {
        RenderedIsFree(cookies[i]);
      }
      hide Good, Render;
      SplitJoin(RenderAll(cookies), ';');
      RenderedReads(cookies);
    }
  }

  lemma EmptyHeader()
    ensures Parse(Some([])) == map[] && Parse(None) == map[]
  {
    var none: string := [];
    SplitFree(none, ';');
    assert [none][..0] == [];
    assert AddParts([none]) == AddPart(AddParts([]), none);
  }

  // ----- Writing -----

  datatype SameSite = Lax | Strict

  function SameSiteText(s: SameSite): string {
    match s
    case Lax => "Lax"
    case Strict => "Strict"
  }

  datatype CookieConfig = CookieConfig(secure: bool, domainAttr: Option<string>)

  function LineParts(name: string, value: string, maxAge: Option<nat>, path: string, site: SameSite,
          cfg: CookieConfig): seq<string>
  {
    [name + "=" + value, "HttpOnly", "SameSite=" + SameSiteText(site), "Path=" + path]
    + (if cfg.domainAttr.Some? then [cfg.domainAttr.value] else [])
    + (if cfg.secure then ["Secure"] else [])
    + (if maxAge.Some? then ["Max-Age=" + D.Decimal(maxAge.value)] else [])
  }

  // ----- The pieces between the semicolons of a line -----

  function TrimAll(parts: seq<string>): (r: seq<string>)
    ensures |r| == |parts| && forall i :: 0 <= i < |r| ==> r[i] == Trim(parts[i])
  {
    if parts == [] then [] else [Trim(parts[0])] + TrimAll(parts[1..])
  }

  /** A line cut at its semicolons, each piece without the blanks around it. */
  function Pieces(line: string): seq<string> {
    TrimAll(Split(line, ';'))
  }

  lemma OnePiece(part: string)
    requires Free(part, ';')
    ensures Pieces(part) == [Trim(part)]
  {
    SplitFree(part, ';');
  }

  lemma PiecesConcat(a: string, b: string)
    ensures Pieces(a + [';'] + b) == Pieces(a) + Pieces(b)
  {
    SplitConcat(a, ';', b);
    hide Split, Trim;
  }

  lemma PiecesSpaced(s: string)
    ensures Pieces([' '] + s) == Pieces(s)
  {
    hide Trim;
    var i, t := Find(s, ';'), [' '] + s;
    assert t[..i + 1] == [' '] + s[..i];
    FindUnique(t, ';', i + 1);
    TrimSpaced(s[..i]);
    TrimSpaced(s);
    if i < |s| {
      assert t[i + 2..] == s[i + 1..];
    }
  }

  function PiecesOf(parts: seq<string>): seq<string> {
    if parts == [] then [] else Pieces(parts[0]) + PiecesOf(parts[1..])
  }

  /** A line written with semicolon and blank reads as the pieces of its parts, in order. */
  lemma {:induction false} JoinPieces(parts: seq<string>)
    requires parts != []
    ensures Pieces(Join(parts, "; ")) == PiecesOf(parts)
  {
    hide Pieces;
    if |parts| > 1 {
      var rest := Join(parts[1..], "; ");
      assert parts[0] + "; " + rest == parts[0] + [';'] + ([' '] + rest);
      PiecesConcat(parts[0], [' '] + rest);
      PiecesSpaced(rest);
      JoinPieces(parts[1..]);
    } else {
      assert PiecesOf(parts[1..]) == [];
    }
  }

  lemma {:induction false} PiecesOfConcat(a: seq<string>, b: seq<string>)
    ensures PiecesOf(a + b) == PiecesOf(a) + PiecesOf(b)
  {
    hide Pieces;
    if a == [] {
      assert a + b == b;
    } else {
      assert (a + b)[1..] == a[1..] + b;
      PiecesOfConcat(a[1..], b);
    }
  }

  lemma PiecesOfOne(part: string)
    ensures PiecesOf([part]) == Pieces(part)
  {
    assert [part][1..] == [];
    hide Pieces;
  }

  function SameSitePiece(site: SameSite): string {
    match site
    case Lax => "SameSite=Lax"
    case Strict => "SameSite=Strict"
  }

  lemma WordPiece(word: string)
    requires ';' !in word && IsTrimmed(word)
    ensures Pieces(word) == [word]
  {
    OnePiece(word);
    TrimsToItself(word);
    hide Trim, Pieces;
  }

  lemma SameSiteTrimmed(site: SameSite)
    ensures "SameSite=" + SameSiteText(site) == SameSitePiece(site)
    ensures ';' !in SameSitePiece(site) && IsTrimmed(SameSitePiece(site))
  {
  }

  lemma WordsTrimmed()
    ensures ';' !in "HttpOnly" && IsTrimmed("HttpOnly") && ';' !in "Secure" && IsTrimmed("Secure")
  {
  }

  lemma FixedPieces(site: SameSite)
    ensures Pieces("HttpOnly") == ["HttpOnly"] && Pieces("Secure") == ["Secure"]
    ensures Pieces("SameSite=" + SameSiteText(site)) == [SameSitePiece(site)]
  {
    SameSiteTrimmed(site);
    WordsTrimmed();
    hide Pieces, IsTrimmed, SameSiteText, SameSitePiece;
    WordPiece("HttpOnly");
    WordPiece("Secure");
    WordPiece(SameSitePiece(site));
  }

  function AgePiece(age: nat): string {
    "Max-Age=" + D.Decimal(age)
  }

  lemma AgeIsPiece(age: nat)
    ensures Pieces("Max-Age=" + D.Decimal(age)) == [AgePiece(age)]
  {
    D.DecimalReadsBack(age);
    hide D.Decimal, Trim, Pieces;
    assert ';' !in "Max-Age=";
    OnePiece(AgePiece(age));
    TrimsToItself(AgePiece(age));
  }

  /** The pieces of every line, whatever the arguments hold: the pair, HttpOnly, SameSite and
      Path always, the domain, Secure and Max-Age each when it is asked for, in this order. */
  lemma LinePieces(name: string, value: string, maxAge: Option<nat>, path: string, site: SameSite, cfg: CookieConfig)
    ensures Pieces(Join(LineParts(name, value, maxAge, path, site, cfg), "; ")) ==
            Pieces(name + "=" + value) + ["HttpOnly", SameSitePiece(site)] + Pieces("Path=" + path)
            + (if cfg.domainAttr.Some? then Pieces(cfg.domainAttr.value) else [])
            + (if cfg.secure then ["Secure"] else [])
            + (if maxAge.Some? then [AgePiece(maxAge.value)] else [])
  {
    hide Pieces, SameSiteText, SameSitePiece, AgePiece, D.Decimal, Join, PiecesOf;
    var parts := LineParts(name, value, maxAge, path, site, cfg);
    JoinPieces(parts);
    var head := [name + "=" + value, "HttpOnly", "SameSite=" + SameSiteText(site), "Path=" + path];
    var e := if cfg.domainAttr.Some? then [cfg.domainAttr.value] else [];
    var f := if cfg.secure then ["Secure"] else [];
    var g := if maxAge.Some? then ["Max-Age=" + D.Decimal(maxAge.value)] else [];
    assert parts == head + (e + f + g);
    hide LineParts;
    PiecesOfConcat(head, e + f + g);
    FirstFour(name, value, path, site);
    LastThree(maxAge, cfg);
  }

  lemma FirstFour(name: string, value: string, path: string, site: SameSite)
    ensures PiecesOf([name + "=" + value, "HttpOnly", "SameSite=" + SameSiteText(site), "Path=" + path])
         == Pieces(name + "=" + value) + ["HttpOnly", SameSitePiece(site)] + Pieces("Path=" + path)
  {
    FixedPieces(site);
    hide Pieces, SameSiteText, SameSitePiece;
    FourPieces(name + "=" + value, "HttpOnly", "SameSite=" + SameSiteText(site), "Path=" + path);
  }

  lemma FourPieces(a: string, b: string, c: string, d: string)
    ensures PiecesOf([a, b, c, d]) == Pieces(a) + Pieces(b) + Pieces(c) + Pieces(d)
  {
    hide Pieces;
    assert [a, b, c, d][1..] == [b, c, d] && [b, c, d][1..] == [c, d] && [c, d][1..] == [d];
    PiecesOfOne(d);
    assert PiecesOf([c, d]) == Pieces(c) + Pieces(d);
    assert PiecesOf([b, c, d]) == Pieces(b) + PiecesOf([c, d]);
  }

  lemma LastThree(maxAge: Option<nat>, cfg: CookieConfig)
    ensures PiecesOf((if cfg.domainAttr.Some? then [cfg.domainAttr.value] else [])
                     + (if cfg.secure then ["Secure"] else [])
                     + (if maxAge.Some? then ["Max-Age=" + D.Decimal(maxAge.value)] else []))
         == (if cfg.domainAttr.Some? then Pieces(cfg.domainAttr.value) else [])
            + (if cfg.secure then ["Secure"] else [])
            + (if maxAge.Some? then [AgePiece(maxAge.value)] else [])
  {
    hide Pieces, AgePiece, D.Decimal, PiecesOf;
    var e := if cfg.domainAttr.Some? then [cfg.domainAttr.value] else [];
    var f := if cfg.secure then ["Secure"] else [];
    var g := if maxAge.Some? then ["Max-Age=" + D.Decimal(maxAge.value)] else [];
    PiecesOfConcat(e + f, g);
    PiecesOfConcat(e, f);
    OptionalPieces(maxAge, cfg);
  }

  lemma OptionalPieces(maxAge: Option<nat>, cfg: CookieConfig)
    ensures PiecesOf(if cfg.domainAttr.Some? then [cfg.domainAttr.value] else [])
         == if cfg.domainAttr.Some? then Pieces(cfg.domainAttr.value) else []
    ensures PiecesOf(if cfg.secure then ["Secure"] else []) == if cfg.secure then ["Secure"] else []
    ensures PiecesOf(if maxAge.Some? then ["Max-Age=" + D.Decimal(maxAge.value)] else [])
         == if maxAge.Some? then [AgePiece(maxAge.value)] else []
  {
    hide Pieces, AgePiece, D.Decimal;
    assert PiecesOf([]) == [];
    FixedPieces(Lax);
    PiecesOfOne("Secure");
    if cfg.domainAttr.Some? {
      PiecesOfOne(cfg.domainAttr.value);
    }
    if maxAge.Some? {
      AgeIsPiece(maxAge.value);
      PiecesOfOne("Max-Age=" + D.Decimal(maxAge.value));
    }
  }

  /** Arguments without semicolons, which put exactly one piece each on the line. */
  predicate Plain(name: string, value: string, path: string, cfg: CookieConfig) {
    Free(name, ';') && Free(value, ';') && Free(path, ';')
    && (cfg.domainAttr.Some? ==> Free(cfg.domainAttr.value, ';'))
  }

  lemma PairIsNoWord(name: string, value: string)
    ensures Trim(name + "=" + value) != "Secure"
  {
    var s := name + "=" + value;
    assert s[|name|] == '=';
    assert '=' !in "Secure";
    TrimKeepsOther(s, |name|);
    hide Trim;
  }

  /** A character that is no blank stays. */
  lemma TrimKeepsOther(s: string, i: nat)
    requires i < |s| && !IsWhitespace(s[i])
    ensures s[i] in Trim(s)
  {
    var r := TrimStart(s);
    var j := i - (|s| - |r|);
    assert s[|s| - |r|..] == r;
    assert forall k :: 0 <= k < |s| - |r| ==> s[..|s| - |r|][k] == s[k];
    assert r[j] == s[i];
    var q := TrimEnd(r);
    assert forall k :: |q| <= k < |r| ==> r[|q|..][k - |q|] == r[k];
    assert q[j] == r[..|q|][j];
  }

  /** With arguments free of semicolons: how many pieces there are, and when Secure is one. */
  lemma PlainPieces(name: string, value: string, maxAge: Option<nat>, path: string, site: SameSite, cfg: CookieConfig)
    requires Plain(name, value, path, cfg)
    ensures var pieces := Pieces(Join(LineParts(name, value, maxAge, path, site, cfg), "; "));
            && |pieces| == 4 + (if cfg.domainAttr.Some? then 1 else 0) + (if cfg.secure then 1 else 0)
                             + (if maxAge.Some? then 1 else 0)
            && pieces[0] == Trim(name + "=" + value) && pieces[1] == "HttpOnly" && pieces[2] == SameSitePiece(site)
            && pieces[3] == Trim("Path=" + path)
            && (maxAge.Some? ==> pieces[|pieces| - 1] == AgePiece(maxAge.value))
            && ((cfg.domainAttr.Some? && Trim(cfg.domainAttr.value) == "Secure")
                || ("Secure" in pieces <==> cfg.secure))
  {
    LinePieces(name, value, maxAge, path, site, cfg);
    hide Trim, Join, LineParts;
    assert ';' !in "=" && ';' !in "Path=";
    OnePiece(name + "=" + value);
    OnePiece("Path=" + path);
    if cfg.domainAttr.Some? {
      OnePiece(cfg.domainAttr.value);
    }
    hide Pieces, Free;
    PairIsNoWord(name, value);
    PathIsNoWord(path);
    OtherWords(site, maxAge);
  }

  lemma PathIsNoWord(path: string)
    ensures Trim("Path=" + path) != "Secure"
  {
    TrimKeepsOther("Path=" + path, 4);
    hide Trim;
    assert '=' !in "Secure";
  }

  lemma OtherWords(site: SameSite, maxAge: Option<nat>)
    ensures SameSitePiece(site) != "Secure" && "HttpOnly" != "Secure"
    ensures maxAge.Some? ==> AgePiece(maxAge.value) != "Secure"
  {
    assert SameSitePiece(site)[1] == 'a' && "HttpOnly"[0] == 'H' && "Secure"[0] == 'S' && "Secure"[1] == 'e';
    if maxAge.Some? {
      assert AgePiece(maxAge.value)[0] == 'M';
    }
  }

  lemma LeadingPair(name: string, value: string, maxAge: Option<nat>, path: string, site: SameSite, cfg: CookieConfig)
    requires GoodPair(name, value)
    ensures var line := Join(LineParts(name, value, maxAge, path, site, cfg), "; ");
            Split(line, ';')[0] == Pair(name, value)
            && Parse(Some(Split(line, ';')[0])) == (if name == [] then map[] else map[name := value])
  {
    hide Trim, Find, AddParts, SplitOnce, IsTrimmed, LineParts;
    var rest := LineStarts(name, value, maxAge, path, site, cfg);
    var only := [Cookie([], name, [], [], value, [])];
    RenderedIsFree(only[0]);
    assert Render(only[0]) == Pair(name, value);
    SplitAt(Pair(name, value), ';', rest);
    assert RenderAll(only) == [Pair(name, value)];
    hide Render, Pair;
    HeaderRoundTrip(only);
    assert LastWins(only) == if name == [] then map[] else map[name := value] by {
      assert only[..0] == [];
    }
  }

  lemma LineStarts(name: string, value: string, maxAge: Option<nat>, path: string, site: SameSite, cfg: CookieConfig)
    returns (rest: string)
    ensures Join(LineParts(name, value, maxAge, path, site, cfg), "; ") == Pair(name, value) + [';'] + rest
  {
    var parts := LineParts(name, value, maxAge, path, site, cfg);
    assert parts[0] == Pair(name, value) && |parts| > 1;
    assert "; " == [';'] + [' '];
    rest := [' '] + Join(parts[1..], "; ");
  }

  /** `build_set_cookie`. */
  method BuildSetCookie(name: string, value: string, maxAge: Option<nat>, path: string, site: SameSite,
          cfg: CookieConfig)
    returns (line: string)
    ensures line == Join(LineParts(name, value, maxAge, path, site, cfg), "; ")
    ensures Pieces(line) ==
            Pieces(name + "=" + value) + ["HttpOnly", SameSitePiece(site)] + Pieces("Path=" + path)
            + (if cfg.domainAttr.Some? then Pieces(cfg.domainAttr.value) else [])
            + (if cfg.secure then ["Secure"] else [])
            + (if maxAge.Some? then [AgePiece(maxAge.value)] else [])
    ensures GoodPair(name, value) ==>
              Split(line, ';')[0] == Pair(name, value)
              && Parse(Some(Split(line, ';')[0])) == (if name == [] then map[] else map[name := value])
    ensures Plain(name, value, path, cfg) ==>
              && |Pieces(line)| == 4 + (if cfg.domainAttr.Some? then 1 else 0) + (if cfg.secure then 1 else 0)
                                     + (if maxAge.Some? then 1 else 0)
              && ((cfg.domainAttr.Some? && Trim(cfg.domainAttr.value) == "Secure")
                  || ("Secure" in Pieces(line) <==> cfg.secure))
  {
    var parts := [name + "=" + value, "HttpOnly", "SameSite=" + SameSiteText(site), "Path=" + path];
    if cfg.domainAttr.Some? {
      parts := parts + [cfg.domainAttr.value];
    }
    if cfg.secure {
      parts := parts + ["Secure"];
    }
    if maxAge.Some? {
      parts := parts + ["Max-Age=" + D.Decimal(maxAge.value)];
    }
    assert parts == LineParts(name, value, maxAge, path, site, cfg);
    line := Join(parts, "; ");
    hide *;
    LinePieces(name, value, maxAge, path, site, cfg);
    if GoodPair(name, value) {
      LeadingPair(name, value, maxAge, path, site, cfg);
    }
    if Plain(name, value, path, cfg) {
      PlainPieces(name, value, maxAge, path, site, cfg);
    }
  }
}
