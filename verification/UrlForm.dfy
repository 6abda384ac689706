/** Percent-encoding of tokens (`percent_encode_token`, rust/genesis-auth/src/mail.rs) and
    form decoding (`url_form_decode` and the form branch of `parse_zerads_body`,
    rust/genesis-api/src/player.rs), on bytes. */
module UrlForm {
  import opened Prelude
  import opened Text

  type Byte = b: int | 0 <= b < 256

  const PERCENT: Byte := 0x25
  const PLUS: Byte := 0x2B
  const SPACE: Byte := 0x20
  const AMP: Byte := 0x26
  const EQ: Byte := 0x3D

  // ----- Encoding (RFC 3986, sections 2.1 and 2.3; `!`, `*`, `'`, `(` and `)` are kept too) -----

  predicate Kept(b: Byte) {
    0x41 <= b <= 0x5A || 0x61 <= b <= 0x7A || 0x30 <= b <= 0x39
    || b == 0x2D || b == 0x5F || b == 0x2E || b == 0x21 || b == 0x7E || b == 0x2A
    || b == 0x27 || b == 0x28 || b == 0x29
  }

  /** An upper-case hexadecimal digit. */
  function HexDigit(n: int): Byte
    requires 0 <= n < 16
  {
    if n < 10 then 0x30 + n else 0x41 + (n - 10)
  }

  function EncodeByte(b: Byte): seq<Byte> {
    if Kept(b) then [b] else [PERCENT, HexDigit(b / 16), HexDigit(b % 16)]
  }

  function Encode(bytes: seq<Byte>): seq<Byte> {
    if bytes == [] then [] else EncodeByte(bytes[0]) + Encode(bytes[1..])
  }

  lemma {:induction false} EncodeAppends(bytes: seq<Byte>, b: Byte)
    ensures Encode(bytes + [b]) == Encode(bytes) + EncodeByte(b)
  {
    if bytes == [] {
      assert bytes + [b] == [b] && [b][1..] == [];
      assert Encode([b]) == EncodeByte(b) + Encode([]);
    } else {
      assert (bytes + [b])[1..] == bytes[1..] + [b];
      EncodeAppends(bytes[1..], b);
    }
  }

  method PercentEncodeToken(token: seq<Byte>) returns (out: seq<Byte>)
    ensures out == Encode(token)
  {
    out := [];
    for i := 0 to |token|
      invariant out == Encode(token[..i])
    {
      var b := token[i];
      assert token[..i + 1] == token[..i] + [b];
      EncodeAppends(token[..i], b);
      if Kept(b) {
        out := out + [b];
      } else {
        out := out + [PERCENT, HexDigit(b / 16), HexDigit(b % 16)];
      }
    }
    assert token[..|token|] == token;
  }

  const UPPER := "0123456789ABCDEF"
  const LOWER := "0123456789abcdef"

  /** ASCII letters, digits and nine marks. */
  predicate Unescaped(c: char) {
    'A' <= c <= 'Z' || 'a' <= c <= 'z' || '0' <= c <= '9'
    || c in {'-', '_', '.', '!', '~', '*', '\'', '(', ')'}
  }

  /** The bytes kept as they are are these characters and no others. */
  lemma KeptExactly(b: Byte)
    ensures Kept(b) <==> Unescaped(b as char)
  {
  }

  lemma UpperDigit(n: nat)
    requires n < 16
    ensures HexDigit(n) == UPPER[n] as int
  {
  }

  /** What each byte becomes: itself, or a percent sign and two upper-case digits. */
  lemma ByteEncodes(b: Byte)
    ensures EncodeByte(b) ==
            if Unescaped(b as char) then [b] else [0x25, UPPER[b / 16] as int, UPPER[b % 16] as int]
  {
    KeptExactly(b);
    UpperDigit(b / 16);
    UpperDigit(b % 16);
    hide Kept, HexDigit, Unescaped, UPPER;
  }

  // ----- Decoding -----

  function HexValue(b: Byte): Option<int> {
    if 0x30 <= b <= 0x39 then Some(b - 0x30)
    else if 0x41 <= b <= 0x46 then Some(b - 0x41 + 10)
    else if 0x61 <= b <= 0x66 then Some(b - 0x61 + 10)
    else None
  }

  function HexPair(a: Byte, b: Byte): Option<Byte> {
    match (HexValue(a), HexValue(b))
    case (Some(x), Some(y)) => Some(16 * x + y)
    case _ => None
  }

  function PlusToSpace(raw: seq<Byte>): (r: seq<Byte>)
    ensures |r| == |raw| && forall i :: 0 <= i < |raw| ==> r[i] == if raw[i] == PLUS then SPACE else raw[i]
  {
    if raw == [] then [] else [if raw[0] == PLUS then SPACE else raw[0]] + PlusToSpace(raw[1..])
  }

  /** A byte inside a UTF-8 character but not its first. */
  predicate Continuation(b: Byte) {
    0x80 <= b < 0xC0
  }

  /** Where a text may be cut; a cut anywhere else panics. */
  predicate Boundary(text: seq<Byte>, i: nat)
    requires i <= |text|
  {
    i == |text| || !Continuation(text[i])
  }

  /** Decoding from position i on; no value when a slice would cut a character. */
  function DecodeFrom(text: seq<Byte>, i: nat): (r: Option<string>)
    requires i <= |text|
    decreases |text| - i
  {
    if i == |text| then Some([])
    else if text[i] == PERCENT && i + 2 < |text| then
      if !Boundary(text, i + 1) || !Boundary(text, i + 3) then None
      else
        match HexPair(text[i + 1], text[i + 2])
        case Some(n) => Prepend(n, DecodeFrom(text, i + 3))
        case None => Prepend(text[i], DecodeFrom(text, i + 1))
    else Prepend(text[i], DecodeFrom(text, i + 1))
  }

  function Prepend(b: Byte, rest: Option<string>): Option<string> {
    if rest.None? then None else Some([b as char] + rest.value)
  }

  function Decode(raw: seq<Byte>): Option<string> {
    DecodeFrom(PlusToSpace(raw), 0)
  }

  /** What `out` holds after the first part of a decode. */
  function Append(out: string, rest: Option<string>): Option<string> {
    if rest.None? then None else Some(out + rest.value)
  }

  lemma AppendStep(out: string, b: Byte, rest: Option<string>)
    ensures Append([], rest) == rest
    ensures Append(out, Prepend(b, rest)) == Append(out + [b as char], rest)
  {
    if rest.Some? {
      assert [] + rest.value == rest.value;
      assert out + ([b as char] + rest.value) == out + [b as char] + rest.value;
    }
  }

  method UrlFormDecode(raw: seq<Byte>) returns (r: Option<string>)
    ensures r == Decode(raw)
  {
    var text := PlusToSpace(raw);
    var out: string := [];
    var i := 0;
    AppendStep([], 0, DecodeFrom(text, 0));
    while i < |text|
      invariant i <= |text|
      invariant Decode(raw) == Append(out, DecodeFrom(text, i))
    {
      if text[i] == PERCENT && i + 2 < |text| {
        if !Boundary(text, i + 1) || !Boundary(text, i + 3) {
          return None;
        }
        var n := HexPair(text[i + 1], text[i + 2]);
        if n.Some? {
          AppendStep(out, n.value, DecodeFrom(text, i + 3));
          out := out + [n.value as char];
          i := i + 3;
          continue;
        }
      }
      AppendStep(out, text[i], DecodeFrom(text, i + 1));
      out := out + [text[i] as char];
      i := i + 1;
    }
    assert out + [] == out;
    r := Some(out);
  }

  /** The characters whose codes are the given bytes. */
  function Chars(bytes: seq<Byte>): (r: string)
    ensures |r| == |bytes| && forall i :: 0 <= i < |bytes| ==> r[i] as int == bytes[i]
  {
    if bytes == [] then [] else [bytes[0] as char] + Chars(bytes[1..])
  }

  lemma HexReadsBack(b: Byte)
    ensures HexPair(HexDigit(b / 16), HexDigit(b % 16)) == Some(b)
    ensures !Continuation(HexDigit(b / 16))
  {
    assert HexValue(HexDigit(b / 16)) == Some(b / 16);
    assert HexValue(HexDigit(b % 16)) == Some(b % 16);
  }

  lemma EncodedByteDecodes(b: Byte, rest: seq<Byte>)
    requires rest == [] || !Continuation(rest[0])
    ensures DecodeFrom(EncodeByte(b) + rest, 0) == Prepend(b, DecodeFrom(EncodeByte(b) + rest, |EncodeByte(b)|))
  {
    var text := EncodeByte(b) + rest;
    if Kept(b) {
      assert text[0] == b && b != PERCENT;
    } else {
      HexReadsBack(b);
      assert text[0] == PERCENT && text[1] == HexDigit(b / 16) && text[2] == HexDigit(b % 16);
      assert Boundary(text, 1) && Boundary(text, 3);
    }
  }

  lemma {:induction false} DecodeSuffix(front: seq<Byte>, rest: seq<Byte>, i: nat)
    requires i <= |rest|
    ensures DecodeFrom(front + rest, |front| + i) == DecodeFrom(rest, i)
    decreases |rest| - i
  {
    var text := front + rest;
    if i < |rest| {
      assert text[|front| + i] == rest[i];
      if rest[i] == PERCENT && i + 2 < |rest| {
        assert text[|front| + i + 1] == rest[i + 1] && text[|front| + i + 2] == rest[i + 2];
        assert i + 3 < |rest| ==> text[|front| + i + 3] == rest[i + 3];
        DecodeSuffix(front, rest, i + 3);
      }
      DecodeSuffix(front, rest, i + 1);
    }
  }

  /** Encoded text is plain: no plus, ampersand or equals sign, and nothing beyond ASCII. */
  lemma {:induction false} EncodedIsPlain(bytes: seq<Byte>)
    ensures forall i :: 0 <= i < |Encode(bytes)| ==>
              var b := Encode(bytes)[i]; b < 0x80 && b != PLUS && b != AMP && b != EQ
  {
    if bytes != [] {
      EncodedIsPlain(bytes[1..]);
    }
  }

  lemma {:induction false} EncodedDecodesFrom(bytes: seq<Byte>)
    ensures DecodeFrom(Encode(bytes), 0) == Some(Chars(bytes))
  {
    if bytes != [] {
      var rest := Encode(bytes[1..]);
      EncodedIsPlain(bytes[1..]);
      EncodedByteDecodes(bytes[0], rest);
      DecodeSuffix(EncodeByte(bytes[0]), rest, 0);
      EncodedDecodesFrom(bytes[1..]);
    }
  }

  /** Decoding undoes encoding for every byte string. */
  lemma RoundTrip(bytes: seq<Byte>)
    ensures Decode(Encode(bytes)) == Some(Chars(bytes))
  {
    EncodedIsPlain(bytes);
    assert PlusToSpace(Encode(bytes)) == Encode(bytes);
    EncodedDecodesFrom(bytes);
  }

  // ----- What any input decodes to -----

  /** A hexadecimal digit of either case, by its value. */
  function DigitByte(n: nat, upper: bool): Byte
    requires n < 16
  {
    if upper then UPPER[n] as int else LOWER[n] as int
  }

  predicate IsHexByte(b: Byte) {
    var c := b as char;
    '0' <= c <= '9' || 'A' <= c <= 'F' || 'a' <= c <= 'f'
  }

  /** Exactly the sixteen digits count, in both cases, each for its value. */
  lemma HexValueExactly(b: Byte)
    ensures HexValue(b).Some? <==> IsHexByte(b)
  {
  }

  lemma DigitValue(n: nat, upper: bool)
    requires n < 16
    ensures HexValue(DigitByte(n, upper)) == Some(n)
    ensures DigitByte(n, upper) != 0x2B && !Continuation(DigitByte(n, upper))
  {
  }

  /** A form text as a reader sees it: bytes standing for themselves, plus signs, and
      numbered bytes in digits of either case. */
  datatype Item = Raw(b: Byte) | Plus | Numbered(n: Byte, upperHigh: bool, upperLow: bool)

  function ItemText(item: Item): seq<Byte> {
    match item
    case Raw(b) => [b]
    case Plus => [0x2B]
    case Numbered(n, h, l) => [0x25, DigitByte(n / 16, h), DigitByte(n % 16, l)]
  }

  function ItemChar(item: Item): char {
    match item
    case Raw(b) => b as char
    case Plus => ' '
    case Numbered(n, _, _) => n as char
  }

  function ItemsText(items: seq<Item>): seq<Byte> {
    if items == [] then [] else ItemText(items[0]) + ItemsText(items[1..])
  }

  function ItemsChars(items: seq<Item>): string {
    if items == [] then [] else [ItemChar(items[0])] + ItemsChars(items[1..])
  }

  predicate TwoDigitsFollow(text: seq<Byte>) {
    |text| >= 2 && IsHexByte(text[0]) && IsHexByte(text[1])
  }

  /** A byte stands for itself unless it is a plus sign, or a percent sign with two digits after it. */
  predicate WellFormed(items: seq<Item>) {
    items == [] ||
    (WellFormed(items[1..])
     && (items[0].Raw? ==>
           items[0].b != 0x2B && (items[0].b == 0x25 ==> !TwoDigitsFollow(ItemsText(items[1..])))))
  }

  /** The text with its plus signs as blanks, item by item. */
  function Blanked(items: seq<Item>): seq<Byte> {
    if items == [] then [] else (if items[0].Plus? then [SPACE] else ItemText(items[0])) + Blanked(items[1..])
  }

  lemma DigitBytes(n: Byte, h: bool, l: bool)
    ensures HexPair(DigitByte(n / 16, h), DigitByte(n % 16, l)) == Some(n)
    ensures DigitByte(n / 16, h) != 0x2B && DigitByte(n % 16, l) != 0x2B
    ensures !Continuation(DigitByte(n / 16, h))
  {
    DigitValue(n / 16, h);
    DigitValue(n % 16, l);
    hide DigitByte, Continuation, HexValue;
  }

  lemma PlusBlankedConcat(a: seq<Byte>, b: seq<Byte>)
    ensures PlusToSpace(a + b) == PlusToSpace(a) + PlusToSpace(b)
  {
  }

  lemma {:induction false} BlankedIsPlusToSpace(items: seq<Item>)
    requires WellFormed(items)
    ensures PlusToSpace(ItemsText(items)) == Blanked(items)
  {
    if items != [] {
      BlankedIsPlusToSpace(items[1..]);
      PlusBlankedConcat(ItemText(items[0]), ItemsText(items[1..]));
      ItemBlanked(items[0]);
      hide PlusToSpace, ItemText;
    }
  }

  lemma ItemBlanked(item: Item)
    requires item.Raw? ==> item.b != 0x2B
    ensures PlusToSpace(ItemText(item)) == if item.Plus? then [SPACE] else ItemText(item)
  {
    if item.Numbered? {
      DigitBytes(item.n, item.upperHigh, item.upperLow);
      hide DigitByte;
    }
  }

  /** No percent sign of the text stands before a character a two-byte slice would cut. */
  ghost predicate NoCut(text: seq<Byte>) {
    forall k :: 0 <= k < |text| ==> !CutsCharacter(text, k)
  }

  lemma CutOfSuffix(front: seq<Byte>, rest: seq<Byte>)
    requires NoCut(front + rest)
    ensures NoCut(rest)
  {
    var text := front + rest;
    forall k | 0 <= k < |rest|
      ensures !CutsCharacter(rest, k)
    {
      assert !CutsCharacter(text, |front| + k);
      assert text[|front| + k] == rest[k];
      assert k + 1 < |rest| ==> text[|front| + k + 1] == rest[k + 1];
      assert k + 3 < |rest| ==> text[|front| + k + 3] == rest[k + 3];
    }
  }

  lemma DigitsOfBlanked(items: seq<Item>)
    requires WellFormed(items)
    ensures TwoDigitsFollow(Blanked(items)) <==> TwoDigitsFollow(ItemsText(items))
  {
    BlankedIsPlusToSpace(items);
    NoDigitSigns();
    hide IsHexByte, Blanked, ItemsText, WellFormed;
  }

  lemma NoDigitSigns()
    ensures !IsHexByte(0x2B) && !IsHexByte(0x20)
  {
  }

  /** One item decodes to its character, and decoding goes on after it. */
  lemma ItemDecodes(item: Item, rest: seq<Byte>)
    requires item.Raw? && item.b == 0x25 ==> !TwoDigitsFollow(rest)
    requires NoCut((if item.Plus? then [SPACE] else ItemText(item)) + rest)
    ensures var head := if item.Plus? then [SPACE] else ItemText(item);
            DecodeFrom(head + rest, 0) ==
            (if DecodeFrom(rest, 0).None? then None else Some([ItemChar(item)] + DecodeFrom(rest, 0).value))
  {
    var head := if item.Plus? then [SPACE] else ItemText(item);
    var text := head + rest;
    assert !CutsCharacter(text, 0);
    DecodeSuffix(head, rest, 0);
    match item
    case Raw(b) => RawDecodes(b, rest);
    case Plus =>
    case Numbered(n, h, l) =>
      DigitBytes(n, h, l);
      hide DigitByte, HexPair;
      assert text[0] == PERCENT && text[1] == DigitByte(n / 16, h) && text[2] == DigitByte(n % 16, l);
  }

  lemma RawDecodes(b: Byte, rest: seq<Byte>)
    requires b == 0x25 ==> !TwoDigitsFollow(rest)
    requires !CutsCharacter([b] + rest, 0)
    ensures DecodeFrom([b] + rest, 0) == Prepend(b, DecodeFrom([b] + rest, 1))
  {
    var text := [b] + rest;
    if b == PERCENT && |rest| >= 2 {
      assert text[1] == rest[0] && text[2] == rest[1];
      HexValueExactly(rest[0]);
      HexValueExactly(rest[1]);
      hide HexValue, IsHexByte;
    }
  }

  lemma {:induction false} BlankedDecodes(items: seq<Item>)
    requires WellFormed(items) && NoCut(Blanked(items))
    ensures DecodeFrom(Blanked(items), 0) == Some(ItemsChars(items))
  {
    if items != [] {
      var head := if items[0].Plus? then [SPACE] else ItemText(items[0]);
      var rest := Blanked(items[1..]);
      CutOfSuffix(head, rest);
      BlankedDecodes(items[1..]);
      DigitsOfBlanked(items[1..]);
      hide NoCut, TwoDigitsFollow, ItemText, ItemChar;
      ItemDecodes(items[0], rest);
    }
  }

  lemma CutOfPlusToSpace(raw: seq<Byte>)
    ensures NoCut(raw) <==> NoCut(PlusToSpace(raw))
  {
    var text := PlusToSpace(raw);
    forall k | 0 <= k < |raw|
      ensures CutsCharacter(text, k) <==> CutsCharacter(raw, k)
    {
    }
    hide CutsCharacter;
  }

  /** What any text of items decodes to: each byte itself, a plus sign a blank, a numbered
      byte the character of that number, a percent sign without two digits after it itself. */
  lemma ItemsDecode(items: seq<Item>)
    requires WellFormed(items) && NoCut(ItemsText(items))
    ensures Decode(ItemsText(items)) == Some(ItemsChars(items))
  {
    BlankedIsPlusToSpace(items);
    CutOfPlusToSpace(ItemsText(items));
    BlankedDecodes(items);
  }

  /** Every text is a text of items. */
  lemma {:induction false} SplitsIntoItems(raw: seq<Byte>) returns (items: seq<Item>)
    ensures WellFormed(items) && ItemsText(items) == raw
    decreases |raw|
  {
    if raw == [] {
      items := [];
    } else if raw[0] == 0x25 && TwoDigitsFollow(raw[1..]) {
      var rest := SplitsIntoItems(raw[3..]);
      var item := NumberedOf(raw[1], raw[2]);
      items := [item] + rest;
      assert items[1..] == rest;
      assert raw == [0x25, raw[1], raw[2]] + raw[3..];
    } else {
      var rest := SplitsIntoItems(raw[1..]);
      items := [if raw[0] == 0x2B then Plus else Raw(raw[0])] + rest;
      assert items[1..] == rest;
      assert raw == [raw[0]] + raw[1..];
    }
  }

  lemma TwoNibbles(n: Byte, x: nat, y: nat)
    requires y < 16 && n == 16 * x + y
    ensures n / 16 == x && n % 16 == y
  {
  }

  lemma NumberedOf(a: Byte, b: Byte) returns (item: Item)
    requires IsHexByte(a) && IsHexByte(b)
    ensures item.Numbered? && ItemText(item) == [0x25, a, b]
  {
    var x, upper := DigitOf(a);
    var y, upper' := DigitOf(b);
    hide DigitByte, IsHexByte;
    var n: Byte := 16 * x + y;
    TwoNibbles(n, x, y);
    item := Numbered(n, upper, upper');
  }

  lemma DigitOf(b: Byte) returns (n: nat, upper: bool)
    requires IsHexByte(b)
    ensures n < 16 && DigitByte(n, upper) == b
  {
    upper := b <= 0x46;
    n := if b <= 0x39 then b - 0x30 else if b <= 0x46 then b - 0x37 else b - 0x57;
  }

  // ----- When decoding panics -----

  /** A percent sign whose next two bytes are not whole characters. */
  predicate CutsCharacter(text: seq<Byte>, i: nat)
    requires i < |text|
  {
    text[i] == PERCENT && i + 2 < |text| && (!Boundary(text, i + 1) || !Boundary(text, i + 3))
  }

  lemma {:induction false} DecodesFromExactly(text: seq<Byte>, i: nat)
    requires i <= |text|
    ensures DecodeFrom(text, i).None? <==> exists k :: i <= k < |text| && CutsCharacter(text, k)
    decreases |text| - i
  {
    if i < |text| && !CutsCharacter(text, i) {
      if text[i] == PERCENT && i + 2 < |text| && HexPair(text[i + 1], text[i + 2]).Some? {
        DecodesFromExactly(text, i + 3);
        assert text[i + 1] != PERCENT && text[i + 2] != PERCENT;
        assert forall k :: i <= k < |text| && CutsCharacter(text, k) ==> k >= i + 3;
      } else {
        DecodesFromExactly(text, i + 1);
        assert forall k :: i <= k < |text| && CutsCharacter(text, k) ==> k >= i + 1;
      }
    }
  }

  /** Decoding yields a text exactly when no percent sign of the input stands before a
      character it would cut; in particular for every ASCII input. */
  lemma DecodesExactly(raw: seq<Byte>)
    ensures Decode(raw).Some? <==> forall k :: 0 <= k < |raw| ==> !CutsCharacter(raw, k)
  {
    var text := PlusToSpace(raw);
    DecodesFromExactly(text, 0);
    forall k | 0 <= k < |raw|
      ensures CutsCharacter(text, k) <==> CutsCharacter(raw, k)
    {
    }
  }

  /** Bytes in a UTF-8 character that starts with b; none for a byte no character starts with. */
  function CharLength(b: Byte): nat {
    if b < 0x80 then 1 else if b < 0xC0 then 0 else if b < 0xE0 then 2 else if b < 0xF0 then 3
    else if b < 0xF8 then 4 else 0
  }

  /** A text cut into whole characters, as every `str` is. */
  ghost predicate WholeCharacters(text: seq<Byte>)
    decreases |text|
  {
    text == [] ||
    (var n := CharLength(text[0]);
     1 <= n <= |text| && (forall i :: 1 <= i < n ==> Continuation(text[i])) && WholeCharacters(text[n..]))
  }

  /** In such a text a character starts right after an ASCII one. */
  lemma {:induction false} AfterAscii(text: seq<Byte>, k: nat)
    requires WholeCharacters(text) && k + 1 < |text| && text[k] < 0x80
    ensures !Continuation(text[k + 1])
    decreases |text|
  {
    var n := CharLength(text[0]);
    if n <= k {
      AfterAscii(text[n..], k - n);
    } else {
      assert k == 0;
      assert text[1] == text[1..][0];
    }
  }

  /** A percent sign three bytes before the middle of a character. */
  predicate CutsThirdByte(text: seq<Byte>, k: nat) {
    k + 3 < |text| && text[k] == PERCENT && Continuation(text[k + 3])
  }

  lemma CutInText(text: seq<Byte>, k: nat)
    requires WholeCharacters(text) && k < |text|
    ensures CutsCharacter(text, k) <==> CutsThirdByte(text, k)
  {
    hide WholeCharacters;
    if text[k] == PERCENT && k + 1 < |text| {
      AfterAscii(text, k);
    }
  }

  /** On the texts the code can receive, decoding panics exactly when some percent sign
      stands three bytes before the middle of a character. */
  lemma DecodesTextExactly(raw: seq<Byte>)
    requires WholeCharacters(raw)
    ensures Decode(raw).None? <==> exists k :: 0 <= k < |raw| && CutsThirdByte(raw, k)
  {
    hide CutsCharacter, CutsThirdByte, Decode, WholeCharacters;
    DecodesExactly(raw);
    forall k | 0 <= k < |raw|
      ensures CutsCharacter(raw, k) <==> CutsThirdByte(raw, k)
    {
      CutInText(raw, k);
    }
  }

  /** A percent sign, a letter and an accented letter are such an input. */
  lemma PercentBeforeAccent()
    ensures WholeCharacters([0x25, 0x61, 0xC3, 0xA9]) && Decode([0x25, 0x61, 0xC3, 0xA9]) == None
  {
    var raw: seq<Byte> := [0x25, 0x61, 0xC3, 0xA9];
    assert raw[1..] == [0x61, 0xC3, 0xA9] && raw[1..][1..] == [0xC3, 0xA9] && raw[1..][1..][2..] == [];
    assert WholeCharacters(raw[1..][1..][2..]);
    assert WholeCharacters(raw[1..][1..]);
    assert WholeCharacters(raw[1..]);
    assert CutsThirdByte(raw, 0);
    DecodesTextExactly(raw);
  }

  // ----- Form bodies -----

  /** The effect of one `&`-separated part: a pair overwrites, anything else is skipped. */
  function AddPair(m: Option<map<string, string>>, part: seq<Byte>): Option<map<string, string>> {
    match SplitOnce(part, EQ)
    case None => m
    case Some((k, v)) =>
      if m.None? || Decode(k).None? || Decode(v).None? then None
      else Some(m.value[Decode(k).value := Decode(v).value])
  }

  function AddPairs(parts: seq<seq<Byte>>): Option<map<string, string>> {
    if parts == [] then Some(map[]) else AddPair(AddPairs(parts[..|parts| - 1]), parts[|parts| - 1])
  }

  /** `parse_zerads_body` for a body that is not JSON. */
  function ParseForm(raw: seq<Byte>): Option<map<string, string>> {
    if raw == [] then Some(map[]) else AddPairs(Split(raw, AMP))
  }

  method ParseZeradsForm(raw: seq<Byte>) returns (obj: Option<map<string, string>>)
    ensures obj == ParseForm(raw)
  {
    if raw == [] {
      return Some(map[]);
    }
    var parts := Split(raw, AMP);
    obj := Some(map[]);
    for i := 0 to |parts|
      invariant obj == AddPairs(parts[..i])
    {
      assert parts[..i + 1][..i] == parts[..i];
      var pair := SplitOnce(parts[i], EQ);
      if pair.None? {
        continue;
      }
      var key := UrlFormDecode(pair.value.0);
      var value := UrlFormDecode(pair.value.1);
      if obj.None? || key.None? || value.None? {
        obj := None;
      } else {
        obj := Some(obj.value[key.value := value.value]);
      }
    }
    assert parts[..|parts|] == parts;
  }

  function Part(pair: (seq<Byte>, seq<Byte>)): seq<Byte> {
    Encode(pair.0) + [EQ] + Encode(pair.1)
  }

  function Parts(pairs: seq<(seq<Byte>, seq<Byte>)>): (r: seq<seq<Byte>>)
    ensures |r| == |pairs| && forall i :: 0 <= i < |pairs| ==> r[i] == Part(pairs[i])
  {
    if pairs == [] then [] else Parts(pairs[..|pairs| - 1]) + [Part(pairs[|pairs| - 1])]
  }

  /** The map in which the last pair of each key counts. */
  function LastWins(pairs: seq<(seq<Byte>, seq<Byte>)>): map<string, string> {
    if pairs == [] then map[]
    else LastWins(pairs[..|pairs| - 1])[Chars(pairs[|pairs| - 1].0) := Chars(pairs[|pairs| - 1].1)]
  }

  lemma PartReads(m: Option<map<string, string>>, pair: (seq<Byte>, seq<Byte>))
    requires m.Some?
    ensures AddPair(m, Part(pair)) == Some(m.value[Chars(pair.0) := Chars(pair.1)])
    ensures Free(Part(pair), AMP)
  {
    EncodedIsPlain(pair.0);
    EncodedIsPlain(pair.1);
    SplitOnceAt(Encode(pair.0), EQ, Encode(pair.1));
    RoundTrip(pair.0);
    RoundTrip(pair.1);
  }

  lemma {:induction false} PartsRead(pairs: seq<(seq<Byte>, seq<Byte>)>)
    ensures AddPairs(Parts(pairs)) == Some(LastWins(pairs))
  {
    if pairs != [] {
      var front := pairs[..|pairs| - 1];
      assert Parts(pairs)[..|pairs| - 1] == Parts(front);
      PartsRead(front);
      PartReads(Some(LastWins(front)), pairs[|pairs| - 1]);
    }
  }

  /** A body of percent-encoded pairs joined by ampersands reads back as the last-wins
      map of the originals, for every list of byte-string pairs. */
  lemma FormRoundTrip(pairs: seq<(seq<Byte>, seq<Byte>)>)
    ensures ParseForm(Join(Parts(pairs), [AMP])) == Some(LastWins(pairs))
  {
    if pairs != [] {
      forall i | 0 <= i < |pairs|
        ensures Free(Parts(pairs)[i], AMP)
      {
        PartReads(Some(map[]), pairs[i]);
      }
      SplitJoin(Parts(pairs), AMP);
      PartsRead(pairs);
      JoinNonEmpty(pairs);
    }
  }

  lemma JoinNonEmpty(pairs: seq<(seq<Byte>, seq<Byte>)>)
    requires pairs != []
    ensures Join(Parts(pairs), [AMP]) != []
  {
    assert EQ in Part(pairs[0]);
    assert Parts(pairs)[0] != [];
  }

  // ----- Any form body -----

  /** What stands between two ampersands: a pair cut at its first equals sign, or text
      without one. */
  datatype FormPart = KeyValue(key: seq<Byte>, value: seq<Byte>) | Stray(text: seq<Byte>)

  predicate CutRight(part: FormPart) {
    match part
    case KeyValue(key, value) => Free(key, EQ) && Free(key, AMP) && Free(value, AMP)
    case Stray(text) => Free(text, EQ) && Free(text, AMP)
  }

  predicate Decodes(part: FormPart) {
    part.KeyValue? ==> Decode(part.key).Some? && Decode(part.value).Some?
  }

  predicate AllDecode(parts: seq<FormPart>) {
    forall i :: 0 <= i < |parts| ==> Decodes(parts[i])
  }

  function PartText(part: FormPart): seq<Byte> {
    match part
    case KeyValue(key, value) => key + [EQ] + value
    case Stray(text) => text
  }

  function PartTexts(parts: seq<FormPart>): (r: seq<seq<Byte>>)
    ensures |r| == |parts| && forall i :: 0 <= i < |parts| ==> r[i] == PartText(parts[i])
  {
    if parts == [] then [] else PartTexts(parts[..|parts| - 1]) + [PartText(parts[|parts| - 1])]
  }

  /** The map in which the last pair of each decoded key counts, and stray text never does. */
  function LastDecoded(parts: seq<FormPart>): map<string, string>
    requires AllDecode(parts)
  {
    if parts == [] then map[]
    else
      var front, part := LastDecoded(parts[..|parts| - 1]), parts[|parts| - 1];
      assert Decodes(part);
      if part.Stray? then front else front[Decode(part.key).value := Decode(part.value).value]
  }

  lemma PartTextReads(m: Option<map<string, string>>, part: FormPart)
    requires CutRight(part)
    ensures AddPair(m, PartText(part)) ==
            if part.Stray? then m
            else if m.None? || !Decodes(part) then None
            else Some(m.value[Decode(part.key).value := Decode(part.value).value])
    ensures Free(PartText(part), AMP)
  {
    hide Decode;
    if part.KeyValue? {
      SplitOnceAt(part.key, EQ, part.value);
    }
  }

  lemma {:induction false} PartTextsRead(parts: seq<FormPart>)
    requires forall i :: 0 <= i < |parts| ==> CutRight(parts[i])
    ensures AddPairs(PartTexts(parts)) == if AllDecode(parts) then Some(LastDecoded(parts)) else None
  {
    hide CutRight, PartText, Decode;
    if parts != [] {
      var front, last := parts[..|parts| - 1], parts[|parts| - 1];
      assert PartTexts(parts)[..|parts| - 1] == PartTexts(front);
      assert AllDecode(parts) <==> AllDecode(front) && Decodes(last);
      PartTextsRead(front);
      PartTextReads(AddPairs(PartTexts(front)), last);
    }
  }

  /** Any body of parts joined by ampersands reads as the last-wins map of its decoded
      pairs, or panics when some key or value does. A pair is cut at its first equals sign;
      a part without one is skipped. */
  lemma FormReads(parts: seq<FormPart>)
    requires forall i :: 0 <= i < |parts| ==> CutRight(parts[i])
    ensures ParseForm(Join(PartTexts(parts), [AMP])) == if AllDecode(parts) then Some(LastDecoded(parts)) else None
  {
    hide CutRight, PartText, Decode;
    PartTextsRead(parts);
    var raw := Join(PartTexts(parts), [AMP]);
    if parts != [] {
      forall i | 0 <= i < |parts|
        ensures Free(PartTexts(parts)[i], AMP)
      {
        PartTextReads(None, parts[i]);
      }
      SplitJoin(PartTexts(parts), AMP);
      if raw == [] {
        EmptyBody();
      }
    }
  }

  lemma EmptyBody()
    ensures AddPairs(Split([], AMP)) == Some(map[])
  {
    var none: seq<Byte> := [];
    SplitFree(none, AMP);
    assert [none][..0] == [];
    assert AddPairs([none]) == AddPair(AddPairs([]), none);
  }
}
