/** The texts the strict I-JSON parser is for: the grammar of RFC 8259 as parse
    trees that are written out byte for byte, with the limits of RFC 7493. */
module StrictGrammar {
  import opened Wrappers

  /** A sequence of bytes, each a char below 256. */
  type Bytes = string

  // ---------- UTF-8 ----------

  predicate IsScalar(r: int)
  {
    0 <= r < 0xD800 || 0xE000 <= r < 0x110000
  }

  /** The UTF-8 encoding of a scalar value (RFC 3629, section 3). */
  function Utf8(r: int): Bytes
    requires IsScalar(r)
  {
    if r < 0x80 then [r as char]
    else if r < 0x800 then [(0xC0 + r / 64) as char, Tail(r)]
    else if r < 0x10000 then [(0xE0 + r / 4096) as char, Tail(r / 64), Tail(r)]
    else [(0xF0 + r / 262144) as char, Tail(r / 4096), Tail(r / 64), Tail(r)]
  }

  function Tail(n: int): char
  {
    (0x80 + n % 64) as char
  }

  function TailBits(c: char): int
  {
    c as int - 0x80
  }

  predicate Between(c: char, low: int, high: int)
  {
    low <= c as int <= high
  }

  /** Reads one scalar value, and how many bytes it took, as the Go library does:
      by the range of the first byte and the narrowed range of the second. */
  function DecodeRune(s: Bytes): Option<(int, nat)>
  {
    if s == [] then None
    else if Between(s[0], 0, 0x7F) then Some((s[0] as int, 1))
    else if Between(s[0], 0xC2, 0xDF) then
      if |s| >= 2 && Between(s[1], 0x80, 0xBF) then Some(((s[0] as int - 0xC0) * 64 + TailBits(s[1]), 2)) else None
    else if Between(s[0], 0xE0, 0xEF) then
      var low := if s[0] as int == 0xE0 then 0xA0 else 0x80;
      var high := if s[0] as int == 0xED then 0x9F else 0xBF;
      if |s| >= 3 && Between(s[1], low, high) && Between(s[2], 0x80, 0xBF) then
        Some(((s[0] as int - 0xE0) * 4096 + TailBits(s[1]) * 64 + TailBits(s[2]), 3))
      else None
    else if Between(s[0], 0xF0, 0xF4) then
      var low := if s[0] as int == 0xF0 then 0x90 else 0x80;
      var high := if s[0] as int == 0xF4 then 0x8F else 0xBF;
      if |s| >= 4 && Between(s[1], low, high) && Between(s[2], 0x80, 0xBF) && Between(s[3], 0x80, 0xBF) then
        Some(((s[0] as int - 0xF0) * 262144 + TailBits(s[1]) * 4096 + TailBits(s[2]) * 64 + TailBits(s[3]), 4))
      else None
    else None
  }

  lemma Base64Digits(a: int, b: int, c: int, d: int)
    requires 0 <= a && 0 <= b < 64 && 0 <= c < 64 && 0 <= d < 64
    ensures (a * 64 + b) / 64 == a && (a * 64 + b) % 64 == b
    ensures var r := a * 4096 + b * 64 + c; r / 4096 == a && r / 64 % 64 == b && r % 64 == c
    ensures var r := a * 262144 + b * 4096 + c * 64 + d; r / 262144 == a && r / 4096 % 64 == b && r / 64 % 64 == c && r % 64 == d
  {
  }

  lemma TwoBytes(s: Bytes)
    requires |s| >= 2 && Between(s[0], 0xC2, 0xDF) && Between(s[1], 0x80, 0xBF)
    ensures var r := (s[0] as int - 0xC0) * 64 + TailBits(s[1]); 0x80 <= r < 0x800 && s[..2] == Utf8(r)
  {
    Base64Digits(s[0] as int - 0xC0, TailBits(s[1]), 0, 0);
  }

  lemma ThreeBytes(s: Bytes)
    requires |s| >= 3 && Between(s[0], 0xE0, 0xEF) && Between(s[1], 0x80, 0xBF) && Between(s[2], 0x80, 0xBF)
    requires (s[0] as int == 0xE0 ==> Between(s[1], 0xA0, 0xBF)) && (s[0] as int == 0xED ==> Between(s[1], 0x80, 0x9F))
    ensures var r := (s[0] as int - 0xE0) * 4096 + TailBits(s[1]) * 64 + TailBits(s[2]);
            0x800 <= r < 0x10000 && IsScalar(r) && s[..3] == Utf8(r)
  {
    Base64Digits(s[0] as int - 0xE0, TailBits(s[1]), TailBits(s[2]), 0);
  }

  lemma FourBytes(s: Bytes)
    requires |s| >= 4 && Between(s[0], 0xF0, 0xF4)
    requires Between(s[1], 0x80, 0xBF) && Between(s[2], 0x80, 0xBF) && Between(s[3], 0x80, 0xBF)
    requires (s[0] as int == 0xF0 ==> Between(s[1], 0x90, 0xBF)) && (s[0] as int == 0xF4 ==> Between(s[1], 0x80, 0x8F))
    ensures var r := (s[0] as int - 0xF0) * 262144 + TailBits(s[1]) * 4096 + TailBits(s[2]) * 64 + TailBits(s[3]);
            0x10000 <= r < 0x110000 && s[..4] == Utf8(r)
  {
    Base64Digits(s[0] as int - 0xF0, TailBits(s[1]), TailBits(s[2]), TailBits(s[3]));
  }

  /** Whatever is decoded is a scalar value and its only encoding. */
  lemma DecodedIsEncoded(s: Bytes)
    requires DecodeRune(s).Some?
    ensures var (r, width) := DecodeRune(s).value; IsScalar(r) && 1 <= width <= |s| && s[..width] == Utf8(r)
  {
    hide Utf8;
    if Between(s[0], 0, 0x7F) {
      OneByte(s);
    } else if Between(s[0], 0xC2, 0xDF) {
      TwoBytes(s);
    } else if Between(s[0], 0xE0, 0xEF) {
      ThreeBytes(s);
    } else {
      FourBytes(s);
    }
  }

  lemma OneByte(s: Bytes)
    requires s != [] && Between(s[0], 0, 0x7F)
    ensures s[..1] == Utf8(s[0] as int)
  {
  }

  /** Every encoded scalar value is decoded, whatever follows it. */
  lemma EncodedIsDecoded(r: int, rest: Bytes)
    requires IsScalar(r)
    ensures DecodeRune(Utf8(r) + rest) == Some((r, |Utf8(r)|))
  {
    var s := Utf8(r) + rest;
    assert forall i | 0 <= i < |Utf8(r)| :: s[i] == Utf8(r)[i];
    Digits64(r);
  }

  lemma Digits64(r: int)
    requires 0 <= r < 0x110000
    ensures r == r / 64 * 64 + r % 64
    ensures r == r / 4096 * 4096 + r / 64 % 64 * 64 + r % 64
    ensures r == r / 262144 * 262144 + r / 4096 % 64 * 4096 + r / 64 % 64 * 64 + r % 64
  {
  }

  // ---------- strings ----------

  predicate IsHex(c: char)
  {
    '0' <= c <= '9' || 'a' <= c <= 'f' || 'A' <= c <= 'F'
  }

  function HexDigit(c: char): int
  {
    if '0' <= c <= '9' then c as int - '0' as int
    else if 'a' <= c <= 'f' then c as int - 'a' as int + 10
    else c as int - 'A' as int + 10
  }

  predicate IsHex4(h: Bytes)
  {
    |h| == 4 && IsHex(h[0]) && IsHex(h[1]) && IsHex(h[2]) && IsHex(h[3])
  }

  function CodeUnit(h: Bytes): int
    requires |h| == 4
  {
    HexDigit(h[0]) * 4096 + HexDigit(h[1]) * 256 + HexDigit(h[2]) * 16 + HexDigit(h[3])
  }

  /** One character of a string, as it is written. */
  datatype Unit =
    | Plain(r: int)
    | Short(letter: char)
    | Code(hex: Bytes)
    | Pair(high: Bytes, low: Bytes)

  predicate IsShort(letter: char)
  {
    letter == '"' || letter == '\\' || letter == '/' || letter == 'b' || letter == 'f' || letter == 'n' || letter == 'r' || letter == 't'
  }

  function ShortMeaning(letter: char): int
  {
    match letter
    case 'b' => 8
    case 'f' => 12
    case 'n' => 10
    case 'r' => 13
    case 't' => 9
    case _ => letter as int
  }

  predicate IsHighSurrogate(n: int) { 0xD800 <= n <= 0xDBFF }
  predicate IsLowSurrogate(n: int) { 0xDC00 <= n <= 0xDFFF }

  /** Well-formed: no bare quote, backslash or control character, and surrogates
      only in pairs (RFC 8259, section 7; RFC 7493, section 2.1). */
  predicate GoodUnit(u: Unit)
  {
    match u
    case Plain(r) => IsScalar(r) && r >= 0x20 && r != '"' as int && r != '\\' as int
    case Short(letter) => IsShort(letter)
    case Code(hex) => IsHex4(hex) && !IsHighSurrogate(CodeUnit(hex)) && !IsLowSurrogate(CodeUnit(hex))
    case Pair(high, low) => IsHex4(high) && IsHex4(low) && IsHighSurrogate(CodeUnit(high)) && IsLowSurrogate(CodeUnit(low))
  }

  function UnitText(u: Unit): Bytes
    requires GoodUnit(u)
  {
    match u
    case Plain(r) => Utf8(r)
    case Short(letter) => ['\\', letter]
    case Code(hex) => "\\u" + hex
    case Pair(high, low) => "\\u" + high + "\\u" + low
  }

  function HexRange(h: Bytes): (r: int)
    requires IsHex4(h)
    ensures r == CodeUnit(h) && 0 <= r < 0x10000
  {
    CodeUnit(h)
  }

  /** The character meant. */
  function Meaning(u: Unit): (r: int)
    requires GoodUnit(u)
    ensures IsScalar(r)
  {
    match u
    case Plain(r) => r
    case Short(letter) => ShortMeaning(letter)
    case Code(hex) => HexRange(hex)
    case Pair(high, low) => SurrogatePair(CodeUnit(high), CodeUnit(low))
  }

  /** The scalar value of a surrogate pair. */
  function SurrogatePair(high: int, low: int): int
  {
    (high - 0xD800) * 1024 + (low - 0xDC00) + 0x10000
  }

  predicate GoodUnits(us: seq<Unit>)
  {
    forall i | 0 <= i < |us| :: GoodUnit(us[i])
  }

  function UnitsText(us: seq<Unit>): Bytes
    requires GoodUnits(us)
  {
    if us == [] then [] else UnitText(us[0]) + UnitsText(us[1..])
  }

  /** The bytes a string decodes to. */
  function Decoded(us: seq<Unit>): Bytes
    requires GoodUnits(us)
  {
    if us == [] then [] else Utf8(Meaning(us[0])) + Decoded(us[1..])
  }

  function StringText(us: seq<Unit>): Bytes
    requires GoodUnits(us)
  {
    "\"" + UnitsText(us) + "\""
  }

  lemma {:induction false} UnitsSnoc(us: seq<Unit>, u: Unit)
    requires GoodUnits(us) && GoodUnit(u)
    ensures GoodUnits(us + [u])
    ensures UnitsText(us + [u]) == UnitsText(us) + UnitText(u)
    ensures Decoded(us + [u]) == Decoded(us) + Utf8(Meaning(u))
  {
    hide UnitText, Meaning, Utf8;
    if us != [] {
      UnitsSnoc(us[1..], u);
      assert (us + [u])[1..] == us[1..] + [u];
    } else {
      assert us + [u] == [u] && [u][1..] == [];
    }
  }

  /** Two strings decode to the same bytes only when they mean the same characters,
      however each is written. */
  lemma {:induction false} DecodedIsFaithful(a: seq<Unit>, b: seq<Unit>)
    requires GoodUnits(a) && GoodUnits(b) && Decoded(a) == Decoded(b)
    ensures |a| == |b| && forall i | 0 <= i < |a| :: Meaning(a[i]) == Meaning(b[i])
  {
    hide Meaning, GoodUnit;
    if a != [] {
      EncodedIsDecoded(Meaning(a[0]), Decoded(a[1..]));
    }
    if b != [] {
      EncodedIsDecoded(Meaning(b[0]), Decoded(b[1..]));
    }
    if a != [] && b != [] {
      var first := Utf8(Meaning(a[0]));
      assert Decoded(a)[|first|..] == Decoded(a[1..]);
      assert Decoded(b)[|first|..] == Decoded(b[1..]);
      DecodedIsFaithful(a[1..], b[1..]);
      forall i | 0 <= i < |a| ensures Meaning(a[i]) == Meaning(b[i]) {
        if i > 0 {
          assert a[i] == a[1..][i - 1] && b[i] == b[1..][i - 1];
        }
      }
    }
  }

  // ---------- numbers ----------

  predicate IsDigit(c: char)
  {
    '0' <= c <= '9'
  }

  predicate AllDigits(ds: Bytes)
  {
    forall i | 0 <= i < |ds| :: IsDigit(ds[i])
  }

  /** A number as written: sign, whole part, and optional fraction and exponent. */
  datatype Numeral = Numeral(minus: bool, whole: Bytes, fraction: Option<Bytes>, exponent: Option<Power>)

  datatype Power = Power(mark: char, sign: Bytes, digits: Bytes)

  predicate GoodWhole(whole: Bytes)
  {
    whole != [] && AllDigits(whole) && (whole[0] == '0' ==> |whole| == 1)
  }

  predicate GoodFraction(f: Option<Bytes>)
  {
    f.Some? ==> f.value != [] && AllDigits(f.value)
  }

  predicate GoodExponent(e: Option<Power>)
  {
    e.Some? ==>
      && (e.value.mark == 'e' || e.value.mark == 'E')
      && (e.value.sign == "" || e.value.sign == "+" || e.value.sign == "-")
      && e.value.digits != [] && AllDigits(e.value.digits)
  }

  predicate GoodNumeral(n: Numeral)
  {
    GoodWhole(n.whole) && GoodFraction(n.fraction) && GoodExponent(n.exponent)
  }

  function SignText(n: Numeral): Bytes { if n.minus then "-" else "" }
  function FractionText(f: Option<Bytes>): Bytes { if f.Some? then "." + f.value else "" }
  function ExponentText(e: Option<Power>): Bytes { if e.Some? then [e.value.mark] + (e.value.sign + e.value.digits) else "" }

  function NumeralText(n: Numeral): Bytes
  {
    SignText(n) + (n.whole + (FractionText(n.fraction) + ExponentText(n.exponent)))
  }

  /** Reading a numeral as a finite binary64 value, or refusing it. */
  type FloatReader = Bytes -> Option<real>

  /** Finite, and not a spelling of negative zero (RFC 7493, section 2.2). */
  predicate Representable(float: FloatReader, text: Bytes)
  {
    && float(text).Some?
    && !(text != [] && text[0] == '-' && float(text).value == 0.0)
  }

  // ---------- documents ----------

  predicate IsSpaceChar(c: char)
  {
    c == ' ' || c == '\t' || c == '\r' || c == '\n'
  }

  predicate IsSpace(w: Bytes)
  {
    forall i | 0 <= i < |w| :: IsSpaceChar(w[i])
  }

  datatype Tree =
    | Object(gap: Bytes, members: seq<Member>)
    | Array(gap: Bytes, elements: seq<Element>)
    | Text(units: seq<Unit>)
    | Word(word: Bytes)
    | Number(numeral: Numeral)

  /** A member with the whitespace around its name, colon and value. */
  datatype Member = Member(before: Bytes, name: seq<Unit>, colon: Bytes, value: Element)

  /** A value with the whitespace around it. */
  datatype Element = Element(before: Bytes, tree: Tree, after: Bytes)

  const MAX_DEPTH := 256

  /** Well-formed, with distinct decoded names, representable numbers, and at most
      `room` containers inside one another. */
  ghost predicate Good(float: FloatReader, t: Tree, room: nat)
    decreases t
  {
    match t
    case Object(gap, members) =>
      && room > 0 && IsSpace(gap) && (members != [] ==> gap == [])
      && (forall i | 0 <= i < |members| :: GoodMember(float, members[i], room - 1))
      && (forall i, j | 0 <= i < j < |members| :: Decoded(members[i].name) != Decoded(members[j].name))
    case Array(gap, elements) =>
      && room > 0 && IsSpace(gap) && (elements != [] ==> gap == [])
      && (forall i | 0 <= i < |elements| :: GoodElement(float, elements[i], room - 1))
    case Text(units) => GoodUnits(units)
    case Word(word) => word == "true" || word == "false" || word == "null"
    case Number(numeral) => GoodNumeral(numeral) && Representable(float, NumeralText(numeral))
  }

  ghost predicate GoodMember(float: FloatReader, m: Member, room: nat)
    decreases m
  {
    IsSpace(m.before) && GoodUnits(m.name) && IsSpace(m.colon) && GoodElement(float, m.value, room)
  }

  ghost predicate GoodElement(float: FloatReader, e: Element, room: nat)
    decreases e
  {
    IsSpace(e.before) && Good(float, e.tree, room) && IsSpace(e.after)
  }

  /** Parts separated by commas. */
  function Joined(parts: seq<Bytes>): Bytes
  {
    if parts == [] then []
    else if |parts| == 1 then parts[0]
    else parts[0] + ("," + Joined(parts[1..]))
  }

  /** Parts each followed by a comma. */
  function Lead(parts: seq<Bytes>): Bytes
  {
    if parts == [] then [] else Lead(parts[..|parts| - 1]) + (parts[|parts| - 1] + ",")
  }

  lemma {:induction false} JoinedSnoc(parts: seq<Bytes>, last: Bytes)
    ensures Joined(parts + [last]) == Lead(parts) + last
  {
    if parts == [] {
      assert parts + [last] == [last];
    } else {
      LeadCons(parts);
      JoinedSnoc(parts[1..], last);
      JoinedStep(parts, last);
      var first, lead := parts[0], Lead(parts[1..]);
      assert first + ("," + (lead + last)) == first + ("," + lead) + last;
    }
  }

  lemma JoinedStep(parts: seq<Bytes>, last: Bytes)
    requires parts != []
    ensures Joined(parts + [last]) == parts[0] + ("," + Joined(parts[1..] + [last]))
  {
    var all := parts + [last];
    assert all[1..] == parts[1..] + [last] && |all| > 1;
  }

  lemma {:induction false} LeadCons(parts: seq<Bytes>)
    requires parts != []
    ensures Lead(parts) == parts[0] + ("," + Lead(parts[1..]))
  {
    if |parts| == 1 {
      assert parts[..0] == [] && parts[1..] == [];
    } else {
      var n := |parts| - 1;
      LeadCons(parts[..n]);
      assert parts[..n][1..] == parts[1..][..n - 1];
    }
  }

  function TreeText(t: Tree): Bytes
    decreases t
  {
    match t
    case Object(gap, members) =>
      "{" + ((gap + Joined(seq(|members|, i requires 0 <= i < |members| => MemberText(members[i])))) + "}")
    case Array(gap, elements) =>
      "[" + ((gap + Joined(seq(|elements|, i requires 0 <= i < |elements| => ElementText(elements[i])))) + "]")
    case Text(units) => if GoodUnits(units) then StringText(units) else []
    case Word(word) => word
    case Number(numeral) => NumeralText(numeral)
  }

  function MemberText(m: Member): Bytes
    decreases m
  {
    m.before + ((if GoodUnits(m.name) then StringText(m.name) else []) + (m.colon + (":" + ElementText(m.value))))
  }

  function ElementText(e: Element): Bytes
    decreases e
  {
    e.before + (TreeText(e.tree) + e.after)
  }

  /** A text of the grammar. */
  ghost predicate IsDocument(float: FloatReader, data: Bytes)
  {
    exists e :: GoodElement(float, e, MAX_DEPTH) && ElementText(e) == data
  }
}
