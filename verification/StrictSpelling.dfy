/** How characters are spelled in a string, counted from the code points: whatever
    spelling of a character is written, the parser reads that character. */
module StrictSpelling {
  import opened Wrappers
  import opened StrictGrammar
  import opened StrictGuesses
  import opened StrictParser

  // ---------- token classes ----------

  /** The character classes of the grammar, by code point (RFC 8259, sections 2, 6 and 7). */
  lemma CharacterClasses(c: char)
    ensures IsSpaceChar(c) <==> c as int == 0x20 || c as int == 0x09 || c as int == 0x0A || c as int == 0x0D
    ensures IsDigit(c) <==> 0x30 <= c as int <= 0x39
    ensures IsHex(c) <==> 0x30 <= c as int <= 0x39 || 0x41 <= c as int <= 0x46 || 0x61 <= c as int <= 0x66
    ensures IsShort(c) <==> c as int == 0x22 || c as int == 0x5C || c as int == 0x2F || c as int == 0x62
                            || c as int == 0x66 || c as int == 0x6E || c as int == 0x72 || c as int == 0x74
  {
  }

  /** A bare character is any scalar value but a control, a quote and a backslash. */
  lemma PlainCharacters(r: int)
    ensures GoodUnit(Plain(r)) <==> IsScalar(r) && 0x20 <= r && r != 0x22 && r != 0x5C
    ensures IsScalar(r) <==> 0 <= r <= 0x10FFFF && !(0xD800 <= r <= 0xDFFF)
  {
  }

  /** The eight short escapes and what they stand for. */
  lemma ShortEscapes()
    ensures Meaning(Short('"')) == 0x22 && Meaning(Short('\\')) == 0x5C && Meaning(Short('/')) == 0x2F && Meaning(Short('b')) == 0x08
    ensures Meaning(Short('f')) == 0x0C && Meaning(Short('n')) == 0x0A && Meaning(Short('r')) == 0x0D && Meaning(Short('t')) == 0x09
    ensures UnitText(Short('n')) == "\\n" && UnitText(Short('\\')) == "\\\\"
  {
  }

  /** The whole part of a number is a zero, or digits that start with another one. */
  lemma WholeParts(whole: Bytes)
    ensures GoodWhole(whole) <==> whole == "0" || (whole != "" && '1' <= whole[0] <= '9' && forall i | 0 < i < |whole| :: '0' <= whole[i] <= '9')
  {
  }

  // ---------- hexadecimal ----------

  const LOWER := "0123456789abcdef"
  const UPPER := "0123456789ABCDEF"

  /** Four hexadecimal digits, most significant first. */
  function Hex4(n: int, digits: string): Bytes
    requires 0 <= n < 0x10000 && |digits| == 16
  {
    [digits[n / 4096], digits[n / 256 % 16], digits[n / 16 % 16], digits[n % 16]]
  }

  lemma DigitReads(d: int)
    requires 0 <= d < 16
    ensures |LOWER| == 16 && |UPPER| == 16
    ensures IsHex(LOWER[d]) && HexDigit(LOWER[d]) == d
    ensures IsHex(UPPER[d]) && HexDigit(UPPER[d]) == d
  {
  }

  /** Four digits, of either case, read as the number they were written for. */
  lemma Hex4Reads(n: int, digits: string)
    requires 0 <= n < 0x10000 && (digits == LOWER || digits == UPPER)
    ensures |digits| == 16 && IsHex4(Hex4(n, digits)) && CodeUnit(Hex4(n, digits)) == n
  {
    hide LOWER, UPPER, IsHex, HexDigit;
    DigitCount();
    Nibbles(n);
    DigitReads(n / 4096);
    DigitReads(n / 256 % 16);
    DigitReads(n / 16 % 16);
    DigitReads(n % 16);
  }

  lemma Nibbles(n: int)
    requires 0 <= n < 0x10000
    ensures 0 <= n / 4096 < 16
    ensures n / 4096 * 4096 + n / 256 % 16 * 256 + n / 16 % 16 * 16 + n % 16 == n
  {
  }

  // ---------- escapes ----------

  /** The escape of a character by its code point: one code unit, or the two units of
      its surrogate pair. */
  function EscapeOf(r: int, digits: string): Bytes
    requires IsScalar(r) && |digits| == 16
  {
    if r < 0x10000 then "\\u" + Hex4(r, digits)
    else "\\u" + Hex4(0xD800 + (r - 0x10000) / 1024, digits) + "\\u" + Hex4(0xDC00 + (r - 0x10000) % 1024, digits)
  }

  function EscapeUnit(r: int, digits: string): Unit
    requires IsScalar(r) && |digits| == 16
  {
    if r < 0x10000 then Code(Hex4(r, digits))
    else Pair(Hex4(0xD800 + (r - 0x10000) / 1024, digits), Hex4(0xDC00 + (r - 0x10000) % 1024, digits))
  }

  /** The escape of every scalar value is well formed, is written as counted, and
      means that value. */
  lemma EscapeMeans(r: int, digits: string)
    requires IsScalar(r) && (digits == LOWER || digits == UPPER)
    ensures |digits| == 16 && GoodUnit(EscapeUnit(r, digits))
    ensures UnitText(EscapeUnit(r, digits)) == EscapeOf(r, digits) && Meaning(EscapeUnit(r, digits)) == r
  {
    hide LOWER, UPPER, CodeUnit, Hex4;
    DigitCount();
    if r < 0x10000 {
      Hex4Reads(r, digits);
    } else {
      Hex4Reads(0xD800 + (r - 0x10000) / 1024, digits);
      Hex4Reads(0xDC00 + (r - 0x10000) % 1024, digits);
    }
  }

  lemma DigitCount()
    ensures |LOWER| == 16 && |UPPER| == 16
  {
  }

  /** The scalar value a surrogate pair stands for, by an example: U+1F600. */
  lemma GrinningFace()
    ensures Meaning(Pair("d83d", "de00")) == 0x1F600 && GoodUnit(Pair("d83d", "de00"))
    ensures Utf8(0x1F600) == [0xF0 as char, 0x9F as char, 0x98 as char, 0x80 as char]
    ensures Utf8(0x20AC) == [0xE2 as char, 0x82 as char, 0xAC as char] && Utf8(0xE9) == [0xC3 as char, 0xA9 as char]
  {
    assert IsHex4("d83d") && IsHex4("de00");
    assert CodeUnit("d83d") == 0xD83D && CodeUnit("de00") == 0xDE00;
  }

  /** The parser reads the escape of every scalar value as that value. */
  method ReadEscape(r: int, digits: string, float: FloatReader) returns (ok: bool, name: Bytes)
    requires IsScalar(r) && (digits == LOWER || digits == UPPER)
    ensures ok && name == Utf8(r)
  {
    hide LOWER, UPPER, Hex4, UnitText, Meaning, GoodUnit, Utf8;
    EscapeMeans(r, digits);
    ghost var us := [EscapeUnit(r, digits)];
    var data := "\"" + EscapeOf(r, digits) + "\"";
    assert us[1..] == [];
    assert UnitsText(us) == EscapeOf(r, digits) + [] && Decoded(us) == Utf8(r) + [];
    assert data[0..|data|] == StringText(us);
    var parser := new Parser(data, float);
    ghost var read;
    ok, name, read := parser.ParseString(Some(us));
  }

  /** Two spellings of one name decode alike, so writing a name twice is refused
      however each is spelled. */
  lemma {:induction false} SameNameSameBytes(a: seq<Unit>, b: seq<Unit>)
    requires GoodUnits(a) && GoodUnits(b)
    ensures Decoded(a) == Decoded(b) <==> |a| == |b| && forall i | 0 <= i < |a| :: Meaning(a[i]) == Meaning(b[i])
  {
    hide Meaning, GoodUnit, Utf8;
    if Decoded(a) == Decoded(b) {
      DecodedIsFaithful(a, b);
    }
    if |a| == |b| && forall i | 0 <= i < |a| :: Meaning(a[i]) == Meaning(b[i]) {
      SameMeaning(a, b);
    }
  }

  lemma {:induction false} SameMeaning(a: seq<Unit>, b: seq<Unit>)
    requires GoodUnits(a) && GoodUnits(b) && |a| == |b| && forall i | 0 <= i < |a| :: Meaning(a[i]) == Meaning(b[i])
    ensures Decoded(a) == Decoded(b)
  {
    hide Meaning, GoodUnit, Utf8;
    if a != [] {
      forall i | 0 <= i < |a[1..]| ensures Meaning(a[1..][i]) == Meaning(b[1..][i]) {
        assert a[1..][i] == a[i + 1] && b[1..][i] == b[i + 1];
      }
      SameMeaning(a[1..], b[1..]);
    }
  }

  /** An object that names one member by its escape and another by the character
      itself is no object of the grammar. */
  lemma EscapedTwinIsRefused(float: FloatReader, r: int, digits: string, x: Element, y: Element, room: nat)
    requires IsScalar(r) && (digits == LOWER || digits == UPPER)
    ensures |digits| == 16
    ensures !Good(float, Object("", [Member("", [EscapeUnit(r, digits)], "", x), Member("", [Plain(r)], "", y)]), room)
  {
    hide LOWER, UPPER, Hex4, EscapeUnit, Meaning, UnitText;
    EscapeMeans(r, digits);
    var u, p := EscapeUnit(r, digits), Plain(r);
    var members := [Member("", [u], "", x), Member("", [p], "", y)];
    assert members[0].name == [u] && members[1].name == [p];
    if GoodUnit(p) {
      PlainMeans(r);
      SameNameSameBytes([u], [p]);
    } else {
      assert !GoodUnits([p]) by { assert [p][0] == p; }
      assert !GoodMember(float, members[1], if room > 0 then room - 1 else 0);
    }
  }

  lemma PlainMeans(r: int)
    requires GoodUnit(Plain(r))
    ensures Meaning(Plain(r)) == r
  {
  }

  // ---------- nesting ----------

  /** Containers inside one another. */
  ghost function Depth(t: Tree): nat
    decreases t, 0, 1
  {
    match t
    case Object(_, members) => 1 + DepthOfMembers(t, |members|)
    case Array(_, elements) => 1 + DepthOfElements(t, |elements|)
    case _ => 0
  }

  function Larger(a: nat, b: nat): nat
  {
    if a < b then b else a
  }

  /** The deepest of the first `count` members. */
  ghost function DepthOfMembers(t: Tree, count: nat): nat
    requires t.Object? && count <= |t.members|
    decreases t, 0, 0, count
  {
    if count == 0 then 0 else Larger(DepthOfMembers(t, count - 1), Depth(t.members[count - 1].value.tree))
  }

  ghost function DepthOfElements(t: Tree, count: nat): nat
    requires t.Array? && count <= |t.elements|
    decreases t, 0, 0, count
  {
    if count == 0 then 0 else Larger(DepthOfElements(t, count - 1), Depth(t.elements[count - 1].tree))
  }

  /** What is well formed has at most as many containers inside one another as there
      is room for, and is well formed whenever there is room for them. */
  lemma {:induction false} RoomIsDepth(float: FloatReader, t: Tree, room: nat, other: nat)
    requires Good(float, t, room)
    ensures Depth(t) <= room
    ensures Depth(t) <= other ==> Good(float, t, other)
    decreases t, 0, 1
  {
    hide GoodUnits, Decoded, Representable, GoodNumeral, GoodMember, GoodElement;
    match t
    case Object(gap, members) => MembersRoom(float, t, room - 1, if other > 0 then other - 1 else 0, |members|);
    case Array(gap, elements) => ElementsRoom(float, t, room - 1, if other > 0 then other - 1 else 0, |elements|);
    case _ =>
  }

  lemma {:induction false} MembersRoom(float: FloatReader, t: Tree, room: nat, other: nat, count: nat)
    requires t.Object? && count <= |t.members| && forall i | 0 <= i < |t.members| :: GoodMember(float, t.members[i], room)
    ensures DepthOfMembers(t, count) <= room
    ensures DepthOfMembers(t, count) <= other ==> forall i | 0 <= i < count :: GoodMember(float, t.members[i], other)
    decreases t, 0, 0, count
  {
    hide GoodUnits, Good, Depth;
    if count > 0 {
      MembersRoom(float, t, room, other, count - 1);
      assert GoodMember(float, t.members[count - 1], room) && GoodElement(float, t.members[count - 1].value, room);
      RoomIsDepth(float, t.members[count - 1].value.tree, room, other);
    }
  }

  lemma {:induction false} ElementsRoom(float: FloatReader, t: Tree, room: nat, other: nat, count: nat)
    requires t.Array? && count <= |t.elements| && forall i | 0 <= i < |t.elements| :: GoodElement(float, t.elements[i], room)
    ensures DepthOfElements(t, count) <= room
    ensures DepthOfElements(t, count) <= other ==> forall i | 0 <= i < count :: GoodElement(float, t.elements[i], other)
    decreases t, 0, 0, count
  {
    hide Good, Depth;
    if count > 0 {
      ElementsRoom(float, t, room, other, count - 1);
      assert GoodElement(float, t.elements[count - 1], room);
      RoomIsDepth(float, t.elements[count - 1].tree, room, other);
    }
  }

  /** A document is a well-formed value, at any depth, of at most 256 containers inside
      one another, with whitespace around it. */
  lemma DocumentsNestWithin256(float: FloatReader, data: Bytes)
    ensures IsDocument(float, data) <==>
            exists e, room: nat :: GoodElement(float, e, room) && Depth(e.tree) <= 256 && ElementText(e) == data
  {
    hide ElementText, Depth, GoodElement;
    if IsDocument(float, data) {
      var e :| GoodElement(float, e, MAX_DEPTH) && ElementText(e) == data;
      ElementDepth(float, e, MAX_DEPTH, MAX_DEPTH);
      assert GoodElement(float, e, MAX_DEPTH) && Depth(e.tree) <= 256 && ElementText(e) == data;
    }
    if e, room: nat :| GoodElement(float, e, room) && Depth(e.tree) <= 256 && ElementText(e) == data {
      ElementDepth(float, e, room, 256);
      assert GoodElement(float, e, MAX_DEPTH) && ElementText(e) == data;
    }
  }

  lemma ElementDepth(float: FloatReader, e: Element, room: nat, other: nat)
    requires GoodElement(float, e, room)
    ensures Depth(e.tree) <= room
    ensures Depth(e.tree) <= other ==> GoodElement(float, e, other)
  {
    hide Depth, Good;
    RoomIsDepth(float, e.tree, room, other);
  }
}
