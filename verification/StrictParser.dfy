/** The strict I-JSON parser: a recursive descent over an index and a depth, proved
    to accept exactly the documents of the grammar. Every step takes a guess of
    what stands at the index and must accept whenever the guess fits, so refusing
    means that no guess fits. */
module StrictParser {
  import opened Wrappers
  import opened StrictGrammar
  import opened StrictGuesses

  class Parser {
    const data: Bytes
    const float: FloatReader
    var index: nat
    var depth: nat

    constructor (data: Bytes, float: FloatReader)
      ensures this.data == data && this.float == float && index == 0 && depth == 0
    {
      this.data := data;
      this.float := float;
      index, depth := 0, 0;
    }

    method SkipWhitespace()
      requires index <= |data|
      modifies this`index
      ensures old(index) <= index <= |data| && IsSpace(data[old(index)..index])
      ensures index == |data| || !IsSpaceChar(data[index])
    {
      var start := index;
      while index < |data| && IsSpaceChar(data[index])
        invariant start <= index <= |data| && IsSpace(data[start..index])
      {
        assert data[start..index + 1] == data[start..index] + [data[index]];
        index := index + 1;
      }
    }

    method Consume(expected: char) returns (ok: bool)
      requires index <= |data|
      modifies this`index
      ensures ok == (old(index) < |data| && data[old(index)] == expected)
      ensures index == old(index) + (if ok then 1 else 0)
    {
      ok := index < |data| && data[index] == expected;
      if ok {
        index := index + 1;
      }
    }

    method ParseLiteral(literal: Bytes) returns (ok: bool)
      requires index <= |data|
      modifies this`index
      ensures ok == Spans(data, old(index), old(index) + |literal|, literal)
      ensures index == old(index) + (if ok then |literal| else 0) && index <= |data|
    {
      ok := index + |literal| <= |data| && data[index..index + |literal|] == literal;
      if ok {
        index := index + |literal|;
      }
    }

    // ---------- strings ----------

    method ParseHexCodeUnit() returns (ok: bool, unit: int)
      requires index <= |data|
      modifies this`index
      ensures ok == (old(index) + 4 <= |data| && IsHex4(data[old(index)..old(index) + 4]))
      ensures index == old(index) + (if ok then 4 else 0)
      ensures ok ==> unit == CodeUnit(data[old(index)..index])
    {
      unit := 0;
      ok := index + 4 <= |data| && IsHex4(data[index..index + 4]);
      if ok {
        unit := CodeUnit(data[index..index + 4]);
        index := index + 4;
      }
    }

    /** After a backslash and a `u`. */
    method ParseUnicodeEscape(ghost g: Option<Unit>) returns (ok: bool, r: int, ghost u: Unit)
      requires 2 <= index <= |data| && Spans(data, index - 2, index, "\\u")
      modifies this`index
      ensures old(index) <= index <= |data|
      ensures ok ==> GoodUnit(u) && r == Meaning(u) && Spans(data, old(index) - 2, index, UnitText(u))
      ensures UnitFits(data, old(index) - 2, g) ==> ok && index == old(index) - 2 + |UnitText(g.value)| && r == Meaning(g.value)
    {
      hide UnitText, Meaning, UnitFits, CodeUnit, Spans;
      ghost var start := index - 2;
      ghost var fits := UnitFits(data, start, g);
      ok, r, u := false, 0, Plain(0x20);
      if fits {
        EscapeGuess(data, start, g);
      }
      var first;
      ok, first := ParseHexCodeUnit();
      if !ok {
        return;
      }
      ghost var hex := data[start + 2..start + 6];
      HexIsSmall(hex);
      if IsLowSurrogate(first) {
        ok := false;
        return;
      }
      if !IsHighSurrogate(first) {
        r, u := first, Code(hex);
        CodeStands(data, start, hex);
        return;
      }
      if index + 2 > |data| || data[index] != '\\' || data[index + 1] != 'u' {
        ok := false;
        return;
      }
      index := index + 2;
      var second;
      ok, second := ParseHexCodeUnit();
      if !ok || !IsLowSurrogate(second) {
        ok := false;
        return;
      }
      ghost var low := data[start + 8..start + 12];
      r, u := SurrogatePair(first, second), Pair(hex, low);
      PairStands(data, start, hex, low);
    }

    /** One character of a string, other than its closing quote. */
    method ParseCharacter(ghost g: Option<Unit>) returns (ok: bool, r: int, ghost u: Unit)
      requires index < |data| && data[index] != '"'
      modifies this`index
      ensures old(index) <= index <= |data| && (ok ==> old(index) < index)
      ensures ok ==> GoodUnit(u) && r == Meaning(u) && Spans(data, old(index), index, UnitText(u))
      ensures UnitFits(data, old(index), g) ==> ok && index == old(index) + |UnitText(g.value)| && r == Meaning(g.value)
    {
      ghost var start := index;
      ok, r, u := false, 0, Plain(0x20);
      if UnitFits(data, start, g) {
        CharacterGuess(data, start, g.value);
      }
      var current := data[index];
      if current == '\\' {
        index := index + 1;
        if index >= |data| {
          return;
        }
        var escape := data[index];
        index := index + 1;
        assert Spans(data, start, index, ['\\', escape]);
        if escape == 'u' {
          ok, r, u := ParseUnicodeEscape(g);
          return;
        }
        if !IsShort(escape) {
          return;
        }
        ok, r, u := true, ShortMeaning(escape), Short(escape);
        return;
      }
      if current as int < 0x20 {
        return;
      }
      var decoded := DecodeRune(data[index..]);
      if decoded.None? {
        return;
      }
      DecodedIsEncoded(data[index..]);
      var (rune, width) := decoded.value;
      PlainIsGood(data[index..]);
      index := index + width;
      ok, r, u := true, rune, Plain(rune);
      assert data[start..index] == data[start..][..width];
    }

    method ParseString(ghost g: Option<seq<Unit>>) returns (ok: bool, name: Bytes, ghost us: seq<Unit>)
      requires index <= |data|
      modifies this`index
      ensures old(index) <= index <= |data|
      ensures ok ==> GoodUnits(us) && name == Decoded(us) && Spans(data, old(index), index, StringText(us))
      ensures StringFits(data, old(index), g) ==> ok && index == old(index) + |StringText(g.value)| && name == Decoded(g.value)
    {
      hide GoodUnits, UnitsText, UnitText, Decoded, Meaning, Utf8, Spans, UnitFits, StringFits, StringText, StringSoFar, StringAhead;
      ghost var start := index;
      ghost var fits := StringFits(data, start, g);
      ok, name, us := false, "", [];
      StringGuess(data, start, g);
      ghost var end := if fits then start + |StringText(g.value)| else start;
      ghost var rest: seq<Unit> := if fits then g.value else [];
      var quoted := Consume('"');
      if !quoted {
        return;
      }
      StringStarts(data, start);
      while index < |data|
        invariant start < index <= |data| && !ok
        invariant StringSoFar(data, start, index, us, name)
        invariant fits ==> StringAhead(data, index, end, rest, name, g.value)
        decreases |data| - index
      {
        if fits {
          StringAheadStep(data, index, end, rest, name, g.value);
        }
        if data[index] == '"' {
          StringCloses(data, start, index, us, name);
          index := index + 1;
          ok := true;
          return;
        }
        ghost var at := index;
        var r;
        ghost var u;
        ok, r, u := ParseCharacter(if fits then Some(rest[0]) else None);
        if !ok {
          return;
        }
        StringGrows(data, start, at, index, us, name, u);
        name := name + Utf8(r);
        us := us + [u];
        rest := if fits then rest[1..] else rest;
        ok := false;
      }
      if fits {
        StringAheadStep(data, index, end, rest, name, g.value);
      }
    }

    // ---------- numbers ----------

    method ScanDigits()
      requires index <= |data|
      modifies this`index
      ensures old(index) <= index <= |data| && AllDigits(data[old(index)..index])
      ensures index == |data| || !IsDigit(data[index])
    {
      var start := index;
      while index < |data| && IsDigit(data[index])
        invariant start <= index <= |data| && AllDigits(data[start..index])
      {
        assert data[start..index + 1] == data[start..index] + [data[index]];
        index := index + 1;
      }
    }

    method ParseWhole(ghost g: Option<Bytes>) returns (ok: bool, ghost whole: Bytes)
      requires index <= |data|
      modifies this`index
      ensures old(index) <= index <= |data|
      ensures ok ==> GoodWhole(whole) && Spans(data, old(index), index, whole)
      ensures WholeFits(data, old(index), g) ==> ok && index == old(index) + |g.value|
    {
      ghost var start := index;
      ok, whole := false, [];
      WholeGuess(data, start, g);
      var zero := Consume('0');
      if zero {
        if index < |data| && IsDigit(data[index]) {
          return;
        }
      } else {
        if index >= |data| || data[index] < '1' || data[index] > '9' {
          return;
        }
        ScanDigits();
        if WholeFits(data, start, g) {
          DigitsAreMaximal(data, start, index, start + |g.value|);
        }
      }
      ok, whole := true, data[start..index];
      assert whole[0] == data[start];
    }

    method ParseFraction(ghost g: Option<Option<Bytes>>) returns (ok: bool, ghost fraction: Option<Bytes>)
      requires index <= |data|
      modifies this`index
      ensures old(index) <= index <= |data|
      ensures ok ==> GoodFraction(fraction) && Spans(data, old(index), index, FractionText(fraction))
      ensures FractionFits(data, old(index), g) ==> ok && index == old(index) + |FractionText(g.value)|
    {
      hide Spans, AllDigits, FractionFits, FractionText, GoodFraction;
      ghost var start := index;
      ok, fraction := true, None;
      FractionNone(data, start);
      FractionGuess(data, start, g);
      var dot := Consume('.');
      if dot {
        var fractionStart := index;
        ScanDigits();
        if FractionFits(data, start, g) {
          DigitsAreMaximal(data, start + 1, index, start + |FractionText(g.value)|);
        }
        if index == fractionStart {
          ok := false;
          return;
        }
        fraction := Some(data[fractionStart..index]);
        FractionStands(data, start, index);
      }
    }

    method ParseExponent(ghost g: Option<Option<Power>>) returns (ok: bool, ghost exponent: Option<Power>)
      requires index <= |data|
      modifies this`index
      ensures old(index) <= index <= |data|
      ensures ok ==> GoodExponent(exponent) && Spans(data, old(index), index, ExponentText(exponent))
      ensures ExponentFits(data, old(index), g) ==> ok && index == old(index) + |ExponentText(g.value)|
    {
      hide Spans, AllDigits, ExponentFits, ExponentText, GoodExponent;
      ghost var start := index;
      ok, exponent := true, None;
      ExponentNone(data, start);
      ExponentGuess(data, start, g);
      if index < |data| && (data[index] == 'e' || data[index] == 'E') {
        index := index + 1;
        if index < |data| && (data[index] == '+' || data[index] == '-') {
          index := index + 1;
        }
        var exponentStart := index;
        ScanDigits();
        if ExponentFits(data, start, g) {
          DigitsAreMaximal(data, exponentStart, index, start + |ExponentText(g.value)|);
        }
        if index == exponentStart {
          ok := false;
          return;
        }
        exponent := Some(Power(data[start], data[start + 1..exponentStart], data[exponentStart..index]));
        ExponentStands(data, start, exponentStart, index);
      }
    }

    method ParseNumber(ghost g: Option<Numeral>) returns (ok: bool, ghost n: Numeral)
      requires index <= |data|
      modifies this`index
      ensures old(index) <= index <= |data|
      ensures ok ==> GoodNumeral(n) && Representable(float, NumeralText(n)) && Spans(data, old(index), index, NumeralText(n))
      ensures NumberFits(data, float, old(index), g) ==> ok && index == old(index) + |NumeralText(g.value)|
    {
      hide Spans, WholeFits, FractionFits, ExponentFits, FractionText, ExponentText, GoodWhole, GoodFraction, GoodExponent, NumeralText,
           Representable, NumberFits, AllDigits;
      var start := index;
      n := Numeral(false, "0", None, None);
      ok := false;
      ghost var fits := NumberFits(data, float, start, g);
      NumberGuess(data, float, start, g);
      var minus := Consume('-');
      if minus && index >= |data| {
        return;
      }
      ghost var p1 := index;
      ghost var whole, fraction, exponent;
      ok, whole := ParseWhole(if fits then Some(g.value.whole) else None);
      if !ok {
        return;
      }
      ghost var p2 := index;
      ok, fraction := ParseFraction(if fits then Some(g.value.fraction) else None);
      if !ok {
        return;
      }
      ghost var p3 := index;
      ok, exponent := ParseExponent(if fits then Some(g.value.exponent) else None);
      if !ok {
        return;
      }
      n := Numeral(minus, whole, fraction, exponent);
      NumberStands(data, start, p1, p2, p3, index, n);
      var number := data[start..index];
      SpanIs(data, start, index, NumeralText(n));
      if fits {
        NumberEnds(data, float, start, index, g.value);
      }
      ok := IsRepresentable(number);
    }

    method IsRepresentable(number: Bytes) returns (ok: bool)
      ensures ok == Representable(float, number)
    {
      var parsed := float(number);
      if parsed.None? {
        return false;
      }
      return !(number != [] && number[0] == '-' && parsed.value == 0.0);
    }

    // ---------- values ----------

    /** A value and the whitespace before it. */
    method ParseValue(ghost g: Option<Element>) returns (ok: bool, ghost before: Bytes, ghost tree: Tree)
      requires index <= |data| && depth <= MAX_DEPTH
      modifies this`index, this`depth
      ensures depth == old(depth) && old(index) <= index <= |data| && (ok ==> old(index) < index)
      ensures ok ==> IsSpace(before) && Good(float, tree, MAX_DEPTH - depth) && Spans(data, old(index), index, before + TreeText(tree))
      ensures ValueFits(data, float, old(index), MAX_DEPTH - depth, g) ==>
                ok && index == old(index) + |g.value.before| + |TreeText(g.value.tree)|
      decreases |data| - index, 3
    {
      hide Good, TreeText, Spans, TreeFits, IsSpace, ValueFits;
      ghost var start := index;
      ghost var fits := ValueFits(data, float, start, MAX_DEPTH - depth, g);
      ok, before, tree := false, "", Word("null");
      SkipWhitespace();
      before := data[start..index];
      ValueGuess(data, float, start, index, MAX_DEPTH - depth, g);
      if index >= |data| {
        return;
      }
      ghost var at := index;
      ok, tree := ParseTree(if fits then Some(g.value.tree) else None);
      if ok {
        SpanSelf(data, start, at);
        SpanJoin(data, start, at, index, before, TreeText(tree));
      }
    }

    /** The dispatch on the first byte of a value. */
    method ParseTree(ghost g: Option<Tree>) returns (ok: bool, ghost tree: Tree)
      requires index < |data| && depth <= MAX_DEPTH
      modifies this`index, this`depth
      ensures depth == old(depth) && old(index) <= index <= |data| && (ok ==> old(index) < index)
      ensures ok ==> Good(float, tree, MAX_DEPTH - depth) && Spans(data, old(index), index, TreeText(tree))
      ensures TreeFits(data, float, old(index), MAX_DEPTH - depth, g) ==> ok && index == old(index) + |TreeText(g.value)|
      decreases |data| - index, 2
    {
      hide Spans, StringFits, NumberFits, StringText, NumeralText, TreeFits, GoodNumeral, GoodUnits, Representable;
      ghost var start := index;
      ghost var fits := TreeFits(data, float, start, MAX_DEPTH - depth, g);
      TreeGuess(data, float, start, MAX_DEPTH - depth, g);
      match data[index] {
        case '{' =>
          ok, tree := ParseObject(g);
        case '[' =>
          ok, tree := ParseArray(g);
        case '"' =>
          var name;
          ghost var us;
          ok, name, us := ParseString(if fits then Some(g.value.units) else None);
          tree := Text(us);
          if ok {
            StringTextShape(us);
            SpanFirst(data, start, index, StringText(us));
          }
        case 't' =>
          ok := ParseLiteral("true");
          tree := Word("true");
        case 'f' =>
          ok := ParseLiteral("false");
          tree := Word("false");
        case 'n' =>
          ok := ParseLiteral("null");
          tree := Word("null");
        case _ =>
          ghost var n;
          ok, n := ParseNumber(if fits then Some(g.value.numeral) else None);
          tree := Number(n);
          if ok {
            NumeralTextShape(n);
            SpanFirst(data, start, index, NumeralText(n));
          }
      }
    }

    /** A value with the whitespace around it, some of which may be skipped already. */
    method ParseElement(ghost at: nat, ghost g: Option<Element>) returns (ok: bool, ghost e: Element)
      requires at <= index <= |data| && IsSpace(data[at..index]) && (at == index || NoSpaceAt(data, index)) && depth <= MAX_DEPTH
      modifies this`index, this`depth
      ensures depth == old(depth) && old(index) <= index <= |data| && (ok ==> old(index) < index)
      ensures ok ==> GoodElement(float, e, MAX_DEPTH - depth) && Spans(data, at, index, ElementText(e)) && NoSpaceAt(data, index)
      ensures ElementFits(data, float, at, MAX_DEPTH - depth, g) ==> ok && index == at + |ElementText(g.value)|
      decreases |data| - index, 4
    {
      hide Good, TreeText, Spans, TreeFits, IsSpace, ValueFits, ElementFits, ElementText, GoodElement;
      ghost var start, room := index, MAX_DEPTH - depth;
      ghost var fits := ElementFits(data, float, at, room, g);
      e := Element("", Word("null"), "");
      ElementGuess(data, float, at, start, room, g);
      ghost var before, tree;
      ok, before, tree := ParseValue(if fits then Some(g.value.(before := g.value.before[start - at..])) else None);
      if !ok {
        return;
      }
      ghost var end := index;
      SkipWhitespace();
      e := Element(data[at..start] + before, tree, data[end..index]);
      ElementStands(data, float, at, start, end, index, before, tree, room);
      if fits {
        ElementEnds(data, float, at, end, index, room, g.value);
      }
    }

    method ParseArray(ghost g: Option<Tree>) returns (ok: bool, ghost tree: Tree)
      requires index < |data| && data[index] == '[' && depth <= MAX_DEPTH
      modifies this`index, this`depth
      ensures depth == old(depth) && old(index) <= index <= |data| && (ok ==> old(index) < index)
      ensures ok ==> Good(float, tree, MAX_DEPTH - depth) && Spans(data, old(index), index, TreeText(tree))
      ensures TreeFits(data, float, old(index), MAX_DEPTH - depth, g) ==> ok && index == old(index) + |TreeText(g.value)|
      decreases |data| - index, 1
    {
      hide Good, TreeText, Spans, TreeFits, IsSpace, ElementFits, ElementText, GoodElement, Joined, Lead, ElementsAhead;
      ghost var start, room := index, MAX_DEPTH - depth;
      ghost var fits := TreeFits(data, float, start, room, g);
      ok, tree := false, Word("null");
      NoRoomNoContainer(data, float, start, room, g);
      if depth >= MAX_DEPTH {
        return;
      }
      depth := depth + 1;
      index := index + 1;
      ghost var at := index;
      SkipWhitespace();
      ArrayGuess(data, float, start, index, room, g);
      ghost var rest: seq<Element> := if fits && g.value.Array? then g.value.elements else [];
      ghost var end := if fits then start + |TreeText(g.value)| else start;
      if index < |data| && data[index] == ']' {
        tree := Array(data[at..index], []);
        EmptyArrayStands(data, float, start, index, room);
        index := index + 1;
        depth := depth - 1;
        ok := true;
        return;
      }
      ghost var done: seq<Element> := [];
      ListStarts(data, start, '[');
      while true
        invariant start < at <= index <= |data| && IsSpace(data[at..index]) && (at == index || NoSpaceAt(data, index))
        invariant depth == old(depth) + 1 && depth <= MAX_DEPTH
        invariant forall i | 0 <= i < |done| :: GoodElement(float, done[i], room - 1)
        invariant ListSoFar(data, start, at, '[', ElementTexts(done))
        invariant fits ==> ElementsAhead(data, float, at, end, room - 1, rest)
        decreases |data| - index
      {
        if fits {
          ElementsAheadStep(data, float, at, end, room - 1, rest);
        }
        ghost var e;
        ok, e := ParseElement(at, if fits then Some(rest[0]) else None);
        if !ok {
          depth := depth - 1;
          return;
        }
        ElementTextsSnoc(done, e);
        var closed := Consume(']');
        if closed {
          depth := depth - 1;
          tree := Array("", done + [e]);
          ListCloses(data, start, at, index - 1, '[', ']', ElementTexts(done), ElementText(e));
          ArrayStands(data, float, start, index, room, done, e);
          return;
        }
        var comma := Consume(',');
        if !comma {
          ok := false;
          depth := depth - 1;
          return;
        }
        ListGrows(data, start, at, index - 1, '[', ElementTexts(done), ElementText(e));
        done := done + [e];
        rest := if fits then rest[1..] else rest;
        at := index;
        SpaceOfNothing(data, at);
      }
    }

    /** A member with the whitespace around it; its name must be new. */
    method ParseMember(ghost at: nat, names: set<Bytes>, ghost g: Option<Member>) returns (ok: bool, name: Bytes, ghost m: Member)
      requires at <= index <= |data| && IsSpace(data[at..index]) && (at == index || NoSpaceAt(data, index)) && depth <= MAX_DEPTH
      modifies this`index, this`depth
      ensures depth == old(depth) && old(index) <= index <= |data| && (ok ==> old(index) < index)
      ensures ok ==> GoodMember(float, m, MAX_DEPTH - depth) && Spans(data, at, index, MemberText(m))
                     && name == Decoded(m.name) && name !in names
      ensures MemberFits(data, float, at, MAX_DEPTH - depth, g) && Decoded(g.value.name) !in names ==>
                ok && index == at + |MemberText(g.value)| && name == Decoded(g.value.name)
      decreases |data| - index, 5
    {
      hide Spans, IsSpace, StringFits, StringText, ElementFits, ElementText, GoodElement, GoodMember, MemberText, MemberFits, Decoded, GoodUnits;
      ghost var room := MAX_DEPTH - depth;
      ghost var fits := MemberFits(data, float, at, room, g);
      m := Member("", [], "", Element("", Word("null"), ""));
      ghost var from_ := index;
      SkipWhitespace();
      SpaceJoins(data, at, from_, index);
      MemberGuess(data, float, at, index, room, g);
      ghost var n0 := index;
      ghost var us;
      ok, name, us := ParseString(if fits then Some(g.value.name) else None);
      if !ok {
        return;
      }
      if name in names {
        ok := false;
        return;
      }
      ghost var n1 := index;
      SkipWhitespace();
      if fits {
        ColonGuess(data, float, at, n1, index, room, g.value);
      }
      ghost var c := index;
      ok := Consume(':');
      if !ok {
        return;
      }
      ghost var e;
      SpaceOfNothing(data, index);
      ok, e := ParseElement(index, if fits then Some(g.value.value) else None);
      if !ok {
        return;
      }
      m := Member(data[at..n0], us, data[n1..c], e);
      MemberStands(data, float, at, n0, n1, c, index, us, e, room);
      if fits {
        MemberLength(g.value);
      }
    }

    method ParseObject(ghost g: Option<Tree>) returns (ok: bool, ghost tree: Tree)
      requires index < |data| && data[index] == '{' && depth <= MAX_DEPTH
      modifies this`index, this`depth
      ensures depth == old(depth) && old(index) <= index <= |data| && (ok ==> old(index) < index)
      ensures ok ==> Good(float, tree, MAX_DEPTH - depth) && Spans(data, old(index), index, TreeText(tree))
      ensures TreeFits(data, float, old(index), MAX_DEPTH - depth, g) ==> ok && index == old(index) + |TreeText(g.value)|
      decreases |data| - index, 1
    {
      hide Good, TreeText, Spans, TreeFits, IsSpace, MemberFits, MemberText, GoodMember, Joined, Lead, MembersAhead, Decoded, ListSoFar, MembersDone;
      ghost var start, room := index, MAX_DEPTH - depth;
      ghost var fits := TreeFits(data, float, start, room, g);
      ok, tree := false, Word("null");
      NoRoomNoContainer(data, float, start, room, g);
      if depth >= MAX_DEPTH {
        return;
      }
      depth := depth + 1;
      index := index + 1;
      ghost var at := index;
      SkipWhitespace();
      ObjectGuess(data, float, start, index, room, g);
      ghost var rest: seq<Member> := if fits && g.value.Object? then g.value.members else [];
      ghost var end := if fits then start + |TreeText(g.value)| else start;
      if index < |data| && data[index] == '}' {
        tree := Object(data[at..index], []);
        EmptyObjectStands(data, float, start, index, room);
        index := index + 1;
        depth := depth - 1;
        ok := true;
        return;
      }
      var names: set<Bytes> := {};
      ghost var done: seq<Member> := [];
      ListStarts(data, start, '{');
      NoMembersDone(float, room - 1);
      while true
        invariant start < at <= index <= |data| && IsSpace(data[at..index]) && (at == index || NoSpaceAt(data, index))
        invariant depth == old(depth) + 1 && depth <= MAX_DEPTH
        invariant MembersDone(float, room - 1, done, names)
        invariant ListSoFar(data, start, at, '{', MemberTexts(done))
        invariant fits ==> MembersAhead(data, float, at, end, room - 1, rest, names)
        decreases |data| - index
      {
        if fits {
          MembersAheadStep(data, float, at, end, room - 1, rest, names);
        }
        ghost var m;
        var name;
        ok, name, m := ParseMember(at, names, if fits then Some(rest[0]) else None);
        if !ok {
          depth := depth - 1;
          return;
        }
        MembersDoneSnoc(float, room - 1, done, names, m);
        names := names + {name};
        var closed := Consume('}');
        if closed {
          depth := depth - 1;
          tree := Object("", done + [m]);
          ListCloses(data, start, at, index - 1, '{', '}', MemberTexts(done), MemberText(m));
          ObjectStands(data, float, start, index, room, done + [m], names);
          return;
        }
        var comma := Consume(',');
        if !comma {
          ok := false;
          depth := depth - 1;
          return;
        }
        ListGrows(data, start, at, index - 1, '{', MemberTexts(done), MemberText(m));
        done := done + [m];
        rest := if fits then rest[1..] else rest;
        at := index;
        SpaceOfNothing(data, at);
      }
    }

    /** A whole document. */
    method ParseDocument(ghost g: Option<Element>) returns (ok: bool, ghost e: Element)
      requires index == 0 && depth == 0
      modifies this`index, this`depth
      ensures ok ==> GoodElement(float, e, MAX_DEPTH) && ElementText(e) == data
      ensures g.Some? && GoodElement(float, g.value, MAX_DEPTH) && ElementText(g.value) == data ==> ok
    {
      hide GoodElement, ElementText, IsSpace;
      SkipWhitespace();
      ok, e := ParseElement(0, g);
      if ok && index != |data| {
        ok := false;
      }
      assert data[0..|data|] == data;
    }
  }

  // ---------- documents ----------

  /** The parser accepts exactly the documents of the grammar. */
  method Accepts(data: Bytes, float: FloatReader) returns (ok: bool)
    ensures ok <==> IsDocument(float, data)
  {
    hide GoodElement, ElementText;
    var parser := new Parser(data, float);
    ghost var g: Option<Element> := None;
    if IsDocument(float, data) {
      var e :| GoodElement(float, e, MAX_DEPTH) && ElementText(e) == data;
      g := Some(e);
    }
    ghost var found;
    ok, found := parser.ParseDocument(g);
  }
}
