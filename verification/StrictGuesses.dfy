/** What stands where in a text. A guess is something of the grammar that may stand
    at a position; these lemmas say what a fitting guess tells of the bytes, and
    what the bytes read so far stand for. */
module StrictGuesses {
  import opened Wrappers
  import opened StrictGrammar

  // ---------- positions ----------

  predicate Spans(data: Bytes, i: nat, j: nat, text: Bytes)
  {
    i <= j <= |data| && data[i..j] == text
  }

  lemma SpanSplit(data: Bytes, i: nat, j: nat, a: Bytes, b: Bytes)
    requires Spans(data, i, j, a + b)
    ensures i + |a| <= j && Spans(data, i, i + |a|, a) && Spans(data, i + |a|, j, b)
  {
    var k := i + |a|;
    assert data[i..j][..|a|] == a && data[i..j][|a|..] == b;
    assert data[i..k] == data[i..j][..|a|] && data[k..j] == data[i..j][|a|..];
  }

  lemma SpanJoin(data: Bytes, i: nat, k: nat, j: nat, a: Bytes, b: Bytes)
    requires Spans(data, i, k, a) && Spans(data, k, j, b)
    ensures Spans(data, i, j, a + b)
  {
    assert data[i..j] == data[i..k] + data[k..j];
  }

  lemma SpanOne(data: Bytes, i: nat, c: char)
    requires i < |data| && data[i] == c
    ensures Spans(data, i, i + 1, [c])
  {
  }

  lemma SpanFirst(data: Bytes, i: nat, j: nat, text: Bytes)
    requires Spans(data, i, j, text) && text != []
    ensures i < j <= |data| && data[i] == text[0] && j == i + |text|
  {
    assert data[i..j][0] == data[i];
  }

  lemma SpaceCovers(data: Bytes, i: nat, j: nat)
    requires i <= j <= |data| && IsSpace(data[i..j])
    ensures forall k | i <= k < j :: IsSpaceChar(data[k])
  {
    assert forall k | i <= k < j :: data[k] == data[i..j][k - i];
  }

  /** Both stop at the first byte that is no whitespace. */
  lemma SpaceIsMaximal(data: Bytes, i: nat, j: nat, k: nat)
    requires i <= j <= |data| && i <= k <= |data| && IsSpace(data[i..j]) && IsSpace(data[i..k])
    requires j == |data| || !IsSpaceChar(data[j])
    requires k == |data| || !IsSpaceChar(data[k])
    ensures j == k
  {
    SpaceCovers(data, i, j);
    SpaceCovers(data, i, k);
  }

  lemma DigitsCover(data: Bytes, i: nat, j: nat)
    requires i <= j <= |data| && AllDigits(data[i..j])
    ensures forall k | i <= k < j :: IsDigit(data[k])
  {
    assert forall k | i <= k < j :: data[k] == data[i..j][k - i];
  }

  lemma DigitsAreMaximal(data: Bytes, i: nat, j: nat, k: nat)
    requires i <= j <= |data| && i <= k <= |data| && AllDigits(data[i..j]) && AllDigits(data[i..k])
    requires j == |data| || !IsDigit(data[j])
    requires k == |data| || !IsDigit(data[k])
    ensures j == k
  {
    DigitsCover(data, i, j);
    DigitsCover(data, i, k);
  }

  /** No byte at `i` could continue a number. */
  predicate Delimited(data: Bytes, i: nat)
  {
    i >= |data| || !(IsDigit(data[i]) || data[i] == '.' || data[i] == 'e' || data[i] == 'E')
  }

  // ---------- guesses ----------

  ghost predicate UnitFits(data: Bytes, i: nat, g: Option<Unit>)
  {
    g.Some? && GoodUnit(g.value) && Spans(data, i, i + |UnitText(g.value)|, UnitText(g.value))
  }

  ghost predicate StringFits(data: Bytes, i: nat, g: Option<seq<Unit>>)
  {
    g.Some? && GoodUnits(g.value) && Spans(data, i, i + |StringText(g.value)|, StringText(g.value))
  }

  ghost predicate NumberFits(data: Bytes, float: FloatReader, i: nat, g: Option<Numeral>)
  {
    && g.Some? && GoodNumeral(g.value) && Representable(float, NumeralText(g.value))
    && Spans(data, i, i + |NumeralText(g.value)|, NumeralText(g.value))
    && Delimited(data, i + |NumeralText(g.value)|)
  }

  ghost predicate TreeFits(data: Bytes, float: FloatReader, i: nat, room: nat, g: Option<Tree>)
  {
    && g.Some? && Good(float, g.value, room)
    && Spans(data, i, i + |TreeText(g.value)|, TreeText(g.value))
    && Delimited(data, i + |TreeText(g.value)|)
  }

  // ---------- strings, one character at a time ----------

  ghost predicate StringSoFar(data: Bytes, start: nat, i: nat, us: seq<Unit>, name: Bytes)
  {
    GoodUnits(us) && name == Decoded(us) && Spans(data, start, i, "\"" + UnitsText(us))
  }

  /** The rest of a guess stands ahead, and means the rest of what the guess means. */
  ghost predicate StringAhead(data: Bytes, i: nat, end: nat, rest: seq<Unit>, name: Bytes, all: seq<Unit>)
  {
    && GoodUnits(rest) && Spans(data, i, end, UnitsText(rest) + "\"")
    && GoodUnits(all) && Decoded(all) == name + Decoded(rest)
  }

  lemma StringStarts(data: Bytes, start: nat)
    requires start < |data| && data[start] == '"'
    ensures StringSoFar(data, start, start + 1, [], "")
  {
    SpanOne(data, start, '"');
    assert "\"" + UnitsText([]) == "\"";
  }

  lemma StringGrows(data: Bytes, start: nat, at: nat, i: nat, us: seq<Unit>, name: Bytes, u: Unit)
    requires StringSoFar(data, start, at, us, name) && GoodUnit(u) && Spans(data, at, i, UnitText(u))
    ensures StringSoFar(data, start, i, us + [u], name + Utf8(Meaning(u)))
  {
    hide UnitText, Meaning, Utf8, GoodUnit;
    SpanJoin(data, start, at, i, "\"" + UnitsText(us), UnitText(u));
    UnitsSnoc(us, u);
    assert "\"" + UnitsText(us) + UnitText(u) == "\"" + UnitsText(us + [u]);
  }

  lemma StringCloses(data: Bytes, start: nat, i: nat, us: seq<Unit>, name: Bytes)
    requires StringSoFar(data, start, i, us, name) && i < |data| && data[i] == '"'
    ensures GoodUnits(us) && name == Decoded(us) && Spans(data, start, i + 1, StringText(us))
  {
    SpanOne(data, i, '"');
    SpanJoin(data, start, i, i + 1, "\"" + UnitsText(us), "\"");
  }

  // ---------- numbers, one part at a time ----------

  predicate NoDigitAt(data: Bytes, i: nat)
  {
    i >= |data| || !IsDigit(data[i])
  }

  ghost predicate WholeFits(data: Bytes, i: nat, g: Option<Bytes>)
  {
    g.Some? && GoodWhole(g.value) && Spans(data, i, i + |g.value|, g.value) && NoDigitAt(data, i + |g.value|)
  }

  ghost predicate FractionFits(data: Bytes, i: nat, g: Option<Option<Bytes>>)
  {
    && g.Some? && GoodFraction(g.value)
    && Spans(data, i, i + |FractionText(g.value)|, FractionText(g.value))
    && NoDigitAt(data, i + |FractionText(g.value)|)
    && (g.value.None? ==> i >= |data| || data[i] != '.')
  }

  ghost predicate ExponentFits(data: Bytes, i: nat, g: Option<Option<Power>>)
  {
    && g.Some? && GoodExponent(g.value)
    && Spans(data, i, i + |ExponentText(g.value)|, ExponentText(g.value))
    && NoDigitAt(data, i + |ExponentText(g.value)|)
    && (g.value.None? ==> i >= |data| || (data[i] != 'e' && data[i] != 'E'))
  }

  lemma SpanIs(data: Bytes, i: nat, j: nat, text: Bytes)
    requires Spans(data, i, j, text)
    ensures i <= j <= |data| && data[i..j] == text
  {
  }

  lemma WholeGuess(data: Bytes, i: nat, g: Option<Bytes>)
    ensures WholeFits(data, i, g) ==>
              && g.Some? && i < i + |g.value| <= |data| && data[i] == g.value[0] && IsDigit(data[i])
              && (data[i] == '0' ==> |g.value| == 1)
              && AllDigits(data[i..i + |g.value|]) && NoDigitAt(data, i + |g.value|)
  {
    if WholeFits(data, i, g) {
      SpanFirst(data, i, i + |g.value|, g.value);
    }
  }

  lemma FractionGuess(data: Bytes, i: nat, g: Option<Option<Bytes>>)
    ensures FractionFits(data, i, g) ==>
              var end := i + |FractionText(g.value)|;
              && g.Some? && end <= |data| && NoDigitAt(data, end)
              && (g.value.Some? <==> i < |data| && data[i] == '.')
              && (g.value.Some? ==> i + 1 < end && AllDigits(data[i + 1..end]))
              && (g.value.None? ==> end == i)
  {
    if FractionFits(data, i, g) && g.value.Some? {
      var end := i + |FractionText(g.value)|;
      SpanSplit(data, i, end, ".", g.value.value);
      SpanFirst(data, i, i + 1, ".");
    }
  }

  lemma FractionStands(data: Bytes, i: nat, end: nat)
    requires i + 1 < end <= |data| && data[i] == '.' && AllDigits(data[i + 1..end])
    ensures GoodFraction(Some(data[i + 1..end])) && Spans(data, i, end, FractionText(Some(data[i + 1..end])))
  {
    SpanOne(data, i, '.');
    SpanJoin(data, i, i + 1, end, ".", data[i + 1..end]);
  }

  lemma FractionNone(data: Bytes, i: nat)
    requires i <= |data|
    ensures GoodFraction(None) && Spans(data, i, i, FractionText(None)) && FractionText(None) == ""
  {
  }

  lemma ExponentNone(data: Bytes, i: nat)
    requires i <= |data|
    ensures GoodExponent(None) && Spans(data, i, i, ExponentText(None)) && ExponentText(None) == ""
  {
  }

  lemma ExponentStands(data: Bytes, i: nat, digits: nat, end: nat)
    requires i < digits < end <= |data| && (data[i] == 'e' || data[i] == 'E') && AllDigits(data[digits..end])
    requires digits == i + 1 || (digits == i + 2 && (data[i + 1] == '+' || data[i + 1] == '-'))
    ensures var e := Some(Power(data[i], data[i + 1..digits], data[digits..end])); GoodExponent(e) && Spans(data, i, end, ExponentText(e))
  {
    SpanOne(data, i, data[i]);
    SpanJoin(data, i + 1, digits, end, data[i + 1..digits], data[digits..end]);
    SpanJoin(data, i, i + 1, end, [data[i]], data[i + 1..digits] + data[digits..end]);
  }

  lemma ExponentGuess(data: Bytes, i: nat, g: Option<Option<Power>>)
    ensures ExponentFits(data, i, g) ==>
              var end := i + |ExponentText(g.value)|;
              && g.Some? && end <= |data| && NoDigitAt(data, end)
              && (g.value.Some? <==> i < |data| && (data[i] == 'e' || data[i] == 'E'))
              && (g.value.None? ==> end == i)
              && (g.value.Some? ==>
                    && i + 1 < end
                    && var from_ := i + 1 + (if data[i + 1] == '+' || data[i + 1] == '-' then 1 else 0);
                       from_ < end && AllDigits(data[from_..end]))
  {
    hide Spans, AllDigits, ExponentText;
    if ExponentFits(data, i, g) {
      var end := i + |ExponentText(g.value)|;
      SpanLength(data, i, end, ExponentText(g.value));
      SpanWithin(data, i, end, ExponentText(g.value));
      if g.value.Some? {
        PowerSplits(data, i, end, g.value.value);
      } else {
        ExponentNone(data, 0);
      }
    }
  }

  lemma SpanWithin(data: Bytes, i: nat, j: nat, text: Bytes)
    requires Spans(data, i, j, text)
    ensures i <= j <= |data|
  {
  }

  lemma PowerSplits(data: Bytes, i: nat, end: nat, power: Power)
    requires Spans(data, i, end, ExponentText(Some(power))) && GoodExponent(Some(power))
    ensures i + 1 < end <= |data| && data[i] == power.mark
    ensures var from_ := i + 1 + (if data[i + 1] == '+' || data[i + 1] == '-' then 1 else 0);
            from_ < end && AllDigits(data[from_..end])
  {
    hide Spans, AllDigits;
    var digits := i + 1 + |power.sign|;
    assert ExponentText(Some(power)) == [power.mark] + (power.sign + power.digits);
    SpanSplit(data, i, end, [power.mark], power.sign + power.digits);
    SpanFirst(data, i, i + 1, [power.mark]);
    SpanSplit(data, i + 1, end, power.sign, power.digits);
    SpanFirst(data, digits, end, power.digits);
    SpanIs(data, digits, end, power.digits);
    FirstIsDigit(power.digits);
    if power.sign != "" {
      SpanFirst(data, i + 1, digits, power.sign);
    }
  }

  lemma FirstIsDigit(ds: Bytes)
    requires ds != [] && AllDigits(ds)
    ensures IsDigit(ds[0])
  {
  }

  lemma NumberSplits(data: Bytes, start: nat, end: nat, n: Numeral)
    requires Spans(data, start, end, NumeralText(n))
    ensures var p1 := start + |SignText(n)|;
            var p2 := p1 + |n.whole|;
            var p3 := p2 + |FractionText(n.fraction)|;
            && Spans(data, start, p1, SignText(n)) && Spans(data, p1, p2, n.whole)
            && Spans(data, p2, p3, FractionText(n.fraction)) && Spans(data, p3, end, ExponentText(n.exponent))
            && end == p3 + |ExponentText(n.exponent)|
  {
    hide SignText, FractionText, ExponentText, Spans;
    var p1 := start + |SignText(n)|;
    var p2 := p1 + |n.whole|;
    SpanSplit(data, start, end, SignText(n), n.whole + (FractionText(n.fraction) + ExponentText(n.exponent)));
    SpanSplit(data, p1, end, n.whole, FractionText(n.fraction) + ExponentText(n.exponent));
    SpanSplit(data, p2, end, FractionText(n.fraction), ExponentText(n.exponent));
    SpanLength(data, p2 + |FractionText(n.fraction)|, end, ExponentText(n.exponent));
  }

  lemma SpanLength(data: Bytes, i: nat, j: nat, text: Bytes)
    requires Spans(data, i, j, text)
    ensures j == i + |text|
  {
  }

  /** A fitting numeral stands part by part, each part ended by the next. */
  lemma NumberGuess(data: Bytes, float: FloatReader, start: nat, g: Option<Numeral>)
    ensures NumberFits(data, float, start, g) ==>
              && g.Some?
              && (g.value.minus <==> start < |data| && data[start] == '-')
              && var p1 := start + (if g.value.minus then 1 else 0);
                 var p2 := p1 + |g.value.whole|;
                 var p3 := p2 + |FractionText(g.value.fraction)|;
                 && p1 < |data|
                 && WholeFits(data, p1, Some(g.value.whole))
                 && FractionFits(data, p2, Some(g.value.fraction))
                 && ExponentFits(data, p3, Some(g.value.exponent))
  {
    hide Spans, AllDigits, GoodWhole, GoodFraction, GoodExponent, FractionText, ExponentText, Delimited, NumeralText,
         Representable, WholeFits, FractionFits, ExponentFits;
    if NumberFits(data, float, start, g) {
      var n := g.value;
      var end := start + |NumeralText(n)|;
      var p1 := start + |SignText(n)|;
      var p2 := p1 + |n.whole|;
      NumberSplits(data, start, end, n);
      WholeStartsWithDigit(n.whole);
      SpanFirst(data, p1, p2, n.whole);
      PartsFit(data, p1, p2, p2 + |FractionText(n.fraction)|, end, n);
      if n.minus {
        SpanFirst(data, start, p1, SignText(n));
      }
    }
  }

  lemma WholeStartsWithDigit(whole: Bytes)
    requires GoodWhole(whole)
    ensures whole != [] && IsDigit(whole[0])
  {
  }

  lemma PartsFit(data: Bytes, p1: nat, p2: nat, p3: nat, end: nat, n: Numeral)
    requires Spans(data, p1, p2, n.whole) && p2 == p1 + |n.whole| && p3 == p2 + |FractionText(n.fraction)|
    requires Spans(data, p2, p3, FractionText(n.fraction)) && Spans(data, p3, end, ExponentText(n.exponent)) && Delimited(data, end)
    requires GoodNumeral(n)
    ensures WholeFits(data, p1, Some(n.whole)) && FractionFits(data, p2, Some(n.fraction)) && ExponentFits(data, p3, Some(n.exponent))
  {
    hide Spans, FractionText, ExponentText, Delimited, GoodWhole, GoodFraction, GoodExponent;
    SpanLength(data, p3, end, ExponentText(n.exponent));
    PartsEndEachOther(data, p2, p3, end, n);
  }

  /** After the whole part no digit follows, nor a sign of a part that is absent. */
  lemma PartsEndEachOther(data: Bytes, p2: nat, p3: nat, end: nat, n: Numeral)
    requires Spans(data, p2, p3, FractionText(n.fraction)) && Spans(data, p3, end, ExponentText(n.exponent)) && Delimited(data, end)
    requires GoodNumeral(n)
    ensures NoDigitAt(data, p2) && NoDigitAt(data, p3) && NoDigitAt(data, end)
    ensures n.fraction.None? ==> p2 >= |data| || data[p2] != '.'
    ensures n.exponent.None? ==> p3 >= |data| || (data[p3] != 'e' && data[p3] != 'E')
  {
    if n.exponent.Some? {
      SpanFirst(data, p3, end, ExponentText(n.exponent));
    }
    if n.fraction.Some? {
      SpanFirst(data, p2, p3, FractionText(n.fraction));
    }
  }

  lemma NumberStands(data: Bytes, start: nat, p1: nat, p2: nat, p3: nat, end: nat, n: Numeral)
    requires p1 == start + |SignText(n)| && p1 <= |data| && (n.minus ==> start < |data| && data[start] == '-')
    requires GoodWhole(n.whole) && Spans(data, p1, p2, n.whole)
    requires GoodFraction(n.fraction) && Spans(data, p2, p3, FractionText(n.fraction))
    requires GoodExponent(n.exponent) && Spans(data, p3, end, ExponentText(n.exponent))
    ensures GoodNumeral(n) && Spans(data, start, end, NumeralText(n))
  {
    assert Spans(data, start, p1, SignText(n));
    SpanJoin(data, p2, p3, end, FractionText(n.fraction), ExponentText(n.exponent));
    SpanJoin(data, p1, p2, end, n.whole, FractionText(n.fraction) + ExponentText(n.exponent));
    SpanJoin(data, start, p1, end, SignText(n), n.whole + (FractionText(n.fraction) + ExponentText(n.exponent)));
  }

  lemma NumberEnds(data: Bytes, float: FloatReader, start: nat, end: nat, n: Numeral)
    requires NumberFits(data, float, start, Some(n))
    requires end == start + (if n.minus then 1 else 0) + |n.whole| + |FractionText(n.fraction)| + |ExponentText(n.exponent)|
    ensures end == start + |NumeralText(n)| && end <= |data| && data[start..end] == NumeralText(n) && Representable(float, NumeralText(n))
  {
  }

  // ---------- values ----------

  predicate NoSpaceAt(data: Bytes, i: nat)
  {
    i >= |data| || !IsSpaceChar(data[i])
  }

  /** What may follow a value: a comma, a closing bracket, or the end. */
  predicate Ends(data: Bytes, i: nat)
  {
    i >= |data| || data[i] == ',' || data[i] == ']' || data[i] == '}'
  }

  ghost predicate ValueFits(data: Bytes, float: FloatReader, i: nat, room: nat, g: Option<Element>)
  {
    && g.Some? && IsSpace(g.value.before) && Spans(data, i, i + |g.value.before|, g.value.before)
    && TreeFits(data, float, i + |g.value.before|, room, Some(g.value.tree))
  }

  ghost predicate ElementFits(data: Bytes, float: FloatReader, at: nat, room: nat, g: Option<Element>)
  {
    && g.Some? && GoodElement(float, g.value, room)
    && Spans(data, at, at + |ElementText(g.value)|, ElementText(g.value))
    && Ends(data, at + |ElementText(g.value)|)
  }

  lemma SpanSelf(data: Bytes, i: nat, j: nat)
    requires i <= j <= |data|
    ensures Spans(data, i, j, data[i..j])
  {
  }

  lemma SpaceOfNothing(data: Bytes, i: nat)
    requires i <= |data|
    ensures IsSpace(data[i..i])
  {
  }

  lemma StringTextShape(us: seq<Unit>)
    requires GoodUnits(us)
    ensures TreeText(Text(us)) == StringText(us) && StringText(us) != [] && StringText(us)[0] == '"'
  {
  }

  lemma NumeralTextShape(n: Numeral)
    requires GoodNumeral(n)
    ensures NumeralText(n) != []
    ensures NumeralText(n)[0] == '-' || IsDigit(NumeralText(n)[0])
  {
  }

  lemma ObjectTextShape(gap: Bytes, members: seq<Member>)
    ensures TreeText(Object(gap, members)) != [] && TreeText(Object(gap, members))[0] == '{'
  {
  }

  lemma ArrayTextShape(gap: Bytes, elements: seq<Element>)
    ensures TreeText(Array(gap, elements)) != [] && TreeText(Array(gap, elements))[0] == '['
  {
  }

  /** The first byte of a value tells which kind it is. */
  lemma FirstByte(float: FloatReader, t: Tree, room: nat)
    requires Good(float, t, room)
    ensures TreeText(t) != [] && !IsSpaceChar(TreeText(t)[0]) && !(TreeText(t)[0] == ']' || TreeText(t)[0] == '}')
    ensures TreeText(t)[0] == '{' <==> t.Object?
    ensures TreeText(t)[0] == '[' <==> t.Array?
    ensures TreeText(t)[0] == '"' <==> t.Text?
    ensures TreeText(t)[0] == 't' <==> t == Word("true")
    ensures TreeText(t)[0] == 'f' <==> t == Word("false")
    ensures TreeText(t)[0] == 'n' <==> t == Word("null")
  {
    hide TreeText, Joined, NumeralText, StringText;
    match t
    case Object(gap, members) => ObjectTextShape(gap, members);
    case Array(gap, elements) => ArrayTextShape(gap, elements);
    case Text(units) => StringTextShape(units);
    case Word(word) => assert TreeText(t) == word by { WordText(word); }
    case Number(numeral) =>
      NumeralTextShape(numeral);
      assert TreeText(t) == NumeralText(numeral) by { NumberText(numeral); }
  }

  lemma WordText(word: Bytes)
    ensures TreeText(Word(word)) == word
  {
  }

  lemma NumberText(n: Numeral)
    ensures TreeText(Number(n)) == NumeralText(n)
  {
  }

  lemma TreeGuess(data: Bytes, float: FloatReader, i: nat, room: nat, g: Option<Tree>)
    ensures TreeFits(data, float, i, room, g) ==>
              && g.Some? && i < |data|
              && (data[i] == '{' <==> g.value.Object?) && (data[i] == '[' <==> g.value.Array?) && (data[i] == '"' <==> g.value.Text?)
              && (data[i] == 't' <==> g.value == Word("true"))
              && (data[i] == 'f' <==> g.value == Word("false"))
              && (data[i] == 'n' <==> g.value == Word("null"))
              && (g.value.Text? ==> GoodUnits(g.value.units) && StringFits(data, i, Some(g.value.units))
                                    && |TreeText(g.value)| == |StringText(g.value.units)|)
              && (g.value.Word? ==> Spans(data, i, i + |TreeText(g.value)|, g.value.word) && TreeText(g.value) == g.value.word
                                    && (g.value.word == "true" || g.value.word == "false" || g.value.word == "null"))
              && (g.value.Number? ==> NumberFits(data, float, i, Some(g.value.numeral))
                                      && |TreeText(g.value)| == |NumeralText(g.value.numeral)|)
  {
    hide Joined, NumeralText, StringText, Spans, GoodMember, GoodElement;
    if TreeFits(data, float, i, room, g) {
      FirstByte(float, g.value, room);
      SpanFirst(data, i, i + |TreeText(g.value)|, TreeText(g.value));
    }
  }

  /** Whitespace is skipped exactly up to a fitting value. */
  lemma ValueGuess(data: Bytes, float: FloatReader, start: nat, i: nat, room: nat, g: Option<Element>)
    requires start <= i <= |data| && IsSpace(data[start..i]) && NoSpaceAt(data, i)
    ensures ValueFits(data, float, start, room, g) ==>
              g.Some? && i == start + |g.value.before| && i < |data| && TreeFits(data, float, i, room, Some(g.value.tree))
  {
    hide TreeText, Good;
    if ValueFits(data, float, start, room, g) {
      var p := start + |g.value.before|;
      TreeStartsHere(data, float, p, room, g.value.tree);
      SpaceIsMaximal(data, start, i, p);
    }
  }

  lemma TreeStartsHere(data: Bytes, float: FloatReader, p: nat, room: nat, t: Tree)
    requires TreeFits(data, float, p, room, Some(t))
    ensures p < |data| && !IsSpaceChar(data[p]) && data[p] != ']' && data[p] != '}'
  {
    hide TreeText, Good;
    FirstByte(float, t, room);
    SpanFirst(data, p, p + |TreeText(t)|, TreeText(t));
  }

  // ---------- elements ----------

  lemma ElementSplits(data: Bytes, at: nat, q: nat, e: Element)
    requires Spans(data, at, q, ElementText(e))
    ensures var p := at + |e.before|;
            var r := p + |TreeText(e.tree)|;
            && Spans(data, at, p, e.before) && Spans(data, p, r, TreeText(e.tree)) && Spans(data, r, q, e.after)
            && q == r + |e.after|
  {
    hide Spans, TreeText;
    var p := at + |e.before|;
    SpanSplit(data, at, q, e.before, TreeText(e.tree) + e.after);
    SpanSplit(data, p, q, TreeText(e.tree), e.after);
    SpanLength(data, p + |TreeText(e.tree)|, q, e.after);
  }

  lemma AfterValueIsDelimited(data: Bytes, r: nat, q: nat, after: Bytes)
    requires Spans(data, r, q, after) && IsSpace(after) && Ends(data, q)
    ensures Delimited(data, r) && NoSpaceAt(data, q)
  {
    if after != "" {
      SpanFirst(data, r, q, after);
    }
  }

  lemma ElementGuess(data: Bytes, float: FloatReader, at: nat, i: nat, room: nat, g: Option<Element>)
    requires at <= i <= |data| && IsSpace(data[at..i]) && (at == i || NoSpaceAt(data, i))
    ensures ElementFits(data, float, at, room, g) ==>
              && g.Some? && i - at <= |g.value.before|
              && ValueFits(data, float, i, room, Some(g.value.(before := g.value.before[i - at..])))
  {
    hide TreeText, Good, Spans, ElementText, IsSpace;
    if ElementFits(data, float, at, room, g) {
      var e := g.value;
      ElementSplits(data, at, at + |ElementText(e)|, e);
      var p := at + |e.before|;
      AfterValueIsDelimited(data, p + |TreeText(e.tree)|, at + |ElementText(e)|, e.after);
      SpanIs(data, at, p, e.before);
      assert TreeFits(data, float, p, room, Some(e.tree));
      TreeStartsHere(data, float, p, room, e.tree);
      if at != i {
        SpaceIsMaximal(data, at, i, p);
      }
      RestOfSpace(data, at, i, p, e.before);
    }
  }

  lemma RestOfSpace(data: Bytes, at: nat, i: nat, p: nat, before: Bytes)
    requires Spans(data, at, p, before) && IsSpace(before) && at <= i <= p
    ensures p == at + |before| && Spans(data, i, p, before[i - at..]) && IsSpace(before[i - at..])
  {
    assert data[i..p] == data[at..p][i - at..];
  }

  lemma ElementStands(data: Bytes, float: FloatReader, at: nat, start: nat, end: nat, i: nat, before: Bytes, tree: Tree, room: nat)
    requires at <= start <= end <= i <= |data| && IsSpace(data[at..start]) && IsSpace(before) && IsSpace(data[end..i])
    requires Good(float, tree, room) && Spans(data, start, end, before + TreeText(tree))
    ensures var e := Element(data[at..start] + before, tree, data[end..i]);
            GoodElement(float, e, room) && Spans(data, at, i, ElementText(e))
  {
    hide TreeText, Good;
    var skipped := data[at..start];
    SpanSelf(data, at, start);
    SpanSelf(data, end, i);
    SpanJoin(data, at, start, end, skipped, before + TreeText(tree));
    SpanJoin(data, at, end, i, skipped + (before + TreeText(tree)), data[end..i]);
    assert skipped + (before + TreeText(tree)) + data[end..i] == (skipped + before) + (TreeText(tree) + data[end..i]);
  }

  lemma ElementEnds(data: Bytes, float: FloatReader, at: nat, end: nat, i: nat, room: nat, e: Element)
    requires ElementFits(data, float, at, room, Some(e)) && end == at + |e.before| + |TreeText(e.tree)|
    requires end <= i <= |data| && IsSpace(data[end..i]) && NoSpaceAt(data, i)
    ensures i == at + |ElementText(e)|
  {
    hide TreeText, Good, ElementText;
    var q := at + |ElementText(e)|;
    ElementSplits(data, at, q, e);
    AfterValueIsDelimited(data, end, q, e.after);
    SpaceIsMaximal(data, end, i, q);
  }

  // ---------- lists ----------

  ghost predicate ListSoFar(data: Bytes, start: nat, at: nat, bracket: char, parts: seq<Bytes>)
  {
    Spans(data, start, at, [bracket] + Lead(parts))
  }

  lemma ListStarts(data: Bytes, start: nat, bracket: char)
    requires start < |data| && data[start] == bracket
    ensures ListSoFar(data, start, start + 1, bracket, [])
  {
    assert [bracket] + Lead([]) == [bracket];
  }

  lemma LeadSnoc(parts: seq<Bytes>, part: Bytes)
    ensures Lead(parts + [part]) == Lead(parts) + (part + ",")
  {
    assert (parts + [part])[..|parts|] == parts;
  }

  lemma ListGrows(data: Bytes, start: nat, at: nat, i: nat, bracket: char, parts: seq<Bytes>, part: Bytes)
    requires ListSoFar(data, start, at, bracket, parts) && Spans(data, at, i, part) && i < |data| && data[i] == ','
    ensures ListSoFar(data, start, i + 1, bracket, parts + [part])
  {
    hide Lead;
    SpanOne(data, i, ',');
    SpanJoin(data, at, i, i + 1, part, ",");
    SpanJoin(data, start, at, i + 1, [bracket] + Lead(parts), part + ",");
    LeadSnoc(parts, part);
    assert [bracket] + Lead(parts) + (part + ",") == [bracket] + (Lead(parts) + (part + ","));
  }

  /** The text of a bracketed list. */
  function ListText(bracket: char, close: char, gap: Bytes, parts: seq<Bytes>): Bytes
  {
    [bracket] + ((gap + Joined(parts)) + [close])
  }

  lemma ListCloses(data: Bytes, start: nat, at: nat, i: nat, bracket: char, close: char, parts: seq<Bytes>, part: Bytes)
    requires ListSoFar(data, start, at, bracket, parts) && Spans(data, at, i, part) && i < |data| && data[i] == close
    ensures Spans(data, start, i + 1, ListText(bracket, close, "", parts + [part]))
  {
    hide Lead, Joined;
    SpanOne(data, i, close);
    SpanJoin(data, start, at, i, [bracket] + Lead(parts), part);
    SpanJoin(data, start, i, i + 1, [bracket] + Lead(parts) + part, [close]);
    JoinedSnoc(parts, part);
    assert [bracket] + Lead(parts) + part + [close] == [bracket] + (("" + (Lead(parts) + part)) + [close]);
  }

  lemma EmptyListStands(data: Bytes, start: nat, i: nat, bracket: char, close: char)
    requires start < i < |data| && data[start] == bracket && data[i] == close
    ensures Spans(data, start, i + 1, ListText(bracket, close, data[start + 1..i], []))
  {
    SpanOne(data, start, bracket);
    SpanOne(data, i, close);
    SpanJoin(data, start + 1, i, i + 1, data[start + 1..i], [close]);
    SpanJoin(data, start, start + 1, i + 1, [bracket], data[start + 1..i] + [close]);
    assert data[start + 1..i] + Joined([]) == data[start + 1..i];
  }

  /** The rest of a guessed list stands ahead. */
  ghost predicate ListAhead(data: Bytes, at: nat, end: nat, close: char, parts: seq<Bytes>)
  {
    Spans(data, at, end, Joined(parts) + [close])
  }

  lemma ListAheadStep(data: Bytes, at: nat, end: nat, close: char, parts: seq<Bytes>)
    requires ListAhead(data, at, end, close, parts) && parts != []
    ensures var q := at + |parts[0]|;
            && Spans(data, at, q, parts[0]) && q < |data|
            && (|parts| == 1 ==> data[q] == close && end == q + 1)
            && (|parts| > 1 ==> data[q] == ',' && ListAhead(data, q + 1, end, close, parts[1..]))
  {
    var q := at + |parts[0]|;
    if |parts| == 1 {
      SpanSplit(data, at, end, parts[0], [close]);
      SpanFirst(data, q, end, [close]);
    } else {
      var tail := Joined(parts[1..]) + [close];
      assert Joined(parts) + [close] == parts[0] + ("," + tail);
      SpanSplit(data, at, end, parts[0], "," + tail);
      SpanSplit(data, q, end, ",", tail);
      SpanFirst(data, q, q + 1, ",");
    }
  }

  lemma ListGuess(data: Bytes, start: nat, end: nat, bracket: char, close: char, gap: Bytes, parts: seq<Bytes>)
    requires Spans(data, start, end, ListText(bracket, close, gap, parts))
    ensures Spans(data, start + 1, start + 1 + |gap|, gap) && ListAhead(data, start + 1 + |gap|, end, close, parts)
  {
    hide Joined;
    assert gap + Joined(parts) + [close] == gap + (Joined(parts) + [close]);
    SpanSplit(data, start, end, [bracket], gap + (Joined(parts) + [close]));
    SpanSplit(data, start + 1, end, gap, Joined(parts) + [close]);
  }

  // ---------- arrays ----------

  function ElementTexts(es: seq<Element>): (r: seq<Bytes>)
    ensures |r| == |es| && forall i | 0 <= i < |es| :: r[i] == ElementText(es[i])
  {
    seq(|es|, i requires 0 <= i < |es| => ElementText(es[i]))
  }

  lemma ElementTextsSnoc(es: seq<Element>, e: Element)
    ensures ElementTexts(es + [e]) == ElementTexts(es) + [ElementText(e)]
  {
    hide ElementText;
  }

  lemma ArrayText(gap: Bytes, es: seq<Element>)
    ensures TreeText(Array(gap, es)) == ListText('[', ']', gap, ElementTexts(es))
  {
    hide ElementText, Joined;
    assert seq(|es|, i requires 0 <= i < |es| => ElementText(es[i])) == ElementTexts(es);
  }

  lemma NoRoomNoContainer(data: Bytes, float: FloatReader, i: nat, room: nat, g: Option<Tree>)
    ensures TreeFits(data, float, i, room, g) && i < |data| && (data[i] == '[' || data[i] == '{') ==> room > 0
  {
    if TreeFits(data, float, i, room, g) {
      FirstByte(float, g.value, room);
      SpanFirst(data, i, i + |TreeText(g.value)|, TreeText(g.value));
    }
  }

  ghost predicate ElementsAhead(data: Bytes, float: FloatReader, at: nat, end: nat, room: nat, rest: seq<Element>)
  {
    && rest != [] && (forall i | 0 <= i < |rest| :: GoodElement(float, rest[i], room))
    && ListAhead(data, at, end, ']', ElementTexts(rest))
  }

  lemma ElementsAheadStep(data: Bytes, float: FloatReader, at: nat, end: nat, room: nat, rest: seq<Element>)
    requires ElementsAhead(data, float, at, end, room, rest)
    ensures var q := at + |ElementText(rest[0])|;
            && rest != [] && ElementFits(data, float, at, room, Some(rest[0])) && q < |data|
            && (data[q] == ']' ==> end == q + 1)
            && (data[q] != ']' ==> data[q] == ',' && ElementsAhead(data, float, q + 1, end, room, rest[1..]))
  {
    hide ElementText, GoodElement, Spans, ListAhead;
    ListAheadStep(data, at, end, ']', ElementTexts(rest));
    assert ElementTexts(rest)[1..] == ElementTexts(rest[1..]);
  }

  /** After the bracket and its whitespace, a fitting array closes or goes on. */
  lemma ArrayGuess(data: Bytes, float: FloatReader, start: nat, i: nat, room: nat, g: Option<Tree>)
    requires start < i <= |data| && data[start] == '[' && IsSpace(data[start + 1..i]) && NoSpaceAt(data, i)
    ensures TreeFits(data, float, start, room, g) ==>
              && g.Some? && g.value.Array? && room > 0
              && var end := start + |TreeText(g.value)|;
                 && i < |data|
                 && (data[i] == ']' ==> end == i + 1)
                 && (data[i] != ']' ==> ElementsAhead(data, float, start + 1, end, room - 1, g.value.elements))
  {
    hide TreeText, Joined, ListAhead, ElementText, GoodElement, Spans, GoodMember, ElementsAhead;
    if TreeFits(data, float, start, room, g) {
      TreeGuess(data, float, start, room, g);
      var gap, es := g.value.gap, g.value.elements;
      var end := start + |TreeText(g.value)|;
      ArrayText(gap, es);
      ListGuess(data, start, end, '[', ']', gap, ElementTexts(es));
      if es == [] {
        EmptyListEnds(data, start, i, end, ']', gap);
      } else {
        FirstElementAhead(data, float, start, i, end, room, es);
      }
    }
  }

  lemma EmptyListEnds(data: Bytes, start: nat, i: nat, end: nat, close: char, gap: Bytes)
    requires start < i <= |data| && IsSpace(data[start + 1..i]) && NoSpaceAt(data, i) && !IsSpaceChar(close)
    requires Spans(data, start + 1, start + 1 + |gap|, gap) && IsSpace(gap) && ListAhead(data, start + 1 + |gap|, end, close, [])
    ensures i < |data| && data[i] == close && end == i + 1
  {
    var p := start + 1 + |gap|;
    assert Joined([]) + [close] == [close];
    SpanFirst(data, p, end, [close]);
    SpaceIsMaximal(data, start + 1, i, p);
  }

  lemma FirstElementAhead(data: Bytes, float: FloatReader, start: nat, i: nat, end: nat, room: nat, es: seq<Element>)
    requires start < i <= |data| && IsSpace(data[start + 1..i]) && NoSpaceAt(data, i) && room > 0
    requires es != [] && forall k | 0 <= k < |es| :: GoodElement(float, es[k], room - 1)
    requires ListAhead(data, start + 1, end, ']', ElementTexts(es))
    ensures ElementsAhead(data, float, start + 1, end, room - 1, es) && i < |data| && data[i] != ']'
  {
    hide TreeText, Joined, ListAhead, ElementText, Spans, Good;
    ElementsAheadStep(data, float, start + 1, end, room - 1, es);
    ElementGuess(data, float, start + 1, start + 1, room - 1, Some(es[0]));
    assert es[0].before[0..] == es[0].before && es[0].(before := es[0].before) == es[0];
    ValueGuess(data, float, start + 1, i, room - 1, Some(es[0]));
    TreeStartsHere(data, float, i, room - 1, es[0].tree);
  }

  lemma EmptyArrayStands(data: Bytes, float: FloatReader, start: nat, i: nat, room: nat)
    requires start < i < |data| && data[start] == '[' && data[i] == ']' && IsSpace(data[start + 1..i]) && room > 0
    ensures var t := Array(data[start + 1..i], []); Good(float, t, room) && Spans(data, start, i + 1, TreeText(t))
  {
    hide ElementText, Joined, TreeText;
    ArrayText(data[start + 1..i], []);
    EmptyListStands(data, start, i, '[', ']');
  }

  lemma ArrayStands(data: Bytes, float: FloatReader, start: nat, end: nat, room: nat, done: seq<Element>, e: Element)
    requires room > 0 && GoodElement(float, e, room - 1) && forall i | 0 <= i < |done| :: GoodElement(float, done[i], room - 1)
    requires Spans(data, start, end, ListText('[', ']', "", ElementTexts(done) + [ElementText(e)]))
    ensures Good(float, Array("", done + [e]), room) && Spans(data, start, end, TreeText(Array("", done + [e])))
  {
    hide ElementText, Joined, TreeText, GoodElement;
    ArrayText("", done + [e]);
    ElementTextsSnoc(done, e);
  }

  // ---------- members ----------

  ghost predicate MemberFits(data: Bytes, float: FloatReader, at: nat, room: nat, g: Option<Member>)
  {
    && g.Some? && GoodMember(float, g.value, room)
    && Spans(data, at, at + |MemberText(g.value)|, MemberText(g.value))
    && Ends(data, at + |MemberText(g.value)|)
  }

  lemma SpaceJoins(data: Bytes, i: nat, k: nat, j: nat)
    requires i <= k <= j <= |data| && IsSpace(data[i..k]) && IsSpace(data[k..j])
    ensures IsSpace(data[i..j])
  {
    assert data[i..j] == data[i..k] + data[k..j];
  }

  lemma MemberLength(m: Member)
    requires GoodUnits(m.name)
    ensures |MemberText(m)| == |m.before| + |StringText(m.name)| + |m.colon| + 1 + |ElementText(m.value)|
  {
    hide StringText, ElementText;
  }

  lemma MemberSplits(data: Bytes, at: nat, q: nat, m: Member)
    requires GoodUnits(m.name) && Spans(data, at, q, MemberText(m))
    ensures var n0 := at + |m.before|;
            var n1 := n0 + |StringText(m.name)|;
            var c := n1 + |m.colon|;
            && Spans(data, at, n0, m.before) && Spans(data, n0, n1, StringText(m.name)) && Spans(data, n1, c, m.colon)
            && c < |data| && data[c] == ':' && Spans(data, c + 1, q, ElementText(m.value)) && q == c + 1 + |ElementText(m.value)|
  {
    hide Spans, StringText, ElementText;
    var n0 := at + |m.before|;
    var n1 := n0 + |StringText(m.name)|;
    var c := n1 + |m.colon|;
    SpanSplit(data, at, q, m.before, StringText(m.name) + (m.colon + (":" + ElementText(m.value))));
    SpanSplit(data, n0, q, StringText(m.name), m.colon + (":" + ElementText(m.value)));
    SpanSplit(data, n1, q, m.colon, ":" + ElementText(m.value));
    SpanSplit(data, c, q, ":", ElementText(m.value));
    SpanFirst(data, c, c + 1, ":");
    SpanLength(data, c + 1, q, ElementText(m.value));
  }

  lemma MemberGuess(data: Bytes, float: FloatReader, at: nat, i: nat, room: nat, g: Option<Member>)
    requires at <= i <= |data| && IsSpace(data[at..i]) && NoSpaceAt(data, i)
    ensures MemberFits(data, float, at, room, g) ==>
              g.Some? && i == at + |g.value.before| && GoodUnits(g.value.name) && StringFits(data, i, Some(g.value.name))
              && i < |data| && data[i] == '"'
  {
    hide StringText, ElementText, MemberText, GoodElement, IsSpace;
    if MemberFits(data, float, at, room, g) {
      var m := g.value;
      MemberSplits(data, at, at + |MemberText(m)|, m);
      var n0 := at + |m.before|;
      StringTextShape(m.name);
      SpanFirst(data, n0, n0 + |StringText(m.name)|, StringText(m.name));
      SpaceIsMaximal(data, at, i, n0);
    }
  }

  lemma ColonGuess(data: Bytes, float: FloatReader, at: nat, n1: nat, i: nat, room: nat, m: Member)
    requires MemberFits(data, float, at, room, Some(m)) && GoodUnits(m.name) && n1 == at + |m.before| + |StringText(m.name)|
    requires n1 <= i <= |data| && IsSpace(data[n1..i]) && NoSpaceAt(data, i)
    ensures i == n1 + |m.colon| && i < |data| && data[i] == ':' && ElementFits(data, float, i + 1, room, Some(m.value))
    ensures i + 1 + |ElementText(m.value)| == at + |MemberText(m)|
  {
    hide StringText, ElementText, MemberText, GoodElement, IsSpace;
    MemberSplits(data, at, at + |MemberText(m)|, m);
    SpaceIsMaximal(data, n1, i, n1 + |m.colon|);
  }

  lemma MemberStands(data: Bytes, float: FloatReader, at: nat, n0: nat, n1: nat, c: nat, q: nat, us: seq<Unit>, e: Element, room: nat)
    requires at <= n0 <= n1 <= c < |data| && IsSpace(data[at..n0]) && IsSpace(data[n1..c]) && data[c] == ':'
    requires GoodUnits(us) && Spans(data, n0, n1, StringText(us))
    requires GoodElement(float, e, room) && Spans(data, c + 1, q, ElementText(e))
    ensures var m := Member(data[at..n0], us, data[n1..c], e); GoodMember(float, m, room) && Spans(data, at, q, MemberText(m))
  {
    hide StringText, ElementText, GoodElement, IsSpace;
    SpanOne(data, c, ':');
    SpanJoin(data, c, c + 1, q, ":", ElementText(e));
    SpanJoin(data, n1, c, q, data[n1..c], ":" + ElementText(e));
    SpanJoin(data, n0, n1, q, StringText(us), data[n1..c] + (":" + ElementText(e)));
    SpanJoin(data, at, n0, q, data[at..n0], StringText(us) + (data[n1..c] + (":" + ElementText(e))));
  }

  // ---------- objects ----------

  function MemberTexts(ms: seq<Member>): (r: seq<Bytes>)
    ensures |r| == |ms| && forall i | 0 <= i < |ms| :: r[i] == MemberText(ms[i])
  {
    seq(|ms|, i requires 0 <= i < |ms| => MemberText(ms[i]))
  }

  lemma ObjectText(gap: Bytes, ms: seq<Member>)
    ensures TreeText(Object(gap, ms)) == ListText('{', '}', gap, MemberTexts(ms))
  {
    hide MemberText, Joined;
    assert seq(|ms|, i requires 0 <= i < |ms| => MemberText(ms[i])) == MemberTexts(ms);
  }

  ghost predicate DistinctNames(ms: seq<Member>)
    requires forall i | 0 <= i < |ms| :: GoodUnits(ms[i].name)
  {
    forall i, j | 0 <= i < j < |ms| :: Decoded(ms[i].name) != Decoded(ms[j].name)
  }

  /** The members read so far are well-formed, and `names` is what they are called. */
  ghost predicate MembersDone(float: FloatReader, room: nat, done: seq<Member>, names: set<Bytes>)
  {
    && (forall i | 0 <= i < |done| :: GoodMember(float, done[i], room))
    && (forall i | 0 <= i < |done| :: GoodUnits(done[i].name) && Decoded(done[i].name) in names)
    && DistinctNames(done)
  }

  lemma NoMembersDone(float: FloatReader, room: nat)
    ensures MembersDone(float, room, [], {})
  {
  }

  lemma MembersDoneSnoc(float: FloatReader, room: nat, done: seq<Member>, names: set<Bytes>, m: Member)
    requires MembersDone(float, room, done, names) && GoodMember(float, m, room) && Decoded(m.name) !in names
    ensures MembersDone(float, room, done + [m], names + {Decoded(m.name)})
    ensures MemberTexts(done + [m]) == MemberTexts(done) + [MemberText(m)]
  {
    hide MemberText, GoodElement, GoodUnits, Decoded;
  }

  /** The rest of a guessed object stands ahead, and its names are new. */
  ghost predicate MembersAhead(data: Bytes, float: FloatReader, at: nat, end: nat, room: nat, rest: seq<Member>, names: set<Bytes>)
  {
    && rest != [] && (forall i | 0 <= i < |rest| :: GoodMember(float, rest[i], room))
    && (forall i | 0 <= i < |rest| :: GoodUnits(rest[i].name) && Decoded(rest[i].name) !in names)
    && DistinctNames(rest)
    && ListAhead(data, at, end, '}', MemberTexts(rest))
  }

  lemma MembersAheadStep(data: Bytes, float: FloatReader, at: nat, end: nat, room: nat, rest: seq<Member>, names: set<Bytes>)
    requires MembersAhead(data, float, at, end, room, rest, names)
    ensures rest != [] && MemberFits(data, float, at, room, Some(rest[0]))
    ensures GoodUnits(rest[0].name) && Decoded(rest[0].name) !in names
    ensures var q := at + |MemberText(rest[0])|;
            && q < |data| && (data[q] == '}' ==> end == q + 1)
            && (data[q] != '}' ==>
                  data[q] == ',' && MembersAhead(data, float, q + 1, end, room, rest[1..], names + {Decoded(rest[0].name)}))
  {
    hide MemberText, GoodMember, GoodUnits, Decoded, Spans, ListAhead;
    ListAheadStep(data, at, end, '}', MemberTexts(rest));
    assert MemberTexts(rest)[1..] == MemberTexts(rest[1..]);
  }

  lemma GoodObject(float: FloatReader, gap: Bytes, ms: seq<Member>, room: nat)
    ensures Good(float, Object(gap, ms), room) ==>
              && room > 0 && IsSpace(gap) && (ms != [] ==> gap == [])
              && (forall i | 0 <= i < |ms| :: GoodMember(float, ms[i], room - 1) && GoodUnits(ms[i].name))
              && DistinctNames(ms)
  {
    hide GoodUnits, Decoded, GoodElement, IsSpace, GoodMember;
    if Good(float, Object(gap, ms), room) {
      forall i | 0 <= i < |ms| ensures GoodMember(float, ms[i], room - 1) && GoodUnits(ms[i].name) {
        NameIsGood(float, ms[i], room - 1);
      }
    }
  }

  lemma NameIsGood(float: FloatReader, m: Member, room: nat)
    requires GoodMember(float, m, room)
    ensures GoodUnits(m.name)
  {
  }

  /** After the brace and its whitespace, a fitting object closes or goes on. */
  lemma ObjectGuess(data: Bytes, float: FloatReader, start: nat, i: nat, room: nat, g: Option<Tree>)
    requires start < i <= |data| && data[start] == '{' && IsSpace(data[start + 1..i]) && NoSpaceAt(data, i)
    ensures TreeFits(data, float, start, room, g) ==>
              && g.Some? && g.value.Object? && room > 0
              && var end := start + |TreeText(g.value)|;
                 && i < |data|
                 && (data[i] == '}' ==> end == i + 1)
                 && (data[i] != '}' ==> MembersAhead(data, float, start + 1, end, room - 1, g.value.members, {}))
  {
    hide TreeText, Joined, ListAhead, MemberText, GoodMember, Spans, MembersAhead, Good, DistinctNames, GoodUnits, IsSpace;
    if TreeFits(data, float, start, room, g) {
      TreeGuess(data, float, start, room, g);
      var gap, ms := g.value.gap, g.value.members;
      var end := start + |TreeText(g.value)|;
      GoodObject(float, gap, ms, room);
      ObjectText(gap, ms);
      ListGuess(data, start, end, '{', '}', gap, MemberTexts(ms));
      if ms == [] {
        EmptyListEnds(data, start, i, end, '}', gap);
      } else {
        FirstMemberAhead(data, float, start, i, end, room, ms);
      }
    }
  }

  lemma FirstMemberAhead(data: Bytes, float: FloatReader, start: nat, i: nat, end: nat, room: nat, ms: seq<Member>)
    requires start < i <= |data| && IsSpace(data[start + 1..i]) && NoSpaceAt(data, i) && room > 0
    requires ms != [] && (forall k | 0 <= k < |ms| :: GoodMember(float, ms[k], room - 1) && GoodUnits(ms[k].name)) && DistinctNames(ms)
    requires ListAhead(data, start + 1, end, '}', MemberTexts(ms))
    ensures MembersAhead(data, float, start + 1, end, room - 1, ms, {}) && i < |data| && data[i] != '}'
  {
    hide Joined, ListAhead, MemberText, Spans, GoodMember, GoodUnits, Decoded, DistinctNames, MemberFits;
    MembersAheadStep(data, float, start + 1, end, room - 1, ms, {});
    MemberGuess(data, float, start + 1, i, room - 1, Some(ms[0]));
  }

  lemma EmptyObjectStands(data: Bytes, float: FloatReader, start: nat, i: nat, room: nat)
    requires start < i < |data| && data[start] == '{' && data[i] == '}' && IsSpace(data[start + 1..i]) && room > 0
    ensures var t := Object(data[start + 1..i], []); Good(float, t, room) && Spans(data, start, i + 1, TreeText(t))
  {
    hide MemberText, Joined, TreeText;
    ObjectText(data[start + 1..i], []);
    EmptyListStands(data, start, i, '{', '}');
  }

  lemma ObjectStands(data: Bytes, float: FloatReader, start: nat, end: nat, room: nat, ms: seq<Member>, names: set<Bytes>)
    requires room > 0 && MembersDone(float, room - 1, ms, names)
    requires Spans(data, start, end, ListText('{', '}', "", MemberTexts(ms)))
    ensures Good(float, Object("", ms), room) && Spans(data, start, end, TreeText(Object("", ms)))
  {
    hide MemberText, Joined, TreeText, GoodMember, Decoded, GoodUnits;
    ObjectText("", ms);
  }

  // ---------- what a fitting guess says ----------

  lemma HexIsSmall(h: Bytes)
    requires IsHex4(h)
    ensures 0 <= CodeUnit(h) < 0x10000
  {
  }

  lemma CodeStands(data: Bytes, start: nat, hex: Bytes)
    requires start + 6 <= |data| && Spans(data, start, start + 2, "\\u") && hex == data[start + 2..start + 6]
    requires GoodUnit(Code(hex))
    ensures Spans(data, start, start + 6, UnitText(Code(hex))) && Meaning(Code(hex)) == CodeUnit(hex)
  {
    SpanJoin(data, start, start + 2, start + 6, "\\u", hex);
  }

  lemma PairStands(data: Bytes, start: nat, high: Bytes, low: Bytes)
    requires start + 12 <= |data| && Spans(data, start, start + 2, "\\u") && high == data[start + 2..start + 6]
    requires data[start + 6] == '\\' && data[start + 7] == 'u' && low == data[start + 8..start + 12]
    requires GoodUnit(Pair(high, low))
    ensures Spans(data, start, start + 12, UnitText(Pair(high, low)))
    ensures Meaning(Pair(high, low)) == SurrogatePair(CodeUnit(high), CodeUnit(low))
  {
    assert Spans(data, start + 6, start + 8, "\\u");
    SpanJoin(data, start, start + 2, start + 6, "\\u", high);
    SpanJoin(data, start, start + 6, start + 8, "\\u" + high, "\\u");
    SpanJoin(data, start, start + 8, start + 12, "\\u" + high + "\\u", low);
  }

  /** A plain character is written without a quote, a backslash or a control byte. */
  lemma PlainTexts()
    ensures forall r | GoodUnit(Plain(r)) ::
              Utf8(r) != [] && Utf8(r)[0] != '\\' && Utf8(r)[0] != '"' && Utf8(r)[0] as int >= 0x20
  {
  }

  lemma UnitLength(u: Unit)
    requires GoodUnit(u)
    ensures UnitText(u) != [] && (UnitText(u)[0] == '\\' ==> |UnitText(u)| >= 2)
    ensures UnitText(u)[0] == '\\' && UnitText(u)[1] == 'u' ==> u.Code? || u.Pair?
    ensures UnitText(u)[0] != '"'
  {
    PlainTexts();
  }

  /** A guess standing at `\u` is an escape, and its digits stand after it. */
  lemma EscapeGuess(data: Bytes, start: nat, g: Option<Unit>)
    requires UnitFits(data, start, g) && Spans(data, start, start + 2, "\\u")
    ensures g.Some? && GoodUnit(g.value) && (g.value.Code? || g.value.Pair?)
    ensures var u := g.value;
            if u.Code? then
              && |UnitText(u)| == 6 && Meaning(u) == CodeUnit(u.hex)
              && start + 6 <= |data| && data[start + 2..start + 6] == u.hex
            else
              && |UnitText(u)| == 12 && Meaning(u) == SurrogatePair(CodeUnit(u.high), CodeUnit(u.low))
              && start + 12 <= |data| && data[start + 2..start + 6] == u.high && data[start + 6] == '\\' && data[start + 7] == 'u'
              && data[start + 8..start + 12] == u.low
  {
    var u := g.value;
    var end := start + |UnitText(u)|;
    UnitLength(u);
    SpanFirst(data, start, end, UnitText(u));
    SpanFirst(data, start, start + 2, "\\u");
    assert data[start + 1] == data[start..start + 2][1] == 'u';
    assert data[start + 1] == data[start..end][1] == UnitText(u)[1];
    if u.Code? {
      SpanSplit(data, start, end, "\\u", u.hex);
    } else {
      PairGuess(data, start, u.high, u.low);
    }
  }

  lemma PairGuess(data: Bytes, start: nat, high: Bytes, low: Bytes)
    requires GoodUnit(Pair(high, low)) && Spans(data, start, start + 12, UnitText(Pair(high, low)))
    ensures start + 12 <= |data| && data[start + 2..start + 6] == high && data[start + 6] == '\\' && data[start + 7] == 'u'
            && data[start + 8..start + 12] == low
  {
    SpanSplit(data, start, start + 12, "\\u" + high + "\\u", low);
    SpanSplit(data, start, start + 8, "\\u" + high, "\\u");
    SpanSplit(data, start, start + 6, "\\u", high);
    assert data[start + 6..start + 8][0] == data[start + 6] && data[start + 6..start + 8][1] == data[start + 7];
  }

  lemma PlainIsGood(s: Bytes)
    requires DecodeRune(s).Some? && s[0] as int >= 0x20 && s[0] != '"' && s[0] != '\\'
    ensures GoodUnit(Plain(DecodeRune(s).value.0))
  {
    DecodedIsEncoded(s);
    var (r, width) := DecodeRune(s).value;
    assert s[..width][0] == s[0];
  }

  /** What a guess says of the bytes it stands on. */
  lemma CharacterGuess(data: Bytes, start: nat, u: Unit)
    requires UnitFits(data, start, Some(u)) && start < |data|
    ensures u.Plain? ==> && data[start] != '\\' && data[start] as int >= 0x20
                         && DecodeRune(data[start..]) == Some((u.r, |UnitText(u)|))
    ensures u.Short? ==> data[start] == '\\' && start + 1 < |data| && data[start + 1] == u.letter
    ensures u.Code? || u.Pair? ==> data[start] == '\\' && start + 1 < |data| && data[start + 1] == 'u'
  {
    var end := start + |UnitText(u)|;
    match u
    case Plain(r) =>
      PlainTexts();
      SpanFirst(data, start, end, Utf8(r));
      EncodedIsDecoded(r, data[end..]);
      assert data[start..] == data[start..end] + data[end..];
    case Short(letter) =>
      assert data[start..end][0] == data[start] && data[start..end][1] == data[start + 1];
    case Code(hex) =>
      assert data[start..end][0] == data[start] && data[start..end][1] == data[start + 1];
    case Pair(high, low) =>
      assert data[start..end][0] == data[start] && data[start..end][1] == data[start + 1];
  }

  lemma StringGuess(data: Bytes, start: nat, g: Option<seq<Unit>>)
    ensures StringFits(data, start, g) ==>
              && g.Some? && GoodUnits(g.value)
              && start < |data| && data[start] == '"'
              && StringAhead(data, start + 1, start + |StringText(g.value)|, g.value, "", g.value)
  {
    if StringFits(data, start, g) {
      var us, end := g.value, start + |StringText(g.value)|;
      assert StringText(us) == "\"" + (UnitsText(us) + "\"");
      SpanSplit(data, start, end, "\"", UnitsText(us) + "\"");
      SpanFirst(data, start, start + 1, "\"");
      assert "" + Decoded(us) == Decoded(us);
    }
  }

  /** A quote ahead can only close the guess; anything else is its next character. */
  lemma StringAheadStep(data: Bytes, i: nat, end: nat, rest: seq<Unit>, name: Bytes, all: seq<Unit>)
    requires StringAhead(data, i, end, rest, name, all)
    ensures i < end <= |data|
    ensures data[i] == '"' ==> rest == [] && end == i + 1 && Decoded(all) == name
    ensures data[i] != '"' ==>
              && rest != [] && UnitFits(data, i, Some(rest[0])) && GoodUnit(rest[0])
              && StringAhead(data, i + |UnitText(rest[0])|, end, rest[1..], name + Utf8(Meaning(rest[0])), all)
  {
    hide UnitText, Meaning, Utf8, GoodUnit;
    SpanFirst(data, i, end, UnitsText(rest) + "\"");
    assert UnitsText([]) + "\"" == "\"" && name + Decoded([]) == name;
    if rest != [] {
      var first := UnitText(rest[0]);
      UnitLength(rest[0]);
      assert UnitsText(rest) + "\"" == first + (UnitsText(rest[1..]) + "\"");
      SpanSplit(data, i, end, first, UnitsText(rest[1..]) + "\"");
      assert name + Decoded(rest) == name + Utf8(Meaning(rest[0])) + Decoded(rest[1..]);
    }
  }
}
