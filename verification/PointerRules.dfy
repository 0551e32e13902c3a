/** What pointers, array positions and reference fragments are, spelled out: every
    escape, every decimal and every percent escape with its literal characters, and
    exactly which references resolve and where they lead. */
module PointerRules {
  import opened Wrappers
  import opened JsonModel
  import opened Pointers

  // ---------- reference tokens ----------

  /** Section 3 of RFC 6901: two characters are escaped, the others are themselves,
      and a token is escaped character by character. */
  lemma EscapeSpelling(a: string, b: string, c: char)
    ensures EscapeToken("~") == "~0" && EscapeToken("/") == "~1"
    ensures c != '~' && c != '/' ==> EscapeToken([c]) == [c]
    ensures EscapeToken(a + b) == EscapeToken(a) + EscapeToken(b)
  {
    EscapeConcat(a, b);
    assert "~"[1..] == "" && "/"[1..] == "" && [c][1..] == "";
  }

  lemma {:induction false} EscapeConcat(a: string, b: string)
    ensures EscapeToken(a + b) == EscapeToken(a) + EscapeToken(b)
  {
    hide EscapeToken;
    if a == "" {
      assert a + b == b && EscapeToken("") == "" by { EscapeEmpty(); }
    } else {
      EscapeConcat(a[1..], b);
      EscapeFirst(a);
      EscapeFirst(a + b);
      assert (a + b)[1..] == a[1..] + b && (a + b)[0] == a[0];
    }
  }

  lemma EscapeEmpty()
    ensures EscapeToken("") == ""
  {
  }

  lemma EscapeFirst(token: string)
    requires token != ""
    ensures EscapeToken(token) == EscapeChar(token[0]) + EscapeToken(token[1..])
  {
  }

  /** A token is read from a raw token exactly when that is how it is escaped. */
  lemma DecodesIff(raw: string, token: string)
    requires '/' !in raw
    ensures DecodeToken(raw) == Some(token) <==> raw == EscapeToken(token)
  {
    DecodeEscape(token);
    if DecodeToken(raw).Some? {
      EscapeDecode(raw);
    }
  }

  /** A pointer is `#` and every token behind a slash. */
  lemma PointerSpelling(tokens: seq<string>, token: string)
    ensures PointerTo([]) == "#"
    ensures PointerTo(tokens + [token]) == PointerTo(tokens) + "/" + EscapeToken(token)
  {
    JoinConcat(tokens, [token]);
    assert [token][1..] == [];
    assert JoinTokens([]) == "";
    assert JoinTokens([token]) == "/" + EscapeToken(token);
  }

  // ---------- decimals ----------

  function Zeros(k: nat): (r: string)
    ensures |r| == k && forall i | 0 <= i < k :: r[i] == '0'
  {
    seq(k, i => '0')
  }

  /** The decimal of a number: the ten digits, then a digit for every factor ten. */
  lemma DecimalSpelling(n: nat, d: nat)
    requires d < 10
    ensures Itoa(d) == ["0123456789"[d]]
    ensures n > 0 ==> Itoa(10 * n + d) == Itoa(n) + Itoa(d)
  {
    assert (10 * n + d) / 10 == n && (10 * n + d) % 10 == d;
  }

  /** Digits are the decimal of their value behind any number of zeros. */
  lemma {:induction false} DigitsAre(digits: string) returns (k: nat)
    requires AllDigits(digits) && digits != ""
    ensures digits == Zeros(k) + Itoa(DigitsValue(digits))
  {
    hide Itoa, Zeros;
    var head, last := digits[..|digits| - 1], digits[|digits| - 1] as int - '0' as int;
    assert digits == head + [Digit(last)];
    assert AllDigits(head);
    var value := DigitsValue(head);
    assert DigitsValue(digits) == 10 * value + last;
    DecimalSpelling(value, last);
    OneDigit(last);
    if head == "" {
      k := 0;
      ZerosTwice(0, [Digit(last)]);
    } else {
      k := DigitsAre(head);
      if value == 0 {
        ItoaDigits(0);
        ZerosTwice(k, [Digit(last)]);
        k := k + 1;
      } else {
        assert Zeros(k) + Itoa(value) + Itoa(last) == Zeros(k) + (Itoa(value) + Itoa(last));
      }
    }
  }

  lemma OneDigit(d: nat)
    requires d < 10
    ensures Itoa(d) == [Digit(d)]
  {
  }

  lemma ZerosTwice(k: nat, tail: string)
    ensures Zeros(0) + tail == tail
    ensures Zeros(k) + "0" + tail == Zeros(k + 1) + tail
  {
    assert Zeros(k) + "0" == Zeros(k + 1);
  }

  lemma {:induction false} ZerosBehind(k: nat, n: nat)
    ensures AllDigits(Zeros(k) + Itoa(n)) && DigitsValue(Zeros(k) + Itoa(n)) == n
    decreases n
  {
    ItoaDigits(n);
    var text := Zeros(k) + Itoa(n);
    if n < 10 {
      assert text[..|text| - 1] == Zeros(k);
      ZerosAreNothing(k);
    } else {
      ZerosBehind(k, n / 10);
      assert text[..|text| - 1] == Zeros(k) + Itoa(n / 10);
    }
  }

  lemma {:induction false} ZerosAreNothing(k: nat)
    ensures DigitsValue(Zeros(k)) == 0
  {
    if k > 0 {
      ZerosAreNothing(k - 1);
      assert Zeros(k)[..k - 1] == Zeros(k - 1);
    }
  }

  /** How a position of an array may be written: its decimal, or that behind a plus
      sign and zeros; and zero also behind a minus sign. */
  ghost predicate NamesPosition(token: string, index: nat)
  {
    || token == Itoa(index)
    || (exists k :: token == "+" + (Zeros(k) + Itoa(index)))
    || (index == 0 && exists k :: token == "-" + (Zeros(k) + "0"))
  }

  lemma ArrayIndexIff(token: string, length: nat, index: nat)
    ensures ArrayIndex(token, length) == Some(index) <==> index < length && NamesPosition(token, index)
  {
    if index < length && NamesPosition(token, index) {
      NamedIsRead(token, length, index);
    }
    if ArrayIndex(token, length) == Some(index) {
      ReadIsNamed(token, length, index);
    }
  }

  lemma NamedIsRead(token: string, length: nat, index: nat)
    requires index < length && NamesPosition(token, index)
    ensures ArrayIndex(token, length) == Some(index)
  {
    hide Zeros, Itoa, DigitsValue;
    if token == Itoa(index) {
      IndexRoundTrip(index, length);
    } else if k :| token == "+" + (Zeros(k) + Itoa(index)) {
      ItoaDigits(index);
      SignedIsRead(token, Zeros(k) + Itoa(index), k, index);
    } else {
      var k :| token == "-" + (Zeros(k) + "0");
      ItoaDigits(0);
      MoreThanASign(token, Zeros(k));
      SignedIsRead(token, Zeros(k) + Itoa(0), k, 0);
    }
  }

  lemma SignedIsRead(token: string, digits: string, k: nat, n: nat)
    requires digits == Zeros(k) + Itoa(n) && (token == "+" + digits || (token == "-" + digits && n == 0))
    ensures Atoi(token) == Some(n) && token != "-" && token[0] != '0'
  {
    hide Zeros, Itoa, DigitsValue;
    ZerosBehind(k, n);
    ItoaDigits(n);
    assert token[1..] == digits;
  }

  lemma ReadIsNamed(token: string, length: nat, index: nat)
    requires ArrayIndex(token, length) == Some(index)
    ensures index < length && NamesPosition(token, index)
  {
    hide Zeros, Itoa, DigitsValue, AllDigits, NamesPosition;
    if token[0] == '+' || token[0] == '-' {
      SignedIsNamed(token, index);
    } else {
      PlainIsNamed(token, index);
    }
  }

  lemma SignedIsNamed(token: string, index: nat)
    requires token != "" && (token[0] == '+' || token[0] == '-') && Atoi(token) == Some(index)
    ensures NamesPosition(token, index)
  {
    hide Zeros, Itoa, DigitsValue, AllDigits;
    var digits := token[1..];
    var k := DigitsAre(digits);
    ItoaDigits(0);
    assert token == [token[0]] + digits;
    if token[0] == '+' {
      assert token == "+" + (Zeros(k) + Itoa(index));
    } else {
      assert token == "-" + (Zeros(k) + "0");
    }
  }

  lemma PlainIsNamed(token: string, index: nat)
    requires token != "" && token[0] != '+' && token[0] != '-' && Atoi(token) == Some(index)
    requires |token| > 1 ==> token[0] != '0'
    ensures NamesPosition(token, index)
  {
    hide Zeros, Itoa, DigitsValue, AllDigits;
    var k := DigitsAre(token);
    ItoaDigits(index);
    if k > 0 {
      ZerosFirst(k, Itoa(index));
    } else {
      NoZeros(Itoa(index));
    }
  }

  lemma ZerosFirst(k: nat, tail: string)
    requires k > 0 && tail != ""
    ensures (Zeros(k) + tail)[0] == '0' && |Zeros(k) + tail| > 1
  {
  }

  lemma NoZeros(tail: string)
    ensures Zeros(0) + tail == tail
  {
  }

  lemma MoreThanASign(token: string, zeros: string)
    requires token == "-" + (zeros + "0")
    ensures token != "-" && token[0] == '-'
  {
    assert |token| == |zeros| + 2;
  }

  // ---------- percent escapes ----------

  /** How a byte of a fragment may be written: as itself, or by its two hexadecimal
      digits in either case. */
  datatype Spelling = Plain(c: char) | Percent(c: char, high: char, low: char)

  predicate HexOf(c: char, d: nat)
  {
    d < 16 && (c == "0123456789abcdef"[d] || c == "0123456789ABCDEF"[d])
  }

  predicate Spells(s: Spelling)
  {
    match s
    case Plain(c) => c != '%'
    case Percent(c, high, low) => exists h, l | 0 <= h < 16 && 0 <= l < 16 :: c as int == 16 * h + l && HexOf(high, h) && HexOf(low, l)
  }

  function Written(s: Spelling): string
  {
    match s
    case Plain(c) => [c]
    case Percent(_, high, low) => ['%', high, low]
  }

  function AllWritten(s: seq<Spelling>): string
  {
    if s == [] then "" else Written(s[0]) + AllWritten(s[1..])
  }

  function Meant(s: seq<Spelling>): string
  {
    if s == [] then "" else [s[0].c] + Meant(s[1..])
  }

  ghost predicate AllSpell(s: seq<Spelling>)
  {
    forall x | x in s :: Spells(x)
  }

  lemma HexReads(c: char, d: nat)
    ensures HexValue(c) == Some(d) <==> HexOf(c, d)
  {
    var lower, upper := "0123456789abcdef", "0123456789ABCDEF";
    assert forall i: nat | 0 <= i < 10 :: lower[i] as int == '0' as int + i && upper[i] == lower[i];
    assert forall i: nat | 10 <= i < 16 :: lower[i] as int == 'a' as int + i - 10 && upper[i] as int == 'A' as int + i - 10;
    if HexValue(c) == Some(d) {
      assert d < 16;
    }
  }

  /** A fragment that is written out means what its bytes are. */
  lemma {:induction false} WrittenIsRead(s: seq<Spelling>)
    requires AllSpell(s)
    ensures PathUnescape(AllWritten(s)) == Some(Meant(s))
  {
    hide HexValue, HexOf;
    if s != [] {
      var text, rest := AllWritten(s), AllWritten(s[1..]);
      WrittenIsRead(s[1..]);
      assert Spells(s[0]);
      match s[0]
      case Plain(c) => assert text[1..] == rest;
      case Percent(c, high, low) =>
        assert text[0] == '%' && text[1] == high && text[2] == low && text[3..] == rest;
        var h, l :| 0 <= h < 16 && 0 <= l < 16 && c as int == 16 * h + l && HexOf(high, h) && HexOf(low, l);
        HexReads(high, h);
        HexReads(low, l);
    }
  }

  /** And nothing else is read. */
  lemma {:induction false} ReadIsWritten(text: string) returns (s: seq<Spelling>)
    requires PathUnescape(text).Some?
    ensures AllSpell(s) && AllWritten(s) == text && Meant(s) == PathUnescape(text).value
  {
    hide HexValue, HexOf;
    if text == "" {
      s := [];
    } else if text[0] != '%' {
      var rest := ReadIsWritten(text[1..]);
      s := [Plain(text[0])] + rest;
      assert s[1..] == rest && [text[0]] + text[1..] == text;
    } else {
      var rest := ReadIsWritten(text[3..]);
      var h, l := HexValue(text[1]).value, HexValue(text[2]).value;
      HexReads(text[1], h);
      HexReads(text[2], l);
      HexIsSmall(text[1], h);
      HexIsSmall(text[2], l);
      var first := Percent((h * 16 + l) as char, text[1], text[2]);
      assert first.c as int == 16 * h + l;
      assert Spells(first);
      s := [first] + rest;
      assert s[1..] == rest && ['%', text[1], text[2]] + text[3..] == text;
    }
  }

  lemma HexIsSmall(c: char, d: nat)
    requires HexOf(c, d)
    ensures d < 16
  {
  }

  // ---------- references ----------

  lemma {:induction false} SplitJoins(rest: string, tokens: seq<string>)
    requires DecodeAll(SplitOn('/', rest)) == Some(tokens)
    ensures tokens != [] && JoinTokens(tokens) == "/" + rest
  {
    hide SplitOn, DecodeToken, EscapeToken, FirstSlash, JoinTokens;
    var i := FirstSlash(rest);
    var head := rest[..i];
    if i == |rest| {
      SplitAtFirst('/', rest, "");
      assert [rest][1..] == [] && head == rest;
      DecodesIff(rest, tokens[0]);
      JoinFirst(tokens[0], []);
      assert tokens == [tokens[0]] + [];
    } else {
      var tail := rest[i + 1..];
      assert rest == head + ['/'] + tail;
      SplitAtFirst('/', head, tail);
      assert ([head] + SplitOn('/', tail))[1..] == SplitOn('/', tail);
      var more := DecodeAll(SplitOn('/', tail)).value;
      SplitJoins(tail, more);
      DecodesIff(head, tokens[0]);
      JoinFirst(tokens[0], more);
    }
  }

  lemma JoinFirst(first: string, rest: seq<string>)
    ensures JoinTokens([first] + rest) == "/" + EscapeToken(first) + JoinTokens(rest)
    ensures JoinTokens([]) == ""
  {
    assert ([first] + rest)[1..] == rest;
  }

  function FirstSlash(text: string): (i: nat)
    ensures i <= |text| && '/' !in text[..i] && (i < |text| ==> text[i] == '/')
  {
    if text == "" || text[0] == '/' then 0
    else
      var j := FirstSlash(text[1..]);
      assert text[..j + 1] == [text[0]] + text[1..][..j];
      j + 1
  }

  /** A reference leads to a node exactly when it is `#`, or `#/` and so on and its
      fragment means a pointer whose tokens can be walked; it leads to that node and
      is known by the canonical pointer. */
  lemma ResolvesIff(root: Json, reference: string, r: Resolved)
    ensures Resolve(root, reference) == Some(r) <==>
            || (reference == "#" && r == Resolved(root, "#"))
            || (exists tokens :: "#/" <= reference && PathUnescape(reference[1..]) == Some(JoinTokens(tokens)) && tokens != []
                                 && Walk(root, tokens) == Some(r.value) && r.pointer == "#" + JoinTokens(tokens))
  {
    hide DecodeAll, SplitOn, Walk, JoinTokens;
    if "#/" <= reference && PathUnescape(reference[1..]).Some? {
      var fragment := PathUnescape(reference[1..]).value;
      FragmentStarts(reference[1..]);
      assert RawTokens(fragment) == SplitOn('/', fragment[1..]);
      if DecodeAll(SplitOn('/', fragment[1..])).Some? {
        var tokens := DecodeAll(SplitOn('/', fragment[1..])).value;
        SplitJoins(fragment[1..], tokens);
        assert [] + tokens == tokens;
        assert fragment == "/" + fragment[1..];
      }
      forall tokens | JoinTokens(tokens) == fragment && tokens != [] ensures DecodeAll(SplitOn('/', fragment[1..])) == Some(tokens) {
        DecodeJoined(tokens);
      }
    }
  }

  lemma FragmentStarts(text: string)
    requires PathUnescape(text).Some? && text != "" && text[0] == '/'
    ensures "/" <= PathUnescape(text).value
  {
  }

  /** Whatever node can be walked to is where its reference leads, however the
      fragment spells it. */
  lemma SpelledReferenceResolves(root: Json, tokens: seq<string>, value: Json, rest: seq<Spelling>)
    requires tokens != [] && Walk(root, tokens) == Some(value)
    requires AllSpell(rest) && "/" + Meant(rest) == JoinTokens(tokens)
    ensures Resolve(root, "#/" + AllWritten(rest)) == Some(Resolved(value, "#" + JoinTokens(tokens)))
  {
    hide Walk, JoinTokens;
    var s := [Plain('/')] + rest;
    var reference := "#/" + AllWritten(rest);
    assert s[1..] == rest;
    WrittenIsRead(s);
    assert reference[1..] == AllWritten(s);
    ResolvesIff(root, reference, Resolved(value, "#" + JoinTokens(tokens)));
  }

  /** Walking a token: the member of that name, or the item at that position. */
  lemma StepIff(v: Json, token: string, part: Json)
    ensures Step(v, token) == Some(part) <==>
            || (v.Obj? && token in v.members && v.members[token] == part)
            || (v.Arr? && exists i: nat | i < |v.items| :: NamesPosition(token, i) && v.items[i] == part)
  {
    hide NamesPosition, ArrayIndex;
    if v.Arr? {
      forall i: nat ensures ArrayIndex(token, |v.items|) == Some(i) <==> i < |v.items| && NamesPosition(token, i) {
        ArrayIndexIff(token, |v.items|, i);
      }
    }
  }

  /** Walking tokens is walking the first and then the others. */
  lemma WalkIff(v: Json, token: string, tokens: seq<string>, part: Json)
    ensures Walk(v, []) == Some(v)
    ensures Walk(v, [token] + tokens) == Some(part) <==> exists child :: Step(v, token) == Some(child) && Walk(child, tokens) == Some(part)
  {
    hide Step;
    assert ([token] + tokens)[1..] == tokens;
  }
}
