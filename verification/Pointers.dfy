/** JSON pointers (RFC 6901) as the schema proof writes and reads them. The memo
    tables of the proof and of both work estimators are keyed by these strings,
    so everything they conclude rests on one pointer naming one node. */
module Pointers {
  import opened Wrappers
  import opened JsonModel

  // ---------- reference tokens ----------

  /** The one-pass escape of a reference token. */
  function EscapeToken(token: string): string
  {
    if token == "" then ""
    else if token[0] == '~' then "~0" + EscapeToken(token[1..])
    else if token[0] == '/' then "~1" + EscapeToken(token[1..])
    else [token[0]] + EscapeToken(token[1..])
  }

  function ReplaceChar(text: string, old_: char, new_: string): string
  {
    if text == "" then ""
    else (if text[0] == old_ then new_ else [text[0]]) + ReplaceChar(text[1..], old_, new_)
  }

  /** The two-pass escape of the snapshot package. */
  function EscapePointerTwoPass(value: string): string
  {
    ReplaceChar(ReplaceChar(value, '~', "~0"), '/', "~1")
  }

  function DecodeToken(raw: string): Option<string>
  {
    if raw == "" then Some("")
    else if raw[0] != '~' then After([raw[0]], DecodeToken(raw[1..]))
    else if |raw| < 2 || (raw[1] != '0' && raw[1] != '1') then None
    else After(if raw[1] == '0' then "~" else "/", DecodeToken(raw[2..]))
  }

  function After(head: string, tail: Option<string>): Option<string>
  {
    match tail
    case None => None
    case Some(rest) => Some(head + rest)
  }

  method DecodeTokenLoop(raw: string) returns (r: Option<string>)
    ensures r == DecodeToken(raw)
  {
    var decoded := "";
    var index := 0;
    assert raw[0..] == raw;
    assert DecodeToken(raw).Some? ==> "" + DecodeToken(raw).value == DecodeToken(raw).value;
    while index < |raw|
      invariant 0 <= index <= |raw|
      invariant DecodeToken(raw) == After(decoded, DecodeToken(raw[index..]))
    {
      var rest := raw[index..];
      if raw[index] != '~' {
        assert rest[1..] == raw[index + 1..];
        AfterAfter(decoded, [raw[index]], DecodeToken(rest[1..]));
        decoded := decoded + [raw[index]];
        index := index + 1;
        continue;
      }
      if index + 1 >= |raw| || (raw[index + 1] != '0' && raw[index + 1] != '1') {
        return None;
      }
      index := index + 1;
      assert rest[2..] == raw[index + 1..];
      AfterAfter(decoded, if raw[index] == '0' then "~" else "/", DecodeToken(rest[2..]));
      if raw[index] == '0' {
        decoded := decoded + "~";
      } else {
        decoded := decoded + "/";
      }
      index := index + 1;
    }
    assert raw[index..] == "" && decoded + "" == decoded;
    return Some(decoded);
  }

  lemma AfterAfter(a: string, b: string, tail: Option<string>)
    ensures After(a, After(b, tail)) == After(a + b, tail)
  {
    match tail
    case None =>
    case Some(rest) => assert a + (b + rest) == a + b + rest;
  }

  lemma {:induction false} EscapesAgree(value: string)
    ensures EscapePointerTwoPass(value) == EscapeToken(value)
  {
    if value != "" {
      EscapesAgree(value[1..]);
      var first := if value[0] == '~' then "~0" else [value[0]];
      var rest := ReplaceChar(value[1..], '~', "~0");
      assert ReplaceChar(value, '~', "~0") == first + rest;
      ReplaceConcat(first, rest);
      if value[0] == '~' {
        assert ReplaceChar("0", '/', "~1") == "0";
        assert first[1..] == "0";
      }
    }
  }

  lemma {:induction false} ReplaceConcat(a: string, b: string)
    ensures ReplaceChar(a + b, '/', "~1") == ReplaceChar(a, '/', "~1") + ReplaceChar(b, '/', "~1")
  {
    if a == "" {
      assert a + b == b;
    } else {
      ReplaceConcat(a[1..], b);
      assert (a + b)[1..] == a[1..] + b;
    }
  }

  lemma {:induction false} DecodeEscape(token: string)
    ensures DecodeToken(EscapeToken(token)) == Some(token)
    ensures '/' !in EscapeToken(token)
  {
    if token != "" {
      DecodeEscape(token[1..]);
      DecodeFirst(token[0], EscapeToken(token[1..]));
      assert [token[0]] + token[1..] == token;
    }
  }

  /** How one character is escaped. */
  function EscapeChar(c: char): string
  {
    if c == '~' then "~0" else if c == '/' then "~1" else [c]
  }

  lemma DecodeFirst(c: char, rest: string)
    ensures DecodeToken(EscapeChar(c) + rest) == After([c], DecodeToken(rest))
    ensures '/' !in EscapeChar(c)
  {
    var raw := EscapeChar(c) + rest;
    if c == '~' || c == '/' {
      assert raw[2..] == rest;
    } else {
      assert raw[1..] == rest;
    }
  }

  /** A raw token without a separator is the only spelling of what it decodes to. */
  lemma {:induction false} EscapeDecode(raw: string)
    requires '/' !in raw && DecodeToken(raw).Some?
    ensures EscapeToken(DecodeToken(raw).value) == raw
  {
    if raw != "" {
      if raw[0] != '~' {
        EscapeDecode(raw[1..]);
        var rest := DecodeToken(raw[1..]).value;
        assert ([raw[0]] + rest)[1..] == rest;
      } else {
        EscapeDecode(raw[2..]);
        var rest := DecodeToken(raw[2..]).value;
        var head := if raw[1] == '0' then "~" else "/";
        assert (head + rest)[1..] == rest;
        assert raw == raw[..2] + raw[2..];
      }
    }
  }

  // ---------- pointers ----------

  function JoinTokens(tokens: seq<string>): string
  {
    if tokens == [] then "" else "/" + EscapeToken(tokens[0]) + JoinTokens(tokens[1..])
  }

  /** The canonical pointer to the node reached by `tokens` from the root. */
  function PointerTo(tokens: seq<string>): string
  {
    "#" + JoinTokens(tokens)
  }

  function AppendPointer(pointer: string, tokens: seq<string>): string
  {
    pointer + JoinTokens(tokens)
  }

  /** Splits at every separator; the result is never empty. */
  function SplitOn(separator: char, text: string): (r: seq<string>)
    ensures |r| >= 1
  {
    if text == "" then [""]
    else
      var rest := SplitOn(separator, text[1..]);
      if text[0] == separator then [""] + rest else [[text[0]] + rest[0]] + rest[1..]
  }

  function DecodeAll(raws: seq<string>): Option<seq<string>>
  {
    if raws == [] then Some([])
    else match (DecodeToken(raws[0]), DecodeAll(raws[1..]))
      case (Some(first), Some(rest)) => Some([first] + rest)
      case _ => None
  }

  /** Reads a pointer back into its tokens. */
  function TokensOf(pointer: string): Option<seq<string>>
  {
    if pointer == "#" then Some([])
    else if |pointer| < 2 || pointer[0] != '#' || pointer[1] != '/' then None
    else DecodeAll(SplitOn('/', pointer[2..]))
  }

  lemma {:induction false} JoinConcat(a: seq<string>, b: seq<string>)
    ensures JoinTokens(a + b) == JoinTokens(a) + JoinTokens(b)
  {
    if a == [] {
      assert a + b == b;
    } else {
      JoinConcat(a[1..], b);
      assert (a + b)[1..] == a[1..] + b;
    }
  }

  lemma AppendIsPointerTo(tokens: seq<string>, more: seq<string>)
    ensures AppendPointer(PointerTo(tokens), more) == PointerTo(tokens + more)
  {
    JoinConcat(tokens, more);
  }

  lemma {:induction false} SplitAtFirst(separator: char, head: string, tail: string)
    requires separator !in head
    ensures SplitOn(separator, head) == [head]
    ensures SplitOn(separator, head + [separator] + tail) == [head] + SplitOn(separator, tail)
  {
    if head == "" {
      assert head + [separator] + tail == [separator] + tail;
      assert ([separator] + tail)[1..] == tail;
    } else {
      SplitAtFirst(separator, head[1..], tail);
      assert (head + [separator] + tail)[1..] == head[1..] + [separator] + tail;
      assert [head[0]] + head[1..] == head;
    }
  }

  lemma DecodeCons(raw: string, raws: seq<string>, token: string, tokens: seq<string>)
    requires DecodeToken(raw) == Some(token) && DecodeAll(raws) == Some(tokens)
    ensures DecodeAll([raw] + raws) == Some([token] + tokens)
  {
    assert ([raw] + raws)[1..] == raws;
  }

  lemma SplitDecodesFirst(token: string, tail: string, tokens: seq<string>)
    requires DecodeAll(SplitOn('/', tail)) == Some(tokens)
    ensures DecodeAll(SplitOn('/', EscapeToken(token) + "/" + tail)) == Some([token] + tokens)
  {
    DecodeEscape(token);
    SplitAtFirst('/', EscapeToken(token), tail);
    DecodeCons(EscapeToken(token), SplitOn('/', tail), token, tokens);
  }

  lemma SplitDecodesLast(token: string)
    ensures DecodeAll(SplitOn('/', EscapeToken(token))) == Some([token])
  {
    DecodeEscape(token);
    SplitAtFirst('/', EscapeToken(token), "");
    DecodeCons(EscapeToken(token), [], token, []);
    assert [EscapeToken(token)] + [] == [EscapeToken(token)] && [token] + [] == [token];
  }

  lemma {:induction false} DecodeJoined(tokens: seq<string>)
    requires tokens != []
    ensures DecodeAll(SplitOn('/', JoinTokens(tokens)[1..])) == Some(tokens)
  {
    var first, rest := tokens[0], tokens[1..];
    if rest == [] {
      SplitDecodesLast(first);
      assert tokens == [first];
      assert JoinTokens(tokens)[1..] == EscapeToken(first);
    } else {
      DecodeJoined(rest);
      var tail := JoinTokens(rest)[1..];
      SplitDecodesFirst(first, tail, rest);
      JoinCons(first, rest);
      assert tokens == [first] + rest;
    }
  }

  lemma JoinCons(first: string, rest: seq<string>)
    requires rest != []
    ensures JoinTokens([first] + rest)[1..] == EscapeToken(first) + "/" + JoinTokens(rest)[1..]
  {
    assert ([first] + rest)[1..] == rest;
    StartsWithSlash(EscapeToken(rest[0]), JoinTokens(rest[1..]));
    DropFirst(EscapeToken(first), JoinTokens(rest));
  }

  lemma StartsWithSlash(a: string, b: string)
    ensures ("/" + a + b)[0] == '/'
  {
  }

  lemma DropFirst(a: string, b: string)
    requires b != "" && b[0] == '/'
    ensures ("/" + a + b)[1..] == a + "/" + b[1..]
  {
    assert b == "/" + b[1..];
  }

  /** Every token list survives being written as a pointer and read back
      (RFC 6901, sections 3 and 4), so pointers are injective in their tokens. */
  lemma TokensRoundTrip(tokens: seq<string>)
    ensures TokensOf(PointerTo(tokens)) == Some(tokens)
  {
    if tokens != [] {
      DecodeJoined(tokens);
      assert PointerTo(tokens)[2..] == JoinTokens(tokens)[1..];
    }
  }

  lemma PointersInjective(a: seq<string>, b: seq<string>)
    requires PointerTo(a) == PointerTo(b)
    ensures a == b
  {
    TokensRoundTrip(a);
    TokensRoundTrip(b);
  }

  // ---------- array indices ----------

  function Digit(d: nat): char
    requires d < 10
  {
    '0' + d as char
  }

  function Itoa(n: nat): string
  {
    if n < 10 then [Digit(n)] else Itoa(n / 10) + [Digit(n % 10)]
  }

  predicate AllDigits(text: string)
  {
    forall i :: 0 <= i < |text| ==> '0' <= text[i] <= '9'
  }

  function DigitsValue(text: string): nat
    requires AllDigits(text)
  {
    if text == "" then 0
    else DigitsValue(text[..|text| - 1]) * 10 + (text[|text| - 1] as int - '0' as int)
  }

  /** Signed decimal. A magnitude beyond 64 bits is no index of any array, so
      its range error and an out-of-range index are the same rejection. */
  function Atoi(text: string): Option<int>
  {
    var signed := text != "" && (text[0] == '+' || text[0] == '-');
    var digits := if signed then text[1..] else text;
    if digits == "" || !AllDigits(digits) then None
    else Some(if signed && text[0] == '-' then -(DigitsValue(digits) as int) else DigitsValue(digits))
  }

  lemma {:induction false} ItoaDigits(n: nat)
    ensures AllDigits(Itoa(n)) && Itoa(n) != "" && DigitsValue(Itoa(n)) == n
    ensures n > 0 ==> Itoa(n)[0] != '0'
    ensures n == 0 ==> Itoa(n) == "0"
  {
    if n >= 10 {
      ItoaDigits(n / 10);
      var text := Itoa(n);
      assert text[..|text| - 1] == Itoa(n / 10);
    } else {
      var text := Itoa(n);
      assert text[..|text| - 1] == "";
    }
  }

  lemma {:induction false} DigitsUnescaped(token: string)
    requires AllDigits(token)
    ensures EscapeToken(token) == token
  {
    if token != "" {
      DigitsUnescaped(token[1..]);
      assert [token[0]] + token[1..] == token;
    }
  }

  /** The position an array token selects, when the resolver accepts it. */
  function ArrayIndex(token: string, length: nat): Option<nat>
  {
    if token == "-" || (|token| > 1 && token[0] == '0') then None
    else match Atoi(token)
      case None => None
      case Some(index) => if 0 <= index < length then Some(index) else None
  }

  lemma IndexRoundTrip(index: nat, length: nat)
    requires index < length
    ensures ArrayIndex(Itoa(index), length) == Some(index)
  {
    ItoaDigits(index);
    var text := Itoa(index);
    assert '0' <= text[0] <= '9';
    if index == 0 {
      assert |text| == 1;
    }
  }

  /** A signed token is an alias: `+1` and `1` select the same element, so a
      pointer names one node but a node has more than one pointer. */
  lemma SignedTokenAliases(items: seq<Json>)
    requires |items| == 2
    ensures Walk(Arr(items), ["+1"]) == Walk(Arr(items), ["1"]) == Some(items[1])
    ensures PointerTo(["+1"]) != PointerTo(["1"])
  {
    assert "+1"[1..] == "1";
    assert "1"[..0] == "";
    assert DigitsValue("1") == 1;
    assert Walk(items[1], []) == Some(items[1]);
    assert ["+1"][1..] == [] && ["1"][1..] == [];
    TokensRoundTrip(["+1"]);
    TokensRoundTrip(["1"]);
    assert |["+1"][0]| == 2 && |["1"][0]| == 1;
  }

  // ---------- resolution ----------

  function Step(current: Json, token: string): Option<Json>
  {
    match current
    case Obj(members) => if token in members then Some(members[token]) else None
    case Arr(items) =>
      (match ArrayIndex(token, |items|)
       case None => None
       case Some(index) => Some(items[index]))
    case _ => None
  }

  function Walk(current: Json, tokens: seq<string>): Option<Json>
  {
    if tokens == [] then Some(current)
    else match Step(current, tokens[0])
      case None => None
      case Some(child) => Walk(child, tokens[1..])
  }

  lemma {:induction false} WalkConcat(current: Json, a: seq<string>, b: seq<string>)
    ensures Walk(current, a + b) ==
            match Walk(current, a)
            case None => None
            case Some(middle) => Walk(middle, b)
  {
    if a == [] {
      assert a + b == b;
    } else {
      assert (a + b)[1..] == a[1..] + b;
      match Step(current, a[0])
      case None =>
      case Some(child) => WalkConcat(child, a[1..], b);
    }
  }

  /** The node a canonical pointer names below `root`. */
  function Locate(root: Json, pointer: string): Option<Json>
  {
    match TokensOf(pointer)
    case None => None
    case Some(tokens) => Walk(root, tokens)
  }

  ghost predicate Canonical(pointer: string)
  {
    exists tokens :: pointer == PointerTo(tokens)
  }

  ghost predicate Addresses(root: Json, pointer: string, value: Json)
  {
    Canonical(pointer) && Locate(root, pointer) == Some(value)
  }

  /** Extending a pointer by tokens goes exactly where walking them goes. */
  lemma AddressesAppend(root: Json, pointer: string, value: Json, tokens: seq<string>, child: Json)
    requires Addresses(root, pointer, value)
    requires Walk(value, tokens) == Some(child)
    ensures Addresses(root, AppendPointer(pointer, tokens), child)
  {
    var base :| pointer == PointerTo(base);
    TokensRoundTrip(base);
    AppendIsPointerTo(base, tokens);
    TokensRoundTrip(base + tokens);
    WalkConcat(root, base, tokens);
  }

  lemma RootAddressed(root: Json)
    ensures Addresses(root, "#", root)
  {
    assert PointerTo([]) == "#";
  }

  // ---------- reference fragments ----------

  function HexValue(c: char): Option<nat>
  {
    if '0' <= c <= '9' then Some(c as int - '0' as int)
    else if 'a' <= c <= 'f' then Some(c as int - 'a' as int + 10)
    else if 'A' <= c <= 'F' then Some(c as int - 'A' as int + 10)
    else None
  }

  function PathUnescape(text: string): Option<string>
  {
    if text == "" then Some("")
    else if text[0] != '%' then
      match PathUnescape(text[1..])
      case None => None
      case Some(rest) => Some([text[0]] + rest)
    else if |text| < 3 then None
    else match (HexValue(text[1]), HexValue(text[2]), PathUnescape(text[3..]))
      case (Some(high), Some(low), Some(rest)) => Some([(high * 16 + low) as char] + rest)
      case _ => None
  }

  datatype Resolved = Resolved(value: Json, pointer: string)

  function ResolveFrom(current: Json, walked: seq<string>, raws: seq<string>): Option<Resolved>
  {
    match DecodeAll(raws)
    case None => None
    case Some(tokens) =>
      match Walk(current, tokens)
      case None => None
      case Some(value) => Some(Resolved(value, PointerTo(walked + tokens)))
  }

  function RawTokens(fragment: string): seq<string>
  {
    SplitOn('/', if "/" <= fragment then fragment[1..] else fragment)
  }

  /** What a `$ref` text denotes: its fragment is percent-decoded, split and
      decoded token by token, and walked from the root. */
  function Resolve(root: Json, reference: string): Option<Resolved>
  {
    if reference == "#" then Some(Resolved(root, "#"))
    else if !("#/" <= reference) then None
    else match PathUnescape(reference[1..])
      case None => None
      case Some(fragment) => ResolveFrom(root, [], RawTokens(fragment))
  }

  method ResolveReference(root: Json, reference: string) returns (r: Option<Resolved>)
    ensures r == Resolve(root, reference)
  {
    if reference == "#" {
      return Some(Resolved(root, "#"));
    }
    if !("#/" <= reference) {
      return None;
    }
    var unescaped := PathUnescape(reference[1..]);
    if unescaped.None? {
      return None;
    }
    var raws := RawTokens(unescaped.value);
    var current := root;
    var canonical := "#";
    var i := 0;
    ghost var walked: seq<string> := [];
    assert raws[0..] == raws;
    while i < |raws|
      invariant 0 <= i <= |raws|
      invariant canonical == PointerTo(walked)
      invariant Resolve(root, reference) == ResolveFrom(current, walked, raws[i..])
    {
      var decoded := DecodeTokenLoop(raws[i]);
      ResolveStep(current, walked, raws[i..]);
      assert raws[i..][1..] == raws[i + 1..];
      if decoded.None? {
        return None;
      }
      var token := decoded.value;
      AppendIsPointerTo(walked, [token]);
      canonical := AppendPointer(canonical, [token]);
      var child := Step(current, token);
      if child.None? {
        return None;
      }
      current, walked := child.value, walked + [token];
      i := i + 1;
    }
    assert walked + [] == walked;
    return Some(Resolved(current, canonical));
  }

  lemma ResolveStep(current: Json, walked: seq<string>, raws: seq<string>)
    requires raws != []
    ensures ResolveFrom(current, walked, raws) ==
            match DecodeToken(raws[0])
            case None => None
            case Some(token) =>
              match Step(current, token)
              case None => None
              case Some(child) => ResolveFrom(child, walked + [token], raws[1..])
  {
    match (DecodeToken(raws[0]), DecodeAll(raws[1..]))
    case (Some(token), Some(rest)) =>
      assert ([token] + rest)[1..] == rest;
      assert walked + ([token] + rest) == walked + [token] + rest;
    case _ =>
  }

  lemma ResolveAddresses(root: Json, reference: string)
    requires Resolve(root, reference).Some?
    ensures var r := Resolve(root, reference).value; Addresses(root, r.pointer, r.value)
  {
    if reference == "#" {
      RootAddressed(root);
    } else {
      var tokens := DecodeAll(RawTokens(PathUnescape(reference[1..]).value)).value;
      assert [] + tokens == tokens;
      TokensRoundTrip(tokens);
    }
  }
}
