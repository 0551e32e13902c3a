/** The structural anchor check on a parsed binding-name grammar, and the matching
    relation it is sound for: a grammar that passes both checks matches a name as
    a whole or not at all. */
module RegexAnchors {
  import opened Wrappers

  /** Parsed expressions by operator. Every operator carries its operands as a
      list, as the parser delivers them; a literal is a run of character sets. */
  datatype Regex =
    | NoMatch
    | EmptyMatch
    | Literal(options: seq<set<char>>)
    | BeginLine
    | EndLine
    | BeginText
    | EndText
    | WordBoundary(negated: bool)
    | Capture(sub: seq<Regex>)
    | Star(sub: seq<Regex>)
    | Plus(sub: seq<Regex>)
    | Quest(sub: seq<Regex>)
    | Repeat(min: int, max: int, sub: seq<Regex>)
    | Concat(sub: seq<Regex>)
    | Alternate(sub: seq<Regex>)

  predicate RequiresBeginText(re: Regex)
  {
    match re
    case Capture(sub) => |sub| == 1 && RequiresBeginText(sub[0])
    case BeginText => true
    case Alternate(sub) => |sub| != 0 && forall i | 0 <= i < |sub| :: RequiresBeginText(sub[i])
    case Concat(sub) => |sub| != 0 && RequiresBeginText(sub[0])
    case Plus(sub) => |sub| == 1 && RequiresBeginText(sub[0])
    case Repeat(min, _, sub) => min > 0 && |sub| == 1 && RequiresBeginText(sub[0])
    case _ => false
  }

  predicate RequiresEndText(re: Regex)
  {
    match re
    case Capture(sub) => |sub| == 1 && RequiresEndText(sub[0])
    case EndText => true
    case Alternate(sub) => |sub| != 0 && forall i | 0 <= i < |sub| :: RequiresEndText(sub[i])
    case Concat(sub) => |sub| != 0 && RequiresEndText(sub[|sub| - 1])
    case Plus(sub) => |sub| == 1 && RequiresEndText(sub[0])
    case Repeat(min, _, sub) => min > 0 && |sub| == 1 && RequiresEndText(sub[0])
    case _ => false
  }

  // ---------- what an expression matches ----------

  predicate WordChar(c: char)
  {
    '0' <= c <= '9' || 'a' <= c <= 'z' || 'A' <= c <= 'Z' || c == '_'
  }

  predicate AtWordBoundary(text: string, i: nat)
    requires i <= |text|
  {
    (i > 0 && WordChar(text[i - 1])) != (i < |text| && WordChar(text[i]))
  }

  /** `re` matches `text[i..j]` in place. */
  ghost predicate Matches(re: Regex, text: string, i: nat, j: nat)
    requires i <= j <= |text|
    decreases re, 0
  {
    match re
    case NoMatch => false
    case EmptyMatch => i == j
    case Literal(options) => j - i == |options| && forall k | 0 <= k < |options| :: text[i + k] in options[k]
    case BeginLine => i == j && (i == 0 || text[i - 1] == '\n')
    case EndLine => i == j && (i == |text| || text[i] == '\n')
    case BeginText => i == j == 0
    case EndText => i == j == |text|
    case WordBoundary(negated) => i == j && AtWordBoundary(text, i) != negated
    case Capture(sub) => |sub| == 1 && Matches(sub[0], text, i, j)
    case Quest(sub) => |sub| == 1 && (i == j || Matches(sub[0], text, i, j))
    case Star(sub) => |sub| == 1 && exists n: nat :: Times(sub[0], text, i, j, n)
    case Plus(sub) => |sub| == 1 && exists n: nat :: n > 0 && Times(sub[0], text, i, j, n)
    case Repeat(min, max, sub) =>
      |sub| == 1 && exists n: nat :: min <= n && (max < 0 || n <= max) && Times(sub[0], text, i, j, n)
    case Concat(sub) => InSequence(re, sub, text, i, j)
    case Alternate(sub) => exists k | 0 <= k < |sub| :: Matches(sub[k], text, i, j)
  }

  /** `n` consecutive matches of `re`. */
  ghost predicate Times(re: Regex, text: string, i: nat, j: nat, n: nat)
    requires i <= j <= |text|
    decreases re, 1, n
  {
    if n == 0 then i == j
    else exists m: nat | i <= m <= j :: Matches(re, text, i, m) && Times(re, text, m, j, n - 1)
  }

  ghost predicate InSequence(whole: Regex, parts: seq<Regex>, text: string, i: nat, j: nat)
    requires i <= j <= |text| && whole.Concat? && |parts| <= |whole.sub| && parts == whole.sub[|whole.sub| - |parts|..]
    decreases whole, -1, |parts|
  {
    if parts == [] then i == j
    else exists m: nat | i <= m <= j :: Matches(parts[0], text, i, m) && InSequence(whole, parts[1..], text, m, j)
  }

  // ---------- soundness ----------

  lemma {:induction false} BeginTextSound(re: Regex, text: string, i: nat, j: nat)
    requires i <= j <= |text| && RequiresBeginText(re) && Matches(re, text, i, j)
    ensures i == 0
  {
    match re
    case BeginText =>
    case Capture(sub) => BeginTextSound(sub[0], text, i, j);
    case Alternate(sub) =>
      var k :| 0 <= k < |sub| && Matches(sub[k], text, i, j);
      BeginTextSound(sub[k], text, i, j);
    case Concat(sub) =>
      var m := FirstPart(re, sub, text, i, j);
      BeginTextSound(sub[0], text, i, m);
    case Plus(sub) =>
      var n: nat :| n > 0 && Times(sub[0], text, i, j, n);
      var m := FirstTime(sub[0], text, i, j, n);
      BeginTextSound(sub[0], text, i, m);
    case Repeat(min, max, sub) =>
      var n: nat :| min <= n && (max < 0 || n <= max) && Times(sub[0], text, i, j, n);
      var m := FirstTime(sub[0], text, i, j, n);
      BeginTextSound(sub[0], text, i, m);
  }

  lemma {:induction false} EndTextSound(re: Regex, text: string, i: nat, j: nat)
    requires i <= j <= |text| && RequiresEndText(re) && Matches(re, text, i, j)
    ensures j == |text|
  {
    match re
    case EndText =>
    case Capture(sub) => EndTextSound(sub[0], text, i, j);
    case Alternate(sub) =>
      var k :| 0 <= k < |sub| && Matches(sub[k], text, i, j);
      EndTextSound(sub[k], text, i, j);
    case Concat(sub) =>
      var m := LastPart(re, sub, text, i, j);
      EndTextSound(sub[|sub| - 1], text, m, j);
    case Plus(sub) =>
      var n: nat :| n > 0 && Times(sub[0], text, i, j, n);
      var m := LastTime(sub[0], text, i, j, n);
      EndTextSound(sub[0], text, m, j);
    case Repeat(min, max, sub) =>
      var n: nat :| min <= n && (max < 0 || n <= max) && Times(sub[0], text, i, j, n);
      var m := LastTime(sub[0], text, i, j, n);
      EndTextSound(sub[0], text, m, j);
  }

  lemma FirstTime(re: Regex, text: string, i: nat, j: nat, n: nat) returns (m: nat)
    requires i <= j <= |text| && n > 0 && Times(re, text, i, j, n)
    ensures i <= m <= j && Matches(re, text, i, m)
  {
    m :| i <= m <= j && Matches(re, text, i, m) && Times(re, text, m, j, n - 1);
  }

  lemma {:induction false} LastTime(re: Regex, text: string, i: nat, j: nat, n: nat) returns (m: nat)
    requires i <= j <= |text| && n > 0 && Times(re, text, i, j, n)
    ensures i <= m <= j && Matches(re, text, m, j)
    decreases n
  {
    m :| i <= m <= j && Matches(re, text, i, m) && Times(re, text, m, j, n - 1);
    if n == 1 {
      m := i;
    } else {
      m := LastTime(re, text, m, j, n - 1);
    }
  }

  lemma FirstPart(whole: Regex, parts: seq<Regex>, text: string, i: nat, j: nat) returns (m: nat)
    requires whole.Concat? && 0 < |parts| <= |whole.sub| && parts == whole.sub[|whole.sub| - |parts|..]
    requires i <= j <= |text| && InSequence(whole, parts, text, i, j)
    ensures i <= m <= j && Matches(parts[0], text, i, m)
  {
    m :| i <= m <= j && Matches(parts[0], text, i, m) && InSequence(whole, parts[1..], text, m, j);
  }

  lemma {:induction false} LastPart(whole: Regex, parts: seq<Regex>, text: string, i: nat, j: nat) returns (m: nat)
    requires whole.Concat? && 0 < |parts| <= |whole.sub| && parts == whole.sub[|whole.sub| - |parts|..]
    requires i <= j <= |text| && InSequence(whole, parts, text, i, j)
    ensures i <= m <= j && Matches(parts[|parts| - 1], text, m, j)
    decreases |parts|
  {
    m :| i <= m <= j && Matches(parts[0], text, i, m) && InSequence(whole, parts[1..], text, m, j);
    if |parts| == 1 {
      m := i;
    } else {
      m := LastPart(whole, parts[1..], text, m, j);
    }
  }

  /** A grammar that passes both checks only ever matches a complete name. */
  lemma AnchoredMatchesWholeText(re: Regex, text: string, i: nat, j: nat)
    requires RequiresBeginText(re) && RequiresEndText(re)
    requires i <= j <= |text| && Matches(re, text, i, j)
    ensures i == 0 && j == |text|
  {
    BeginTextSound(re, text, i, j);
    EndTextSound(re, text, i, j);
  }

  /** The source bytes of a grammar are not enough: `^$|foo$` starts with `^` and
      ends with `$`, fails the structural check, and matches inside `xfoo`. */
  lemma SourceBytesAreNotEnough() returns (re: Regex)
    ensures re == Alternate([Concat([BeginText, EndText]), Concat([Literal([{'f'}, {'o'}, {'o'}]), EndText])])
    ensures !RequiresBeginText(re) && RequiresEndText(re)
    ensures Matches(re, "xfoo", 1, 4)
  {
    var foo := Literal([{'f'}, {'o'}, {'o'}]);
    var first, second := Concat([BeginText, EndText]), Concat([foo, EndText]);
    re := Alternate([first, second]);
    assert !RequiresBeginText(foo);
    assert !RequiresBeginText(second);
    assert !RequiresBeginText(re) by { assert re.sub[1] == second; }
    assert RequiresEndText(re);
    var text := "xfoo";
    assert Matches(foo, text, 1, 4);
    assert Matches(EndText, text, 4, 4) && InSequence(second, [], text, 4, 4);
    assert [foo, EndText][1..] == [EndText] && [EndText][1..] == [];
    assert InSequence(second, [EndText], text, 4, 4);
    assert InSequence(second, [foo, EndText], text, 1, 4);
    assert Matches(second, text, 1, 4);
    assert Matches(re, text, 1, 4) by { assert re.sub[1] == second; }
  }

  /** A body between the two anchors. */
  function Anchored(body: seq<Regex>): Regex
  {
    Concat([BeginText] + body + [EndText])
  }

  ghost predicate Passes(re: Regex)
  {
    RequiresBeginText(re) && RequiresEndText(re)
  }

  /** The check refuses no more than it must: alternatives of anchored bodies pass,
      whatever the bodies are, also captured or repeated at least once. */
  lemma AnchoredGrammarsPass(bodies: seq<seq<Regex>>, min: nat, max: int)
    requires bodies != [] && min > 0
    ensures var re := Alternate(seq(|bodies|, i requires 0 <= i < |bodies| => Anchored(bodies[i])));
            && Passes(re) && Passes(Capture([re])) && Passes(Plus([re])) && Passes(Repeat(min, max, [re]))
            && !Passes(Star([re])) && !Passes(Quest([re])) && !Passes(Repeat(0, max, [re]))
  {
    var re := Alternate(seq(|bodies|, i requires 0 <= i < |bodies| => Anchored(bodies[i])));
    forall i | 0 <= i < |bodies| ensures Passes(re.sub[i]) {
      AnchoredPasses(bodies[i]);
    }
    assert Passes(re) by {
      assert forall i | 0 <= i < |re.sub| :: RequiresBeginText(re.sub[i]) && RequiresEndText(re.sub[i]);
    }
  }

  lemma AnchoredPasses(body: seq<Regex>)
    ensures Passes(Anchored(body))
  {
    var parts := [BeginText] + body + [EndText];
    assert parts[0] == BeginText && parts[|parts| - 1] == EndText;
    assert RequiresBeginText(parts[0]) && RequiresEndText(parts[|parts| - 1]);
  }

  /** One unanchored alternative, or line anchors in place of text anchors, fail, and
      such an expression matches inside a text. */
  lemma UnanchoredGrammarsFail(re: Regex, others: seq<Regex>)
    requires !Passes(re)
    ensures !Passes(Alternate(others + [re])) && !Passes(Capture([re]))
    ensures !Passes(BeginLine) && !Passes(EndLine) && !Passes(Concat([BeginLine, EndLine]))
    ensures Matches(Concat([BeginLine, EndLine]), "a\n\nb", 2, 2)
  {
    var parts := others + [re];
    assert parts[|others|] == re;
    var lines := Concat([BeginLine, EndLine]);
    assert !RequiresBeginText(BeginLine);
    var sample := "a\n\nb";
    assert Matches(BeginLine, sample, 2, 2) && Matches(EndLine, sample, 2, 2);
    assert [BeginLine, EndLine][1..] == [EndLine] && [EndLine][1..] == [];
    assert InSequence(lines, [], sample, 2, 2);
    assert InSequence(lines, [EndLine], sample, 2, 2);
  }
}
