/** Release identities, artifacts and tags spelled out: the encoding as numbers and by
    its published examples, the grammar of versions, and the literal form of a tag in
    every lane. */
module PublicationRules {
  import opened Wrappers
  import opened Pointers
  import opened PointerRules
  import opened Base32
  import opened Digests
  import opened PublicationIdentity

  // ---------- base32 ----------

  /** The letters of the standard alphabet (RFC 4648, section 6). */
  lemma LettersAreSpelled(q: int)
    requires IsQuintet(q)
    ensures Letter(q) == "ABCDEFGHIJKLMNOPQRSTUVWXYZ234567"[q]
  {
    LetterRoundTrip(q);
  }

  lemma FirstHalf(b0: int, b1: int, b2: int)
    requires IsByte(b0) && IsByte(b1) && IsByte(b2)
    ensures var q0, q1, q2, q3 := b0 / 8, b0 % 8 * 4 + b1 / 64, b1 / 2 % 32, b1 % 2 * 16 + b2 / 16;
            ((q0 * 32 + q1) * 32 + q2) * 32 + q3 == b0 * 4096 + b1 * 16 + b2 / 16
  {
    assert b1 == b1 / 64 * 64 + b1 / 2 % 32 * 2 + b1 % 2;
  }

  lemma SecondHalf(b2: int, b3: int, b4: int)
    requires IsByte(b2) && IsByte(b3) && IsByte(b4)
    ensures var q4, q5, q6, q7 := b2 % 16 * 2 + b3 / 128, b3 / 4 % 32, b3 % 4 * 8 + b4 / 32, b4 % 32;
            ((q4 * 32 + q5) * 32 + q6) * 32 + q7 == b2 % 16 * 65536 + b3 * 256 + b4
  {
    assert b3 == b3 / 128 * 128 + b3 / 4 % 32 * 4 + b3 % 4;
  }

  /** Eight letters are the digits to base 32 of the number whose digits to base 256
      are the five bytes. */
  lemma GroupsAreNumbers(b0: int, b1: int, b2: int, b3: int, b4: int)
    requires IsByte(b0) && IsByte(b1) && IsByte(b2) && IsByte(b3) && IsByte(b4)
    ensures var q := QuintetsOf(b0, b1, b2, b3, b4);
            && |q| == 8 && (forall i | 0 <= i < 8 :: IsQuintet(q[i]))
            && q[0] * 34359738368 + q[1] * 1073741824 + q[2] * 33554432 + q[3] * 1048576 + q[4] * 32768 + q[5] * 1024 + q[6] * 32 + q[7]
               == b0 * 4294967296 + b1 * 16777216 + b2 * 65536 + b3 * 256 + b4
  {
    GroupBack(b0, b1, b2, b3, b4);
    FirstHalf(b0, b1, b2);
    SecondHalf(b2, b3, b4);
  }

  /** A group is written with the letters of its leading quintets. */
  lemma GroupLetters(s: string, q: seq<int>, letters: string)
    requires IsBytes(s) && |s| <= 5 && |letters| == |q| == LettersFor(|s|)
    requires forall i | 0 <= i < |q| :: IsQuintet(q[i]) && letters[i] == "ABCDEFGHIJKLMNOPQRSTUVWXYZ234567"[q[i]]
    requires |q| > 0 ==> q[0] == ByteAt(s, 0) / 8
    requires |q| > 1 ==> q[1] == ByteAt(s, 0) % 8 * 4 + ByteAt(s, 1) / 64
    requires |q| > 2 ==> q[2] == ByteAt(s, 1) / 2 % 32
    requires |q| > 3 ==> q[3] == ByteAt(s, 1) % 2 * 16 + ByteAt(s, 2) / 16
    requires |q| > 4 ==> q[4] == ByteAt(s, 2) % 16 * 2 + ByteAt(s, 3) / 128
    requires |q| > 5 ==> q[5] == ByteAt(s, 3) / 4 % 32
    requires |q| > 6 ==> q[6] == ByteAt(s, 3) % 4 * 8 + ByteAt(s, 4) / 32
    requires |q| > 7 ==> q[7] == ByteAt(s, 4) % 32
    ensures EncodeGroup(s) == letters && Encode(s) == letters
  {
    forall i | 0 <= i < |letters| ensures EncodeGroup(s)[i] == letters[i] {
      assert GroupQuintets(s)[i] == q[i];
      LettersAreSpelled(q[i]);
    }
  }

  lemma OneWritten()
    ensures Encode("f") == "MY"
  {
    hide EncodeGroup, Encode;
    assert ByteAt("f", 0) == 102 && ByteAt("f", 1) == 0 && ByteAt("f", 2) == 0 && ByteAt("f", 3) == 0 && ByteAt("f", 4) == 0;
    hide ByteAt;
    GroupLetters("f", [12, 24], "MY");
  }

  lemma RestWritten()
    ensures Encode("r") == "OI"
  {
    hide EncodeGroup, Encode;
    assert ByteAt("r", 0) == 114 && ByteAt("r", 1) == 0 && ByteAt("r", 2) == 0 && ByteAt("r", 3) == 0 && ByteAt("r", 4) == 0;
    hide ByteAt;
    GroupLetters("r", [14, 8], "OI");
  }

  lemma TwoWritten()
    ensures Encode("fo") == "MZXQ"
  {
    hide EncodeGroup, Encode;
    assert ByteAt("fo", 0) == 102 && ByteAt("fo", 1) == 111 && ByteAt("fo", 2) == 0 && ByteAt("fo", 3) == 0 && ByteAt("fo", 4) == 0;
    hide ByteAt;
    GroupLetters("fo", [12, 25, 23, 16], "MZXQ");
  }

  lemma ThreeWritten()
    ensures Encode("foo") == "MZXW6"
  {
    hide EncodeGroup, Encode;
    assert ByteAt("foo", 0) == 102 && ByteAt("foo", 1) == 111 && ByteAt("foo", 2) == 111 && ByteAt("foo", 3) == 0 && ByteAt("foo", 4) == 0;
    hide ByteAt;
    GroupLetters("foo", [12, 25, 23, 22, 30], "MZXW6");
  }

  lemma FourWritten()
    ensures Encode("foob") == "MZXW6YQ"
  {
    hide EncodeGroup, Encode;
    assert ByteAt("foob", 0) == 102 && ByteAt("foob", 1) == 111 && ByteAt("foob", 2) == 111 && ByteAt("foob", 3) == 98 && ByteAt("foob", 4) == 0;
    hide ByteAt;
    GroupLetters("foob", [12, 25, 23, 22, 30, 24, 16], "MZXW6YQ");
  }

  lemma FiveWritten()
    ensures Encode("fooba") == "MZXW6YTB"
  {
    hide EncodeGroup, Encode;
    assert ByteAt("fooba", 0) == 102 && ByteAt("fooba", 1) == 111 && ByteAt("fooba", 2) == 111 && ByteAt("fooba", 3) == 98 && ByteAt("fooba", 4) == 97;
    hide ByteAt;
    GroupLetters("fooba", [12, 25, 23, 22, 30, 24, 19, 1], "MZXW6YTB");
  }

  lemma TwoGroups(first: string, rest: string)
    requires IsBytes(first) && |first| == 5 && IsBytes(rest) && rest != "" && IsBytes(first + rest)
    ensures Encode(first + rest) == Encode(first) + Encode(rest)
  {
    hide EncodeGroup;
    assert (first + rest)[..5] == first && (first + rest)[5..] == rest;
  }

  /** The examples of section 10 of RFC 4648, without their padding. */
  lemma PublishedExamples()
    ensures Encode("f") == "MY" && Encode("fo") == "MZXQ" && Encode("foo") == "MZXW6"
    ensures Encode("foob") == "MZXW6YQ" && Encode("fooba") == "MZXW6YTB" && Encode("foobar") == "MZXW6YTBOI"
  {
    hide Encode;
    OneWritten();
    TwoWritten();
    ThreeWritten();
    FourWritten();
    FiveWritten();
    RestWritten();
    assert "fooba" + "r" == "foobar" && "MZXW6YTB" + "OI" == "MZXW6YTBOI";
    TwoGroups("fooba", "r");
  }

  // ---------- artifacts ----------

  lemma ArtifactForm(text: string)
    ensures IsArtifact(text) <==>
            exists hex :: text == "sha256-" + hex && |hex| == 64 && forall c | c in hex :: '0' <= c <= '9' || 'a' <= c <= 'f'
  {
    if IsArtifact(text) {
      var hex := text[7..];
      assert text == "sha256-" + hex;
      forall c | c in hex ensures '0' <= c <= '9' || 'a' <= c <= 'f' {
        var i :| 0 <= i < |hex| && hex[i] == c;
        assert text[i + 7] == c;
      }
    }
    if hex :| text == "sha256-" + hex && |hex| == 64 && forall c | c in hex :: '0' <= c <= '9' || 'a' <= c <= 'f' {
      assert text[..7] == "sha256-";
      forall i | 7 <= i < |text| ensures '0' <= text[i] <= '9' || 'a' <= text[i] <= 'f' {
        assert text[i] == hex[i - 7] && hex[i - 7] in hex;
      }
    }
  }

  // ---------- versions ----------

  /** The parts with a dot between each two. */
  function Dotted(parts: seq<string>): string
    requires parts != []
  {
    if |parts| == 1 then parts[0] else parts[0] + "." + Dotted(parts[1..])
  }

  lemma {:induction false} SplitDotted(parts: seq<string>)
    requires parts != [] && forall i | 0 <= i < |parts| :: '.' !in parts[i]
    ensures SplitOn('.', Dotted(parts)) == parts
  {
    if |parts| == 1 {
      SplitAtFirst('.', parts[0], "");
    } else {
      SplitDotted(parts[1..]);
      SplitAtFirst('.', parts[0], Dotted(parts[1..]));
      assert parts == [parts[0]] + parts[1..];
    }
  }

  lemma {:induction false} DottedSplit(text: string)
    ensures Dotted(SplitOn('.', text)) == text
    ensures forall i | 0 <= i < |SplitOn('.', text)| :: '.' !in SplitOn('.', text)[i]
  {
    if text != "" {
      var rest := SplitOn('.', text[1..]);
      DottedSplit(text[1..]);
      var parts := SplitOn('.', text);
      assert text == [text[0]] + text[1..];
      if text[0] == '.' {
        assert parts == [""] + rest && parts[1..] == rest;
      } else {
        assert parts == [[text[0]] + rest[0]] + rest[1..] && parts[1..] == rest[1..];
        if |rest| > 1 {
          assert Dotted(rest) == rest[0] + "." + Dotted(rest[1..]);
        }
      }
    }
  }

  /** A number of a version is the decimal of a number. */
  lemma NumericIff(text: string)
    ensures IsNumeric(text) <==> IsDecimal(text)
  {
    hide Itoa, Zeros, DigitsValue;
    if IsNumeric(text) {
      var k := DigitsAre(text);
      var n := DigitsValue(text);
      ItoaDigits(n);
      if k > 0 {
        ZerosFirst(k, Itoa(n));
      } else {
        NoZeros(Itoa(n));
      }
    }
    if n: nat :| text == Itoa(n) {
      ItoaDigits(n);
    }
  }

  lemma InRange(c: char, text: string, first: char)
    requires forall i: nat | i < |text| :: text[i] as int == first as int + i
    ensures c in text <==> first as int <= c as int < first as int + |text|
  {
    if first as int <= c as int < first as int + |text| {
      assert text[c as int - first as int] == c;
    }
  }

  lemma DigitCharacters(c: char)
    ensures c in "0123456789" <==> '0' <= c <= '9'
  {
    InRange(c, "0123456789", '0');
  }

  lemma UpperCharacters(c: char)
    ensures c in "ABCDEFGHIJKLMNOPQRSTUVWXYZ" <==> 'A' <= c <= 'Z'
  {
    InRange(c, "ABCDEFGHIJKLMNOPQRSTUVWXYZ", 'A');
  }

  lemma LowerCharacters(c: char)
    ensures c in "abcdefghijklmnopqrstuvwxyz" <==> 'a' <= c <= 'z'
  {
    InRange(c, "abcdefghijklmnopqrstuvwxyz", 'a');
  }

  lemma IdentifierCharacters(c: char)
    ensures IsIdentifierChar(c) <==>
            c in "0123456789" || c in "ABCDEFGHIJKLMNOPQRSTUVWXYZ" || c in "abcdefghijklmnopqrstuvwxyz" || c == '-'
  {
    DigitCharacters(c);
    UpperCharacters(c);
    LowerCharacters(c);
  }

  ghost predicate IsDecimal(text: string)
  {
    exists n: nat :: text == Itoa(n)
  }

  /** A version by its parts: the pre-release and the build are absent or given by
      their identifiers. */
  datatype Parts = Parts(major: nat, minor: nat, patch: nat, pre: seq<string>, build: seq<string>)

  function Core(v: Parts): string
  {
    Dotted([Itoa(v.major), Itoa(v.minor), Itoa(v.patch)])
  }

  function Spelled(v: Parts): string
  {
    Core(v) + (if v.pre == [] then "" else "-" + Dotted(v.pre)) + (if v.build == [] then "" else "+" + Dotted(v.build))
  }

  /** Identifiers are not empty; a pre-release identifier of digits only is a decimal. */
  ghost predicate Proper(v: Parts)
  {
    && (forall x | x in v.pre :: IsIdentifier(x) && (AllDigits(x) ==> IsDecimal(x)))
    && (forall x | x in v.build :: IsIdentifier(x))
  }

  lemma IndexIs(c: char, head: string, tail: string)
    requires c !in head
    ensures IndexOf(c, head) == |head| && IndexOf(c, head + [c] + tail) == |head|
  {
    var text := head + [c] + tail;
    var k := IndexOf(c, text);
    assert text[|head|] == c && forall i | 0 <= i < |head| :: text[i] == head[i];
    assert k == |head|;
    assert head[..IndexOf(c, head)] <= head;
  }

  lemma {:induction false} DottedLacks(parts: seq<string>, c: char)
    requires parts != [] && c != '.' && forall i | 0 <= i < |parts| :: c !in parts[i]
    ensures c !in Dotted(parts)
  {
    if |parts| > 1 {
      DottedLacks(parts[1..], c);
    }
  }

  lemma DecimalLacks(n: nat)
    ensures '.' !in Itoa(n) && '-' !in Itoa(n) && '+' !in Itoa(n)
  {
    ItoaDigits(n);
  }

  lemma IdentifierLacks(x: string)
    requires IsIdentifier(x)
    ensures '.' !in x && '+' !in x
  {
    assert forall c | c in x :: IsIdentifierChar(c);
  }

  lemma CoreSplits(v: Parts)
    ensures SplitOn('.', Core(v)) == [Itoa(v.major), Itoa(v.minor), Itoa(v.patch)]
    ensures '-' !in Core(v) && '+' !in Core(v)
  {
    hide Itoa, Dotted, SplitOn;
    DecimalLacks(v.major);
    DecimalLacks(v.minor);
    DecimalLacks(v.patch);
    SplitDotted([Itoa(v.major), Itoa(v.minor), Itoa(v.patch)]);
    DottedLacks([Itoa(v.major), Itoa(v.minor), Itoa(v.patch)], '-');
    DottedLacks([Itoa(v.major), Itoa(v.minor), Itoa(v.patch)], '+');
  }

  lemma PreReleaseIff(x: string)
    ensures IsPreRelease(x) <==> IsIdentifier(x) && (AllDigits(x) ==> IsDecimal(x))
  {
    NumericIff(x);
    if IsNumeric(x) {
      assert forall i | 0 <= i < |x| :: IsIdentifierChar(x[i]);
    }
  }

  lemma IdentifiersSplit(parts: seq<string>)
    requires parts != [] && forall x | x in parts :: IsIdentifier(x)
    ensures SplitOn('.', Dotted(parts)) == parts && '+' !in Dotted(parts)
  {
    hide IsIdentifier, Dotted, SplitOn;
    forall i | 0 <= i < |parts| ensures '.' !in parts[i] && '+' !in parts[i] {
      IdentifierLacks(parts[i]);
    }
    SplitDotted(parts);
    DottedLacks(parts, '+');
  }

  lemma SpelledIsVersion(v: Parts)
    requires Proper(v)
    ensures IsVersion(Spelled(v))
  {
    hide SplitOn, Dotted, IndexOf, Itoa, IsNumeric, IsIdentifier, IsPreRelease, Core, AllDigits;
    CoreSplits(v);
    var text := Spelled(v);
    var head := Core(v) + (if v.pre == [] then "" else "-" + Dotted(v.pre));
    if v.pre != [] {
      IdentifiersSplit(v.pre);
      assert head == Core(v) + ['-'] + Dotted(v.pre);
      assert head[|Core(v)| + 1..] == Dotted(v.pre);
      IndexIs('-', Core(v), Dotted(v.pre));
      forall x | x in v.pre ensures IsPreRelease(x) { PreReleaseIff(x); }
    } else {
      assert head == Core(v);
      IndexIs('-', Core(v), "");
    }
    assert '+' !in head;
    if v.build != [] {
      IdentifiersSplit(v.build);
      assert text == head + ['+'] + Dotted(v.build);
      assert text[|head| + 1..] == Dotted(v.build);
      IndexIs('+', head, Dotted(v.build));
    } else {
      assert text == head;
      IndexIs('+', head, "");
    }
    assert text[..|head|] == head && head[..|Core(v)|] == Core(v);
    NumericIff(Itoa(v.major));
    NumericIff(Itoa(v.minor));
    NumericIff(Itoa(v.patch));
  }

  lemma VersionIsSpelled(text: string) returns (v: Parts)
    requires IsVersion(text)
    ensures Proper(v) && text == Spelled(v)
  {
    hide SplitOn, Dotted, IndexOf, Itoa, IsNumeric, IsIdentifier, IsPreRelease, AllDigits;
    var plus := IndexOf('+', text);
    var head := text[..plus];
    var dash := IndexOf('-', head);
    var core := SplitOn('.', head[..dash]);
    DottedSplit(head[..dash]);
    forall i | 0 <= i < 3 ensures IsDecimal(core[i]) { NumericIff(core[i]); }
    var major: nat :| core[0] == Itoa(major);
    var minor: nat :| core[1] == Itoa(minor);
    var patch: nat :| core[2] == Itoa(patch);
    var pre := if dash < |head| then SplitOn('.', head[dash + 1..]) else [];
    var build := if plus < |text| then SplitOn('.', text[plus + 1..]) else [];
    v := Parts(major, minor, patch, pre, build);
    assert core == [Itoa(major), Itoa(minor), Itoa(patch)];
    if dash < |head| {
      DottedSplit(head[dash + 1..]);
      assert head == head[..dash] + ("-" + head[dash + 1..]);
    } else {
      assert head == head[..dash] + "";
    }
    if plus < |text| {
      DottedSplit(text[plus + 1..]);
      assert text == head + ("+" + text[plus + 1..]);
    } else {
      assert text == head + "";
    }
    forall x | x in pre ensures IsIdentifier(x) && (AllDigits(x) ==> IsDecimal(x)) { PreReleaseIff(x); }
  }

  /** The retained lane's versions are exactly those of Semantic Versioning 2.0.0. */
  lemma VersionIff(text: string)
    ensures IsVersion(text) <==> exists v :: Proper(v) && text == Spelled(v)
  {
    hide IsVersion, Spelled, Proper;
    if IsVersion(text) {
      var v := VersionIsSpelled(text);
    }
    if v :| Proper(v) && text == Spelled(v) {
      SpelledIsVersion(v);
    }
  }

  // ---------- locators ----------

  /** What the release ID of a package encodes: its kind, and in the two family lanes
      its group before a slash. */
  ghost predicate EncodesName(p: Platform, index: PackageIndex, releaseId: string)
    requires ByteIndex(index)
  {
    var name := if index.lane == Alpha4 || index.lane == Alpha5 then index.group + "/" + index.kind else index.kind;
    IsBytes(name) && releaseId == "k-" + p.lower(Encode(name))
  }

  /** A package that can be located: the first lane has a version of its own, the
      others have none, and the family lanes need a namespaced group. */
  ghost predicate Locatable(p: Platform, index: PackageIndex, digest: string)
  {
    && index.isFormPackage && index.kind != "" && ValidDigest(digest)
    && match index.lane
       case Alpha1 => index.packageVersion != ""
       case Alpha2 => index.packageVersion == ""
       case Alpha3 => index.packageVersion == ""
       case Alpha4 => index.packageVersion == "" && p.namespaced(index.group)
       case Alpha5 => index.packageVersion == "" && p.namespaced(index.group)
       case Unknown(_) => false
  }

  lemma LocatedIff(p: Platform, index: PackageIndex, digest: string)
    requires ByteIndex(index)
    ensures LocatorFor(p, index, digest).Some? <==> Locatable(p, index, digest)
    ensures Locatable(p, index, digest) ==>
              var l := LocatorFor(p, index, digest).value;
              && l.lane == index.lane && EncodesName(p, index, l.releaseId)
              && l.artifactId == (if index.lane == Alpha1 then index.packageVersion else "sha256-" + digest[7..])
              && l.tag == "forms/" + l.releaseId + (if index.lane == Alpha1 then "/v" else "/") + l.artifactId
              && l.sourcePath == p.join(["forms", "releases", l.releaseId, l.artifactId])
  {
    hide ValidDigest, Encode, ReplaceFirst;
    if Locatable(p, index, digest) {
      DigestToArtifact(digest);
      assert IsBytes(ReleaseName(index));
      var l := LocatorFor(p, index, digest).value;
      TagText(l.releaseId, if index.lane == Alpha1 then "/v" else "/", l.artifactId);
    }
  }

  lemma TagText(releaseId: string, mark: string, artifact: string)
    requires mark == "/v" || mark == "/"
    ensures "forms/" + releaseId + mark + artifact == TagFor(releaseId, mark[1..] + artifact)
    ensures mark == "/" ==> mark[1..] + artifact == artifact
  {
    assert "forms/" == "forms" + ['/'];
    assert mark == ['/'] + mark[1..];
  }

  /** A tag tells its own lane exactly when it carries a plain kind with a version, or
      a family name with a digest; then it is read as what it carries. */
  ghost predicate TellsItsLane(p: Platform, tag: string, l: Locator, name: string)
  {
    && name != "" && IsBytes(name) && l.releaseId == "k-" + p.lower(Encode(name)) && l.tag == tag
    && l.sourcePath == p.join(["forms", "releases", l.releaseId, l.artifactId])
    && if '/' in name then
         tag == "forms/" + l.releaseId + "/" + l.artifactId && IsArtifact(l.artifactId) && l.lane == FamilyLane(name)
       else
         tag == "forms/" + l.releaseId + "/v" + l.artifactId && IsVersion(l.artifactId) && l.lane == Alpha1
  }

  lemma ParsedIff(p: Platform, tag: string, l: Locator)
    requires AsciiCase(p)
    ensures ParseTag(p, tag) == Some(l) <==> exists name :: TellsItsLane(p, tag, l, name)
  {
    hide IsVersion, IsArtifact, FamilyLane, TagFor, ParseParts, KindFromReleaseId, AsciiCase, Encode;
    if ParseTag(p, tag) == Some(l) {
      var parsed := ParseParts(p, tag).value;
      PartsAreCanonical(p, tag);
      ReleaseIdIff(p, parsed.releaseId, parsed.decoded);
      ArtifactStartsWithS(parsed.segment);
      TagText(l.releaseId, "/", l.artifactId);
      TagText(l.releaseId, "/v", l.artifactId);
      assert "v" + parsed.segment[1..] == parsed.segment || parsed.segment == "" || parsed.segment[0] != 'v';
      assert TellsItsLane(p, tag, l, parsed.decoded);
    }
    if name :| TellsItsLane(p, tag, l, name) {
      assert l.releaseId == ReleaseIdForKind(p, name);
      TagText(l.releaseId, "/", l.artifactId);
      TagText(l.releaseId, "/v", l.artifactId);
      VersionSegment(l.artifactId);
      ArtifactStartsWithS(l.artifactId);
      if '/' in name {
        ArtifactLacksSlash(l.artifactId);
        WrittenTagParts(p, name, l.artifactId);
      } else {
        WrittenTagParts(p, name, "v" + l.artifactId);
      }
    }
  }

  lemma ArtifactLacksSlash(text: string)
    requires IsArtifact(text)
    ensures '/' !in text
  {
    assert '/' !in text[..7] && text == text[..7] + text[7..];
    assert forall i | 0 <= i < |text[7..]| :: text[7..][i] == text[i + 7];
  }
}
