/** Release identities and publication tags. A release ID is a reversible encoding
    of a kind, or of a group and a kind; a tag carries it together with the
    artifact, and in all but one pair of lanes the tag alone tells the lane. */
module PublicationIdentity {
  import opened Wrappers
  import opened Pointers
  import opened Base32
  import opened Digests

  /** The package envelope generations. */
  datatype Lane = Alpha1 | Alpha2 | Alpha3 | Alpha4 | Alpha5 | Unknown(text: string)

  /** Library code this model does not look into: Unicode case mapping, path
      joining, and the pattern of namespaced Form groups. */
  datatype Platform = Platform(lower: string -> string, upper: string -> string, join: seq<string> -> string, namespaced: string -> bool)

  predicate IsAscii(text: string)
  {
    forall i | 0 <= i < |text| :: text[i] as int < 128
  }

  function AsciiLower(text: string): string
  {
    seq(|text|, i requires 0 <= i < |text| => if 'A' <= text[i] <= 'Z' then (text[i] as int + 32) as char else text[i])
  }

  function AsciiUpper(text: string): string
  {
    seq(|text|, i requires 0 <= i < |text| => if 'a' <= text[i] <= 'z' then (text[i] as int - 32) as char else text[i])
  }

  /** On ASCII text the case mappings are the letterwise ones. */
  ghost predicate AsciiCase(p: Platform)
  {
    forall text | IsAscii(text) :: p.lower(text) == AsciiLower(text) && p.upper(text) == AsciiUpper(text)
  }

  /** And no namespaced group is empty. */
  ghost predicate Lawful(p: Platform)
  {
    AsciiCase(p) && !p.namespaced("")
  }

  // ---------- release identities ----------

  function ReleaseIdForKind(p: Platform, kind: string): string
    requires IsBytes(kind)
  {
    "k-" + p.lower(Encode(kind))
  }

  function ReleaseIdForGroupKind(p: Platform, group: string, kind: string): string
    requires IsBytes(group) && IsBytes(kind)
  {
    ReleaseIdForKind(p, group + "/" + kind)
  }

  function KindFromReleaseId(p: Platform, id: string): Option<string>
  {
    if !("k-" <= id) then None
    else
      var encoded := id[2..];
      if encoded == "" || encoded != p.lower(encoded) then None
      else
        match Decode(p.upper(encoded))
        case None => None
        case Some(kind) =>
          DecodedIsBytes(WithoutNewlines(p.upper(encoded)));
          if kind == "" || ReleaseIdForKind(p, kind) != id then None else Some(kind)
  }

  lemma CaseOfLetters(p: Platform, letters: string)
    requires AsciiCase(p) && IsLetters(letters)
    ensures p.lower(letters) == AsciiLower(letters) && |AsciiLower(letters)| == |letters|
    ensures p.lower(p.lower(letters)) == p.lower(letters) && p.upper(p.lower(letters)) == letters
    ensures '/' !in p.lower(letters)
  {
    var low := AsciiLower(letters);
    forall i | 0 <= i < |letters| ensures letters[i] as int < 128 && low[i] as int < 128 && low[i] != '/' {
      assert Quintet(letters[i]).Some?;
    }
    assert IsAscii(letters) && IsAscii(low);
    assert AsciiLower(low) == low;
    assert AsciiUpper(low) == letters;
  }

  /** Decoding accepts exactly what the encoder writes, and gives back the kind. */
  lemma ReleaseIdIff(p: Platform, id: string, kind: string)
    requires AsciiCase(p)
    ensures KindFromReleaseId(p, id) == Some(kind) <==> kind != "" && IsBytes(kind) && id == ReleaseIdForKind(p, kind)
  {
    if kind != "" && IsBytes(kind) && id == ReleaseIdForKind(p, kind) {
      EncodedIsLetters(kind);
      RoundTrip(kind);
      CaseOfLetters(p, Encode(kind));
      assert id[2..] == p.lower(Encode(kind));
    }
    if KindFromReleaseId(p, id) == Some(kind) {
      DecodedIsBytes(WithoutNewlines(p.upper(id[2..])));
    }
  }

  /** No two kinds share a release ID. */
  lemma ReleaseIdsAreInjective(p: Platform, a: string, b: string)
    requires AsciiCase(p) && IsBytes(a) && IsBytes(b) && a != "" && b != ""
    ensures ReleaseIdForKind(p, a) == ReleaseIdForKind(p, b) ==> a == b
  {
    ReleaseIdIff(p, ReleaseIdForKind(p, a), a);
    ReleaseIdIff(p, ReleaseIdForKind(p, b), b);
  }

  lemma ReleaseIdHasNoSlash(p: Platform, kind: string)
    requires AsciiCase(p) && IsBytes(kind)
    ensures '/' !in ReleaseIdForKind(p, kind)
  {
    EncodedIsLetters(kind);
    CaseOfLetters(p, Encode(kind));
  }

  /** The position of the last slash, or none. */
  function LastSlash(text: string): Option<nat>
  {
    if text == "" then None
    else if text[|text| - 1] == '/' then Some(|text| - 1)
    else LastSlash(text[..|text| - 1])
  }

  lemma {:induction false} LastSlashMeaning(text: string)
    ensures LastSlash(text).None? <==> '/' !in text
    ensures LastSlash(text).Some? ==>
              var k := LastSlash(text).value; k < |text| && text[k] == '/' && '/' !in text[k + 1..]
  {
    if text != "" && text[|text| - 1] != '/' {
      var n := |text| - 1;
      LastSlashMeaning(text[..n]);
      assert text == text[..n] + [text[n]];
      if LastSlash(text[..n]).Some? {
        var k := LastSlash(text[..n]).value;
        assert text[k + 1..] == text[..n][k + 1..] + [text[n]];
      }
    }
  }

  lemma {:induction false} LastSlashUnique(text: string, k: nat)
    requires k < |text| && text[k] == '/' && forall i | k < i < |text| :: text[i] != '/'
    ensures LastSlash(text) == Some(k)
  {
    if k < |text| - 1 {
      LastSlashUnique(text[..|text| - 1], k);
    }
  }

  lemma LastSlashSplits(group: string, kind: string)
    requires '/' !in kind
    ensures LastSlash(group + "/" + kind) == Some(|group|)
  {
    hide LastSlash;
    var text := group + "/" + kind;
    assert forall i | |group| < i < |text| :: text[i] == kind[i - |group| - 1];
    LastSlashUnique(text, |group|);
  }

  /** The group and kind a family release ID carries. */
  function FamilyReleaseId(p: Platform, id: string): Option<(string, string)>
  {
    match KindFromReleaseId(p, id)
    case None => None
    case Some(decoded) =>
      match LastSlash(decoded)
      case None => None
      case Some(k) => LastSlashMeaning(decoded); Some((decoded[..k], decoded[k + 1..]))
  }

  /** A family release ID gives back its group and kind, and no central one is
      taken for a family: neither can stand for the other. */
  lemma FamilyIdsRoundTrip(p: Platform, group: string, kind: string)
    requires AsciiCase(p) && IsBytes(group) && IsBytes(kind) && kind != "" && '/' !in kind
    ensures FamilyReleaseId(p, ReleaseIdForGroupKind(p, group, kind)) == Some((group, kind))
    ensures FamilyReleaseId(p, ReleaseIdForKind(p, kind)) == None
    ensures forall other | IsBytes(other) && other != "" && '/' !in other ::
              ReleaseIdForGroupKind(p, group, kind) != ReleaseIdForKind(p, other)
  {
    var joined := group + "/" + kind;
    assert IsBytes(joined);
    ReleaseIdIff(p, ReleaseIdForKind(p, joined), joined);
    ReleaseIdIff(p, ReleaseIdForKind(p, kind), kind);
    LastSlashSplits(group, kind);
    LastSlashMeaning(kind);
    assert joined[..|group|] == group && joined[|group| + 1..] == kind;
    assert joined[|group|] == '/';
    forall other | IsBytes(other) && other != "" && '/' !in other
      ensures ReleaseIdForGroupKind(p, group, kind) != ReleaseIdForKind(p, other)
    {
      ReleaseIdsAreInjective(p, joined, other);
    }
  }

  // ---------- artifact locators ----------

  predicate IsArtifact(text: string)
  {
    && |text| == 71 && text[..7] == "sha256-"
    && forall i | 7 <= i < |text| :: '0' <= text[i] <= '9' || 'a' <= text[i] <= 'f'
  }

  function ReplaceFirst(text: string, old_: char, new_: char): string
  {
    if text == "" then ""
    else if text[0] == old_ then [new_] + text[1..]
    else [text[0]] + ReplaceFirst(text[1..], old_, new_)
  }

  lemma {:induction false} ReplaceAt(text: string, k: nat, old_: char, new_: char)
    requires k < |text| && text[k] == old_ && old_ !in text[..k]
    ensures ReplaceFirst(text, old_, new_) == text[..k] + [new_] + text[k + 1..]
    decreases k
  {
    if k > 0 {
      assert text[..k][0] == text[0];
      assert text[1..][..k - 1] == text[..k][1..];
      ReplaceAt(text[1..], k - 1, old_, new_);
    }
  }

  lemma DigestToArtifact(digest: string)
    requires ValidDigest(digest)
    ensures ReplaceFirst(digest, ':', '-') == "sha256-" + digest[7..] && IsArtifact(ReplaceFirst(digest, ':', '-'))
    ensures '/' !in ReplaceFirst(digest, ':', '-')
  {
    var prefix, hex := digest[..7], digest[7..];
    assert digest == prefix + hex && prefix == "sha256:";
    assert digest[6] == prefix[6] == ':' && digest[..6] == prefix[..6] == "sha256";
    ReplaceAt(digest, 6, ':', '-');
    ArtifactShape(hex);
  }

  lemma ArtifactShape(hex: string)
    requires |hex| == 64 && forall i | 0 <= i < |hex| :: '0' <= hex[i] <= '9' || 'a' <= hex[i] <= 'f'
    ensures "sha256" + ['-'] + hex == "sha256-" + hex
    ensures IsArtifact("sha256-" + hex) && '/' !in "sha256-" + hex
  {
    var text := "sha256-" + hex;
    assert text[..7] == "sha256-";
    assert forall i | 7 <= i < |text| :: text[i] == hex[i - 7];
    assert '/' !in hex;
  }

  /** Where a byte first stands, or the length. */
  function IndexOf(c: char, text: string): (k: nat)
    ensures k <= |text| && c !in text[..k] && (k < |text| ==> text[k] == c)
  {
    if text == "" || text[0] == c then 0
    else
      var k := IndexOf(c, text[1..]);
      assert text[..k + 1] == [text[0]] + text[1..][..k];
      k + 1
  }

  predicate IsIdentifierChar(c: char)
  {
    '0' <= c <= '9' || 'A' <= c <= 'Z' || 'a' <= c <= 'z' || c == '-'
  }

  predicate IsIdentifier(text: string)
  {
    text != "" && forall i | 0 <= i < |text| :: IsIdentifierChar(text[i])
  }

  predicate IsNumeric(text: string)
  {
    text != "" && AllDigits(text) && (text[0] == '0' ==> |text| == 1)
  }

  predicate IsPreRelease(text: string)
  {
    IsNumeric(text) || (IsIdentifier(text) && !AllDigits(text))
  }

  /** The version pattern of the retained lane (Semantic Versioning 2.0.0): three
      numbers, an optional pre-release and optional build metadata. */
  predicate IsVersion(text: string)
  {
    var plus := IndexOf('+', text);
    var head := text[..plus];
    var dash := IndexOf('-', head);
    var core := SplitOn('.', head[..dash]);
    && |core| == 3 && (forall i | 0 <= i < |core| :: IsNumeric(core[i]))
    && (dash < |head| ==>
          var pre := SplitOn('.', head[dash + 1..]);
          forall i | 0 <= i < |pre| :: IsPreRelease(pre[i]))
    && (plus < |text| ==>
          var build := SplitOn('.', text[plus + 1..]);
          forall i | 0 <= i < |build| :: IsIdentifier(build[i]))
  }

  lemma {:induction false} SplitCovers(separator: char, text: string, c: char)
    requires c in text && c != separator
    ensures exists i :: 0 <= i < |SplitOn(separator, text)| && c in SplitOn(separator, text)[i]
  {
    var parts, rest := SplitOn(separator, text), SplitOn(separator, text[1..]);
    if text[0] == c {
      assert c in parts[0];
    } else {
      assert text == [text[0]] + text[1..];
      SplitCovers(separator, text[1..], c);
      var i :| 0 <= i < |rest| && c in rest[i];
      if text[0] == separator {
        assert parts[i + 1] == rest[i];
      } else if i == 0 {
        assert c in parts[0];
      } else {
        assert parts[i] == rest[i];
      }
    }
  }

  lemma VersionHasNoSlash(text: string)
    requires IsVersion(text)
    ensures '/' !in text
  {
    var plus := IndexOf('+', text);
    var head := text[..plus];
    var dash := IndexOf('-', head);
    assert '/' !in head[..dash] by {
      if '/' in head[..dash] {
        SplitCovers('.', head[..dash], '/');
      }
    }
    assert dash < |head| ==> '/' !in head[dash + 1..] by {
      if dash < |head| && '/' in head[dash + 1..] {
        SplitCovers('.', head[dash + 1..], '/');
      }
    }
    assert plus < |text| ==> '/' !in text[plus + 1..] by {
      if plus < |text| && '/' in text[plus + 1..] {
        SplitCovers('.', text[plus + 1..], '/');
      }
    }
    assert dash < |head| ==> head == head[..dash] + ['-'] + head[dash + 1..];
    assert plus < |text| ==> text == head + ['+'] + text[plus + 1..];
  }

  // ---------- locators ----------

  datatype Locator = Locator(lane: Lane, releaseId: string, artifactId: string, tag: string, sourcePath: string)

  /** What a package index says that its locator depends on. */
  datatype PackageIndex = PackageIndex(isFormPackage: bool, lane: Lane, packageVersion: string, group: string, kind: string)

  predicate IsFamily(lane: Lane)
  {
    lane == Alpha4 || lane == Alpha5
  }

  function SourcePath(p: Platform, releaseId: string, artifactId: string): string
  {
    p.join(["forms", "releases", releaseId, artifactId])
  }

  function TagFor(releaseId: string, segment: string): string
  {
    "forms" + ['/'] + (releaseId + ['/'] + segment)
  }

  /** What the release ID of an index encodes. */
  function ReleaseName(index: PackageIndex): string
  {
    if IsFamily(index.lane) then index.group + "/" + index.kind else index.kind
  }

  predicate ByteIndex(index: PackageIndex)
  {
    IsBytes(index.group) && IsBytes(index.kind)
  }

  /** The only locator of a package; None where the index cannot have one. */
  function LocatorFor(p: Platform, index: PackageIndex, digest: string): Option<Locator>
    requires ByteIndex(index)
  {
    if !index.isFormPackage || index.kind == "" || !ValidDigest(digest) then None
    else
      var central := ReleaseIdForKind(p, index.kind);
      match index.lane
      case Alpha1 =>
        if index.packageVersion == "" then None
        else Some(Locator(Alpha1, central, index.packageVersion, TagFor(central, "v" + index.packageVersion),
                          SourcePath(p, central, index.packageVersion)))
      case Unknown(_) => None
      case _ =>
        if index.packageVersion != "" then None
        else if IsFamily(index.lane) && !p.namespaced(index.group) then None
        else
          var releaseId := if IsFamily(index.lane) then ReleaseIdForGroupKind(p, index.group, index.kind) else central;
          var artifact := ReplaceFirst(digest, ':', '-');
          Some(Locator(index.lane, releaseId, artifact, TagFor(releaseId, artifact), SourcePath(p, releaseId, artifact)))
  }

  datatype ParsedTag = ParsedTag(releaseId: string, decoded: string, segment: string)

  function ParseParts(p: Platform, tag: string): Option<ParsedTag>
  {
    var parts := SplitOn('/', tag);
    if |parts| != 3 || parts[0] != "forms" then None
    else
      match KindFromReleaseId(p, parts[1])
      case None => None
      case Some(decoded) => Some(ParsedTag(parts[1], decoded, parts[2]))
  }

  /** The last element of a slash-separated path, trailing slashes ignored. */
  function PathBase(path: string): string
  {
    if path == "" then "."
    else
      var trimmed := TrimSlashes(path);
      if trimmed == "" then "/"
      else match LastSlash(trimmed)
        case None => trimmed
        case Some(k) => LastSlashMeaning(trimmed); trimmed[k + 1..]
  }

  function TrimSlashes(text: string): string
  {
    if text != "" && text[|text| - 1] == '/' then TrimSlashes(text[..|text| - 1]) else text
  }

  function TrimSuffix(text: string, suffix: string): string
  {
    if |suffix| <= |text| && text[|text| - |suffix|..] == suffix then text[..|text| - |suffix|] else text
  }

  /** The family lane a decoded release ID belongs to: whether a slash is left when
      its last element is cut off. */
  function FamilyLane(decoded: string): Lane
  {
    if '/' in TrimSuffix(decoded, "/" + PathBase(decoded)) then Alpha4 else Alpha5
  }

  function LocatorOf(p: Platform, tag: string, lane: Lane, artifact: string, parsed: ParsedTag): Locator
  {
    Locator(lane, parsed.releaseId, artifact, tag, SourcePath(p, parsed.releaseId, artifact))
  }

  /** Reads a tag that tells its own lane; refuses the others. */
  function ParseTag(p: Platform, tag: string): Option<Locator>
  {
    match ParseParts(p, tag)
    case None => None
    case Some(parsed) =>
      var family := '/' in parsed.decoded;
      var segment := parsed.segment;
      if segment != "" && segment[0] == 'v' && IsVersion(segment[1..]) then
        if family then None else Some(LocatorOf(p, tag, Alpha1, segment[1..], parsed))
      else if IsArtifact(segment) then
        if !family then None else Some(LocatorOf(p, tag, FamilyLane(parsed.decoded), segment, parsed))
      else None
  }

  /** Reads a tag under a known package generation. */
  function ParseTagFor(p: Platform, tag: string, lane: Lane): Option<Locator>
  {
    match lane
    case Unknown(_) => None
    case Alpha2 | Alpha3 =>
      (match ParseParts(p, tag)
       case None => None
       case Some(parsed) =>
         if '/' in parsed.decoded || !IsArtifact(parsed.segment) then None
         else Some(LocatorOf(p, tag, lane, parsed.segment, parsed)))
    case _ =>
      match ParseTag(p, tag)
      case None => None
      case Some(locator) => if locator.lane != lane then None else Some(locator)
  }

  // ---------- reading back ----------

  lemma CutAt(text: string, k: nat)
    requires k < |text|
    ensures text == text[..k] + [text[k]] + text[k + 1..]
  {
  }

  /** Splitting off the part before the first slash. */
  lemma SplitFirstSlash(text: string)
    ensures var k := IndexOf('/', text);
            && (k == |text| ==> SplitOn('/', text) == [text] && '/' !in text)
            && (k < |text| ==>
                  && text == text[..k] + ['/'] + text[k + 1..]
                  && SplitOn('/', text) == [text[..k]] + SplitOn('/', text[k + 1..]))
  {
    hide SplitOn, IndexOf;
    var k := IndexOf('/', text);
    if k < |text| {
      CutAt(text, k);
      SplitAtFirst('/', text[..k], text[k + 1..]);
    } else {
      assert text[..k] == text;
      SplitAtFirst('/', text, "");
    }
  }

  lemma TagSplits(releaseId: string, segment: string)
    requires '/' !in releaseId
    ensures SplitOn('/', TagFor(releaseId, segment)) == ["forms", releaseId] + SplitOn('/', segment)
    ensures |SplitOn('/', segment)| == 1 <==> '/' !in segment
    ensures '/' !in segment ==> SplitOn('/', segment) == [segment]
  {
    hide SplitOn, IndexOf;
    var rest := releaseId + ['/'] + segment;
    SplitAtFirst('/', "forms", rest);
    SplitAtFirst('/', releaseId, segment);
    SplitFirstSlash(segment);
  }

  /** Reading the parts of a written tag gives what was written. */
  lemma WrittenTagParts(p: Platform, name: string, segment: string)
    requires AsciiCase(p) && IsBytes(name) && name != ""
    ensures ParseParts(p, TagFor(ReleaseIdForKind(p, name), segment)) ==
            if '/' in segment then None else Some(ParsedTag(ReleaseIdForKind(p, name), name, segment))
  {
    hide ReleaseIdForKind, KindFromReleaseId, TagFor;
    var releaseId := ReleaseIdForKind(p, name);
    ReleaseIdHasNoSlash(p, name);
    ReleaseIdIff(p, releaseId, name);
    TagSplits(releaseId, segment);
    var parts := SplitOn('/', TagFor(releaseId, segment));
    assert parts == ["forms", releaseId] + SplitOn('/', segment);
    assert |parts| == 2 + |SplitOn('/', segment)|;
  }

  lemma {:induction false} TrimSlashesKeeps(text: string)
    ensures TrimSlashes(text) <= text
    ensures forall i | |TrimSlashes(text)| <= i < |text| :: text[i] == '/'
    ensures TrimSlashes(text) != "" ==> TrimSlashes(text)[|TrimSlashes(text)| - 1] != '/'
  {
    if text != "" && text[|text| - 1] == '/' {
      TrimSlashesKeeps(text[..|text| - 1]);
    }
  }

  /** The lane read from a family name: a slash in the group, or in the kind. */
  lemma FamilyLaneIff(group: string, kind: string)
    requires group != "" && kind != ""
    ensures FamilyLane(group + "/" + kind) == Alpha4 <==> '/' in group || '/' in kind
  {
    var name := group + "/" + kind;
    var suffix := "/" + PathBase(name);
    if '/' in kind {
      SlashInKindIsLeft(group, kind);
    } else {
      NameBase(group, kind);
      assert name[|name| - |suffix|..] == suffix;
      assert TrimSuffix(name, suffix) == group;
    }
  }

  lemma NameBase(group: string, kind: string)
    requires kind != "" && '/' !in kind
    ensures PathBase(group + "/" + kind) == kind
  {
    var name := group + "/" + kind;
    assert name[|name| - 1] == kind[|kind| - 1];
    LastSlashSplits(group, kind);
    assert name[|group| + 1..] == kind;
  }

  /** Cutting off the last element removes at most the slash before it. */
  lemma SlashInKindIsLeft(group: string, kind: string)
    requires group != "" && '/' in kind
    ensures '/' in TrimSuffix(group + "/" + kind, "/" + PathBase(group + "/" + kind))
  {
    hide PathBase;
    var name := group + "/" + kind;
    var suffix := "/" + PathBase(name);
    assert name[|group|] == '/';
    var j :| 0 <= j < |kind| && kind[j] == '/';
    assert name[|group| + 1 + j] == '/';
    BaseHasNoSlash(name);
    var cut := |name| - |suffix|;
    if 0 <= cut && name[cut..] == suffix {
      assert forall i | cut <= i < |name| :: name[i] == suffix[i - cut];
      if PathBase(name) == "/" {
        assert cut > 0 && TrimSuffix(name, suffix)[0] == name[0];
      } else {
        assert forall i | cut < i < |name| :: name[i] != '/';
        assert TrimSuffix(name, suffix)[|group|] == name[|group|];
      }
    }
  }

  lemma BaseHasNoSlash(path: string)
    ensures '/' !in PathBase(path) || (PathBase(path) == "/" && forall i | 0 <= i < |path| :: path[i] == '/')
  {
    LastSlashMeaning(TrimSlashes(path));
    TrimSlashesKeeps(path);
  }

  /** What the lane needs for its tags to be read back. */
  predicate Recoverable(index: PackageIndex)
  {
    match index.lane
    case Alpha1 => '/' !in index.kind && IsVersion(index.packageVersion)
    case Alpha2 | Alpha3 => '/' !in index.kind
    case Alpha4 => '/' in index.group || '/' in index.kind
    case Alpha5 => '/' !in index.group && '/' !in index.kind
    case Unknown(_) => false
  }

  /** A locator's tag, read under its own lane, gives the same locator exactly when
      the index is one its lane describes, and otherwise is refused. */
  lemma LocatorRoundTrip(p: Platform, index: PackageIndex, digest: string)
    requires Lawful(p) && ByteIndex(index) && LocatorFor(p, index, digest).Some?
    ensures var locator := LocatorFor(p, index, digest).value;
            ParseTagFor(p, locator.tag, index.lane) == if Recoverable(index) then Some(locator) else None
  {
    hide ReleaseIdForKind, ParseParts, TagFor, IsVersion, IsArtifact, FamilyLane, SourcePath;
    assert IsBytes(ReleaseName(index));
    DigestToArtifact(digest);
    match index.lane
    case Alpha1 =>
      WrittenTagParts(p, index.kind, "v" + index.packageVersion);
      VersionSegment(index.packageVersion);
    case Unknown(_) =>
    case _ =>
      WrittenTagParts(p, ReleaseName(index), ReplaceFirst(digest, ':', '-'));
      ArtifactStartsWithS(ReplaceFirst(digest, ':', '-'));
      if IsFamily(index.lane) {
        FamilyLaneIff(index.group, index.kind);
      }
      FamilyLaneRange(ReleaseName(index));
  }

  lemma FamilyLaneRange(decoded: string)
    ensures FamilyLane(decoded) == Alpha4 || FamilyLane(decoded) == Alpha5
  {
  }

  lemma VersionSegment(version: string)
    ensures ("v" + version)[0] == 'v' && ("v" + version)[1..] == version && !IsArtifact("v" + version)
    ensures IsVersion(version) ==> '/' !in "v" + version
    ensures '/' in version ==> !IsVersion(version)
  {
    ArtifactStartsWithS("v" + version);
    if IsVersion(version) {
      VersionHasNoSlash(version);
    }
  }

  lemma ArtifactStartsWithS(segment: string)
    ensures IsArtifact(segment) ==> segment != "" && segment[0] == 's'
  {
    if IsArtifact(segment) {
      assert segment[..7][0] == segment[0];
    }
  }

  /** Whatever is read from a tag writes that tag again: parsing accepts nothing
      but tags in canonical form. */
  lemma ParsedTagIsCanonical(p: Platform, tag: string, lane: Lane)
    requires AsciiCase(p) && ParseTagFor(p, tag, lane).Some?
    ensures var locator := ParseTagFor(p, tag, lane).value;
            && locator.lane == lane && locator.tag == tag
            && tag == TagFor(locator.releaseId, (if lane == Alpha1 then "v" else "") + locator.artifactId)
            && KindFromReleaseId(p, locator.releaseId).Some?
            && (IsFamily(lane) <==> FamilyReleaseId(p, locator.releaseId).Some?)
  {
    hide ParseParts, KindFromReleaseId, IsVersion, IsArtifact, FamilyLane, LastSlash, TagFor;
    var parsed := ParseParts(p, tag).value;
    PartsAreCanonical(p, tag);
    LastSlashMeaning(parsed.decoded);
    FamilyLaneRange(parsed.decoded);
    var segment := parsed.segment;
    assert "" + segment == segment;
    assert segment != "" && segment[0] == 'v' ==> segment == "v" + segment[1..];
  }

  lemma PartsAreCanonical(p: Platform, tag: string)
    requires ParseParts(p, tag).Some?
    ensures var parsed := ParseParts(p, tag).value;
            tag == TagFor(parsed.releaseId, parsed.segment) && KindFromReleaseId(p, parsed.releaseId) == Some(parsed.decoded)
  {
    hide KindFromReleaseId, SplitOn;
    PartsRejoin(tag);
  }

  lemma PartsRejoin(tag: string)
    ensures var parts := SplitOn('/', tag);
            |parts| == 3 ==> tag == parts[0] + ['/'] + (parts[1] + ['/'] + parts[2])
  {
    hide SplitOn, IndexOf;
    SplitFirstSlash(tag);
    var k := IndexOf('/', tag);
    if k < |tag| {
      var rest := tag[k + 1..];
      SplitFirstSlash(rest);
      var j := IndexOf('/', rest);
      if j < |rest| {
        SplitFirstSlash(rest[j + 1..]);
      }
    }
  }

  /** The two central content-addressed lanes share their tags, so a tag alone
      cannot tell them apart and is refused. */
  lemma CentralTagsAreShared(p: Platform, index: PackageIndex, digest: string)
    requires AsciiCase(p) && ByteIndex(index) && index.lane == Alpha2 && '/' !in index.kind
    requires LocatorFor(p, index, digest).Some?
    ensures var other := index.(lane := Alpha3);
            && LocatorFor(p, other, digest).Some?
            && LocatorFor(p, other, digest).value.tag == LocatorFor(p, index, digest).value.tag
            && ParseTag(p, LocatorFor(p, index, digest).value.tag) == None
  {
    hide ReleaseIdForKind, ParseParts, TagFor, IsVersion, IsArtifact, FamilyLane;
    DigestToArtifact(digest);
    WrittenTagParts(p, index.kind, ReplaceFirst(digest, ':', '-'));
    ArtifactStartsWithS(ReplaceFirst(digest, ':', '-'));
  }

  /** Otherwise a tag belongs to one package only: packages whose tags are equal
      name the same kind and the same artifact, and come from the same lane or from
      the two that share their tags. */
  lemma TagsDoNotCollide(p: Platform, a: PackageIndex, b: PackageIndex, digestA: string, digestB: string)
    requires Lawful(p) && ByteIndex(a) && ByteIndex(b) && Recoverable(a) && Recoverable(b) && '/' !in a.kind && '/' !in b.kind
    requires LocatorFor(p, a, digestA).Some? && LocatorFor(p, b, digestB).Some?
    requires LocatorFor(p, a, digestA).value.tag == LocatorFor(p, b, digestB).value.tag
    ensures a.lane == b.lane || ({a.lane, b.lane} == {Alpha2, Alpha3})
    ensures a.kind == b.kind && (IsFamily(a.lane) ==> a.group == b.group)
    ensures LocatorFor(p, a, digestA).value.artifactId == LocatorFor(p, b, digestB).value.artifactId
  {
    hide ReleaseIdForKind, ParseParts, TagFor, IsVersion, IsArtifact, ReplaceFirst;
    TagParts(p, a, digestA);
    TagParts(p, b, digestB);
    if IsFamily(a.lane) {
      NameSplits(a.group, a.kind);
    }
    if IsFamily(b.lane) {
      NameSplits(b.group, b.kind);
    }
    var artifactA, artifactB := LocatorFor(p, a, digestA).value.artifactId, LocatorFor(p, b, digestB).value.artifactId;
    assert ("v" + artifactA)[1..] == artifactA && ("v" + artifactB)[1..] == artifactB;
    assert "" + artifactA == artifactA && "" + artifactB == artifactB;
  }

  lemma NameSplits(group: string, kind: string)
    requires '/' !in kind
    ensures var name := group + "/" + kind;
            '/' in name && LastSlash(name) == Some(|group|) && name[..|group|] == group && name[|group| + 1..] == kind
  {
    LastSlashSplits(group, kind);
    assert (group + "/" + kind)[|group|] == '/';
  }

  lemma TagParts(p: Platform, index: PackageIndex, digest: string)
    requires Lawful(p) && ByteIndex(index) && Recoverable(index) && LocatorFor(p, index, digest).Some?
    ensures var locator := LocatorFor(p, index, digest).value;
            var parsed := ParseParts(p, locator.tag);
            && parsed.Some? && parsed.value.decoded == ReleaseName(index)
            && parsed.value.segment == (if index.lane == Alpha1 then "v" else "") + locator.artifactId
            && (index.lane == Alpha1 <==> parsed.value.segment != "" && parsed.value.segment[0] == 'v')
            && (IsFamily(index.lane) ==> FamilyLane(ReleaseName(index)) == index.lane)
  {
    hide ReleaseIdForKind, ParseParts, TagFor, IsVersion, IsArtifact, FamilyLane;
    assert IsBytes(ReleaseName(index));
    DigestToArtifact(digest);
    match index.lane
    case Alpha1 =>
      WrittenTagParts(p, index.kind, "v" + index.packageVersion);
      VersionSegment(index.packageVersion);
    case Unknown(_) =>
    case _ =>
      WrittenTagParts(p, ReleaseName(index), ReplaceFirst(digest, ':', '-'));
      ArtifactStartsWithS(ReplaceFirst(digest, ':', '-'));
      if IsFamily(index.lane) {
        FamilyLaneIff(index.group, index.kind);
      }
      FamilyLaneRange(ReleaseName(index));
  }
}
