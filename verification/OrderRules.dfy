/** The orders of the snapshot written out as first differences: of bytes, of fields
    and of version identifiers, with their literal fields in their order. */
module OrderRules {
  import opened Wrappers
  import opened Ordering
  import opened Identities

  // ---------- first differences ----------

  /** The lists agree before `i` and differ there, in order. */
  ghost predicate DifferAt<T>(less: (T, T) -> bool, a: seq<T>, b: seq<T>, i: int)
  {
    0 <= i < |a| && i < |b| && a[..i] == b[..i] && a[i] != b[i] && less(a[i], b[i])
  }

  /** A proper prefix comes first; otherwise the first difference decides. */
  lemma {:induction false} LexIff<T>(less: (T, T) -> bool, a: seq<T>, b: seq<T>)
    ensures LexLess(less, a, b) <==> a < b || exists i :: DifferAt(less, a, b, i)
  {
    if a != [] && b != [] {
      if a[0] == b[0] {
        LexIff(less, a[1..], b[1..]);
        assert a == [a[0]] + a[1..] && b == [b[0]] + b[1..];
        if i :| DifferAt(less, a[1..], b[1..], i) {
          assert a[..i + 1] == [a[0]] + a[1..][..i] && b[..i + 1] == [b[0]] + b[1..][..i];
          assert DifferAt(less, a, b, i + 1);
        }
        if i :| DifferAt(less, a, b, i) {
          assert i > 0;
          assert a[1..][..i - 1] == a[..i][1..] && b[1..][..i - 1] == b[..i][1..];
          assert DifferAt(less, a[1..], b[1..], i - 1);
        }
        assert a < b <==> a[1..] < b[1..];
      } else {
        assert a[..0] == b[..0];
        if less(a[0], b[0]) {
          assert DifferAt(less, a, b, 0);
        }
        if i :| DifferAt(less, a, b, i) && i > 0 {
          assert a[..i][0] == b[..i][0];
        }
      }
    }
  }

  /** Strings compare byte by byte, a prefix first. */
  ghost predicate Before(a: string, b: string)
  {
    a < b || exists i :: 0 <= i < |a| && i < |b| && a[..i] == b[..i] && a[i] < b[i]
  }

  lemma BytesLessIff(a: string, b: string)
    ensures BytesLess(a, b) <==> Before(a, b)
  {
    LexIff(CharLess, a, b);
    forall i ensures DifferAt(CharLess, a, b, i) <==> 0 <= i < |a| && i < |b| && a[..i] == b[..i] && a[i] < b[i] {
    }
  }

  /** Records compare by the first field in which they differ. */
  ghost predicate FieldsBefore(a: seq<string>, b: seq<string>)
    requires |a| == |b|
  {
    exists i :: 0 <= i < |a| && Before(a[i], b[i]) && forall j | 0 <= j < i :: a[j] == b[j]
  }

  lemma FirstOfFour(a: seq<string>, b: seq<string>)
    requires |a| == |b| == 4
    ensures FieldsBefore(a, b) <==>
            if a[0] != b[0] then Before(a[0], b[0]) else if a[1] != b[1] then Before(a[1], b[1])
            else if a[2] != b[2] then Before(a[2], b[2]) else Before(a[3], b[3])
  {
    hide Before;
    forall x ensures !Before(x, x) { NotBeforeItself(x); }
    if i :| 0 <= i < |a| && Before(a[i], b[i]) && forall j | 0 <= j < i :: a[j] == b[j] {
      assert a[i] != b[i];
    }
  }

  lemma NotBeforeItself(x: string)
    ensures !Before(x, x)
  {
  }

  // ---------- the orders of a snapshot ----------

  lemma ContractsCompare(l: ContractRef, r: ContractRef)
    ensures LessContract(l, r) <==>
            FieldsBefore([l.apiVersion, l.name, l.version, l.digest], [r.apiVersion, r.name, r.version, r.digest])
  {
    hide Before, BytesLess, FieldsBefore;
    FirstOfFour([l.apiVersion, l.name, l.version, l.digest], [r.apiVersion, r.name, r.version, r.digest]);
    forall a, b ensures BytesLess(a, b) <==> Before(a, b) { BytesLessIff(a, b); }
  }

  lemma LinesCompare(l: GroupKind, r: GroupKind)
    ensures LessGroupKind(l, r) <==> Before(l.group, r.group) || (l.group == r.group && Before(l.kind, r.kind))
  {
    hide Before, BytesLess;
    NotBeforeItself(l.group);
    forall a, b ensures BytesLess(a, b) <==> Before(a, b) { BytesLessIff(a, b); }
  }

  lemma DiagnosticsCompare(l: Diagnostic, r: Diagnostic)
    ensures LessDiagnostic(l, r) <==>
            FieldsBefore([l.subject, l.pointer, CodeText(l.code), l.message], [r.subject, r.pointer, CodeText(r.code), r.message])
  {
    hide Before, BytesLess, FieldsBefore, CodeText;
    FirstOfFour([l.subject, l.pointer, CodeText(l.code), l.message], [r.subject, r.pointer, CodeText(r.code), r.message]);
    if CodeText(l.code) == CodeText(r.code) {
      CodesDiffer(l.code, r.code);
    }
    forall a, b ensures BytesLess(a, b) <==> Before(a, b) { BytesLessIff(a, b); }
  }

  lemma CodesAreSpelled()
    ensures CodeText(InvalidInput) == "invalid_input" && CodeText(InvalidArtifact) == "invalid_artifact"
    ensures CodeText(DigestMismatch) == "digest_mismatch" && CodeText(DuplicateIdentity) == "duplicate_identity"
    ensures CodeText(UnresolvedReference) == "unresolved_reference" && CodeText(AmbiguousDefault) == "ambiguous_default"
    ensures CodeText(MissingDefault) == "missing_default" && CodeText(UnsupportedHostApi) == "unsupported_host_api"
  {
  }

  /** Forms compare by group and kind; then by version, by precedence when both are
      read as different versions and as text otherwise; then by digest. */
  lemma FormsCompare(parse: Parser, l: FormRef, r: FormRef)
    ensures LessForm(parse)(l, r) <==>
            || Before(l.group, r.group)
            || (l.group == r.group && Before(l.kind, r.kind))
            || (&& l.group == r.group && l.kind == r.kind
                && match (parse(l.version), parse(r.version))
                   case (Some(v), Some(w)) =>
                     || VersionBefore(v, w)
                     || (v == w && (Before(l.version, r.version) || (l.version == r.version && Before(l.digest, r.digest))))
                   case _ => Before(l.version, r.version) || (l.version == r.version && Before(l.digest, r.digest)))
  {
    hide Before, BytesLess, Precedes, VersionBefore;
    NotBeforeItself(l.group);
    NotBeforeItself(l.kind);
    NotBeforeItself(l.version);
    forall a, b ensures BytesLess(a, b) <==> Before(a, b) { BytesLessIff(a, b); }
    if parse(l.version).Some? && parse(r.version).Some? {
      PrecedesIff(parse(l.version).value, parse(r.version).value);
      PrecedesIff(parse(l.version).value, parse(l.version).value);
      NotBeforeItsVersion(parse(l.version).value);
    }
  }

  // ---------- precedence ----------

  /** Section 11.4 of Semantic Versioning 2.0.0: numbers compare as numbers, text as
      bytes, and a number comes before text. */
  ghost predicate IdentifierBefore(x: PreRelease, y: PreRelease)
  {
    || (x.Numeric? && y.Numeric? && x.n < y.n)
    || (x.Numeric? && y.Alphanumeric?)
    || (x.Alphanumeric? && y.Alphanumeric? && Before(x.text, y.text))
  }

  /** A shorter list of the same identifiers comes first; otherwise the first that
      differs decides. */
  ghost predicate PreBefore(a: seq<PreRelease>, b: seq<PreRelease>)
  {
    a < b || exists i :: 0 <= i < |a| && i < |b| && a[..i] == b[..i] && IdentifierBefore(a[i], b[i])
  }

  /** A release comes after its pre-releases. */
  ghost predicate VersionBefore(l: Version, r: Version)
  {
    || l.major < r.major
    || (l.major == r.major && l.minor < r.minor)
    || (l.major == r.major && l.minor == r.minor && l.patch < r.patch)
    || (l.major == r.major && l.minor == r.minor && l.patch == r.patch
        && l.pre != [] && (r.pre == [] || PreBefore(l.pre, r.pre)))
  }

  lemma IdentifiersCompare(x: PreRelease, y: PreRelease)
    ensures LessPre(x, y) <==> IdentifierBefore(x, y)
  {
    hide BytesLess, Before;
    if x.Alphanumeric? && y.Alphanumeric? {
      BytesLessIff(x.text, y.text);
    }
  }

  lemma PrecedesIff(l: Version, r: Version)
    ensures Precedes(l, r) <==> VersionBefore(l, r)
  {
    hide LessPre, IdentifierBefore, LexLess;
    LexIff(LessPre, l.pre, r.pre);
    forall i ensures DifferAt(LessPre, l.pre, r.pre, i) <==>
        0 <= i < |l.pre| && i < |r.pre| && l.pre[..i] == r.pre[..i] && IdentifierBefore(l.pre[i], r.pre[i]) {
      if 0 <= i < |l.pre| && i < |r.pre| {
        IdentifiersCompare(l.pre[i], r.pre[i]);
        NotBeforeItsIdentifier(l.pre[i]);
      }
    }
    assert PreBefore(l.pre, r.pre) <==> LexLess(LessPre, l.pre, r.pre);
    assert r.pre == [] ==> !(l.pre < r.pre);
  }

  lemma NotBeforeItsIdentifier(x: PreRelease)
    ensures !IdentifierBefore(x, x)
  {
    if x.Alphanumeric? {
      NotBeforeItself(x.text);
    }
  }

  lemma NotBeforeItsVersion(v: Version)
    ensures !VersionBefore(v, v)
  {
    hide IdentifierBefore;
    forall x ensures !IdentifierBefore(x, x) { NotBeforeItsIdentifier(x); }
  }

  function Release(pre: seq<PreRelease>): Version
  {
    Version(1, 0, 0, pre)
  }

  /** The example of section 11.4: `alpha`, `alpha.1`, `alpha.beta`, `beta`, `beta.2`,
      `beta.11`, `rc.1` and the release itself. */
  lemma PublishedPrecedence()
    ensures Precedes(Release([Alphanumeric("alpha")]), Release([Alphanumeric("alpha"), Numeric(1)]))
    ensures Precedes(Release([Alphanumeric("alpha"), Numeric(1)]), Release([Alphanumeric("alpha"), Alphanumeric("beta")]))
    ensures Precedes(Release([Alphanumeric("alpha"), Alphanumeric("beta")]), Release([Alphanumeric("beta")]))
    ensures Precedes(Release([Alphanumeric("beta")]), Release([Alphanumeric("beta"), Numeric(2)]))
    ensures Precedes(Release([Alphanumeric("beta"), Numeric(2)]), Release([Alphanumeric("beta"), Numeric(11)]))
    ensures Precedes(Release([Alphanumeric("beta"), Numeric(11)]), Release([Alphanumeric("rc"), Numeric(1)]))
    ensures Precedes(Release([Alphanumeric("rc"), Numeric(1)]), Release([]))
  {
    hide Precedes, Before;
    FirstLetters("alpha", "beta");
    FirstLetters("beta", "rc");
    Shorter([Alphanumeric("alpha")], Numeric(1));
    Shorter([Alphanumeric("beta")], Numeric(2));
    DifferLater([Alphanumeric("alpha")], Numeric(1), Alphanumeric("beta"));
    DifferLater([Alphanumeric("beta")], Numeric(2), Numeric(11));
    DifferFirst([Alphanumeric("alpha"), Alphanumeric("beta")], [Alphanumeric("beta")]);
    DifferFirst([Alphanumeric("beta"), Numeric(11)], [Alphanumeric("rc"), Numeric(1)]);
    PrecedesIff(Release([Alphanumeric("rc"), Numeric(1)]), Release([]));
    assert [Alphanumeric("alpha")] + [Numeric(1)] == [Alphanumeric("alpha"), Numeric(1)];
    assert [Alphanumeric("alpha")] + [Alphanumeric("beta")] == [Alphanumeric("alpha"), Alphanumeric("beta")];
    assert [Alphanumeric("beta")] + [Numeric(2)] == [Alphanumeric("beta"), Numeric(2)];
    assert [Alphanumeric("beta")] + [Numeric(11)] == [Alphanumeric("beta"), Numeric(11)];
  }

  lemma FirstLetters(a: string, b: string)
    requires a != [] && b != [] && a[0] < b[0]
    ensures Before(a, b)
  {
    assert a[..0] == b[..0];
  }

  lemma Shorter(a: seq<PreRelease>, x: PreRelease)
    requires a != []
    ensures Precedes(Release(a), Release(a + [x]))
  {
    hide Precedes;
    PrecedesIff(Release(a), Release(a + [x]));
    assert a < a + [x];
  }

  lemma DifferLater(a: seq<PreRelease>, x: PreRelease, y: PreRelease)
    requires IdentifierBefore(x, y)
    ensures Precedes(Release(a + [x]), Release(a + [y]))
  {
    hide Precedes, IdentifierBefore;
    PrecedesIff(Release(a + [x]), Release(a + [y]));
    assert (a + [x])[..|a|] == (a + [y])[..|a|] && (a + [x])[|a|] == x && (a + [y])[|a|] == y;
  }

  lemma DifferFirst(a: seq<PreRelease>, b: seq<PreRelease>)
    requires a != [] && b != [] && IdentifierBefore(a[0], b[0])
    ensures Precedes(Release(a), Release(b))
  {
    hide Precedes, IdentifierBefore;
    PrecedesIff(Release(a), Release(b));
    assert a[..0] == b[..0];
  }
}
