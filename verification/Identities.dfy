/** The exact identities a snapshot is keyed by, the diagnostics it reports and
    the orders it lists them in. */
module Identities {
  import opened Wrappers
  import opened Ordering

  datatype FormRef = FormRef(group: string, kind: string, version: string, digest: string)

  /** An exact Interface or Binding. */
  datatype ContractRef = ContractRef(apiVersion: string, name: string, version: string, digest: string)

  datatype GroupKind = GroupKind(group: string, kind: string)

  datatype Code =
    | InvalidInput | InvalidArtifact | DigestMismatch | DuplicateIdentity
    | UnresolvedReference | AmbiguousDefault | MissingDefault | UnsupportedHostApi

  function CodeText(code: Code): string
  {
    match code
    case InvalidInput => "invalid_input"
    case InvalidArtifact => "invalid_artifact"
    case DigestMismatch => "digest_mismatch"
    case DuplicateIdentity => "duplicate_identity"
    case UnresolvedReference => "unresolved_reference"
    case AmbiguousDefault => "ambiguous_default"
    case MissingDefault => "missing_default"
    case UnsupportedHostApi => "unsupported_host_api"
  }

  datatype Diagnostic = Diagnostic(code: Code, subject: string, pointer: string, message: string)

  // ---------- comparison by fields ----------

  function LessContract(l: ContractRef, r: ContractRef): bool
  {
    if l.apiVersion != r.apiVersion then BytesLess(l.apiVersion, r.apiVersion)
    else if l.name != r.name then BytesLess(l.name, r.name)
    else if l.version != r.version then BytesLess(l.version, r.version)
    else BytesLess(l.digest, r.digest)
  }

  function LessGroupKind(l: GroupKind, r: GroupKind): bool
  {
    if l.group != r.group then BytesLess(l.group, r.group) else BytesLess(l.kind, r.kind)
  }

  function LessDiagnostic(l: Diagnostic, r: Diagnostic): bool
  {
    if l.subject != r.subject then BytesLess(l.subject, r.subject)
    else if l.pointer != r.pointer then BytesLess(l.pointer, r.pointer)
    else if l.code != r.code then BytesLess(CodeText(l.code), CodeText(r.code))
    else BytesLess(l.message, r.message)
  }

  function FourFields(a: string, b: string, c: string, d: string): seq<string>
  {
    [a] + ([b] + ([c] + ([d] + [])))
  }

  lemma FourCompare(a: string, b: string, c: string, d: string, a': string, b': string, c': string, d': string)
    ensures FieldsLess(FourFields(a, b, c, d), FourFields(a', b', c', d')) ==
            if a != a' then BytesLess(a, a')
            else if b != b' then BytesLess(b, b')
            else if c != c' then BytesLess(c, c')
            else BytesLess(d, d')
  {
    hide BytesLess;
    assert !BytesLess(d, d) by { BytesOrder(); assert Orders(BytesLess, {d}); }
    var none: seq<string> := [];
    LexHead(d, none, d', none);
    LexHead(c, [d] + none, c', [d'] + none);
    LexHead(b, [c] + ([d] + none), b', [c'] + ([d'] + none));
    LexHead(a, [b] + ([c] + ([d] + none)), a', [b'] + ([c'] + ([d'] + none)));
  }

  lemma LexHead(x: string, xs: seq<string>, y: string, ys: seq<string>)
    ensures FieldsLess([x] + xs, [y] + ys) == if x != y then BytesLess(x, y) else FieldsLess(xs, ys)
  {
    assert ([x] + xs)[1..] == xs && ([y] + ys)[1..] == ys;
  }

  /** An order pulled back along an injective key is an order. */
  lemma PulledBack<K(!new), T(!new)>(key: T -> K, lessK: (K, K) -> bool, less: (T, T) -> bool, s: set<T>)
    requires OrdersAll(lessK)
    requires forall x, y | x in s && y in s :: less(x, y) == lessK(key(x), key(y))
    requires forall x, y | x in s && y in s && key(x) == key(y) :: x == y
    ensures Orders(less, s)
  {
    var keys := set x | x in s :: key(x);
    assert Orders(lessK, keys);
    assert forall x | x in s :: key(x) in keys;
  }

  function ContractFields(r: ContractRef): seq<string>
  {
    FourFields(r.apiVersion, r.name, r.version, r.digest)
  }

  lemma ContractOrder(s: set<ContractRef>)
    ensures Orders(LessContract, s)
  {
    hide BytesLess, FieldsLess;
    FieldsOrder();
    forall x, y | x in s && y in s
      ensures LessContract(x, y) == FieldsLess(ContractFields(x), ContractFields(y))
      ensures ContractFields(x) == ContractFields(y) ==> x == y
    {
      FourCompare(x.apiVersion, x.name, x.version, x.digest, y.apiVersion, y.name, y.version, y.digest);
      if ContractFields(x) == ContractFields(y) {
        SameFields(x.apiVersion, x.name, x.version, x.digest, y.apiVersion, y.name, y.version, y.digest);
      }
    }
    PulledBack(ContractFields, FieldsLess, LessContract, s);
  }

  lemma SameFields(a: string, b: string, c: string, d: string, a': string, b': string, c': string, d': string)
    requires FourFields(a, b, c, d) == FourFields(a', b', c', d')
    ensures a == a' && b == b' && c == c' && d == d'
  {
    assert FourFields(a, b, c, d)[0] == a && FourFields(a, b, c, d)[1] == b
        && FourFields(a, b, c, d)[2] == c && FourFields(a, b, c, d)[3] == d;
  }

  function GroupKindFields(g: GroupKind): seq<string>
  {
    FourFields(g.group, g.kind, "", "")
  }

  lemma GroupKindOrder(s: set<GroupKind>)
    ensures Orders(LessGroupKind, s)
  {
    hide BytesLess, FieldsLess;
    FieldsOrder();
    BytesOrder();
    forall x, y | x in s && y in s
      ensures LessGroupKind(x, y) == FieldsLess(GroupKindFields(x), GroupKindFields(y))
      ensures GroupKindFields(x) == GroupKindFields(y) ==> x == y
    {
      FourCompare(x.group, x.kind, "", "", y.group, y.kind, "", "");
      assert Orders(BytesLess, {"", x.kind});
      if GroupKindFields(x) == GroupKindFields(y) {
        SameFields(x.group, x.kind, "", "", y.group, y.kind, "", "");
      }
    }
    PulledBack(GroupKindFields, FieldsLess, LessGroupKind, s);
  }

  function DiagnosticFields(d: Diagnostic): seq<string>
  {
    FourFields(d.subject, d.pointer, CodeText(d.code), d.message)
  }

  lemma CodesDiffer(a: Code, b: Code)
    requires CodeText(a) == CodeText(b)
    ensures a == b
  {
    assert |CodeText(a)| == |CodeText(b)|;
    if |CodeText(a)| == 17 {
      assert CodeText(DuplicateIdentity)[0] == 'd' && CodeText(AmbiguousDefault)[0] == 'a';
    }
    if |CodeText(a)| == 15 {
      assert CodeText(DigestMismatch)[0] == 'd' && CodeText(MissingDefault)[0] == 'm' && CodeText(InvalidArtifact)[0] == 'i';
    }
  }

  /** Diagnostics are compared by all four fields, so a report has one order. */
  lemma DiagnosticOrder(s: set<Diagnostic>)
    ensures Orders(LessDiagnostic, s)
  {
    hide BytesLess, FieldsLess, CodeText;
    FieldsOrder();
    forall x, y | x in s && y in s
      ensures LessDiagnostic(x, y) == FieldsLess(DiagnosticFields(x), DiagnosticFields(y))
      ensures DiagnosticFields(x) == DiagnosticFields(y) ==> x == y
    {
      FourCompare(x.subject, x.pointer, CodeText(x.code), x.message, y.subject, y.pointer, CodeText(y.code), y.message);
      if CodeText(x.code) == CodeText(y.code) {
        CodesDiffer(x.code, y.code);
      }
      if DiagnosticFields(x) == DiagnosticFields(y) {
        SameFields(x.subject, x.pointer, CodeText(x.code), x.message, y.subject, y.pointer, CodeText(y.code), y.message);
      }
    }
    PulledBack(DiagnosticFields, FieldsLess, LessDiagnostic, s);
  }

  /** A report, in the order it is returned. */
  function Report(diagnostics: seq<Diagnostic>): seq<Diagnostic>
  {
    Sort(LessDiagnostic, diagnostics)
  }

  lemma ReportIsUnique(a: seq<Diagnostic>, b: seq<Diagnostic>)
    requires multiset(a) == multiset(b)
    ensures Report(a) == Report(b)
  {
    hide LessDiagnostic;
    var s := set d | d in a;
    DiagnosticOrder(s);
    SortIsUnique(LessDiagnostic, a, b, s);
  }

  lemma ReportKeepsAll(a: seq<Diagnostic>)
    ensures forall d :: d in Report(a) <==> d in a
    ensures Report(a) == [] <==> a == []
  {
    SortPermutes(LessDiagnostic, a);
    forall d ensures d in Report(a) <==> d in a {
      assert d in multiset(Report(a)) <==> d in multiset(a);
    }
    SameLength(Report(a), a);
  }

  /** Reporting a report changes nothing: nested stages may sort again. */
  lemma ReportAgain(a: seq<Diagnostic>)
    ensures Report(Report(a)) == Report(a)
  {
    SortPermutes(LessDiagnostic, a);
    ReportIsUnique(Report(a), a);
  }

  // ---------- semantic versions ----------

  datatype PreRelease = Numeric(n: nat) | Alphanumeric(text: string)

  /** A parsed version. Build metadata is dropped: precedence never reads it
      (Semantic Versioning 2.0.0, section 10). */
  datatype Version = Version(major: nat, minor: nat, patch: nat, pre: seq<PreRelease>)

  function LessPre(l: PreRelease, r: PreRelease): bool
  {
    match (l, r)
    case (Numeric(a), Numeric(b)) => a < b
    case (Numeric(_), Alphanumeric(_)) => true
    case (Alphanumeric(_), Numeric(_)) => false
    case (Alphanumeric(a), Alphanumeric(b)) => BytesLess(a, b)
  }

  /** Precedence of Semantic Versioning 2.0.0, section 11. */
  function Precedes(l: Version, r: Version): bool
  {
    if l.major != r.major then l.major < r.major
    else if l.minor != r.minor then l.minor < r.minor
    else if l.patch != r.patch then l.patch < r.patch
    else if l.pre == [] then false
    else if r.pre == [] then true
    else LexLess(LessPre, l.pre, r.pre)
  }

  lemma PreOrder()
    ensures OrdersAll(LessPre)
  {
    hide BytesLess;
    BytesOrder();
    forall s: set<PreRelease> ensures Orders(LessPre, s) {
      var texts := set p | p in s && p.Alphanumeric? :: p.text;
      assert Orders(BytesLess, texts);
      assert forall p | p in s && p.Alphanumeric? :: p.text in texts;
    }
  }

  lemma PrecedenceOrder()
    ensures OrdersAll(Precedes)
  {
    hide LessPre;
    PreOrder();
    forall s: set<Version> ensures Orders(Precedes, s) {
      var lists := set v | v in s :: v.pre;
      LexOrders(LessPre, lists);
      var lex := (a: seq<PreRelease>, b: seq<PreRelease>) => LexLess(LessPre, a, b);
      assert Orders(lex, lists);
      assert forall v | v in s :: v.pre in lists;
      assert forall a, b :: lex(a, b) == LexLess(LessPre, a, b);
    }
  }

  // ---------- the order of Forms ----------

  /** The version reader: None when it refuses the text. */
  type Parser = string -> Option<Version>

  function LessForm(parse: Parser): (FormRef, FormRef) -> bool
  {
    (l: FormRef, r: FormRef) =>
      if l.group != r.group then BytesLess(l.group, r.group)
      else if l.kind != r.kind then BytesLess(l.kind, r.kind)
      else if parse(l.version).Some? && parse(r.version).Some? && parse(l.version) != parse(r.version) then
        Precedes(parse(l.version).value, parse(r.version).value)
      else if l.version != r.version then BytesLess(l.version, r.version)
      else BytesLess(l.digest, r.digest)
  }

  predicate SameLine(l: FormRef, r: FormRef)
  {
    l.group == r.group && l.kind == r.kind
  }

  /** An unreadable version lies, as text, between two readable versions of the
      same Form that precedence puts the other way round. */
  predicate Straddles(parse: Parser, low: FormRef, high: FormRef, unread: FormRef)
  {
    && SameLine(low, high) && SameLine(low, unread)
    && parse(low.version).Some? && parse(high.version).Some? && parse(unread.version).None?
    && Precedes(parse(low.version).value, parse(high.version).value)
    && BytesLess(high.version, unread.version) && BytesLess(unread.version, low.version)
  }

  ghost predicate Comparable(parse: Parser, s: set<FormRef>)
  {
    !exists low, high, unread | low in s && high in s && unread in s :: Straddles(parse, low, high, unread)
  }

  lemma StringLaws(a: string, b: string, c: string)
    ensures !BytesLess(a, a)
    ensures a == b || BytesLess(a, b) || BytesLess(b, a)
    ensures !(BytesLess(a, b) && BytesLess(b, a))
    ensures BytesLess(a, b) && BytesLess(b, c) ==> BytesLess(a, c)
  {
    hide BytesLess;
    BytesOrder();
    assert Orders(BytesLess, {a, b, c});
  }

  lemma PrecedenceLaws(a: Version, b: Version, c: Version)
    ensures !Precedes(a, a)
    ensures a == b || Precedes(a, b) || Precedes(b, a)
    ensures !(Precedes(a, b) && Precedes(b, a))
    ensures Precedes(a, b) && Precedes(b, c) ==> Precedes(a, c)
  {
    hide Precedes;
    PrecedenceOrder();
    assert Orders(Precedes, {a, b, c});
  }

  /** Any two different Forms are comparable in exactly one direction, whether
      or not their versions can be read. */
  lemma FormsAreRanked(parse: Parser, x: FormRef, y: FormRef)
    ensures !LessForm(parse)(x, x)
    ensures x == y || LessForm(parse)(x, y) || LessForm(parse)(y, x)
    ensures !(LessForm(parse)(x, y) && LessForm(parse)(y, x))
  {
    hide BytesLess, Precedes;
    StringLaws(x.group, y.group, "");
    StringLaws(x.kind, y.kind, "");
    StringLaws(x.version, y.version, "");
    StringLaws(x.digest, y.digest, "");
    if parse(x.version).Some? && parse(y.version).Some? {
      PrecedenceLaws(parse(x.version).value, parse(y.version).value, parse(x.version).value);
    }
  }

  /** A cycle of three Forms is exactly an unreadable version straddled by two
      readable ones. */
  lemma CycleStraddles(parse: Parser, x: FormRef, y: FormRef, z: FormRef)
    requires LessForm(parse)(x, y) && LessForm(parse)(y, z) && LessForm(parse)(z, x)
    ensures Straddles(parse, x, y, z) || Straddles(parse, y, z, x) || Straddles(parse, z, x, y)
  {
    hide BytesLess, Precedes;
    StringLaws(x.group, y.group, z.group);
    StringLaws(y.group, z.group, x.group);
    StringLaws(x.kind, y.kind, z.kind);
    StringLaws(y.kind, z.kind, x.kind);
    CycleInOneLine(parse, x, y, z);
  }

  lemma CycleInOneLine(parse: Parser, x: FormRef, y: FormRef, z: FormRef)
    requires SameLine(x, y) && SameLine(x, z)
    requires LessForm(parse)(x, y) && LessForm(parse)(y, z) && LessForm(parse)(z, x)
    ensures Straddles(parse, x, y, z) || Straddles(parse, y, z, x) || Straddles(parse, z, x, y)
  {
    hide BytesLess, Precedes;
    StringLaws(x.version, y.version, z.version);
    StringLaws(y.version, z.version, x.version);
    StringLaws(z.version, x.version, y.version);
    StringLaws(x.digest, y.digest, z.digest);
    StringLaws(y.digest, z.digest, x.digest);
    if parse(x.version).Some? && parse(y.version).Some? && parse(z.version).Some? {
      PrecedenceLaws(parse(x.version).value, parse(y.version).value, parse(z.version).value);
      PrecedenceLaws(parse(y.version).value, parse(z.version).value, parse(x.version).value);
      PrecedenceLaws(parse(z.version).value, parse(x.version).value, parse(y.version).value);
    }
  }

  /** The Forms of a snapshot have one order exactly when no unreadable version
      is straddled. */
  lemma FormOrderIff(parse: Parser, s: set<FormRef>)
    ensures Orders(LessForm(parse), s) <==> Comparable(parse, s)
  {
    hide LessForm, Straddles;
    forall x, y | x in s && y in s
      ensures !LessForm(parse)(x, x) && (x == y || LessForm(parse)(x, y) || LessForm(parse)(y, x))
    {
      FormsAreRanked(parse, x, y);
    }
    if Comparable(parse, s) {
      forall x, y, z | x in s && y in s && z in s && LessForm(parse)(x, y) && LessForm(parse)(y, z)
        ensures LessForm(parse)(x, z)
      {
        if !LessForm(parse)(x, z) {
          FormsAreRanked(parse, x, z);
          FormsAreRanked(parse, x, y);
          assert LessForm(parse)(z, x);
          CycleStraddles(parse, x, y, z);
        }
      }
    } else {
      var low, high, unread :| low in s && high in s && unread in s && Straddles(parse, low, high, unread);
      StraddleIsCycle(parse, low, high, unread);
      FormsAreRanked(parse, low, unread);
    }
  }

  lemma StraddleIsCycle(parse: Parser, low: FormRef, high: FormRef, unread: FormRef)
    requires Straddles(parse, low, high, unread)
    ensures LessForm(parse)(low, high) && LessForm(parse)(high, unread) && LessForm(parse)(unread, low)
  {
    hide BytesLess, Precedes;
    PrecedenceLaws(parse(low.version).value, parse(high.version).value, parse(low.version).value);
    StringLaws(high.version, unread.version, "");
    StringLaws(low.version, unread.version, "");
  }

  /** Then sorting shows the order in which the identities were read: two listings
      of the same three Forms are both left as they are. */
  lemma StraddleShowsTheListing(parse: Parser, low: FormRef, high: FormRef, unread: FormRef)
    requires Straddles(parse, low, high, unread)
    ensures multiset([low, high, unread]) == multiset([high, unread, low])
    ensures Sort(LessForm(parse), [low, high, unread]) == [low, high, unread] != [high, unread, low]
    ensures Sort(LessForm(parse), [high, unread, low]) == [high, unread, low]
  {
    hide LessForm, Straddles, Sort;
    var less := LessForm(parse);
    StraddleIsCycle(parse, low, high, unread);
    FormsAreRanked(parse, low, high);
    SortThree(less, low, high, unread);
    SortThree(less, high, unread, low);
    assert [low, high, unread][0] == low && [high, unread, low][0] == high;
    Rotated(low, high, unread);
  }

  lemma Rotated<T>(a: T, b: T, c: T)
    ensures multiset([a, b, c]) == multiset([b, c, a])
  {
  }

  lemma SortThree<T>(less: (T, T) -> bool, a: T, b: T, c: T)
    requires less(a, b) && less(b, c)
    ensures Sort(less, [a, b, c]) == [a, b, c]
  {
    assert [a, b, c][1..] == [b, c] && [b, c][1..] == [c] && [c][1..] == [];
    assert Sort(less, [c]) == Insert(less, c, []) == [c];
    assert Sort(less, [b, c]) == [b, c];
  }

  lemma ReadableFormsAreComparable(parse: Parser, s: set<FormRef>)
    requires forall f | f in s :: parse(f.version).Some?
    ensures Orders(LessForm(parse), s)
  {
    hide LessForm;
    FormOrderIff(parse, s);
  }

  /** A major version beyond 64 bits is a well-formed version the reader refuses,
      and it can be straddled. */
  lemma WideVersionBreaksTheOrder(parse: Parser, group: string, kind: string, digest: string)
    requires parse("2.0.0") == Some(Version(2, 0, 0, []))
    requires parse("10.0.0") == Some(Version(10, 0, 0, []))
    requires parse("18446744073709551616.0.0") == None
    ensures !Comparable(parse, {FormRef(group, kind, "2.0.0", digest), FormRef(group, kind, "10.0.0", digest),
                                FormRef(group, kind, "18446744073709551616.0.0", digest)})
  {
    assert BytesLess("10.0.0", "18446744073709551616.0.0") by {
      assert "10.0.0"[1..][0] == '0' && "18446744073709551616.0.0"[1..][0] == '8';
    }
    assert BytesLess("18446744073709551616.0.0", "2.0.0");
    assert Straddles(parse, FormRef(group, kind, "2.0.0", digest), FormRef(group, kind, "10.0.0", digest),
                     FormRef(group, kind, "18446744073709551616.0.0", digest));
  }
}
