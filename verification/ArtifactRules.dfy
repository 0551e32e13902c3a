/** When one artifact stands on its own, written out over its own fields, what it
    compiles to then, and how it is refused otherwise. */
module ArtifactRules {
  import opened Wrappers
  import opened JsonModel
  import opened Pointers
  import opened Digests
  import opened Identities
  import opened SnapshotGraph

  // ---------- packages ----------

  ghost predicate HasDefinition(p: Package)
  {
    exists f :: f in p.files && f.path == p.definitionPath && f.isDefinition
  }

  /** The Form an index should name, by what its Definition says and digests to. */
  ghost predicate NamesItsDefinition(lib: Library, p: Package)
  {
    && lib.formDefinition(p.apiVersion, p.definition).Ok? && lib.digestOf(p.definition).Ok?
    && var document := lib.formDefinition(p.apiVersion, p.definition).value;
       p.ref == FormRef(document.group, document.kind, document.version, lib.digestOf(p.definition).value)
  }

  /** The package is verified, is the one that was expected, and its index names the
      Form that its Definition is. */
  ghost predicate PackageStands(lib: Library, a: PackageArtifact)
  {
    && a.package.valid
    && ValidDigest(a.expectedDigest) && a.package.digest == a.expectedDigest
    && HasDefinition(a.package)
    && NamesItsDefinition(lib, a.package)
    && lib.canonical(a.package.definition).Ok?
  }

  /** The Form that a package compiles to. */
  ghost predicate IsFormOf(lib: Library, a: PackageArtifact, form: CompiledForm)
  {
    && form.ref == a.package.ref
    && form.packageDigest == a.package.digest
    && Ok(form.definition) == lib.formDefinition(a.package.apiVersion, a.package.definition)
    && Ok(form.canonical) == lib.canonical(a.package.definition)
    && form.origin == PackageOrigin(lib, a)
  }

  /** Where a report about a package points. */
  function PackageOrigin(lib: Library, a: PackageArtifact): string
  {
    if !lib.blank(a.origin) then a.origin
    else if a.package.valid then "package:" + a.package.digest
    else "package:unverified"
  }

  /** A package compiles exactly when it stands on its own, and then to its Form. */
  lemma PackageCompilesIff(lib: Library, a: PackageArtifact)
    ensures CompileArtifact(lib, a).Ok? <==> PackageStands(lib, a)
    ensures CompileArtifact(lib, a).Ok? ==> IsFormOf(lib, a, CompileArtifact(lib, a).value)
  {
    hide ValidDigest, EscapePointerTwoPass;
    DefinitionEntryIff(a.package);
  }

  lemma DefinitionEntryIff(p: Package)
    ensures HasDefinitionEntry(p) <==> HasDefinition(p)
  {
    if f :| f in p.files && f.path == p.definitionPath && f.isDefinition {
      var i :| 0 <= i < |p.files| && p.files[i] == f;
      assert p.files[i].path == p.definitionPath;
    }
  }

  /** The refusal of a package names the first condition it misses. */
  lemma PackageRefusal(lib: Library, a: PackageArtifact)
    requires !PackageStands(lib, a)
    ensures CompileArtifact(lib, a).Err?
    ensures var d, p := CompileArtifact(lib, a).error, a.package;
            && d.subject == PackageOrigin(lib, a)
            && (if !p.valid then d.code == InvalidArtifact && d.pointer == "/package" && d.message == lib.say(NotVerified)
                else if !ValidDigest(a.expectedDigest) then
                  d.code == InvalidArtifact && d.pointer == "/expectedDigest" && d.message == lib.say(MalformedDigest("package"))
                else if p.digest != a.expectedDigest then
                  d.code == DigestMismatch && d.pointer == "/package-index.json"
                  && d.message == lib.say(DigestDiffers("package", p.digest, a.expectedDigest))
                else if !HasDefinition(p) then
                  d.code == InvalidArtifact && d.pointer == "/package-index.json/definitionPath" && d.message == lib.say(NoDefinitionEntry)
                else if lib.formDefinition(p.apiVersion, p.definition).Ok? && lib.digestOf(p.definition).Ok? && !NamesItsDefinition(lib, p) then
                  d.code == DigestMismatch && d.pointer == "/package-index.json/formRef"
                else
                  d.code == InvalidArtifact && d.pointer == "/" + EscapeToken(p.definitionPath)
                  && exists text :: d.message == lib.say(Refused(text)))
  {
    hide ValidDigest, EscapePointerTwoPass, EscapeToken;
    DefinitionEntryIff(a.package);
    EscapesAgree(a.package.definitionPath);
  }

  // ---------- contracts ----------

  /** A contract document has the expected digest, passes its schema and reads. */
  ghost predicate ContractStands(lib: Library, a: ContractArtifact, schemaError: Option<string>, readable: bool)
  {
    && ValidDigest(a.expectedDigest)
    && schemaError.None?
    && lib.digestOf(a.definition) == Ok(a.expectedDigest)
    && readable
    && lib.canonical(a.definition).Ok?
  }

  ghost predicate InterfaceStands(lib: Library, a: ContractArtifact)
  {
    ContractStands(lib, a, lib.interfaceSchema(a.definition), lib.interfaceDefinition(a.definition).Ok?)
  }

  ghost predicate BindingStands(lib: Library, a: ContractArtifact)
  {
    ContractStands(lib, a, lib.bindingSchema(a.definition), lib.bindingDefinition(a.definition).Ok?)
  }

  function ContractOrigin(lib: Library, a: ContractArtifact): string
  {
    if !lib.blank(a.origin) then a.origin else "bytes:" + lib.bytesDigest(a.definition)
  }

  /** The identity of an Interface: what its document says, and the digest of it. */
  ghost predicate IsInterfaceRef(lib: Library, a: ContractArtifact, ref: ContractRef)
  {
    && lib.interfaceDefinition(a.definition).Ok?
    && var document := lib.interfaceDefinition(a.definition).value;
       ref == ContractRef(document.apiVersion, document.name, document.version, a.expectedDigest)
  }

  ghost predicate IsBindingRef(lib: Library, a: ContractArtifact, ref: ContractRef)
  {
    && lib.bindingDefinition(a.definition).Ok?
    && var document := lib.bindingDefinition(a.definition).value;
       ref == ContractRef(document.apiVersion, document.name, document.version, a.expectedDigest)
  }

  ghost predicate IsInterfaceOf(lib: Library, a: ContractArtifact, c: CompiledInterface)
  {
    && IsInterfaceRef(lib, a, c.ref)
    && Ok(c.canonical) == lib.canonical(a.definition)
    && c.origin == ContractOrigin(lib, a)
    && forall o :: o in c.operations <==> o in lib.interfaceDefinition(a.definition).value.operations
  }

  ghost predicate IsBindingOf(lib: Library, a: ContractArtifact, c: CompiledBinding)
  {
    && IsBindingRef(lib, a, c.ref)
    && Ok(c.document) == lib.bindingDefinition(a.definition)
    && Ok(c.canonical) == lib.canonical(a.definition)
    && c.origin == ContractOrigin(lib, a)
  }

  lemma InterfaceCompilesIff(lib: Library, a: ContractArtifact)
    ensures CompileInterface(lib, a).Ok? <==> InterfaceStands(lib, a)
    ensures CompileInterface(lib, a).Ok? ==> IsInterfaceOf(lib, a, CompileInterface(lib, a).value)
  {
    hide ValidDigest;
  }

  lemma BindingCompilesIff(lib: Library, a: ContractArtifact)
    ensures CompileBinding(lib, a).Ok? <==> BindingStands(lib, a)
    ensures CompileBinding(lib, a).Ok? ==> IsBindingOf(lib, a, CompileBinding(lib, a).value)
  {
    hide ValidDigest;
  }

  /** The refusal of a contract names the first condition it misses. */
  ghost predicate RefusedContract(lib: Library, a: ContractArtifact, what: string, schemaError: Option<string>, d: Diagnostic)
  {
    && d.subject == ContractOrigin(lib, a)
    && if !ValidDigest(a.expectedDigest) then
         d.code == InvalidArtifact && d.pointer == "/expectedDigest" && d.message == lib.say(MalformedDigest(what))
       else if schemaError.None? && lib.digestOf(a.definition).Ok? && lib.digestOf(a.definition).value != a.expectedDigest then
         d.code == DigestMismatch && d.pointer == "/definition"
         && d.message == lib.say(DigestDiffers(what, lib.digestOf(a.definition).value, a.expectedDigest))
       else
         d.code == InvalidArtifact && d.pointer == "/definition" && exists text :: d.message == lib.say(Refused(text))
  }

  lemma ContractRefusals(lib: Library, a: ContractArtifact)
    ensures CompileInterface(lib, a).Err? ==>
              RefusedContract(lib, a, "Interface", lib.interfaceSchema(a.definition), CompileInterface(lib, a).error)
    ensures CompileBinding(lib, a).Err? ==>
              RefusedContract(lib, a, "Binding", lib.bindingSchema(a.definition), CompileBinding(lib, a).error)
  {
    hide ValidDigest;
  }

  // ---------- digests ----------

  /** The canonical digest form: the algorithm and 64 lower-case hexadecimal digits. */
  lemma DigestForm(digest: string)
    ensures ValidDigest(digest) <==>
            exists hex :: digest == "sha256:" + hex && |hex| == 64 && forall c | c in hex :: c in "0123456789abcdef"
  {
    if ValidDigest(digest) {
      var hex := digest[7..];
      assert digest == "sha256:" + hex;
      forall c | c in hex ensures c in "0123456789abcdef" {
        var i :| 0 <= i < |hex| && hex[i] == c;
        assert digest[i + 7] == c;
        HexDigits(c);
      }
    }
    if hex :| digest == "sha256:" + hex && |hex| == 64 && forall c | c in hex :: c in "0123456789abcdef" {
      forall i | 7 <= i < 71 ensures '0' <= digest[i] <= '9' || 'a' <= digest[i] <= 'f' {
        assert digest[i] == hex[i - 7];
        HexDigits(digest[i]);
      }
    }
  }

  lemma HexDigits(c: char)
    ensures c in "0123456789abcdef" <==> '0' <= c <= '9' || 'a' <= c <= 'f'
  {
    var digits := "0123456789abcdef";
    assert forall i | 0 <= i < 10 :: digits[i] == '0' + (i as char);
    assert forall i | 10 <= i < 16 :: digits[i] == 'a' + ((i - 10) as char);
    if '0' <= c <= '9' {
      assert digits[c as int - '0' as int] == c;
    }
    if 'a' <= c <= 'f' {
      assert digits[c as int - 'a' as int + 10] == c;
    }
  }
}
