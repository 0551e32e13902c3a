/** The admission of a node as the library folds it out of its keywords, and why
    the fold is the declarative admission of the closure proof. */
module AdmissionFolds {
  import opened Wrappers
  import opened JsonModel
  import opened SchemaGraph
  import opened Closure

  function FoldIntersect(modes: seq<Admission>): Admission
  {
    if modes == [] then Open else Intersect(FoldIntersect(modes[..|modes| - 1]), modes[|modes| - 1])
  }

  function FoldUnion(modes: seq<Admission>): Admission
  {
    if modes == [] then Excluded else Union(FoldUnion(modes[..|modes| - 1]), modes[|modes| - 1])
  }

  lemma {:induction false} FoldIntersectMeaning(modes: seq<Admission>)
    ensures FoldIntersect(modes) == Excluded <==> exists i | 0 <= i < |modes| :: modes[i] == Excluded
    ensures FoldIntersect(modes) == Open <==> forall i | 0 <= i < |modes| :: modes[i] == Open
  {
    if modes != [] {
      var init := modes[..|modes| - 1];
      FoldIntersectMeaning(init);
      assert forall i | 0 <= i < |init| :: init[i] == modes[i];
      if j :| 0 <= j < |modes| && modes[j] == Excluded && j < |init| {
        assert init[j] == Excluded;
      }
    }
  }

  lemma {:induction false} FoldUnionMeaning(modes: seq<Admission>)
    ensures FoldUnion(modes) == Open <==> exists i | 0 <= i < |modes| :: modes[i] == Open
    ensures FoldUnion(modes) == Excluded <==> forall i | 0 <= i < |modes| :: modes[i] == Excluded
  {
    if modes != [] {
      var init := modes[..|modes| - 1];
      FoldUnionMeaning(init);
      assert forall i | 0 <= i < |init| :: init[i] == modes[i];
    }
  }

  /** The admission of a node in the order the library computes it. */
  function BaseMode(s: Schema): Admission
  {
    if TypeIncludes(Get(s, "type"), "object") then Closed
    else if "type" in s then Excluded
    else Open
  }

  function LiteralMode(s: Schema): Admission
  {
    var constant := if "const" in s then Intersect(BaseMode(s), AdmissionForLiteral(s["const"])) else BaseMode(s);
    if "enum" in s && s["enum"].Arr? then Intersect(constant, FoldUnion(LiteralModes(s["enum"].items))) else constant
  }

  function LiteralModes(values: seq<Json>): (modes: seq<Admission>)
    ensures |modes| == |values| && forall i | 0 <= i < |values| :: modes[i] == AdmissionForLiteral(values[i])
  {
    seq(|values|, i requires 0 <= i < |values| => AdmissionForLiteral(values[i]))
  }

  function CombinedMode(s: Schema, refMode: Admission, modes: Keyword -> seq<Admission>): Admission
  {
    var m0 := LiteralMode(s);
    var m1 := if Has(s, Ref) then Intersect(m0, refMode) else m0;
    var m2 := if Has(s, AllOf) then Intersect(m1, FoldIntersect(modes(AllOf))) else m1;
    var m3 := if Has(s, AnyOf) then Intersect(m2, FoldUnion(modes(AnyOf))) else m2;
    if Has(s, OneOf) then Intersect(m3, FoldUnion(modes(OneOf))) else m3
  }

  lemma LiteralModeMeaning(s: Schema)
    requires EnumOk(s) && !ObjectConst(s)
    ensures LiteralMode(s) == Excluded <==> (("type" in s && !TypeIncludes(s["type"], "object")) || LiteralsExclude(s))
    ensures LiteralMode(s) == Open ==> "type" !in s
    ensures LiteralMode(s) == Closed ==> "type" in s
  {
    if "enum" in s {
      FoldUnionMeaning(LiteralModes(s["enum"].items));
    }
  }

  /** Folding gives exactly the declarative admission of the node. */
  lemma ModeMeaning(s: Schema, excludes: Edge -> bool, refMode: Admission, modes: Keyword -> seq<Admission>)
    requires EnumOk(s) && !ObjectConst(s) && forall k :: ShapeOk(s, k)
    requires Has(s, Ref) ==> refMode != Open && (refMode == Excluded <==> excludes(Single(Ref)))
    requires forall k | k in {AllOf, AnyOf, OneOf} ::
               |modes(k)| == |ListUnder(s, k)|
               && forall i | 0 <= i < |modes(k)| :: modes(k)[i] != Open && (modes(k)[i] == Excluded <==> excludes(Indexed(k, i)))
    ensures NodeAdmission(s, excludes) ==
            if CombinedMode(s, refMode, modes) == Open then None else Some(CombinedMode(s, refMode, modes))
  {
    hide LiteralMode, LiteralsExclude, TypeIncludes, FoldIntersect, FoldUnion, Text, EnumOk, ObjectConst;
    LiteralModeMeaning(s);
    FoldIntersectMeaning(modes(AllOf));
    FoldUnionMeaning(modes(AnyOf));
    FoldUnionMeaning(modes(OneOf));
    assert ShapeOk(s, AllOf) && ShapeOk(s, AnyOf) && ShapeOk(s, OneOf);
    assert Has(s, AllOf) ==> modes(AllOf)[0] != Open;
    assert Has(s, AnyOf) ==> |modes(AnyOf)| > 0 && modes(AnyOf)[0] != Open;
    assert Has(s, OneOf) ==> |modes(OneOf)| > 0 && modes(OneOf)[0] != Open;
  }
}
