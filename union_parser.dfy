/**
 * Lowering a type alias to an IR union of tagged object types
 * (crates/tser_parser_ts/src/type_decl/union.rs).
 *
 * The alias's type is walked as a tree of unions; each non-union leaf is one
 * arm and must be an object-literal type. Inside an arm, the member named
 * `type` carries the variant's name as a string-literal type, and every other
 * member becomes a field of the variant's struct.
 */
module UnionParser {
  import opened Wrappers
  import opened Syntax
  import opened StructureErrors
  import opened TypeExprParser
  import opened PropParser
  import Ir

  /** The member of each arm that names the variant (`UNION_DISCRIMINATION_FIELD`). */
  const UnionDiscriminationField: string := "type"

  /* ---------- flattening nested unions ---------- */

  /** The non-union leaves of a type, depth first and left to right. */
  function Leaves(t: TsType): seq<TsType>
    decreases t, 1
  {
    if t.UnionType? then LeavesAll(t.types) else [t]
  }

  function LeavesAll(ts: seq<TsType>): seq<TsType>
    decreases ts, 0
  {
    if ts == [] then [] else Leaves(ts[0]) + LeavesAll(ts[1..])
  }

  /** Flattening a concatenation flattens the two parts one after the other. */
  lemma {:induction false} LeavesAllAppend(a: seq<TsType>, b: seq<TsType>)
    ensures LeavesAll(a + b) == LeavesAll(a) + LeavesAll(b)
    decreases |a|
  {
    if a == [] {
      assert a + b == b;
    } else {
      assert (a + b)[0] == a[0] && (a + b)[1..] == a[1..] + b;
      LeavesAllAppend(a[1..], b);
    }
  }

  /** No leaf is itself a union, and a type that is not a union is its own only leaf. */
  lemma {:induction false} LeavesAreNotUnions(t: TsType)
    ensures forall i :: 0 <= i < |Leaves(t)| ==> !Leaves(t)[i].UnionType?
    ensures !t.UnionType? ==> Leaves(t) == [t]
    decreases t, 1
  {
    if t.UnionType? {
      LeavesAllAreNotUnions(t.types);
    }
  }

  lemma {:induction false} LeavesAllAreNotUnions(ts: seq<TsType>)
    ensures forall i :: 0 <= i < |LeavesAll(ts)| ==> !LeavesAll(ts)[i].UnionType?
    decreases ts, 0
  {
    if ts != [] {
      LeavesAreNotUnions(ts[0]);
      LeavesAllAreNotUnions(ts[1..]);
      var l := Leaves(ts[0]);
      var rest := LeavesAll(ts[1..]);
      var both: seq<TsType> := l + rest;
      forall i | 0 <= i < |both|
        ensures !both[i].UnionType?
      {
        if i < |l| {
          assert both[i] == l[i];
        } else {
          assert both[i] == rest[i - |l|];
        }
      }
    }
  }

  /** Flattening is idempotent: the leaves of the leaves are the leaves. */
  lemma {:induction false} LeavesIdempotent(t: TsType)
    ensures LeavesAll(Leaves(t)) == Leaves(t)
  {
    LeavesAreNotUnions(t);
    NonUnionsAreOwnLeaves(Leaves(t));
  }

  /** A sequence without unions flattens to itself. */
  lemma {:induction false} NonUnionsAreOwnLeaves(ts: seq<TsType>)
    requires forall i :: 0 <= i < |ts| ==> !ts[i].UnionType?
    ensures LeavesAll(ts) == ts
    decreases |ts|
  {
    if ts != [] {
      assert !ts[0].UnionType?;
      NonUnionsAreOwnLeaves(ts[1..]);
      assert [ts[0]] + ts[1..] == ts;
    }
  }

  /**
   * A union node directly inside a union is flattened, left to right, each
   * leaf once. Parentheses written in the text are a node of their own and
   * stop the flattening (`ParenthesizedUnionArmRejected`).
   */
  lemma NestedUnionFlattened(a: TsType, b: TsType, c: TsType, s1: Span, s2: Span)
    requires !a.UnionType? && !b.UnionType? && !c.UnionType?
    ensures Leaves(UnionType([a, UnionType([b, c], s1)], s2)) == [a, b, c]
  {
    var inner := UnionType([b, c], s1);
    assert [a, inner][1..] == [inner] && [inner][1..] == [] && [b, c][1..] == [c] && [c][1..] == [];
    assert Leaves(a) == [a] && Leaves(b) == [b] && Leaves(c) == [c];
    assert LeavesAll([c]) == [c] + [];
    assert LeavesAll([b, c]) == [b] + [c];
    assert LeavesAll([inner]) == [b, c] + [];
    assert LeavesAll([a, inner]) == [a] + [b, c];
  }

  /* ---------- one arm ---------- */

  /** What the walk over an arm's members has gathered so far. */
  datatype ArmState = ArmState(variantName: Option<string>, fields: seq<Ir.Field>)

  /**
   * One member of an arm: the `type` member must be required, must be the
   * first `type` member and must have a string-literal type, whose value
   * names the variant; any other member is appended as a field.
   */
  function ArmStep(st: ArmState, member: TsTypeElement): Result<ArmState, StructureError> {
    var prop :- ParseAsProp(member);
    if prop.name == UnionDiscriminationField then
      if prop.optional then Failure(At(member.span))
      else if st.variantName.Some? then Failure(At(member.span))
      else
        match prop.tsType
        case LitType(LitStr(value), _) => Success(st.(variantName := Some(value)))
        case other => Failure(At(other.span))
    else
      var ty :- ParseTypeExpr(prop.tsType);
      Success(st.(fields := st.fields + [Ir.Field(prop.name, ty, prop.optional)]))
  }

  function ArmRun(st: ArmState, ms: seq<TsTypeElement>): Result<ArmState, StructureError>
    decreases |ms|
  {
    if ms == [] then Success(st)
    else
      var next :- ArmStep(st, ms[0]);
      ArmRun(next, ms[1..])
  }

  /** The callback on one leaf: an object-literal type with a `type` member, as a struct. */
  function ParseArmSpec(t: TsType): Result<Ir.Struct, StructureError> {
    match t
    case TypeLit(members, span) =>
      var st :- ArmRun(ArmState(None, []), members);
      if st.variantName.None? then Failure(At(span))
      else Success(Ir.Struct(st.variantName.value, st.fields))
    case _ => Failure(At(t.span))
  }

  /** One step of `ArmRun`, stated so the loop below need not unfold it. */
  lemma ArmRunFirst(st: ArmState, ms: seq<TsTypeElement>)
    requires ms != []
    ensures ArmRun(st, ms) ==
      match ArmStep(st, ms[0])
      case Failure(e) => Failure(e)
      case Success(next) => ArmRun(next, ms[1..])
  {
  }

  /** The callback's loop over one arm's members. */
  method ParseArm(t: TsType) returns (r: Result<Ir.Struct, StructureError>)
    ensures r == ParseArmSpec(t)
  {
    if !t.TypeLit? {
      return Failure(At(t.span));
    }
    var variantName: Option<string> := None;
    var fields: seq<Ir.Field> := [];
    for i := 0 to |t.members|
      invariant ArmRun(ArmState(variantName, fields), t.members[i..]) == ArmRun(ArmState(None, []), t.members)
    {
      var member := t.members[i];
      ArmRunFirst(ArmState(variantName, fields), t.members[i..]);
      assert t.members[i..][0] == member && t.members[i..][1..] == t.members[i + 1..];
      var prop := ParseAsProp(member);
      if prop.Failure? {
        return Failure(prop.error);
      }
      var p := prop.value;
      if p.name == UnionDiscriminationField {
        if p.optional {
          return Failure(At(member.span));
        }
        if variantName.Some? {
          return Failure(At(member.span));
        }
        match p.tsType
        case LitType(LitStr(value), _) =>
          variantName := Some(value);
        case other =>
          return Failure(At(other.span));
      } else {
        var ty := ParseTypeExpr(p.tsType);
        if ty.Failure? {
          return Failure(ty.error);
        }
        fields := fields + [Ir.Field(p.name, ty.value, p.optional)];
      }
    }
    assert t.members[|t.members|..] == [];
    if variantName.None? {
      return Failure(At(t.span));
    }
    return Success(Ir.Struct(variantName.value, fields));
  }

  /* ---------- a reference definition of an arm ---------- */

  /** A member that reads as a property named `type`. */
  predicate IsTag(m: TsTypeElement) {
    ParseAsProp(m).Success? && m.key.sym == UnionDiscriminationField
  }

  /** A string-literal type. */
  predicate IsStrLitType(t: TsType) {
    t.LitType? && t.lit.LitStr?
  }

  /**
   * A member that is acceptable on its own: a plain property; if it is the
   * tag, required and of string-literal type, and otherwise of a type that
   * parses.
   */
  predicate MemberOk(m: TsTypeElement) {
    && ParseAsProp(m).Success?
    && (IsTag(m) ==> !m.optional && IsStrLitType(m.typeAnn.value))
    && (!IsTag(m) ==> ParseTypeExpr(m.typeAnn.value).Success?)
  }

  function TagCount(ms: seq<TsTypeElement>): nat {
    if ms == [] then 0 else (if IsTag(ms[0]) then 1 else 0) + TagCount(ms[1..])
  }

  /** Every member is acceptable on its own. */
  predicate AllOk(ms: seq<TsTypeElement>) {
    forall i :: 0 <= i < |ms| ==> MemberOk(ms[i])
  }

  lemma AllOkRest(ms: seq<TsTypeElement>)
    requires ms != [] && AllOk(ms)
    ensures MemberOk(ms[0]) && AllOk(ms[1..])
  {
    assert forall i :: 0 <= i < |ms[1..]| ==> ms[1..][i] == ms[i + 1];
  }

  /** The field a non-tag member contributes. */
  function FieldOf(m: TsTypeElement): Ir.Field
    requires MemberOk(m) && !IsTag(m)
  {
    Ir.Field(m.key.sym, ParseTypeExpr(m.typeAnn.value).value, m.optional)
  }

  /** The variant name a tag member carries. */
  function TagOf(m: TsTypeElement): string
    requires MemberOk(m) && IsTag(m)
  {
    m.typeAnn.value.lit.value
  }

  /** The value of the first tag member's literal, if there is one. */
  function TagValue(ms: seq<TsTypeElement>): Option<string>
    requires AllOk(ms)
    decreases |ms|
  {
    if ms == [] then None
    else
      AllOkRest(ms);
      if IsTag(ms[0]) then Some(TagOf(ms[0])) else TagValue(ms[1..])
  }

  /** The fields of the non-tag members, in order. */
  function NonTagFields(ms: seq<TsTypeElement>): seq<Ir.Field>
    requires AllOk(ms)
    decreases |ms|
  {
    if ms == [] then []
    else
      AllOkRest(ms);
      (if IsTag(ms[0]) then [] else [FieldOf(ms[0])]) + NonTagFields(ms[1..])
  }

  /**
   * One member: it is accepted exactly when it is acceptable on its own and
   * is not a second tag; the tag sets the name, any other member adds its field.
   */
  lemma ArmStepMeaning(st: ArmState, m: TsTypeElement)
    ensures ArmStep(st, m).Success? <==> MemberOk(m) && !(IsTag(m) && st.variantName.Some?)
    ensures ArmStep(st, m).Success? && IsTag(m) ==> ArmStep(st, m).value == ArmState(Some(TagOf(m)), st.fields)
    ensures ArmStep(st, m).Success? && !IsTag(m) ==> ArmStep(st, m).value == ArmState(st.variantName, st.fields + [FieldOf(m)])
  {
  }

  lemma AllOkCons(ms: seq<TsTypeElement>)
    requires ms != []
    ensures AllOk(ms) <==> MemberOk(ms[0]) && AllOk(ms[1..])
  {
    if MemberOk(ms[0]) && AllOk(ms[1..]) {
      forall i | 0 <= i < |ms|
        ensures MemberOk(ms[i])
      {
        if i > 0 {
          assert ms[i] == ms[1..][i - 1];
        }
      }
    }
    if AllOk(ms) {
      AllOkRest(ms);
    }
  }

  /**
   * Walking members from a state succeeds exactly when every member is
   * acceptable and the tag is not given twice, counting one already seen.
   */
  lemma {:induction false} ArmRunSucceedsIff(st: ArmState, ms: seq<TsTypeElement>)
    ensures ArmRun(st, ms).Success? <==>
      && AllOk(ms)
      && TagCount(ms) + (if st.variantName.Some? then 1 else 0) <= 1
    decreases |ms|
  {
    if ms != [] {
      ArmStepMeaning(st, ms[0]);
      ArmRunFirst(st, ms);
      AllOkCons(ms);
      var step := ArmStep(st, ms[0]);
      if step.Success? {
        ArmRunSucceedsIff(step.value, ms[1..]);
      }
    }
  }

  /**
   * A successful walk gathers the non-tag members' fields after the ones
   * already there, and keeps the name already seen or else takes the tag's.
   */
  lemma {:induction false} ArmRunValue(st: ArmState, ms: seq<TsTypeElement>)
    requires ArmRun(st, ms).Success? && AllOk(ms)
    ensures ArmRun(st, ms).value.fields == st.fields + NonTagFields(ms)
    ensures ArmRun(st, ms).value.variantName == (if st.variantName.Some? then st.variantName else TagValue(ms))
    decreases |ms|
  {
    if ms == [] {
      assert st.fields + [] == st.fields;
    } else {
      var m := ms[0];
      var rest := ms[1..];
      ArmStepMeaning(st, m);
      ArmRunFirst(st, ms);
      AllOkRest(ms);
      var next := ArmStep(st, m).value;
      ArmRunValue(next, rest);
      if IsTag(m) {
        assert NonTagFields(ms) == [] + NonTagFields(rest);
      } else {
        assert NonTagFields(ms) == [FieldOf(m)] + NonTagFields(rest);
        assert (st.fields + [FieldOf(m)]) + NonTagFields(rest) == st.fields + ([FieldOf(m)] + NonTagFields(rest));
      }
    }
  }

  /**
   * An arm parses exactly when it is an object-literal type whose members are
   * all acceptable and exactly one of which is the tag; the variant is named
   * by the tag's literal and has the other members' fields in order.
   */
  lemma ArmSucceedsIff(t: TsType)
    ensures ParseArmSpec(t).Success? <==>
      && t.TypeLit?
      && AllOk(t.members)
      && TagCount(t.members) == 1
    ensures ParseArmSpec(t).Success? ==>
      && TagValue(t.members) == Some(ParseArmSpec(t).value.name)
      && ParseArmSpec(t).value.fields == NonTagFields(t.members)
  {
    if t.TypeLit? {
      ArmRunSucceedsIff(ArmState(None, []), t.members);
      if AllOk(t.members) {
        if ArmRun(ArmState(None, []), t.members).Success? {
          ArmRunValue(ArmState(None, []), t.members);
        }
        TagValueIffTag(t.members);
      }
    }
  }

  /** There is a tag value exactly when some member is the tag. */
  lemma {:induction false} TagValueIffTag(ms: seq<TsTypeElement>)
    requires AllOk(ms)
    ensures TagValue(ms).Some? <==> TagCount(ms) > 0
    decreases |ms|
  {
    if ms != [] {
      assert forall i :: 0 <= i < |ms[1..]| ==> ms[1..][i] == ms[i + 1];
      TagValueIffTag(ms[1..]);
    }
  }

  /** An object-literal arm whose members are all acceptable but none is the tag fails at the arm. */
  lemma MissingTagRejected(members: seq<TsTypeElement>, span: Span)
    requires AllOk(members)
    requires TagCount(members) == 0
    ensures ParseArmSpec(TypeLit(members, span)) == Failure(At(span))
  {
    ArmRunSucceedsIff(ArmState(None, []), members);
    ArmRunValue(ArmState(None, []), members);
    TagValueIffTag(members);
  }

  /** A leaf that is not an object-literal type fails at its own span. */
  lemma NonObjectArmRejected(t: TsType)
    requires !t.TypeLit?
    ensures ParseArmSpec(t) == Failure(At(t.span))
  {
  }

  /**
   * `type T = A | (B | C)`: the traversal descends only into union nodes, so
   * the parenthesised arm reaches the arm parser whole and is rejected at
   * the parentheses, even when the arm before it is a valid variant.
   */
  lemma ParenthesizedUnionArmRejected(id: string, a: TsType, inner: TsType, s1: Span, s2: Span, s: Span)
    requires a.TypeLit? && ParseArmSpec(a).Success?
    ensures ParseUnionSpec(TsTypeAliasDecl(id, None, UnionType([a, ParenthesizedType(inner, s1)], s2), s))
            == Failure(At(s1))
  {
    var p := ParenthesizedType(inner, s1);
    assert [a, p][1..] == [p] && [p][1..] == [];
    assert Leaves(a) == [a] && Leaves(p) == [p];
    assert LeavesAll([p]) == [p] + [];
    assert LeavesAll([a, p]) == [a] + [p];
    assert [a] + [p] == [a, p];
    NonObjectArmRejected(p);
    CollectOne(a);
    CollectOne(p);
    CollectAppend([a], [p], ParseArmSpec);
  }

  /** `{ type?: 'a' }`: an optional tag fails at the member. */
  lemma OptionalTagRejected(key: Span, lit: Span, member: Span, span: Span)
    ensures ParseArmSpec(TypeLit([PropertySignature(IdentKey("type", key), false, true, [], None,
                                                     Some(LitType(LitStr("a"), lit)), member)], span))
            == Failure(At(member))
  {
  }

  /** `{ type: 'a', type: 'b' }`: a second tag fails at the second member. */
  lemma DuplicateTagRejected(k1: Span, k2: Span, l1: Span, l2: Span, m1: Span, m2: Span, span: Span)
    ensures ParseArmSpec(TypeLit([
        PropertySignature(IdentKey("type", k1), false, false, [], None, Some(LitType(LitStr("a"), l1)), m1),
        PropertySignature(IdentKey("type", k2), false, false, [], None, Some(LitType(LitStr("b"), l2)), m2)], span))
      == Failure(At(m2))
  {
    var first := PropertySignature(IdentKey("type", k1), false, false, [], None, Some(LitType(LitStr("a"), l1)), m1);
    var second := PropertySignature(IdentKey("type", k2), false, false, [], None, Some(LitType(LitStr("b"), l2)), m2);
    assert [first, second][1..] == [second];
    assert ArmStep(ArmState(None, []), first) == Success(ArmState(Some("a"), []));
    assert ArmStep(ArmState(Some("a"), []), second) == Failure(At(m2));
    assert ArmRun(ArmState(Some("a"), []), [second]) == Failure(At(m2));
  }

  /** `{ type: string }`: a tag whose type is not a string literal fails at that type. */
  lemma NonLiteralTagRejected(key: Span, ty: Span, member: Span, span: Span)
    ensures ParseArmSpec(TypeLit([PropertySignature(IdentKey("type", key), false, false, [], None,
                                                     Some(KeywordType(StringKeyword, ty)), member)], span))
            == Failure(At(ty))
  {
  }

  /* ---------- the walk over all arms ---------- */

  /** `variants` extended by the outcome of collecting more of them. */
  function Extend<B, E>(variants: seq<B>, more: Result<seq<B>, E>): Result<seq<B>, E> {
    match more
    case Success(vs) => Success(variants + vs)
    case Failure(e) => Failure(e)
  }

  /** Flattening one more child appends that child's leaves. */
  lemma LeavesAllSnoc(types: seq<TsType>, i: nat)
    requires i < |types|
    ensures LeavesAll(types[..i + 1]) == LeavesAll(types[..i]) + Leaves(types[i])
  {
    assert types[..i + 1] == types[..i] + [types[i]];
    LeavesAllAppend(types[..i], [types[i]]);
    assert [types[i]][1..] == [];
    assert LeavesAll([types[i]]) == Leaves(types[i]) + [];
  }

  /** Collecting a single leaf is parsing it as an arm. */
  lemma CollectOne(t: TsType)
    ensures Collect([t], ParseArmSpec) ==
      match ParseArmSpec(t)
      case Success(v) => Success([v])
      case Failure(e) => Failure(e)
  {
    var c := Collect([t], ParseArmSpec);
    assert [t][0] == t;
    if c.Success? {
      assert |c.value| == 1 && c.value[0] == ParseArmSpec(t).value;
      assert c.value == [ParseArmSpec(t).value];
    } else {
      var k :| FirstFailureAt([t], ParseArmSpec, c.error, k);
      assert k == 0;
    }
  }

  /** With `pre` collected, a failure on `mid` is the failure of all of `pre + mid + post`. */
  lemma CollectStageFailure<A, B, E>(pre: seq<A>, mid: seq<A>, post: seq<A>, f: A -> Result<B, E>)
    requires Collect(pre, f).Success? && Collect(mid, f).Failure?
    ensures Collect(pre + mid + post, f) == Failure(Collect(mid, f).error)
  {
    CollectAppend(pre, mid, f);
    CollectAppend(pre + mid, post, f);
  }

  /** With `pre` collected into `acc`, collecting `mid` as well extends `acc` to `pre + mid`. */
  lemma CollectStageSuccess<A, B, E>(pre: seq<A>, mid: seq<A>, f: A -> Result<B, E>, base: seq<B>, acc: seq<B>)
    requires Collect(pre, f).Success? && Collect(mid, f).Success?
    requires acc == base + Collect(pre, f).value
    ensures Collect(pre + mid, f).Success?
    ensures acc + Collect(mid, f).value == base + Collect(pre + mid, f).value
  {
    var done := Collect(pre, f).value;
    var more := Collect(mid, f).value;
    CollectAppendSuccess(pre, mid, f);
    AppendAssoc(base, done, more);
  }

  /** The children after index `i` contribute the rest of the leaves. */
  lemma LeavesAllSplit(types: seq<TsType>, i: nat)
    requires i <= |types|
    ensures LeavesAll(types) == LeavesAll(types[..i]) + LeavesAll(types[i..])
  {
    assert types == types[..i] + types[i..];
    LeavesAllAppend(types[..i], types[i..]);
  }

  /** What one child of the walk adds: its leaves' variants, or the error that ends the walk. */
  lemma TraverseStep<B, E>(types: seq<TsType>, i: nat, f: TsType -> Result<B, E>,
                           variants: seq<B>, acc: seq<B>, next: Result<seq<B>, E>)
    requires i < |types|
    requires Collect(LeavesAll(types[..i]), f).Success?
    requires acc == variants + Collect(LeavesAll(types[..i]), f).value
    requires next == Extend(acc, Collect(Leaves(types[i]), f))
    ensures next.Failure? ==> Collect(LeavesAll(types), f) == Failure(next.error)
    ensures next.Success? ==>
      && Collect(LeavesAll(types[..i + 1]), f).Success?
      && next.value == variants + Collect(LeavesAll(types[..i + 1]), f).value
  {
    var pre := LeavesAll(types[..i]);
    var mid := Leaves(types[i]);
    LeavesAllSnoc(types, i);
    if next.Failure? {
      LeavesAllSplit(types, i + 1);
      CollectStageFailure(pre, mid, LeavesAll(types[i + 1..]), f);
    } else {
      CollectStageSuccess(pre, mid, f, variants, acc);
    }
  }

  /**
   * `traverse_ts_union_variants` with the arm callback: each leaf, left to
   * right, is parsed as an arm and pushed onto `variants`, stopping at the
   * first error.
   */
  method TraverseVariants(t: TsType, variants: seq<Ir.Struct>) returns (r: Result<seq<Ir.Struct>, StructureError>)
    ensures r == Extend(variants, Collect(Leaves(t), ParseArmSpec))
    decreases t
  {
    if t.UnionType? {
      var types := t.types;
      var acc := variants;
      for i := 0 to |types|
        invariant Collect(LeavesAll(types[..i]), ParseArmSpec).Success?
        invariant acc == variants + Collect(LeavesAll(types[..i]), ParseArmSpec).value
      {
        var next := TraverseVariants(types[i], acc);
        TraverseStep(types, i, ParseArmSpec, variants, acc, next);
        if next.Failure? {
          return Failure(next.error);
        }
        acc := next.value;
      }
      assert types[..|types|] == types;
      return Success(acc);
    } else {
      var arm := ParseArm(t);
      if arm.Failure? {
        return Failure(arm.error);
      }
      CollectOne(t);
      return Success(variants + [arm.value]);
    }
  }

  /** `parse_union`, as a function of the declaration. */
  function ParseUnionSpec(d: TsTypeAliasDecl): Result<Ir.Union, StructureError> {
    if d.typeParams.Some? then Failure(At(d.typeParams.value))
    else
      var variants :- Collect(Leaves(d.typeAnn), ParseArmSpec);
      Success(Ir.Union(d.id, variants))
  }

  method ParseUnion(d: TsTypeAliasDecl) returns (r: Result<Ir.Union, StructureError>)
    ensures r == ParseUnionSpec(d)
  {
    if d.typeParams.Some? {
      return Failure(At(d.typeParams.value));
    }
    var variants := TraverseVariants(d.typeAnn, []);
    if variants.Failure? {
      return Failure(variants.error);
    }
    var c := Collect(Leaves(d.typeAnn), ParseArmSpec);
    assert c.Success? && variants.value == [] + c.value;
    assert [] + c.value == c.value;
    assert ParseUnionSpec(d) == Success(Ir.Union(d.id, c.value));
    return Success(Ir.Union(d.id, variants.value));
  }

  /* ---------- properties of the whole alias ---------- */

  /** Type parameters are rejected at their span. */
  lemma UnionTypeParamsRejected(d: TsTypeAliasDecl)
    requires d.typeParams.Some?
    ensures ParseUnionSpec(d) == Failure(At(d.typeParams.value))
  {
  }

  /** On success there is one variant per leaf, in order, each the leaf's arm. */
  lemma OneVariantPerLeaf(d: TsTypeAliasDecl)
    requires ParseUnionSpec(d).Success?
    ensures ParseUnionSpec(d).value.name == d.id
    ensures |ParseUnionSpec(d).value.variants| == |Leaves(d.typeAnn)|
    ensures forall i :: 0 <= i < |Leaves(d.typeAnn)| ==>
      && Leaves(d.typeAnn)[i].TypeLit?
      && ParseUnionSpec(d).value.variants[i] == ParseArmSpec(Leaves(d.typeAnn)[i]).value
  {
    var leaves := Leaves(d.typeAnn);
    forall i | 0 <= i < |leaves|
      ensures leaves[i].TypeLit?
    {
      assert ParseArmSpec(leaves[i]).Success?;
    }
  }

  /** A lone object-literal type gives a one-variant union. */
  lemma SingleArmUnion(d: TsTypeAliasDecl)
    requires d.typeParams.None? && d.typeAnn.TypeLit? && ParseArmSpec(d.typeAnn).Success?
    ensures ParseUnionSpec(d) == Success(Ir.Union(d.id, [ParseArmSpec(d.typeAnn).value]))
  {
    var c := Collect([d.typeAnn], ParseArmSpec);
    assert [d.typeAnn][0] == d.typeAnn;
    assert c.Success? && |c.value| == 1;
    assert c.value == [ParseArmSpec(d.typeAnn).value];
  }

  /** `type Foo = { type: 'a' }` is the union `Foo` with one empty variant `a`. */
  lemma SingleVariantExample(key: Span, lit: Span, member: Span, arm: Span, s: Span)
    ensures ParseUnionSpec(TsTypeAliasDecl("Foo", None,
              TypeLit([PropertySignature(IdentKey("type", key), false, false, [], None, Some(LitType(LitStr("a"), lit)), member)], arm), s))
            == Success(Ir.Union("Foo", [Ir.Struct("a", [])]))
  {
    var t := TypeLit([PropertySignature(IdentKey("type", key), false, false, [], None, Some(LitType(LitStr("a"), lit)), member)], arm);
    var m := PropertySignature(IdentKey("type", key), false, false, [], None, Some(LitType(LitStr("a"), lit)), member);
    assert ArmStep(ArmState(None, []), m) == Success(ArmState(Some("a"), []));
    assert [m][1..] == [];
    assert ArmRun(ArmState(None, []), [m]) == Success(ArmState(Some("a"), []));
    assert ParseArmSpec(t) == Success(Ir.Struct("a", []));
    SingleArmUnion(TsTypeAliasDecl("Foo", None, t, s));
  }
}
