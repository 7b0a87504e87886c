/**
 * Lowering an enum declaration to an IR enum
 * (crates/tser_parser_ts/src/type_decl/enm.rs).
 *
 * Each member is first read on its own (`ParseEnumMember`): a name and an
 * optional string or integer value. The first member fixes the kind of the
 * enum; every later member must fit that kind, and an integer member without
 * a value takes the previous value plus one.
 */
module EnumParser {
  import opened Wrappers
  import opened Syntax
  import opened StructureErrors
  import Ir

  /** The value of one member before the kind of the enum is known. */
  datatype AnyEnumValue = StringValue(s: string) | IntValue(i: int)

  /** A member's name: the text of a string-literal key or of an identifier. */
  function MemberName(id: EnumMemberId): string {
    match id
    case StrId(value) => value
    case IdentId(sym) => sym
  }

  /** A member whose initializer is a string literal. */
  predicate IsStrMember(m: TsEnumMember) {
    m.init.Some? && m.init.value.StrLit?
  }

  /** A member with no initializer or with an integral numeric literal. */
  predicate IsIntMember(m: TsEnumMember) {
    m.init.None? || (m.init.value.NumLit? && m.init.value.num.Integral?)
  }

  function ParseEnumMember(m: TsEnumMember): (r: Result<Ir.EnumValue<Option<AnyEnumValue>>, StructureError>)
    ensures r.Success? <==> IsStrMember(m) || IsIntMember(m)
    ensures r.Success? ==> r.value.name == MemberName(m.id)
    ensures r.Success? && m.init.None? ==> r.value.value == None
    ensures r.Success? && IsStrMember(m) ==> r.value.value == Some(StringValue(m.init.value.value))
    ensures r.Success? && m.init.Some? && m.init.value.NumLit? ==> r.value.value == Some(IntValue(m.init.value.num.i))
    ensures r.Failure? ==> r.error == At(m.init.value.span)
  {
    var name := MemberName(m.id);
    match m.init
    case None => Success(Ir.EnumValue(name, None))
    case Some(expr) =>
      match expr
      case StrLit(value, _) => Success(Ir.EnumValue(name, Some(StringValue(value))))
      case NumLit(num, span) =>
        (match num
         case Integral(i) => Success(Ir.EnumValue(name, Some(IntValue(i))))
         case NonIntegral => Failure(At(span)))
      case OtherExpr(span) => Failure(At(span))
  }

  /** An integer kind always holds at least one case, so "the previous value" exists. */
  predicate HasLast(kind: Ir.EnumKind) {
    kind.Integers? ==> |kind.integers| > 0
  }

  /** The kind the first member fixes, holding that member as its only case. */
  function FirstKind(v: Ir.EnumValue<Option<AnyEnumValue>>): (r: Ir.EnumKind)
    ensures HasLast(r)
    ensures r.Strings? <==> v.value.Some? && v.value.value.StringValue?
  {
    match v.value
    case Some(StringValue(s)) => Ir.Strings([Ir.EnumValue(v.name, s)])
    case Some(IntValue(i)) => Ir.Integers([Ir.EnumValue(v.name, i)])
    case None => Ir.Integers([Ir.EnumValue(v.name, 0)])
  }

  /** The names of an enum's cases, in order, whatever its kind. */
  function Names(kind: Ir.EnumKind): seq<string> {
    match kind
    case Strings(cases) => seq(|cases|, i requires 0 <= i < |cases| => cases[i].name)
    case Integers(cases) => seq(|cases|, i requires 0 <= i < |cases| => cases[i].name)
  }

  /**
   * Adding one later member to the kind: a value of the enum's own kind is
   * appended, a missing value in an integer enum is the last value plus one,
   * and anything else is an error at the member's span.
   */
  function Step(kind: Ir.EnumKind, v: Ir.EnumValue<Option<AnyEnumValue>>, span: Span): (r: Result<Ir.EnumKind, StructureError>)
    requires HasLast(kind)
    ensures r.Success? ==> HasLast(r.value) && r.value.Strings? == kind.Strings?
    ensures r.Success? ==> Names(r.value) == Names(kind) + [v.name]
    ensures r.Failure? ==> r.error == At(span)
  {
    match (v.value, kind)
    case (Some(IntValue(i)), Integers(cases)) => Success(Ir.Integers(cases + [Ir.EnumValue(v.name, i)]))
    case (None, Integers(cases)) => Success(Ir.Integers(cases + [Ir.EnumValue(v.name, cases[|cases| - 1].value + 1)]))
    case (Some(StringValue(s)), Strings(cases)) => Success(Ir.Strings(cases + [Ir.EnumValue(v.name, s)]))
    case _ => Failure(At(span))
  }

  /** Reading the remaining members one after the other, stopping at the first error. */
  function PushMembers(kind: Ir.EnumKind, ms: seq<TsEnumMember>): Result<Ir.EnumKind, StructureError>
    requires HasLast(kind)
    decreases |ms|
  {
    if ms == [] then Success(kind)
    else
      var v :- ParseEnumMember(ms[0]);
      var next :- Step(kind, v, ms[0].span);
      PushMembers(next, ms[1..])
  }

  /** `parse_enum`, as a function of the declaration. */
  function ParseEnumSpec(d: TsEnumDecl): Result<Ir.Enum, StructureError> {
    if |d.members| == 0 then Failure(At(d.span))
    else
      var first :- ParseEnumMember(d.members[0]);
      var kind :- PushMembers(FirstKind(first), d.members[1..]);
      Success(Ir.Enum(d.id, kind))
  }

  /**
   * `parse_enum`: the first member fixes the kind, then a loop pushes each
   * later member onto the case list in place.
   */
  method ParseEnum(d: TsEnumDecl) returns (r: Result<Ir.Enum, StructureError>)
    ensures r == ParseEnumSpec(d)
  {
    if |d.members| == 0 {
      return Failure(At(d.span));
    }
    var first := ParseEnumMember(d.members[0]);
    if first.Failure? {
      return Failure(first.error);
    }
    var kind := FirstKind(first.value);
    for i := 1 to |d.members|
      invariant HasLast(kind)
      invariant PushMembers(kind, d.members[i..]) == PushMembers(FirstKind(first.value), d.members[1..])
    {
      var member := d.members[i];
      ghost var rest := d.members[i..];
      assert rest[0] == member && rest[1..] == d.members[i + 1..];
      var v := ParseEnumMember(member);
      if v.Failure? {
        PushReadFails(kind, rest);
        return Failure(v.error);
      }
      var next := Step(kind, v.value, member.span);
      if next.Failure? {
        PushStepFails(kind, rest);
        return Failure(next.error);
      }
      PushAfterStep(kind, rest, next.value);
      kind := next.value;
    }
    assert d.members[|d.members|..] == [];
    return Success(Ir.Enum(d.id, kind));
  }

  /** A member that cannot be read stops the push with its own error. */
  lemma PushReadFails(kind: Ir.EnumKind, ms: seq<TsEnumMember>)
    requires HasLast(kind) && ms != [] && ParseEnumMember(ms[0]).Failure?
    ensures PushMembers(kind, ms) == Failure(ParseEnumMember(ms[0]).error)
  {
  }

  /** A member of the other kind stops the push at its span. */
  lemma PushStepFails(kind: Ir.EnumKind, ms: seq<TsEnumMember>)
    requires HasLast(kind) && ms != [] && ParseEnumMember(ms[0]).Success?
    requires Step(kind, ParseEnumMember(ms[0]).value, ms[0].span).Failure?
    ensures PushMembers(kind, ms) == Failure(At(ms[0].span))
  {
  }

  /** After a successful step the push goes on with the rest. */
  lemma PushAfterStep(kind: Ir.EnumKind, ms: seq<TsEnumMember>, next: Ir.EnumKind)
    requires HasLast(kind) && ms != [] && ParseEnumMember(ms[0]).Success?
    requires Step(kind, ParseEnumMember(ms[0]).value, ms[0].span) == Success(next)
    ensures HasLast(next)
    ensures PushMembers(kind, ms) == PushMembers(next, ms[1..])
  {
  }

  /* ---------- properties ---------- */

  /** An enum without members is an error at the enum's span. */
  lemma EmptyEnumRejected(d: TsEnumDecl)
    requires d.members == []
    ensures ParseEnumSpec(d) == Failure(At(d.span))
  {
  }

  /** The explicit integer of an integer member, or `implicit` when it has no initializer. */
  function ExplicitOr(m: TsEnumMember, implicit: int): int
    requires IsIntMember(m)
  {
    if m.init.None? then implicit else m.init.value.num.i
  }

  /** Each of `ms`, placed after position `start` of `out`, has its explicit value or the previous value plus one. */
  predicate IntegersFollow(out: seq<Ir.EnumValue<int>>, start: nat, ms: seq<TsEnumMember>)
    requires 0 < start && start + |ms| <= |out|
  {
    forall j :: 0 <= j < |ms| ==>
      IsIntMember(ms[j]) &&
      out[start + j] == Ir.EnumValue(MemberName(ms[j].id), ExplicitOr(ms[j], out[start + j - 1].value + 1))
  }

  lemma IntegersFollowCons(out: seq<Ir.EnumValue<int>>, start: nat, ms: seq<TsEnumMember>)
    requires 0 < start && start + |ms| <= |out| && ms != []
    requires IsIntMember(ms[0])
    requires out[start] == Ir.EnumValue(MemberName(ms[0].id), ExplicitOr(ms[0], out[start - 1].value + 1))
    requires IntegersFollow(out, start + 1, ms[1..])
    ensures IntegersFollow(out, start, ms)
  {
    forall j | 0 <= j < |ms|
      ensures IsIntMember(ms[j]) &&
        out[start + j] == Ir.EnumValue(MemberName(ms[j].id), ExplicitOr(ms[j], out[start + j - 1].value + 1))
    {
      if j > 0 {
        assert ms[1..][j - 1] == ms[j];
      }
    }
  }

  /** Pushing onto an integer enum succeeds exactly when every member is an integer member. */
  lemma {:induction false} PushIntegersSucceeds(cases: seq<Ir.EnumValue<int>>, ms: seq<TsEnumMember>)
    requires |cases| > 0
    ensures PushMembers(Ir.Integers(cases), ms).Success? <==> forall i :: 0 <= i < |ms| ==> IsIntMember(ms[i])
    decreases |ms|
  {
    if ms != [] {
      var m := ms[0];
      if IsIntMember(m) {
        var c := Ir.EnumValue(MemberName(m.id), ExplicitOr(m, cases[|cases| - 1].value + 1));
        assert Step(Ir.Integers(cases), ParseEnumMember(m).value, m.span) == Success(Ir.Integers(cases + [c]));
        PushAfterStep(Ir.Integers(cases), ms, Ir.Integers(cases + [c]));
        PushIntegersSucceeds(cases + [c], ms[1..]);
        if !PushMembers(Ir.Integers(cases), ms).Success? {
          var i :| 0 <= i < |ms[1..]| && !IsIntMember(ms[1..][i]);
          assert !IsIntMember(ms[i + 1]);
        }
      } else {
        assert PushMembers(Ir.Integers(cases), ms).Failure?;
      }
    }
  }

  /** A successful push keeps the cases in front and adds one case per member. */
  lemma {:induction false} PushIntegersCases(cases: seq<Ir.EnumValue<int>>, ms: seq<TsEnumMember>)
    requires |cases| > 0 && PushMembers(Ir.Integers(cases), ms).Success?
    ensures PushMembers(Ir.Integers(cases), ms).value.Integers?
    ensures |PushMembers(Ir.Integers(cases), ms).value.integers| == |cases| + |ms|
    ensures PushMembers(Ir.Integers(cases), ms).value.integers[..|cases|] == cases
    ensures IntegersFollow(PushMembers(Ir.Integers(cases), ms).value.integers, |cases|, ms)
    decreases |ms|
  {
    if ms != [] {
      var m := ms[0];
      var v := ParseEnumMember(m).value;
      var c := Ir.EnumValue(MemberName(m.id), ExplicitOr(m, cases[|cases| - 1].value + 1));
      assert IsIntMember(m);
      assert Step(Ir.Integers(cases), v, m.span) == Success(Ir.Integers(cases + [c]));
      PushAfterStep(Ir.Integers(cases), ms, Ir.Integers(cases + [c]));
      PushIntegersCases(cases + [c], ms[1..]);
      var out := PushMembers(Ir.Integers(cases), ms).value.integers;
      assert out[..|cases| + 1] == cases + [c];
      assert out[..|cases|] == (out[..|cases| + 1])[..|cases|];
      assert out[|cases|] == (out[..|cases| + 1])[|cases|];
      assert out[|cases| - 1] == (out[..|cases| + 1])[|cases| - 1];
      IntegersFollowCons(out, |cases|, ms);
    }
  }

  /**
   * Pushing members onto an integer enum succeeds exactly when every member is
   * an integer member; the existing cases stay in front and each member adds
   * one case: its explicit value, or the value before it plus one.
   */
  lemma PushIntegers(cases: seq<Ir.EnumValue<int>>, ms: seq<TsEnumMember>)
    requires |cases| > 0
    ensures PushMembers(Ir.Integers(cases), ms).Success? <==> forall i :: 0 <= i < |ms| ==> IsIntMember(ms[i])
    ensures PushMembers(Ir.Integers(cases), ms).Success? ==>
      var out := PushMembers(Ir.Integers(cases), ms).value;
      && out.Integers?
      && |out.integers| == |cases| + |ms|
      && out.integers[..|cases|] == cases
      && forall j :: 0 <= j < |ms| ==>
           out.integers[|cases| + j] ==
             Ir.EnumValue(MemberName(ms[j].id), ExplicitOr(ms[j], out.integers[|cases| + j - 1].value + 1))
  {
    PushIntegersSucceeds(cases, ms);
    if PushMembers(Ir.Integers(cases), ms).Success? {
      PushIntegersCases(cases, ms);
    }
  }

  /** The string counterpart of `PushIntegers`: every member must carry a string literal. */
  lemma {:induction false} PushStrings(cases: seq<Ir.EnumValue<string>>, ms: seq<TsEnumMember>)
    ensures PushMembers(Ir.Strings(cases), ms).Success? <==> forall i :: 0 <= i < |ms| ==> IsStrMember(ms[i])
    ensures PushMembers(Ir.Strings(cases), ms).Success? ==>
      var out := PushMembers(Ir.Strings(cases), ms).value;
      && out.Strings?
      && |out.strings| == |cases| + |ms|
      && out.strings[..|cases|] == cases
      && forall j :: 0 <= j < |ms| ==>
           out.strings[|cases| + j] == Ir.EnumValue(MemberName(ms[j].id), ms[j].init.value.value)
    decreases |ms|
  {
    if ms != [] {
      var m := ms[0];
      if IsStrMember(m) {
        var c := Ir.EnumValue(MemberName(m.id), m.init.value.value);
        assert Step(Ir.Strings(cases), ParseEnumMember(m).value, m.span) == Success(Ir.Strings(cases + [c]));
        PushStrings(cases + [c], ms[1..]);
        if PushMembers(Ir.Strings(cases), ms).Success? {
          var out := PushMembers(Ir.Strings(cases), ms).value;
          assert out == PushMembers(Ir.Strings(cases + [c]), ms[1..]).value;
          assert out.strings[..|cases|] == (out.strings[..|cases| + 1])[..|cases|];
          forall j | 0 <= j < |ms|
            ensures out.strings[|cases| + j] == Ir.EnumValue(MemberName(ms[j].id), ms[j].init.value.value)
          {
            if j == 0 {
              assert out.strings[|cases|] == (out.strings[..|cases| + 1])[|cases|];
            } else {
              assert ms[1..][j - 1] == ms[j];
              assert |cases + [c]| + (j - 1) == |cases| + j;
            }
          }
        } else {
          var i :| 0 <= i < |ms[1..]| && !IsStrMember(ms[1..][i]);
          assert !IsStrMember(ms[i + 1]);
        }
      } else {
        assert PushMembers(Ir.Strings(cases), ms).Failure?;
      }
    }
  }

  /**
   * An enum parses exactly when it has members and they are either all string
   * members or all integer members (no initializer, or an integral number).
   */
  lemma EnumSucceedsIff(d: TsEnumDecl)
    ensures ParseEnumSpec(d).Success? <==>
      && |d.members| > 0
      && ((forall i :: 0 <= i < |d.members| ==> IsStrMember(d.members[i]))
          || (forall i :: 0 <= i < |d.members| ==> IsIntMember(d.members[i])))
  {
    if |d.members| > 0 {
      var ms := d.members;
      var m := ms[0];
      var rest := ms[1..];
      assert forall i :: 0 <= i < |rest| ==> rest[i] == ms[i + 1];
      if IsStrMember(m) {
        PushStrings([Ir.EnumValue(MemberName(m.id), m.init.value.value)], rest);
        assert !IsIntMember(m);
      } else if IsIntMember(m) {
        PushIntegers([Ir.EnumValue(MemberName(m.id), ExplicitOr(m, 0))], rest);
        assert !IsStrMember(m);
      }
    }
  }

  /**
   * A string enum: every member carries a string literal, and there is one
   * case per member, in order, named after the member and holding its literal.
   */
  lemma StringValues(d: TsEnumDecl)
    requires ParseEnumSpec(d).Success? && ParseEnumSpec(d).value.kind.Strings?
    ensures ParseEnumSpec(d).value.name == d.id
    ensures |ParseEnumSpec(d).value.kind.strings| == |d.members|
    ensures forall i :: 0 <= i < |d.members| ==>
      && IsStrMember(d.members[i])
      && ParseEnumSpec(d).value.kind.strings[i] == Ir.EnumValue(MemberName(d.members[i].id), d.members[i].init.value.value)
  {
    var ms := d.members;
    var m := ms[0];
    if !IsStrMember(m) {
      PushIntegers([Ir.EnumValue(MemberName(m.id), ExplicitOr(m, 0))], ms[1..]);
      assert false;
    }
    var first := [Ir.EnumValue(MemberName(m.id), m.init.value.value)];
    PushStrings(first, ms[1..]);
    var out := ParseEnumSpec(d).value.kind.strings;
    forall i | 0 <= i < |ms|
      ensures IsStrMember(ms[i]) && out[i] == Ir.EnumValue(MemberName(ms[i].id), ms[i].init.value.value)
    {
      if i == 0 {
        assert out[0] == out[..1][0];
      } else {
        assert ms[1..][i - 1] == ms[i];
      }
    }
  }

  /**
   * An integer enum: every member is an integer member, and there is one case
   * per member, in order; a member's value is its explicit integer, or else 0
   * for the first member and the previous value plus one for the others.
   */
  lemma IntegerValues(d: TsEnumDecl)
    requires ParseEnumSpec(d).Success? && ParseEnumSpec(d).value.kind.Integers?
    ensures ParseEnumSpec(d).value.name == d.id
    ensures |ParseEnumSpec(d).value.kind.integers| == |d.members|
    ensures forall i :: 0 <= i < |d.members| ==> IsIntMember(d.members[i])
    ensures forall i :: 0 <= i < |d.members| ==>
      var cases := ParseEnumSpec(d).value.kind.integers;
      cases[i] == Ir.EnumValue(MemberName(d.members[i].id),
                                  ExplicitOr(d.members[i], if i == 0 then 0 else cases[i - 1].value + 1))
  {
    var ms := d.members;
    var m := ms[0];
    if IsStrMember(m) {
      PushStrings([Ir.EnumValue(MemberName(m.id), m.init.value.value)], ms[1..]);
      assert false;
    }
    var first := [Ir.EnumValue(MemberName(m.id), ExplicitOr(m, 0))];
    PushIntegers(first, ms[1..]);
    var out := ParseEnumSpec(d).value.kind.integers;
    forall i | 0 <= i < |ms|
      ensures IsIntMember(ms[i])
      ensures out[i] == Ir.EnumValue(MemberName(ms[i].id), ExplicitOr(ms[i], if i == 0 then 0 else out[i - 1].value + 1))
    {
      if i == 0 {
        assert out[0] == out[..1][0];
      } else {
        assert ms[1..][i - 1] == ms[i];
      }
    }
  }

  /** The first member fixes the kind: a string enum exactly when it carries a string literal. */
  lemma FirstMemberFixesKind(d: TsEnumDecl)
    requires ParseEnumSpec(d).Success?
    ensures ParseEnumSpec(d).value.kind.Strings? <==> IsStrMember(d.members[0])
  {
    if ParseEnumSpec(d).value.kind.Strings? {
      StringValues(d);
    } else {
      IntegerValues(d);
      assert IsIntMember(d.members[0]);
    }
  }

  /** On success there is exactly one case per member, named after it, in source order. */
  lemma OneCasePerMember(d: TsEnumDecl)
    requires ParseEnumSpec(d).Success?
    ensures |Names(ParseEnumSpec(d).value.kind)| == |d.members|
    ensures forall i :: 0 <= i < |d.members| ==> Names(ParseEnumSpec(d).value.kind)[i] == MemberName(d.members[i].id)
  {
    var kind := ParseEnumSpec(d).value.kind;
    if kind.Strings? {
      StringValues(d);
      assert |Names(kind)| == |kind.strings| == |d.members|;
      forall i | 0 <= i < |d.members|
        ensures Names(kind)[i] == MemberName(d.members[i].id)
      {
        assert kind.strings[i].name == MemberName(d.members[i].id);
        assert Names(kind)[i] == kind.strings[i].name;
      }
    } else {
      IntegerValues(d);
      assert |Names(kind)| == |kind.integers| == |d.members|;
      forall i | 0 <= i < |d.members|
        ensures Names(kind)[i] == MemberName(d.members[i].id)
      {
        assert kind.integers[i] == Ir.EnumValue(MemberName(d.members[i].id),
          ExplicitOr(d.members[i], if i == 0 then 0 else kind.integers[i - 1].value + 1));
        assert Names(kind)[i] == kind.integers[i].name;
      }
    }
  }

  /**
   * The first member that does not fit the kind fixed by the first member
   * decides the error: the span of its initializer when the member itself
   * cannot be read, the member's own span when it can but is of the other kind.
   */
  lemma {:induction false} PushFailsAtFirstMisfit(kind: Ir.EnumKind, ms: seq<TsEnumMember>, k: nat)
    requires HasLast(kind)
    requires k < |ms|
    requires forall i :: 0 <= i < k ==> if kind.Strings? then IsStrMember(ms[i]) else IsIntMember(ms[i])
    requires if kind.Strings? then !IsStrMember(ms[k]) else !IsIntMember(ms[k])
    ensures PushMembers(kind, ms) ==
      if ParseEnumMember(ms[k]).Failure? then Failure(ParseEnumMember(ms[k]).error) else Failure(At(ms[k].span))
    decreases k
  {
    if k > 0 {
      var next := Step(kind, ParseEnumMember(ms[0]).value, ms[0].span);
      assert next.Success?;
      forall i | 0 <= i < k - 1
        ensures if next.value.Strings? then IsStrMember(ms[1..][i]) else IsIntMember(ms[1..][i])
      {
        assert ms[1..][i] == ms[i + 1];
      }
      PushFailsAtFirstMisfit(next.value, ms[1..], k - 1);
    }
  }

  /** The enum-level form of `PushFailsAtFirstMisfit`; member 0 can only fail to be read. */
  lemma FirstMisfitError(d: TsEnumDecl, k: nat)
    requires k < |d.members|
    requires forall i :: 0 <= i < k ==>
      if IsStrMember(d.members[0]) then IsStrMember(d.members[i]) else IsIntMember(d.members[i])
    requires if IsStrMember(d.members[0]) then !IsStrMember(d.members[k]) else !IsIntMember(d.members[k])
    ensures ParseEnumSpec(d) ==
      if ParseEnumMember(d.members[k]).Failure? then Failure(ParseEnumMember(d.members[k]).error)
      else Failure(At(d.members[k].span))
  {
    var ms := d.members;
    if k > 0 {
      var kind := FirstKind(ParseEnumMember(ms[0]).value);
      forall i | 0 <= i < k - 1
        ensures if kind.Strings? then IsStrMember(ms[1..][i]) else IsIntMember(ms[1..][i])
      {
        assert ms[1..][i] == ms[i + 1];
      }
      assert ms[1..][k - 1] == ms[k];
      PushFailsAtFirstMisfit(kind, ms[1..], k - 1);
    }
  }

  /** `enum Foo { X = 4, Y = 2, Z }`: explicit values are kept unordered, and `Z` follows `Y`. */
  lemma UnorderedIntegers(s: Span, s1: Span, s2: Span, s3: Span, n1: Span, n2: Span)
    ensures ParseEnumSpec(TsEnumDecl("Foo", [
        TsEnumMember(IdentId("X"), Some(NumLit(Integral(4), n1)), s1),
        TsEnumMember(IdentId("Y"), Some(NumLit(Integral(2), n2)), s2),
        TsEnumMember(IdentId("Z"), None, s3)], s))
      == Success(Ir.Enum("Foo", Ir.Integers([Ir.EnumValue("X", 4), Ir.EnumValue("Y", 2), Ir.EnumValue("Z", 3)])))
  {
    var x := TsEnumMember(IdentId("X"), Some(NumLit(Integral(4), n1)), s1);
    var y := TsEnumMember(IdentId("Y"), Some(NumLit(Integral(2), n2)), s2);
    var z := TsEnumMember(IdentId("Z"), None, s3);
    var ms := [x, y, z];
    assert ms[1..] == [y, z] && [y, z][1..] == [z] && [z][1..] == [];
    var k1 := Ir.Integers([Ir.EnumValue("X", 4)]);
    var k2 := Ir.Integers([Ir.EnumValue("X", 4), Ir.EnumValue("Y", 2)]);
    var k3 := Ir.Integers([Ir.EnumValue("X", 4), Ir.EnumValue("Y", 2), Ir.EnumValue("Z", 3)]);
    assert ParseEnumMember(z) == Success(Ir.EnumValue("Z", None));
    assert ParseEnumMember(y) == Success(Ir.EnumValue("Y", Some(IntValue(2))));
    assert k2.integers + [Ir.EnumValue("Z", 3)] == k3.integers;
    assert k1.integers + [Ir.EnumValue("Y", 2)] == k2.integers;
    assert Step(k2, ParseEnumMember(z).value, s3) == Success(k3);
    assert PushMembers(k2, [z]) == Success(k3);
    assert Step(k1, ParseEnumMember(y).value, s2) == Success(k2);
    assert PushMembers(k1, [y, z]) == Success(k3);
  }

  /** `enum Foo { X = 0, Y = 'Y' }` mixes kinds and fails at `Y`. */
  lemma MixedKindsRejected(s: Span, s1: Span, s2: Span, n1: Span, n2: Span)
    ensures ParseEnumSpec(TsEnumDecl("Foo", [
        TsEnumMember(IdentId("X"), Some(NumLit(Integral(0), n1)), s1),
        TsEnumMember(IdentId("Y"), Some(StrLit("Y", n2)), s2)], s))
      == Failure(At(s2))
  {
    var ms := [TsEnumMember(IdentId("X"), Some(NumLit(Integral(0), n1)), s1),
               TsEnumMember(IdentId("Y"), Some(StrLit("Y", n2)), s2)];
    assert ms[1..] == [ms[1]];
  }
}
