/**
 * The top level of the declaration parser (crates/tser_parser_ts/src/lib.rs):
 * walking a module's items, turning a byte offset into a line and column,
 * and composing the error message `parse_file` reports.
 */
module TsParser {
  import opened Wrappers
  import opened Syntax
  import opened StructureErrors
  import opened TypeDeclParser
  import opened Numerals
  import Ir

  // ---------------------------------------------------------------------
  // Module walk
  // ---------------------------------------------------------------------

  /**
   * An exported declaration or a bare declaration statement is parsed as a
   * type declaration; any other item (imports, default exports, expression
   * statements, ...) is an error at its span.
   */
  function ParseModuleItem(item: ModuleItem): (r: Result<Ir.Item, StructureError>)
    ensures item.OtherItem? ==> r == Failure(At(item.span))
    ensures !item.OtherItem? ==>
      && (r.Success? <==> ParseTypeDecl(item.decl).Success?)
      && (r.Success? ==> r.value == Ir.TypeDeclItem(ParseTypeDecl(item.decl).value))
      && (r.Failure? ==> r.error == ParseTypeDecl(item.decl).error)
  {
    match item
    case ExportDecl(decl, _) =>
      var d :- ParseTypeDecl(decl);
      Success(Ir.TypeDeclItem(d))
    case StmtDecl(decl) =>
      var d :- ParseTypeDecl(decl);
      Success(Ir.TypeDeclItem(d))
    case OtherItem(span) => Failure(At(span))
  }

  function ParseModule(m: Module): (r: Result<Ir.File, StructureError>) {
    var items :- Collect(m.body, ParseModuleItem);
    Success(Ir.File(items))
  }

  /**
   * On success the file has exactly one type-declaration item per module
   * item, in order, each the parse of that item's declaration.
   */
  lemma ModuleItems(m: Module)
    requires ParseModule(m).Success?
    ensures |ParseModule(m).value.items| == |m.body|
    ensures forall i :: 0 <= i < |m.body| ==>
      && !m.body[i].OtherItem?
      && ParseTypeDecl(m.body[i].decl).Success?
      && ParseModule(m).value.items[i] == Ir.TypeDeclItem(ParseTypeDecl(m.body[i].decl).value)
  {
    var items := Collect(m.body, ParseModuleItem).value;
    forall i | 0 <= i < |m.body|
      ensures !m.body[i].OtherItem? && ParseTypeDecl(m.body[i].decl).Success?
      ensures items[i] == Ir.TypeDeclItem(ParseTypeDecl(m.body[i].decl).value)
    {
      assert ParseModuleItem(m.body[i]).Success?;
    }
  }

  /** The module parses exactly when every item is a declaration that parses. */
  lemma ModuleSucceedsIff(m: Module)
    ensures ParseModule(m).Success? <==>
      forall i :: 0 <= i < |m.body| ==>
        !m.body[i].OtherItem? && ParseTypeDecl(m.body[i].decl).Success?
  {
    if !ParseModule(m).Success? {
      var i :| 0 <= i < |m.body| && ParseModuleItem(m.body[i]).Failure?;
      assert !(!m.body[i].OtherItem? && ParseTypeDecl(m.body[i].decl).Success?);
    }
  }

  /** A failing module reports the error of its first failing item. */
  lemma FirstFailingItem(m: Module, k: nat)
    requires k < |m.body| && ParseModuleItem(m.body[k]).Failure?
    requires forall i :: 0 <= i < k ==> ParseModuleItem(m.body[i]).Success?
    ensures ParseModule(m) == Failure(ParseModuleItem(m.body[k]).error)
  {
    var e := Collect(m.body, ParseModuleItem).error;
    var j :| FirstFailureAt(m.body, ParseModuleItem, e, j);
    assert j == k;
  }

  // ---------------------------------------------------------------------
  // Line and column of a byte offset
  // ---------------------------------------------------------------------

  /** The number of bytes of a character in UTF-8. */
  function Utf8Len(c: char): (n: nat)
    ensures 1 <= n <= 4
    ensures n == 1 <==> c as int < 0x80
  {
    if c as int < 0x80 then 1
    else if c as int < 0x800 then 2
    else if c as int < 0x1_0000 then 3
    else 4
  }

  /** `str::len`: the UTF-8 byte length. */
  function ByteLen(s: string): (n: nat)
    ensures n >= |s|
  {
    if s == [] then 0 else Utf8Len(s[0]) + ByteLen(s[1..])
  }

  /** The index of the first `'\n'`, or the length when there is none. */
  function NewlineIndex(s: string): (k: nat)
    ensures k <= |s|
    ensures k < |s| ==> s[k] == '\n'
    ensures forall j :: 0 <= j < k ==> s[j] != '\n'
  {
    if s == [] || s[0] == '\n' then 0 else 1 + NewlineIndex(s[1..])
  }

  /** A line ended by `"\r\n"` loses the `'\r'` as well. */
  function StripCr(line: string): (r: string)
    ensures r == line || (line == r + ['\r'])
  {
    if |line| > 0 && line[|line| - 1] == '\r' then line[..|line| - 1] else line
  }

  /**
   * `str::lines`: the text split after each `'\n'`, each piece without its
   * line terminator; a final piece without a `'\n'` keeps any `'\r'`, and an
   * empty remainder after the last `'\n'` is not a line.
   */
  function Lines(s: string): (ls: seq<string>)
    ensures s == [] <==> ls == []
    ensures forall i :: 0 <= i < |ls| ==> '\n' !in ls[i]
    decreases |s|
  {
    if s == [] then []
    else
      var k := NewlineIndex(s);
      if k == |s| then [s]
      else [StripCr(s[..k])] + Lines(s[k + 1..])
  }

  function LineLengths(source: string): (lens: seq<nat>)
    ensures |lens| == |Lines(source)|
    ensures forall i :: 0 <= i < |lens| ==> lens[i] == ByteLen(Lines(source)[i])
  {
    var ls := Lines(source);
    seq(|ls|, i requires 0 <= i < |ls| => ByteLen(ls[i]))
  }

  function Sum(xs: seq<nat>): nat {
    if xs == [] then 0 else xs[0] + Sum(xs[1..])
  }

  datatype SourcePos = SourcePos(line: nat, col: nat)

  /**
   * The position the line walk reaches from offset `col`: a line is passed
   * while the remaining offset is strictly greater than its length.
   */
  function Locate(lens: seq<nat>, col: nat): SourcePos {
    if lens == [] || col <= lens[0] then SourcePos(0, col)
    else
      var p := Locate(lens[1..], col - lens[0]);
      SourcePos(p.line + 1, p.col)
  }

  function SourcePosOf(source: string, lo: nat): SourcePos {
    Locate(LineLengths(source), lo)
  }

  /**
   * What the walk's answer means: the column plus the lengths of the lines
   * before it give back the offset, a line is only passed with a positive
   * column left over, and the column does not exceed the length of the line
   * it stops on. Line terminators are not counted in any length.
   */
  predicate IsPosition(lens: seq<nat>, lo: nat, p: SourcePos) {
    && p.line <= |lens|
    && p.col + Sum(lens[..p.line]) == lo
    && (p.line > 0 ==> p.col > 0)
    && (p.line < |lens| ==> p.col <= lens[p.line])
  }

  lemma SumPrefixCons(lens: seq<nat>, n: nat)
    requires 1 <= n <= |lens|
    ensures Sum(lens[..n]) == lens[0] + Sum(lens[1..][..n - 1])
  {
    assert lens[..n][1..] == lens[1..][..n - 1];
  }

  /** `Locate` computes exactly the one position `IsPosition` describes. */
  lemma {:induction false} LocateIffPosition(lens: seq<nat>, lo: nat, p: SourcePos)
    ensures Locate(lens, lo) == p <==> IsPosition(lens, lo, p)
  {
    if lens == [] {
    } else if lo <= lens[0] {
      if p.line > 0 && IsPosition(lens, lo, p) {
        SumPrefixCons(lens, p.line);
        assert false;
      }
    } else {
      if p.line > 0 {
        var q := SourcePos(p.line - 1, p.col);
        LocateIffPosition(lens[1..], lo - lens[0], q);
        if p.line <= |lens| {
          SumPrefixCons(lens, p.line);
          if p.line < |lens| {
            assert lens[p.line] == lens[1..][q.line];
          }
        }
      }
    }
  }

  lemma SourcePosMeaning(source: string, lo: nat)
    ensures IsPosition(LineLengths(source), lo, SourcePosOf(source, lo))
    ensures SourcePosOf(source, lo).line <= |Lines(source)|
  {
    LocateIffPosition(LineLengths(source), lo, SourcePosOf(source, lo));
  }

  /** An offset within the first line is on line 0 at that column. */
  lemma FirstLine(source: string, lo: nat)
    requires source == [] || lo <= ByteLen(Lines(source)[0])
    ensures SourcePosOf(source, lo) == SourcePos(0, lo)
  {
  }

  /**
   * `'\n'` bytes are not counted: in `"ab\ncd"` the offset of `c` is 3, and
   * the walk reports line 1, column 1.
   */
  lemma NewlinesNotCounted()
    ensures SourcePosOf("ab\ncd", 3) == SourcePos(1, 1)
  {
    assert NewlineIndex("ab\ncd") == 2;
    assert "ab\ncd"[..2] == "ab" && "ab\ncd"[3..] == "cd";
    assert NewlineIndex("cd") == 2;
    assert Lines("ab\ncd") == ["ab", "cd"];
    assert LineLengths("ab\ncd") == [2, 2];
  }

  lemma LocateFirst(lens: seq<nat>, i: nat, col: nat)
    requires i < |lens| && col > lens[i]
    ensures Locate(lens[i..], col) ==
      SourcePos(Locate(lens[i + 1..], col - lens[i]).line + 1, Locate(lens[i + 1..], col - lens[i]).col)
  {
    assert lens[i..][1..] == lens[i + 1..];
  }

  /** `SourcePos::from_source_span`: the loop over line lengths that stops at the first line the offset fits in. */
  method FromSourceSpan(source: string, span: Span) returns (pos: SourcePos)
    ensures pos == SourcePosOf(source, span.lo)
  {
    var lens := LineLengths(source);
    var col := span.lo;
    var line := 0;
    var i := 0;
    while i < |lens|
      invariant i <= |lens| && line == i
      invariant Locate(lens[i..], col).line + line == SourcePosOf(source, span.lo).line
      invariant Locate(lens[i..], col).col == SourcePosOf(source, span.lo).col
    {
      if col > lens[i] {
        LocateFirst(lens, i, col);
        col := col - lens[i];
        line := line + 1;
        i := i + 1;
      } else {
        break;
      }
    }
    return SourcePos(line, col);
  }

  /** `Display for SourcePos`. */
  function Display(p: SourcePos): (s: string)
    ensures |s| > 5 && s[..5] == "Line "
  {
    "Line " + NatToString(p.line) + ", Column " + NatToString(p.col)
  }

  /** Two digit strings followed by texts that do not start with a digit split the same way. */
  lemma {:induction false} DigitsSplit(a: string, s: string, b: string, t: string)
    requires IsDigits(a, 10) && IsDigits(b, 10) && a + s == b + t
    requires s == [] || !IsDigit(s[0], 10)
    requires t == [] || !IsDigit(t[0], 10)
    ensures a == b && s == t
  {
    if a != [] {
      assert (a + s)[0] == a[0];
    }
    if b != [] {
      assert (b + t)[0] == b[0];
    }
    assert a == [] ==> a + s == s;
    assert b == [] ==> b + t == t;
    if a != [] && b != [] {
      assert a[1..] + s == (a + s)[1..] == (b + t)[1..] == b[1..] + t;
      DigitsSplit(a[1..], s, b[1..], t);
      assert a == [a[0]] + a[1..];
      assert b == [b[0]] + b[1..];
    } else if a == [] && b != [] {
      assert false;
    } else if a != [] && b == [] {
      assert false;
    }
  }

  lemma CancelPrefix(x: string, u: string, v: string)
    requires x + u == x + v
    ensures u == v
  {
    assert u == (x + u)[|x|..];
    assert v == (x + v)[|x|..];
  }

  lemma RegroupDisplay(w: string, x: string, y: string, z: string)
    ensures w + x + y + z == w + (x + (y + z))
  {
  }

  /** Different positions are displayed differently. */
  lemma DisplayInjective(p: SourcePos, q: SourcePos)
    requires Display(p) == Display(q)
    ensures p == q
  {
    var a, b := NatToString(p.line), NatToString(q.line);
    var c, d := NatToString(p.col), NatToString(q.col);
    var sep := ", Column ";
    RegroupDisplay("Line ", a, sep, c);
    RegroupDisplay("Line ", b, sep, d);
    CancelPrefix("Line ", a + (sep + c), b + (sep + d));
    DigitsSplit(a, sep + c, b, sep + d);
    CancelPrefix(sep, c, d);
    ToDigitsInjective(p.line, q.line, 10);
    ToDigitsInjective(p.col, q.col, 10);
  }

  // ---------------------------------------------------------------------
  // parse_file
  // ---------------------------------------------------------------------

  /** What the TypeScript front end reports when it cannot parse the text. */
  datatype ParserError = ParserError(span: Span, message: string)

  const UnrecognizedStructure := "Unrecognized structure"

  /** The text of an error: its position, a space, then its message. */
  function ErrorText(source: string, span: Span, message: string): string {
    Display(SourcePosOf(source, span.lo)) + " " + message
  }

  /**
   * `parse_file`, with the front end's result given as `parsed`: a front-end
   * error and a structure error are both reported at their position; a
   * structure error without a message says "Unrecognized structure".
   */
  function ParseFile(source: string, parsed: Result<Module, ParserError>): (r: Result<Ir.File, string>)
    ensures parsed.Failure? ==>
      r == Failure(ErrorText(source, parsed.error.span, parsed.error.message))
    ensures parsed.Success? ==> (r.Success? <==> ParseModule(parsed.value).Success?)
    ensures parsed.Success? && r.Success? ==> r.value == ParseModule(parsed.value).value
  {
    match parsed
    case Failure(e) => Failure(ErrorText(source, e.span, e.message))
    case Success(m) =>
      match ParseModule(m)
      case Success(file) => Success(file)
      case Failure(e) => Failure(ErrorText(source, e.span, e.message.UnwrapOr(UnrecognizedStructure)))
  }

  /** A structure error with a message reports that message after the position. */
  lemma StructureErrorMessage(source: string, m: Module)
    requires ParseModule(m).Failure?
    ensures var e := ParseModule(m).error;
      ParseFile(source, Success(m)) == Failure(
        "Line " + NatToString(SourcePosOf(source, e.span.lo).line)
        + ", Column " + NatToString(SourcePosOf(source, e.span.lo).col)
        + " " + (if e.message.Some? then e.message.value else "Unrecognized structure"))
  {
  }

  /** An unsupported top-level item is reported as an unrecognized structure at its position. */
  lemma OtherItemReported(source: string, span: Span, rest: seq<ModuleItem>, mspan: Span)
    ensures ParseFile(source, Success(Module([OtherItem(span)] + rest, mspan)))
      == Failure(ErrorText(source, span, "Unrecognized structure"))
  {
    FirstFailingItem(Module([OtherItem(span)] + rest, mspan), 0);
  }
}
