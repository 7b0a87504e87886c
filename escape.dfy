/**
 * Rust's `str::escape_default`, which both backends' `quote` helpers use to
 * write a string value as a double-quoted literal, together with the
 * reading that undoes it.
 */
module Escape {
  import opened Wrappers
  import opened Numerals

  predicate IsPrintableAscii(c: char) {
    ' ' <= c <= '~'
  }

  /** Characters `char::escape_default` writes as themselves. */
  predicate IsPlain(c: char) {
    IsPrintableAscii(c) && c != '\\' && c != '\'' && c != '"'
  }

  /**
   * `char::escape_default`: tab, carriage return and line feed as `\t`, `\r`,
   * `\n`; backslash and both quotes behind a backslash; other printable ASCII
   * unchanged; everything else as `\u{...}` with lower-case hex digits.
   */
  function EscapeChar(c: char): (e: string)
    ensures |e| >= 1
    ensures |e| == 1 <==> IsPlain(c)
    ensures !IsPlain(c) ==> e[0] == '\\'
    ensures forall i :: 0 <= i < |e| ==> IsPrintableAscii(e[i])
  {
    if c == '\t' then "\\t"
    else if c == '\r' then "\\r"
    else if c == '\n' then "\\n"
    else if c == '\\' then "\\\\"
    else if c == '\'' then "\\'"
    else if c == '"' then "\\\""
    else if IsPrintableAscii(c) then [c]
    else "\\u{" + Hex(c as int) + "}"
  }

  function EscapeDefault(s: string): (e: string)
    ensures |e| >= |s|
    ensures forall i :: 0 <= i < |e| ==> IsPrintableAscii(e[i])
  {
    if s == [] then [] else EscapeChar(s[0]) + EscapeDefault(s[1..])
  }

  /** `quote`: the escaped text between double quotes. */
  function Quote(s: string): (q: string)
    ensures |q| >= 2 && q[0] == '"' && q[|q| - 1] == '"'
  {
    "\"" + EscapeDefault(s) + "\""
  }

  /** The length of the longest prefix made of hex digits. */
  function HexRun(s: string): (k: nat)
    ensures k <= |s|
    ensures IsDigits(s[..k], 16)
    ensures k < |s| ==> !IsDigit(s[k], 16)
  {
    if s == [] || !IsDigit(s[0], 16) then 0 else 1 + HexRun(s[1..])
  }

  predicate IsScalar(v: nat) {
    v < 0xD800 || 0xE000 <= v < 0x11_0000
  }

  /** Reads one escape (or one plain character) from the front, with the number of characters it used. */
  function UnescapeOne(e: string): (r: Option<(char, nat)>)
    requires |e| > 0
    ensures r.Some? ==> 1 <= r.value.1 <= |e|
  {
    if e[0] != '\\' then Some((e[0], 1))
    else if |e| < 2 then None
    else if e[1] == 't' then Some(('\t', 2))
    else if e[1] == 'r' then Some(('\r', 2))
    else if e[1] == 'n' then Some(('\n', 2))
    else if e[1] == '\\' || e[1] == '\'' || e[1] == '"' then Some((e[1], 2))
    else if e[1] == 'u' && |e| > 2 && e[2] == '{' then UnescapeHex(e[3..])
    else None
  }

  /** The rest of a `\u{` escape: hex digits naming a scalar value, then `}`. */
  function UnescapeHex(t: string): (r: Option<(char, nat)>)
    ensures r.Some? ==> 4 <= r.value.1 <= |t| + 3
  {
    var k := HexRun(t);
    if 0 < k && k < |t| && t[k] == '}' then
      var v := DigitsValue(t[..k], 16);
      if IsScalar(v) then Some((v as char, 4 + k)) else None
    else None
  }

  function Unescape(e: string): Option<string>
    decreases |e|
  {
    if e == [] then Some([])
    else
      var first :- UnescapeOne(e);
      var rest :- Unescape(e[first.1..]);
      Some([first.0] + rest)
  }

  /** `"` and a quoted text's inside read back. */
  function Unquote(q: string): Option<string> {
    if |q| >= 2 && q[0] == '"' && q[|q| - 1] == '"' then Unescape(q[1..|q| - 1]) else None
  }

  lemma {:induction false} HexRunStopsAtBrace(h: string, rest: string)
    requires IsDigits(h, 16)
    ensures HexRun(h + "}" + rest) == |h|
  {
    if h != [] {
      assert (h + "}" + rest)[1..] == h[1..] + "}" + rest;
      HexRunStopsAtBrace(h[1..], rest);
    }
  }

  /** Reading the front of an escaped text gives back the character and the length of its escape. */
  lemma UnescapeOneEscapeChar(c: char, rest: string)
    ensures UnescapeOne(EscapeChar(c) + rest) == Some((c, |EscapeChar(c)|))
  {
    if IsPrintableAscii(c) || c == '\t' || c == '\r' || c == '\n' {
      UnescapeOneShort(c, rest);
    } else {
      UnescapeOneHex(c, rest);
    }
  }

  lemma UnescapeOneShort(c: char, rest: string)
    requires IsPrintableAscii(c) || c == '\t' || c == '\r' || c == '\n'
    ensures UnescapeOne(EscapeChar(c) + rest) == Some((c, |EscapeChar(c)|))
  {
    var e := EscapeChar(c) + rest;
    if IsPlain(c) {
      assert e[0] == c;
    } else {
      assert |EscapeChar(c)| == 2 && e[0] == '\\' && e[1] == EscapeChar(c)[1];
    }
  }

  lemma UnescapeOneHex(c: char, rest: string)
    requires !IsPrintableAscii(c) && c != '\t' && c != '\r' && c != '\n'
    ensures UnescapeOne(EscapeChar(c) + rest) == Some((c, |EscapeChar(c)|))
  {
    var h := Hex(c as int);
    assert EscapeChar(c) == "\\u{" + h + "}";
    ToDigitsValue(c as int, 16);
    UnescapeOneHexForm(h, rest);
  }

  /** A `\u{...}` escape with canonical digits naming a scalar value reads back as that character. */
  lemma UnescapeOneHexForm(h: string, rest: string)
    requires IsCanonical(h, 16) && IsScalar(DigitsValue(h, 16))
    ensures UnescapeOne("\\u{" + h + "}" + rest) == Some((DigitsValue(h, 16) as char, 4 + |h|))
  {
    UnescapeOneUnicode(h, rest);
    UnescapeHexDigits(h, rest);
  }

  /** A text starting with `\u{` is read by `UnescapeHex` on what follows the brace. */
  lemma UnescapeOneUnicode(h: string, rest: string)
    ensures UnescapeOne("\\u{" + h + "}" + rest) == UnescapeHex(h + "}" + rest)
  {
    var t := h + "}" + rest;
    var e := "\\u{" + t;
    assert "\\u{" + h + "}" + rest == e;
    assert e[0] == '\\' && e[1] == 'u' && e[2] == '{';
    assert e[3..] == t;
  }

  lemma UnescapeHexDigits(h: string, rest: string)
    requires IsCanonical(h, 16) && IsScalar(DigitsValue(h, 16))
    ensures UnescapeHex(h + "}" + rest) == Some((DigitsValue(h, 16) as char, 4 + |h|))
  {
    var t := h + "}" + rest;
    HexRunStopsAtBrace(h, rest);
    assert t[..|h|] == h;
    assert t[|h|] == '}';
  }

  /** Escaping loses nothing: the escaped text reads back to the original. */
  lemma {:induction false} UnescapeEscapeDefault(s: string)
    ensures Unescape(EscapeDefault(s)) == Some(s)
  {
    if s != [] {
      var e := EscapeDefault(s);
      var head := EscapeChar(s[0]);
      UnescapeOneEscapeChar(s[0], EscapeDefault(s[1..]));
      assert e[|head|..] == EscapeDefault(s[1..]);
      UnescapeEscapeDefault(s[1..]);
      assert s == [s[0]] + s[1..];
    }
  }

  lemma UnquoteQuote(s: string)
    ensures Unquote(Quote(s)) == Some(s)
  {
    var q := Quote(s);
    assert q[1..|q| - 1] == EscapeDefault(s);
    UnescapeEscapeDefault(s);
  }

  /** Different string values are quoted differently. */
  lemma QuoteInjective(s: string, t: string)
    requires Quote(s) == Quote(t)
    ensures s == t
  {
    UnquoteQuote(s);
    UnquoteQuote(t);
  }

  /** Text made of plain characters is quoted as it stands. */
  lemma {:induction false} PlainUnchanged(s: string)
    requires forall i :: 0 <= i < |s| ==> IsPlain(s[i])
    ensures EscapeDefault(s) == s
  {
    if s != [] {
      PlainUnchanged(s[1..]);
      assert s == [s[0]] + s[1..];
    }
  }

  lemma EscapeExamples()
    ensures EscapeDefault("a\"b") == "a\\\"b"
    ensures EscapeChar('é') == "\\u{e9}"
  {
    assert EscapeDefault("a\"b") == EscapeChar('a') + EscapeDefault("\"b");
    assert EscapeDefault("\"b") == EscapeChar('"') + EscapeDefault("b");
    assert EscapeDefault("b") == EscapeChar('b') + EscapeDefault("");
    assert Hex(0xe9) == ToDigits(0xe, 16) + ['9'];
  }
}
