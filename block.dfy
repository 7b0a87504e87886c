/**
 * The indentation-aware text builder (crates/tser_block/src/lib.rs): a
 * block is a list of lines and nested blocks; modifiers append children to
 * a block in place; rendering writes each line on its own row, indented by
 * four spaces per nesting level.
 */
module Blocks {
  import opened Wrappers

  datatype BlockChild = Line(text: string) | SubBlock(block: Block)

  datatype Block = Block(children: seq<BlockChild>)

  /**
   * The values the source passes to `modify_block`: strings (`String` and
   * `&str`), optional modifiers, `NewBlock`, `Iter` over modifiers, a whole
   * `Block`, and a single `BlockChild`.
   */
  datatype Modifier =
    | Text(text: string)
    | Maybe(opt: Option<Modifier>)
    | NewBlock(inner: Modifier)
    | Iter(items: seq<Modifier>)
    | Nested(block: Block)
    | Child(child: BlockChild)

  /** The children a modifier appends to its target block, in order. */
  function Effect(m: Modifier): seq<BlockChild>
    decreases m, 1
  {
    match m
    case Text(s) => [Line(s)]
    case Maybe(o) => if o.Some? then Effect(o.value) else []
    case NewBlock(inner) => [SubBlock(Block(Effect(inner)))]
    case Iter(items) => EffectAll(items)
    case Nested(b) => [SubBlock(b)]
    case Child(c) => [c]
  }

  /** The children a sequence of modifiers appends when applied one after another. */
  function EffectAll(ms: seq<Modifier>): seq<BlockChild>
    decreases ms, 0
  {
    if ms == [] then [] else EffectAll(ms[..|ms| - 1]) + Effect(ms[|ms| - 1])
  }

  /** `block![m1, m2, ...]`: the modifiers applied in order to an empty block. */
  function BlockOf(ms: seq<Modifier>): Block {
    Block(EffectAll(ms))
  }

  /** `block(iter)`: a new nested block holding the items' effects. */
  function BlockIter(items: seq<Modifier>): Modifier {
    NewBlock(Iter(items))
  }

  /** `flatten(iter)`: the items applied directly to the target. */
  function FlattenIter(items: seq<Modifier>): Modifier {
    Iter(items)
  }

  /** Iterating a block yields its children, each a modifier that appends itself. */
  function ChildMods(cs: seq<BlockChild>): (ms: seq<Modifier>)
    ensures |ms| == |cs|
    ensures forall i :: 0 <= i < |cs| ==> ms[i] == Child(cs[i])
  {
    seq(|cs|, i requires 0 <= i < |cs| => Child(cs[i]))
  }

  /** `flatten(b)` for a block `b`. */
  function FlattenBlock(b: Block): Modifier {
    FlattenIter(ChildMods(b.children))
  }

  /** `flatten![m1, m2, ...]`: `flatten(block![m1, m2, ...])`. */
  function FlattenMacro(ms: seq<Modifier>): Modifier {
    FlattenBlock(BlockOf(ms))
  }

  /** One string modifier per line of text. */
  function TextMods(lines: seq<string>): (ms: seq<Modifier>)
    ensures |ms| == |lines|
    ensures forall i :: 0 <= i < |lines| ==> ms[i] == Text(lines[i])
  {
    seq(|lines|, i requires 0 <= i < |lines| => Text(lines[i]))
  }

  /** One `Line` child per line of text. */
  function LineChildren(lines: seq<string>): (cs: seq<BlockChild>)
    ensures |cs| == |lines|
    ensures forall i :: 0 <= i < |lines| ==> cs[i] == Line(lines[i])
  {
    seq(|lines|, i requires 0 <= i < |lines| => Line(lines[i]))
  }

  /** Appending strings one by one adds one line each, in order. */
  lemma {:induction false} TextModsEffect(lines: seq<string>)
    ensures EffectAll(TextMods(lines)) == LineChildren(lines)
  {
    if lines != [] {
      var init := lines[..|lines| - 1];
      assert TextMods(lines)[..|lines| - 1] == TextMods(init);
      TextModsEffect(init);
      assert LineChildren(lines) == LineChildren(init) + [Line(lines[|lines| - 1])];
    }
  }

  lemma {:induction false} EffectAllAppend(xs: seq<Modifier>, ys: seq<Modifier>)
    ensures EffectAll(xs + ys) == EffectAll(xs) + EffectAll(ys)
    decreases |ys|
  {
    if ys == [] {
      assert xs + ys == xs;
    } else {
      var last := ys[|ys| - 1];
      assert (xs + ys)[..|xs + ys| - 1] == xs + ys[..|ys| - 1];
      EffectAllAppend(xs, ys[..|ys| - 1]);
    }
  }

  lemma EffectAllOne(m: Modifier)
    ensures EffectAll([m]) == Effect(m)
  {
    assert [m][..0] == [];
  }

  /** Replacing one modifier in the middle of a list by one with the same effect keeps the block. */
  lemma ReplaceInMiddle(pre: seq<Modifier>, m: Modifier, ms: seq<Modifier>, post: seq<Modifier>)
    requires Effect(m) == EffectAll(ms)
    ensures BlockOf(pre + [m] + post) == BlockOf(pre + ms + post)
  {
    EffectAllAppend(pre + [m], post);
    EffectAllAppend(pre, [m]);
    EffectAllOne(m);
    EffectAllAppend(pre + ms, post);
    EffectAllAppend(pre, ms);
  }

  /** `block![]` has no children. */
  lemma EmptyBlock()
    ensures BlockOf([]) == Block([])
  {
  }

  /** A string modifier adds exactly one line after what the earlier modifiers added. */
  lemma TextAppendsLine(pre: seq<Modifier>, s: string)
    ensures BlockOf(pre + [Text(s)]).children == BlockOf(pre).children + [Line(s)]
  {
    EffectAllAppend(pre, [Text(s)]);
    EffectAllOne(Text(s));
  }

  /** `None` adds nothing and `Some(x)` adds what `x` adds, wherever they stand. */
  lemma MaybeTransparent(pre: seq<Modifier>, x: Modifier, post: seq<Modifier>)
    ensures BlockOf(pre + [Maybe(None)] + post) == BlockOf(pre + post)
    ensures BlockOf(pre + [Maybe(Some(x))] + post) == BlockOf(pre + [x] + post)
  {
    ReplaceInMiddle(pre, Maybe(None), [], post);
    assert pre + [] + post == pre + post;
    EffectAllOne(x);
    ReplaceInMiddle(pre, Maybe(Some(x)), [x], post);
  }

  /** `block(iter)` adds exactly one sub-block, holding what the items add. */
  lemma BlockIterAddsSubBlock(pre: seq<Modifier>, items: seq<Modifier>, post: seq<Modifier>)
    ensures BlockOf(pre + [BlockIter(items)] + post).children ==
      BlockOf(pre).children + [SubBlock(BlockOf(items))] + BlockOf(post).children
  {
    EffectAllAppend(pre + [BlockIter(items)], post);
    EffectAllAppend(pre, [BlockIter(items)]);
    EffectAllOne(BlockIter(items));
  }

  /** A block used as a modifier is added whole, as one sub-block. */
  lemma NestedAddsSubBlock(pre: seq<Modifier>, b: Block, post: seq<Modifier>)
    ensures BlockOf(pre + [Nested(b)] + post).children ==
      BlockOf(pre).children + [SubBlock(b)] + BlockOf(post).children
  {
    EffectAllAppend(pre + [Nested(b)], post);
    EffectAllAppend(pre, [Nested(b)]);
    EffectAllOne(Nested(b));
  }

  /** `flatten(iter)` adds the items' effects with no extra level. */
  lemma FlattenIterSplices(pre: seq<Modifier>, items: seq<Modifier>, post: seq<Modifier>)
    ensures BlockOf(pre + [FlattenIter(items)] + post) == BlockOf(pre + items + post)
  {
    ReplaceInMiddle(pre, FlattenIter(items), items, post);
  }

  /** Iterating a block's children and appending each gives the children back. */
  lemma {:induction false} ChildModsEffect(cs: seq<BlockChild>)
    ensures EffectAll(ChildMods(cs)) == cs
  {
    if cs != [] {
      var init := cs[..|cs| - 1];
      assert ChildMods(cs)[..|cs| - 1] == ChildMods(init);
      ChildModsEffect(init);
      assert cs == init + [cs[|cs| - 1]];
    }
  }

  /** `flatten(b)` splices `b`'s children into the target; `flatten![...]` splices its modifiers. */
  lemma FlattenSplices(pre: seq<Modifier>, ms: seq<Modifier>, post: seq<Modifier>)
    ensures Effect(FlattenMacro(ms)) == EffectAll(ms)
    ensures BlockOf(pre + [FlattenMacro(ms)] + post) == BlockOf(pre + ms + post)
  {
    ChildModsEffect(EffectAll(ms));
    ReplaceInMiddle(pre, FlattenMacro(ms), ms, post);
  }

  /**
   * A block under construction (`&mut Block` in the source): `Modify` is
   * `modify_block`, which only ever pushes onto the children.
   */
  class BlockBuilder {
    var children: seq<BlockChild>

    /** `Block::default()`. */
    constructor ()
      ensures children == []
    {
      children := [];
    }

    function ToBlock(): Block
      reads this
    {
      Block(children)
    }

    method Modify(m: Modifier)
      modifies this
      ensures children == old(children) + Effect(m)
      decreases m
    {
      match m
      case Text(s) =>
        children := children + [Line(s)];
      case Maybe(o) =>
        if o.Some? {
          Modify(o.value);
        }
      case NewBlock(inner) =>
        var newBlock := new BlockBuilder();
        newBlock.Modify(inner);
        assert newBlock.children == Effect(inner);
        children := children + [SubBlock(newBlock.ToBlock())];
      case Iter(items) =>
        for i := 0 to |items|
          invariant children == old(children) + EffectAll(items[..i])
        {
          assert items[..i + 1][..i] == items[..i];
          Modify(items[i]);
        }
        assert items[..|items|] == items;
      case Nested(b) =>
        children := children + [SubBlock(b)];
      case Child(c) =>
        children := children + [c];
    }
  }

  /** The `block!` macro: a default block modified by each argument in turn. */
  method MakeBlock(ms: seq<Modifier>) returns (b: Block)
    ensures b == BlockOf(ms)
  {
    var target := new BlockBuilder();
    for i := 0 to |ms|
      invariant target.children == EffectAll(ms[..i])
    {
      assert ms[..i + 1][..i] == ms[..i];
      target.Modify(ms[i]);
    }
    assert ms[..|ms|] == ms;
    b := target.ToBlock();
  }

  // ---------------------------------------------------------------------
  // Rendering
  // ---------------------------------------------------------------------

  const Indent := "    "

  function IndentOf(level: nat): (s: string)
    ensures |s| == 4 * level
    ensures forall i :: 0 <= i < |s| ==> s[i] == ' '
  {
    if level == 0 then "" else IndentOf(level - 1) + Indent
  }

  /** A non-empty line is indented; every line ends with `"\n"`. */
  function RenderLine(text: string, level: nat): string {
    (if text == "" then "" else IndentOf(level) + text) + "\n"
  }

  function RenderChildren(cs: seq<BlockChild>, level: nat): string
    decreases cs, 0
  {
    if cs == [] then "" else RenderChildren(cs[..|cs| - 1], level) + RenderChild(cs[|cs| - 1], level)
  }

  /** A sub-block is rendered one level deeper than its parent's lines. */
  function RenderChild(c: BlockChild, level: nat): string
    decreases c, 1
  {
    match c
    case Line(t) => RenderLine(t, level)
    case SubBlock(b) => RenderChildren(b.children, level + 1)
  }

  function Render(b: Block, level: nat): string {
    RenderChildren(b.children, level)
  }

  /** `emit_str`, with the output the callback collects passed in and returned. */
  method EmitStr(b: Block, level: nat, result: string) returns (out: string)
    ensures out == result + Render(b, level)
    decreases b
  {
    out := result;
    var cs := b.children;
    for i := 0 to |cs|
      invariant out == result + RenderChildren(cs[..i], level)
    {
      assert cs[..i + 1] == cs[..i] + [cs[i]];
      RenderSnoc(cs[..i], cs[i], level);
      AppendAssoc(result, RenderChildren(cs[..i], level), RenderChild(cs[i], level));
      ghost var prefix := out;
      match cs[i]
      case Line(line) =>
        if line != "" {
          for j := 0 to level
            invariant out == prefix + IndentOf(j)
          {
            AppendAssoc(prefix, IndentOf(j), Indent);
            out := out + Indent;
          }
          AppendAssoc(prefix, IndentOf(level), line);
          out := out + line;
        }
        AppendAssoc(prefix, if line == "" then "" else IndentOf(level) + line, "\n");
        out := out + "\n";
      case SubBlock(sub) =>
        out := EmitStr(sub, level + 1, out);
    }
    assert cs[..|cs|] == cs;
  }

  /** `Block::string`: rendering from level 0. */
  method BlockString(b: Block) returns (s: string)
    ensures s == Render(b, 0)
  {
    s := EmitStr(b, 0, "");
  }

  lemma {:induction false} RenderChildrenAppend(xs: seq<BlockChild>, ys: seq<BlockChild>, level: nat)
    ensures RenderChildren(xs + ys, level) == RenderChildren(xs, level) + RenderChildren(ys, level)
    decreases |ys|
  {
    if ys == [] {
      assert xs + ys == xs;
    } else {
      var init, last := ys[..|ys| - 1], ys[|ys| - 1];
      assert ys == init + [last];
      assert xs + ys == (xs + init) + [last];
      RenderSnoc(xs + init, last, level);
      RenderSnoc(init, last, level);
      RenderChildrenAppend(xs, init, level);
    }
  }

  // ---------------------------------------------------------------------
  // The rendered text as a list of indented lines
  // ---------------------------------------------------------------------

  /** One line of output: its text and the level it is indented to. */
  datatype FlatLine = FlatLine(level: nat, text: string)

  /** The lines of a block in output order, each at its parent's level plus its depth. */
  function FlatChildren(cs: seq<BlockChild>, level: nat): (ls: seq<FlatLine>)
    ensures forall i :: 0 <= i < |ls| ==> ls[i].level >= level
    decreases cs, 0
  {
    if cs == [] then [] else FlatChildren(cs[..|cs| - 1], level) + FlatChild(cs[|cs| - 1], level)
  }

  function FlatChild(c: BlockChild, level: nat): (ls: seq<FlatLine>)
    ensures forall i :: 0 <= i < |ls| ==> ls[i].level >= level
    decreases c, 1
  {
    match c
    case Line(t) => [FlatLine(level, t)]
    case SubBlock(b) => FlatChildren(b.children, level + 1)
  }

  function JoinLines(ls: seq<FlatLine>): string {
    if ls == [] then "" else JoinLines(ls[..|ls| - 1]) + RenderLine(ls[|ls| - 1].text, ls[|ls| - 1].level)
  }

  lemma {:induction false} JoinLinesAppend(xs: seq<FlatLine>, ys: seq<FlatLine>)
    ensures JoinLines(xs + ys) == JoinLines(xs) + JoinLines(ys)
    decreases |ys|
  {
    if ys == [] {
      assert xs + ys == xs;
    } else {
      var init, last := ys[..|ys| - 1], ys[|ys| - 1];
      assert ys == init + [last];
      assert xs + ys == (xs + init) + [last];
      JoinLinesSnoc(xs + init, last);
      JoinLinesSnoc(init, last);
      JoinLinesAppend(xs, init);
    }
  }

  /** Appending one line appends its rendering. */
  lemma JoinLinesSnoc(ls: seq<FlatLine>, l: FlatLine)
    ensures JoinLines(ls + [l]) == JoinLines(ls) + RenderLine(l.text, l.level)
  {
    assert (ls + [l])[..|ls|] == ls;
  }

  /**
   * Rendering writes the block's lines in order, each indented by four
   * spaces per level it sits below the top (and not at all when empty).
   */
  lemma {:induction false} RenderIsJoinedLines(cs: seq<BlockChild>, level: nat)
    ensures RenderChildren(cs, level) == JoinLines(FlatChildren(cs, level))
    decreases cs, 0
  {
    if cs != [] {
      var init, last := cs[..|cs| - 1], cs[|cs| - 1];
      RenderIsJoinedLines(init, level);
      JoinLinesAppend(FlatChildren(init, level), FlatChild(last, level));
      RenderChildIsJoinedLines(last, level);
    }
  }

  lemma {:induction false} RenderChildIsJoinedLines(c: BlockChild, level: nat)
    ensures RenderChild(c, level) == JoinLines(FlatChild(c, level))
    decreases c, 1
  {
    match c
    case Line(t) =>
      assert [FlatLine(level, t)][..0] == [];
    case SubBlock(b) =>
      RenderIsJoinedLines(b.children, level + 1);
  }

  // ---------------------------------------------------------------------
  // Counting lines
  // ---------------------------------------------------------------------

  function CountNewlines(s: string): nat {
    if s == [] then 0 else CountNewlines(s[..|s| - 1]) + (if s[|s| - 1] == '\n' then 1 else 0)
  }

  lemma {:induction false} CountNewlinesAppend(a: string, b: string)
    ensures CountNewlines(a + b) == CountNewlines(a) + CountNewlines(b)
    decreases |b|
  {
    if b == [] {
      assert a + b == a;
    } else {
      assert (a + b)[..|a + b| - 1] == a + b[..|b| - 1];
      CountNewlinesAppend(a, b[..|b| - 1]);
    }
  }

  lemma {:induction false} NoNewlines(s: string)
    requires '\n' !in s
    ensures CountNewlines(s) == 0
  {
    if s != [] {
      assert s[|s| - 1] in s;
      assert forall c :: c in s[..|s| - 1] ==> c in s;
      NoNewlines(s[..|s| - 1]);
    }
  }

  /** The number of `Line` children at every depth. */
  function LineCount(cs: seq<BlockChild>): nat
    decreases cs, 0
  {
    if cs == [] then 0 else LineCount(cs[..|cs| - 1]) + ChildLineCount(cs[|cs| - 1])
  }

  function ChildLineCount(c: BlockChild): nat
    decreases c, 1
  {
    match c
    case Line(_) => 1
    case SubBlock(b) => LineCount(b.children)
  }

  lemma {:induction false} FlatLength(cs: seq<BlockChild>, level: nat)
    ensures |FlatChildren(cs, level)| == LineCount(cs)
    decreases cs, 0
  {
    if cs != [] {
      FlatLength(cs[..|cs| - 1], level);
      ChildFlatLength(cs[|cs| - 1], level);
    }
  }

  lemma {:induction false} ChildFlatLength(c: BlockChild, level: nat)
    ensures |FlatChild(c, level)| == ChildLineCount(c)
    decreases c, 1
  {
    match c
    case Line(_) =>
    case SubBlock(b) => FlatLength(b.children, level + 1);
  }

  /** Whether no line at any depth contains a line break itself. */
  predicate NoBreaks(ls: seq<FlatLine>) {
    forall i :: 0 <= i < |ls| ==> '\n' !in ls[i].text
  }

  lemma {:induction false} JoinLinesNewlines(ls: seq<FlatLine>)
    requires NoBreaks(ls)
    ensures CountNewlines(JoinLines(ls)) == |ls|
  {
    if ls != [] {
      var init, last := ls[..|ls| - 1], ls[|ls| - 1];
      assert NoBreaks(init);
      JoinLinesNewlines(init);
      var body := if last.text == "" then "" else IndentOf(last.level) + last.text;
      assert '\n' !in body by {
        if last.text != "" {
          assert forall c :: c in body ==> c in IndentOf(last.level) || c in last.text;
        }
      }
      NoNewlines(body);
      CountNewlinesAppend(body, "\n");
      CountNewlinesAppend(JoinLines(init), RenderLine(last.text, last.level));
    }
  }

  /**
   * When no line's text holds a `'\n'`, the rendered text has exactly one
   * `'\n'` per `Line` child at any depth, empty lines included.
   */
  lemma NewlinePerLine(b: Block, level: nat)
    requires NoBreaks(FlatChildren(b.children, level))
    ensures CountNewlines(Render(b, level)) == LineCount(b.children)
  {
    RenderIsJoinedLines(b.children, level);
    JoinLinesNewlines(FlatChildren(b.children, level));
    FlatLength(b.children, level);
  }

  lemma RenderOne(c: BlockChild, level: nat)
    ensures RenderChildren([c], level) == RenderChild(c, level)
  {
    assert [c][..0] == [];
  }

  lemma RenderSnoc(cs: seq<BlockChild>, c: BlockChild, level: nat)
    ensures RenderChildren(cs + [c], level) == RenderChildren(cs, level) + RenderChild(c, level)
  {
    assert (cs + [c])[..|cs|] == cs;
  }

  lemma EffectSnoc(ms: seq<Modifier>, m: Modifier)
    ensures EffectAll(ms + [m]) == EffectAll(ms) + Effect(m)
  {
    assert (ms + [m])[..|ms|] == ms;
  }

  /** The blocks the `block!` calls of the rendering example build. */
  lemma ExampleBlocks()
    ensures BlockOf([Text("d")]) == Block([Line("d")])
    ensures BlockOf([Text("b"), Text(""), Text("c"), Nested(Block([Line("d")]))])
      == Block([Line("b"), Line(""), Line("c"), SubBlock(Block([Line("d")]))])
  {
    var d := Block([Line("d")]);
    EffectAllOne(Text("d"));
    EffectAllOne(Text("b"));
    EffectSnoc([Text("b")], Text(""));
    assert [Text("b")] + [Text("")] == [Text("b"), Text("")];
    EffectSnoc([Text("b"), Text("")], Text("c"));
    assert [Text("b"), Text("")] + [Text("c")] == [Text("b"), Text(""), Text("c")];
    EffectSnoc([Text("b"), Text(""), Text("c")], Nested(d));
    assert [Text("b"), Text(""), Text("c")] + [Nested(d)] == [Text("b"), Text(""), Text("c"), Nested(d)];
  }

  lemma ExampleOuter(inner: Block)
    ensures BlockOf([Text("a"), Nested(inner), Text("e")]) == Block([Line("a"), SubBlock(inner), Line("e")])
  {
    EffectAllOne(Text("a"));
    EffectSnoc([Text("a")], Nested(inner));
    assert [Text("a")] + [Nested(inner)] == [Text("a"), Nested(inner)];
    EffectSnoc([Text("a"), Nested(inner)], Text("e"));
    assert [Text("a"), Nested(inner)] + [Text("e")] == [Text("a"), Nested(inner), Text("e")];
  }

  lemma RenderThree(x: BlockChild, y: BlockChild, z: BlockChild, level: nat)
    ensures RenderChildren([x, y, z], level) == RenderChild(x, level) + RenderChild(y, level) + RenderChild(z, level)
  {
    RenderOne(x, level);
    RenderSnoc([x], y, level);
    assert [x] + [y] == [x, y];
    RenderSnoc([x, y], z, level);
    assert [x, y] + [z] == [x, y, z];
  }

  lemma RenderFour(w: BlockChild, x: BlockChild, y: BlockChild, z: BlockChild, level: nat)
    ensures RenderChildren([w, x, y, z], level) ==
      RenderChild(w, level) + RenderChild(x, level) + RenderChild(y, level) + RenderChild(z, level)
  {
    RenderThree(w, x, y, level);
    RenderSnoc([w, x, y], z, level);
    assert [w, x, y] + [z] == [w, x, y, z];
  }

  lemma ExampleInnerLines()
    ensures RenderChild(Line("b"), 1) == "    b\n"
    ensures RenderChild(Line(""), 1) == "\n"
    ensures RenderChild(Line("c"), 1) == "    c\n"
    ensures RenderChild(SubBlock(Block([Line("d")])), 1) == "        d\n"
  {
    assert IndentOf(1) == "    " && IndentOf(2) == "        ";
    RenderOne(Line("d"), 2);
  }

  lemma RenderInnerExample()
    ensures Render(Block([Line("b"), Line(""), Line("c"), SubBlock(Block([Line("d")]))]), 1)
      == "    b\n\n    c\n        d\n"
  {
    ExampleInnerLines();
    RenderFour(Line("b"), Line(""), Line("c"), SubBlock(Block([Line("d")])), 1);
    assert "    b\n" + "\n" + "    c\n" + "        d\n" == "    b\n\n    c\n        d\n";
  }

  lemma RenderOuterExample(inner: Block)
    requires Render(inner, 1) == "    b\n\n    c\n        d\n"
    ensures Render(Block([Line("a"), SubBlock(inner), Line("e")]), 0) == "a\n    b\n\n    c\n        d\ne\n"
  {
    RenderThree(Line("a"), SubBlock(inner), Line("e"), 0);
    assert RenderChild(Line("a"), 0) == "a\n";
    assert RenderChild(Line("e"), 0) == "e\n";
    ExampleOuterText();
  }

  lemma ExampleOuterText()
    ensures "a\n" + "    b\n\n    c\n        d\n" + "e\n" == "a\n    b\n\n    c\n        d\ne\n"
  {
  }

  /**
   * `block!["a", block!["b", "", "c", block!["d"]], "e"]` renders as
   * `"a\n    b\n\n    c\n        d\ne\n"`.
   */
  lemma RenderExample()
    ensures
      var inner := BlockOf([Text("b"), Text(""), Text("c"), Nested(BlockOf([Text("d")]))]);
      Render(BlockOf([Text("a"), Nested(inner), Text("e")]), 0) == "a\n    b\n\n    c\n        d\ne\n"
  {
    ExampleBlocks();
    var inner := BlockOf([Text("b"), Text(""), Text("c"), Nested(BlockOf([Text("d")]))]);
    ExampleOuter(inner);
    RenderInnerExample();
    RenderOuterExample(inner);
  }
}
