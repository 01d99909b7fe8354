/** The preview text a note card shows in display mode
    (the effect on `noteContent` in src/components/EditableStickyNote.tsx).
    JSON syntax is not modelled: the result of `JSON.parse` is given as a
    `Parsed` value. */
module DisplayText {
  import opened Wrappers

  const Placeholder := "Click to add a note..."
  const BlockSeparator := "\n\n"
  const ListSeparator := "\n\U{2022} "
  const CheckedMark := "\U{2713}"
  const UncheckedMark := "\U{25CB}"

  /** One item of a checklist block. */
  datatype CheckItem = CheckItem(checked: bool, text: string)

  /** One block of an editor document: its type tag and the fields of its
      `data` that the preview reads; `None` is a field that is absent
      (`undefined`). The source has a single `data.items`; here it is
      `items` (strings) when the block is a list and `checks` (check
      items) when it is a checklist, and the other of the two is ignored. */
  datatype Block = Block(
    kind: string,
    text: Option<string>,
    items: Option<seq<string>>,
    checks: Option<seq<CheckItem>>)

  /** What `JSON.parse(noteContent)` gives: a syntax error, or a value whose
      `blocks` member is absent or a sequence of blocks. */
  datatype Parsed = NotJson | Json(blocks: Option<seq<Block>>)

  /** `Array.prototype.join`: the parts with `sep` between neighbours. */
  function Join(parts: seq<string>, sep: string): (r: string)
    ensures parts == [] ==> r == ""
    ensures |parts| == 1 ==> r == parts[0]
    decreases |parts|
  {
    if |parts| == 0 then ""
    else if |parts| == 1 then parts[0]
    else parts[0] + sep + Join(parts[1..], sep)
  }

  /** A string as a template literal shows it: `undefined` is spelled out. */
  function TemplateText(s: Option<string>): (r: string)
    ensures s.None? ==> r == "undefined"
    ensures s.Some? ==> r == s.value
  {
    s.GetOr("undefined")
  }

  /** One checklist line: a one-character mark, a space, then the text. */
  function CheckLine(item: CheckItem): (r: string)
    ensures |r| == |item.text| + 2
    ensures r[0] == (if item.checked then '\U{2713}' else '\U{25CB}') && r[1] == ' '
    ensures r[2..] == item.text
  {
    (if item.checked then CheckedMark else UncheckedMark) + " " + item.text
  }

  /** `items.map(...)` over a checklist: one line per item, in order. */
  function CheckLines(items: seq<CheckItem>): (r: seq<string>)
    ensures |r| == |items|
    ensures forall i :: 0 <= i < |items| ==> r[i] == CheckLine(items[i])
  {
    if items == [] then []
    else
      var rest := CheckLines(items[1..]);
      assert forall i :: 1 <= i < |items| ==> items[i] == items[1..][i - 1];
      [CheckLine(items[0])] + rest
  }

  /** The text of one block; `None` when reading it throws a TypeError
      (`items` of a list or a checklist is absent). An absent `text`
      joins as the empty string. */
  function RenderBlock(b: Block): (r: Option<string>)
    ensures r.None? <==> (b.kind == "list" && b.items.None?) || (b.kind == "checklist" && b.checks.None?)
    ensures b.kind != "list" && b.kind != "quote" && b.kind != "checklist" ==> r == Some(b.text.GetOr(""))
    ensures b.kind == "quote" ==> r.Some? && |r.value| >= 2 && r.value[0] == '"' && r.value[|r.value| - 1] == '"'
                                  && r.value[1..|r.value| - 1] == TemplateText(b.text)
  {
    if b.kind == "paragraph" || b.kind == "header" then Some(b.text.GetOr(""))
    else if b.kind == "list" then
      (if b.items.Some? then Some(Join(b.items.value, ListSeparator)) else None)
    else if b.kind == "quote" then Some("\"" + TemplateText(b.text) + "\"")
    else if b.kind == "checklist" then
      (if b.checks.Some? then Some(Join(CheckLines(b.checks.value), "\n")) else None)
    else Some(b.text.GetOr(""))
  }

  /** `blocks.map(...)`: the text of every block, in order, or `None` as
      soon as one block throws. */
  function RenderBlocks(bs: seq<Block>): (r: Option<seq<string>>)
    ensures r.Some? <==> forall i :: 0 <= i < |bs| ==> RenderBlock(bs[i]).Some?
    ensures r.Some? ==> |r.value| == |bs|
    ensures r.Some? ==> forall i :: 0 <= i < |bs| ==> r.value[i] == RenderBlock(bs[i]).value
  {
    if bs == [] then Some([])
    else
      var rest := RenderBlocks(bs[1..]);
      assert forall i :: 1 <= i < |bs| ==> bs[i] == bs[1..][i - 1];
      match RenderBlock(bs[0])
      case None => None
      case Some(t) => if rest.Some? then Some([t] + rest.value) else None
  }

  /** The blocks' texts joined by blank lines, or `None` if one throws. */
  function BlocksText(bs: seq<Block>): (r: Option<string>)
    ensures r.Some? <==> forall i :: 0 <= i < |bs| ==> RenderBlock(bs[i]).Some?
    ensures bs == [] ==> r == Some("")
    ensures |bs| == 1 && r.Some? ==> r.value == RenderBlock(bs[0]).value
  {
    match RenderBlocks(bs)
    case None => None
    case Some(parts) => Some(Join(parts, BlockSeparator))
  }

  /** The value the effect assigns to `displayContent` for `content`
      (whose parse is `parsed`), or `None` when it assigns nothing: the
      content parses but has no blocks. */
  function Projection(content: string, parsed: Parsed): (r: Option<string>)
    ensures content == "" ==> r == Some(Placeholder)
    ensures content != "" && parsed.NotJson? ==> r == Some(content)
    ensures r.None? <==> content != "" && parsed.Json? && (parsed.blocks.None? || parsed.blocks.value == [])
    ensures r.Some? ==> r.value != ""
    ensures content != "" && parsed.Json? && parsed.blocks.Some? && parsed.blocks.value != [] ==>
              match BlocksText(parsed.blocks.value)
              case None => r == Some(content)
              case Some(t) => r == Some(if t == "" then Placeholder else t)
  {
    if content == "" then Some(Placeholder)
    else
      match parsed
      case NotJson => Some(content)
      case Json(blocks) =>
        if blocks.None? || blocks.value == [] then None
        else
          match BlocksText(blocks.value)
          case None => Some(content)
          case Some(text) => Some(if text == "" then Placeholder else text)
  }

  /** The new `displayContent` after the effect, given the previous one. */
  function Refresh(previous: string, content: string, parsed: Parsed): (r: string)
    ensures content == "" ==> r == Placeholder
    ensures content != "" && parsed.NotJson? ==> r == content
    ensures content != "" && parsed.Json? && (parsed.blocks.None? || parsed.blocks.value == []) ==> r == previous
    ensures content != "" && parsed.Json? && parsed.blocks.Some? && parsed.blocks.value != [] ==>
              (BlocksText(parsed.blocks.value).None? ==> r == content)
              && (BlocksText(parsed.blocks.value) == Some("") ==> r == Placeholder)
              && (BlocksText(parsed.blocks.value).Some? && BlocksText(parsed.blocks.value) != Some("") ==>
                    r == BlocksText(parsed.blocks.value).value)
  {
    Projection(content, parsed).GetOr(previous)
  }

  /** Running the effect a second time on the same content changes nothing,
      so the preview is determined by the content once it has been shown. */
  lemma RefreshIdempotent(previous: string, content: string, parsed: Parsed)
    ensures Refresh(Refresh(previous, content, parsed), content, parsed) == Refresh(previous, content, parsed)
  {
  }

  /** The preview of a non-empty content that parses with blocks depends on
      the content alone, not on what was shown before. */
  lemma RefreshForgetsPrevious(p1: string, p2: string, content: string, parsed: Parsed)
    requires content == "" || parsed.NotJson? || (parsed.blocks.Some? && parsed.blocks.value != [])
    ensures Refresh(p1, content, parsed) == Refresh(p2, content, parsed)
  {
  }

  /** The displayed text never becomes empty once it was non-empty. */
  lemma RefreshNonEmpty(previous: string, content: string, parsed: Parsed)
    requires previous != ""
    ensures Refresh(previous, content, parsed) != ""
  {
  }

  lemma {:induction false} JoinAppend(a: seq<string>, b: seq<string>, sep: string)
    requires a != [] && b != []
    ensures Join(a + b, sep) == Join(a, sep) + sep + Join(b, sep)
    decreases |a|
  {
    if |a| == 1 {
      assert (a + b)[1..] == b;
    } else {
      JoinAppend(a[1..], b, sep);
      assert (a + b)[1..] == a[1..] + b;
    }
  }

  lemma {:induction false} RenderBlocksAppend(a: seq<Block>, b: seq<Block>)
    requires RenderBlocks(a).Some? && RenderBlocks(b).Some?
    ensures RenderBlocks(a + b) == Some(RenderBlocks(a).value + RenderBlocks(b).value)
  {
    var l := RenderBlocks(a + b);
    var expected := RenderBlocks(a).value + RenderBlocks(b).value;
    assert forall i :: 0 <= i < |a + b| ==> RenderBlock((a + b)[i]).Some? by {
      forall i | 0 <= i < |a + b| ensures RenderBlock((a + b)[i]).Some? {
        if i < |a| { assert (a + b)[i] == a[i]; } else { assert (a + b)[i] == b[i - |a|]; }
      }
    }
    assert |l.value| == |expected|;
    forall i | 0 <= i < |expected| ensures l.value[i] == expected[i] {
      if i < |a| { assert (a + b)[i] == a[i]; } else { assert (a + b)[i] == b[i - |a|]; }
    }
    assert l.value == expected;
  }

  /** Documents compose: the text of `a + b` is the text of `a`, a blank
      line, and the text of `b`. */
  lemma BlocksTextAppend(a: seq<Block>, b: seq<Block>)
    requires a != [] && b != []
    requires BlocksText(a).Some? && BlocksText(b).Some?
    ensures BlocksText(a + b) == Some(BlocksText(a).value + BlockSeparator + BlocksText(b).value)
  {
    RenderBlocksAppend(a, b);
    JoinAppend(RenderBlocks(a).value, RenderBlocks(b).value, BlockSeparator);
  }

  /** A document of one block shows that block's text (or the placeholder
      when it is empty); a block that throws shows the content verbatim. */
  lemma SingleBlock(content: string, b: Block)
    requires content != ""
    ensures Projection(content, Json(Some([b]))) ==
      match RenderBlock(b)
      case None => Some(content)
      case Some(t) => Some(if t == "" then Placeholder else t)
  {
    assert RenderBlocks([b]).Some? ==> RenderBlocks([b]).value == [RenderBlock(b).value];
  }

  /** A document of several blocks shows the texts of its parts joined by
      a blank line. */
  lemma DocumentAppend(content: string, a: seq<Block>, b: seq<Block>)
    requires content != "" && a != [] && b != []
    requires BlocksText(a).Some? && BlocksText(b).Some?
    ensures Projection(content, Json(Some(a + b))) == Some(BlocksText(a).value + BlockSeparator + BlocksText(b).value)
  {
    BlocksTextAppend(a, b);
    var t := BlocksText(a).value + BlockSeparator + BlocksText(b).value;
    assert t[|BlocksText(a).value|] == '\n';
  }

  /** One block that throws, anywhere in the document, makes the whole
      preview the raw content. */
  lemma DocumentThrows(content: string, bs: seq<Block>, i: nat)
    requires content != "" && i < |bs|
    requires RenderBlock(bs[i]).None?
    ensures Projection(content, Json(Some(bs))) == Some(content)
  {
    assert BlocksText(bs).None?;
  }

  /** A list block with the given items; its `text` and `checks` are not read. */
  function ListWith(text: Option<string>, items: seq<string>, checks: Option<seq<CheckItem>>): Block {
    Block("list", text, Some(items), checks)
  }

  /** `[].join('\n• ')` is empty and one item is shown as it is. */
  lemma ListShort(text: Option<string>, checks: Option<seq<CheckItem>>, x: string)
    ensures RenderBlock(ListWith(text, [], checks)) == Some("")
    ensures RenderBlock(ListWith(text, [x], checks)) == Some(x)
  {
  }

  /** List items are separated by a new line and a bullet. */
  lemma ListAppend(text: Option<string>, checks: Option<seq<CheckItem>>, a: seq<string>, b: seq<string>)
    requires a != [] && b != []
    ensures RenderBlock(ListWith(text, a + b, checks)) ==
            Some(RenderBlock(ListWith(text, a, checks)).value + ListSeparator + RenderBlock(ListWith(text, b, checks)).value)
  {
    JoinAppend(a, b, ListSeparator);
  }

  /** A checklist block with the given items; its `text` and `items` are not read. */
  function ChecklistWith(text: Option<string>, items: Option<seq<string>>, checks: seq<CheckItem>): Block {
    Block("checklist", text, items, Some(checks))
  }

  /** An empty checklist is empty and one item is shown as its line. */
  lemma ChecklistShort(text: Option<string>, items: Option<seq<string>>, x: CheckItem)
    ensures RenderBlock(ChecklistWith(text, items, [])) == Some("")
    ensures RenderBlock(ChecklistWith(text, items, [x])) == Some(CheckLine(x))
  {
  }

  /** Checklist lines are separated by a single new line. */
  lemma ChecklistAppend(text: Option<string>, items: Option<seq<string>>, a: seq<CheckItem>, b: seq<CheckItem>)
    requires a != [] && b != []
    ensures RenderBlock(ChecklistWith(text, items, a + b)) ==
            Some(RenderBlock(ChecklistWith(text, items, a)).value + "\n" + RenderBlock(ChecklistWith(text, items, b)).value)
  {
    assert CheckLines(a + b) == CheckLines(a) + CheckLines(b) by {
      forall i | 0 <= i < |a + b| ensures CheckLines(a + b)[i] == (CheckLines(a) + CheckLines(b))[i] {
        if i < |a| { assert (a + b)[i] == a[i]; } else { assert (a + b)[i] == b[i - |a|]; }
      }
    }
    JoinAppend(CheckLines(a), CheckLines(b), "\n");
  }

  function Paragraph(text: string): Block {
    Block("paragraph", Some(text), None, None)
  }

  function List(items: seq<string>): Block {
    Block("list", None, Some(items), None)
  }

  /** A paragraph "hi" followed by a list of "a" and "b". */
  lemma ParagraphThenList(content: string)
    requires content != ""
    ensures Projection(content, Json(Some([Paragraph("hi"), List(["a", "b"])]))) == Some("hi\n\na\n\U{2022} b")
  {
    var doc := [Paragraph("hi"), List(["a", "b"])];
    assert RenderBlock(doc[0]) == Some("hi");
    assert Join(["a", "b"], ListSeparator) == "a" + ListSeparator + "b";
    assert "a" + ListSeparator + "b" == "a\n\U{2022} b";
    assert RenderBlock(doc[1]) == Some(Join(["a", "b"], ListSeparator));
    var parts := RenderBlocks(doc).value;
    assert parts == ["hi", "a\n\U{2022} b"];
    assert Join(parts, BlockSeparator) == "hi" + BlockSeparator + "a\n\U{2022} b";
    assert "hi" + BlockSeparator + "a\n\U{2022} b" == "hi\n\na\n\U{2022} b";
    assert BlocksText(doc) == Some("hi\n\na\n\U{2022} b");
  }

  /** A checklist with one ticked and one open item. */
  lemma ChecklistLines(content: string)
    requires content != ""
    ensures Projection(content, Json(Some([Block("checklist", None, None, Some([CheckItem(true, "x"), CheckItem(false, "y")]))])))
         == Some("\U{2713} x\n\U{25CB} y")
  {
    var items := [CheckItem(true, "x"), CheckItem(false, "y")];
    var b := Block("checklist", None, None, Some(items));
    assert CheckLine(items[0]) == "\U{2713} x";
    assert CheckLine(items[1]) == "\U{25CB} y";
    assert CheckLines(items) == ["\U{2713} x", "\U{25CB} y"];
    assert Join(CheckLines(items), "\n") == "\U{2713} x" + "\n" + "\U{25CB} y";
    assert "\U{2713} x" + "\n" + "\U{25CB} y" == "\U{2713} x\n\U{25CB} y";
    assert RenderBlock(b) == Some("\U{2713} x\n\U{25CB} y");
    SingleBlock(content, b);
  }

  /** A quote is wrapped in double quotes, even an absent text. */
  lemma QuoteWrapped(content: string, text: Option<string>)
    requires content != ""
    ensures Projection(content, Json(Some([Block("quote", text, None, None)])))
         == Some("\"" + TemplateText(text) + "\"")
  {
    SingleBlock(content, Block("quote", text, None, None));
  }

  /** A list block without `items` makes the effect throw, and the catch
      shows the raw content. */
  lemma MissingItemsShowsContent(content: string, kind: string)
    requires content != "" && (kind == "list" || kind == "checklist")
    ensures Projection(content, Json(Some([Block(kind, None, None, None)]))) == Some(content)
  {
    SingleBlock(content, Block(kind, None, None, None));
  }
}
