/**
 * The string builders of XMLWriterSimple: one attribute (`key_val`), an
 * attribute list (`key_vals`), and the start, end, empty and enclosing tag
 * strings, the XML declaration (XML 1.0 section 2.8) and the fused
 * fragments the emitters write in one piece.
 *
 * Attribute lists are ordered sequences of (key, value) pairs; keys are
 * written as given, values through `escape_attributes`.
 */
module XmlTags {
  import opened XmlEscape

  /** An attribute as the writer's callers pass it: `[key, value]`. */
  type Attribute = (string, string)

  /** `key_val`: ` key="val"`, with `val` already escaped by the caller. */
  function KeyVal(key: string, val: string): string {
    " " + key + "=\"" + val + "\""
  }

  /** One attribute as `key_vals` renders it. */
  function RenderAttribute(a: Attribute): string {
    KeyVal(a.0, EscapeAttributes(a.1))
  }

  /** The `inject` of `key_vals`: a fold from the left that appends each
      rendered attribute to the accumulator. */
  function KeyValsFrom(acc: string, attrs: seq<Attribute>): string
    decreases |attrs|
  {
    if attrs == [] then acc
    else KeyValsFrom(acc + RenderAttribute(attrs[0]), attrs[1..])
  }

  /** `key_vals`: the fold started from `''`. */
  function KeyVals(attrs: seq<Attribute>): string {
    KeyValsFrom("", attrs)
  }

  /** Reference: the rendered attributes concatenated in the order given. */
  function AttributeList(attrs: seq<Attribute>): string
    decreases |attrs|
  {
    if attrs == [] then "" else RenderAttribute(attrs[0]) + AttributeList(attrs[1..])
  }

  lemma {:induction false} KeyValsFromIsAppend(acc: string, attrs: seq<Attribute>)
    ensures KeyValsFrom(acc, attrs) == acc + AttributeList(attrs)
    decreases |attrs|
  {
    if attrs != [] {
      KeyValsFromIsAppend(acc + RenderAttribute(attrs[0]), attrs[1..]);
    }
  }

  /** `key_vals` is the left-to-right concatenation of ` key="value"` for
      each pair, in the order given, the value escaped and the key not; an
      empty list gives `""`. */
  lemma KeyValsIsAttributeList(attrs: seq<Attribute>)
    ensures KeyVals(attrs) == AttributeList(attrs)
    ensures attrs == [] ==> KeyVals(attrs) == ""
  {
    KeyValsFromIsAppend("", attrs);
  }

  lemma {:induction false} AttributeListAppend(a: seq<Attribute>, b: seq<Attribute>)
    ensures AttributeList(a + b) == AttributeList(a) + AttributeList(b)
    decreases |a|
  {
    if a == [] {
      assert a + b == b;
    } else {
      assert (a + b)[0] == a[0] && (a + b)[1..] == a[1..] + b;
      AttributeListAppend(a[1..], b);
    }
  }

  /** `key_vals` of a joined list is the join of the two renderings, and a
      single pair renders as ` key="escaped value"`. */
  lemma KeyValsAppend(a: seq<Attribute>, b: seq<Attribute>)
    ensures KeyVals(a + b) == KeyVals(a) + KeyVals(b)
    ensures |b| == 1 ==> KeyVals(a + b) == KeyVals(a) + " " + b[0].0 + "=\"" + EscapeAttributes(b[0].1) + "\""
  {
    assert KeyVals(a + b) == KeyVals(a) + KeyVals(b) by {
      KeyValsIsAttributeList(a);
      KeyValsIsAttributeList(b);
      KeyValsIsAttributeList(a + b);
      AttributeListAppend(a, b);
    }
    if |b| == 1 {
      assert KeyVals(b) == RenderAttribute(b[0]) by {
        KeyValsIsAttributeList(b);
        assert b[1..] == [];
      }
    }
  }

  /** Appending a pair whose value needs no escaping appends
      ` key="value"` as given. */
  lemma KeyValsAppendPlain(a: seq<Attribute>, key: string, val: string)
    requires !HasAttributeSpecial(val)
    ensures KeyVals(a + [(key, val)]) == KeyVals(a) + " " + key + "=\"" + val + "\""
  {
    KeyValsAppend(a, [(key, val)]);
    EscapeAttributesIdentity(val);
  }

  /** `start_tag_str` */
  function StartTagStr(tag: string, attrs: seq<Attribute>): string {
    "<" + tag + KeyVals(attrs) + ">"
  }

  /** `end_tag_str` */
  function EndTagStr(tag: string): string {
    "</" + tag + ">"
  }

  /** `empty_tag_encoded_str`, also the string `empty_tag` builds. */
  function EmptyTagEncodedStr(tag: string, attrs: seq<Attribute>): string {
    "<" + tag + KeyVals(attrs) + "/>"
  }

  /** `tag_elements_str`, with `body` the string its block returns. */
  function TagElementsStr(tag: string, attrs: seq<Attribute>, body: string): string {
    StartTagStr(tag, attrs) + body + EndTagStr(tag)
  }

  /** The declaration `xml_decl` writes. */
  function XmlDeclStr(encoding: string, standalone: bool): string {
    "<?xml version=\"1.0\" encoding=\"" + encoding + "\" standalone=\""
      + (if standalone then "yes" else "no") + "\"?>\n"
  }

  /** The `<si>` rich-string entry `si_rich_element` writes: `data` is
      pre-rendered markup and is not escaped. */
  function SiRichElementStr(data: string): string {
    "<si>" + data + "</si>"
  }

  /** The attribute `inline_string` puts on `<t>` to keep white space
      (XML 1.0 section 2.10). */
  function SpaceAttr(preserve: bool): string {
    if preserve then " xml:space=\"preserve\"" else ""
  }

  /** The white-space attribute is the one-pair attribute list
      `[["xml:space", "preserve"]]`, or nothing. */
  lemma SpaceAttrIsKeyVals(preserve: bool)
    ensures KeyVals(if preserve then [("xml:space", "preserve")] else []) == SpaceAttr(preserve)
  {
    KeyValsIsAttributeList([]);
    if preserve {
      assert !HasAttributeSpecial("preserve");
      KeyValsAppendPlain([], "xml:space", "preserve");
      assert [] + [("xml:space", "preserve")] == [("xml:space", "preserve")];
    }
  }

  /** The inline-string cell `inline_string` writes in one piece
      (SpreadsheetML inline-string cell, ECMA-376 Part 1). */
  function InlineStringStr(s: string, preserve: bool, attributes: seq<Attribute>): string {
    "<c" + KeyVals(attributes) + " t=\"inlineStr\"" + ">" + "<is>" + "<t" + SpaceAttr(preserve) + ">"
      + EscapeData(s) + "</t>" + "</is>" + "</c>"
  }

  /** `empty_tag` of a tag without attributes is `<tag/>`; a start tag with
      one attribute and its end tag give `<a x="1"></a>`. */
  lemma TagStrExamples()
    ensures EmptyTagEncodedStr("a", []) == "<a/>"
    ensures StartTagStr("a", [("x", "1")]) + EndTagStr("a") == "<a x=\"1\"></a>"
  {
    KeyValsIsAttributeList([]);
    assert !HasAttributeSpecial("1");
    KeyValsAppendPlain([], "x", "1");
    assert [] + [("x", "1")] == [("x", "1")];
  }

  /** The fused inline-string cell is the composition of the primitives:
      a `<c>` start tag with the caller's attributes followed by
      `t="inlineStr"`, an `<is>` element holding a `<t>` data element (with
      `xml:space="preserve"` when asked for), and the closing tags. */
  lemma InlineStringIsComposite(s: string, preserve: bool, attributes: seq<Attribute>)
    ensures InlineStringStr(s, preserve, attributes)
      == StartTagStr("c", attributes + [("t", "inlineStr")])
         + StartTagStr("is", [])
         + TagElementsStr("t", if preserve then [("xml:space", "preserve")] else [], EscapeData(s))
         + EndTagStr("is")
         + EndTagStr("c")
  {
    var cAttrs := attributes + [("t", "inlineStr")];
    var tAttrs := if preserve then [("xml:space", "preserve")] else [];
    var k, sp, e := KeyVals(attributes), SpaceAttr(preserve), EscapeData(s);
    CellStartTag(attributes);
    CellInnerTags(preserve, e);
    InlineAssemble(k, " t=\"inlineStr\"", sp, e, StartTagStr("c", cAttrs), StartTagStr("is", []),
      TagElementsStr("t", tAttrs, e), EndTagStr("is"), EndTagStr("c"));
  }

  /** The cell's start tag carries its attributes and then `t="inlineStr"`. */
  lemma CellStartTag(attributes: seq<Attribute>)
    ensures StartTagStr("c", attributes + [("t", "inlineStr")])
      == "<c" + (KeyVals(attributes) + " t=\"inlineStr\"") + ">"
  {
    assert KeyVals(attributes + [("t", "inlineStr")]) == KeyVals(attributes) + " t=\"inlineStr\"" by {
      KeyValsAppend(attributes, [("t", "inlineStr")]);
      CellTypeAttribute("t", "inlineStr");
    }
    assert "<" + "c" == "<c";
  }

  /** The tags inside the cell, each by its pieces. */
  lemma CellInnerTags(preserve: bool, e: string)
    ensures StartTagStr("is", []) == "<is" + [] + ">"
    ensures TagElementsStr("t", if preserve then [("xml:space", "preserve")] else [], e)
      == ("<t" + SpaceAttr(preserve) + ">") + e + ("</t" + ">")
    ensures EndTagStr("is") == "</is" + ">" && EndTagStr("c") == "</c" + ">"
  {
    assert StartTagStr("is", []) == "<is" + [] + ">" by {
      KeyValsIsAttributeList([]);
      assert "<" + "is" == "<is";
    }
    SpaceAttrIsKeyVals(preserve);
    assert "<" + "t" == "<t" && "</" + "t" == "</t";
    assert "</" + "is" == "</is" && "</" + "c" == "</c";
  }

  /** The `t="inlineStr"` attribute of the cell, rendered. */
  lemma CellTypeAttribute(key: string, val: string)
    requires key == "t" && val == "inlineStr"
    ensures KeyVals([(key, val)]) == " t=\"inlineStr\""
  {
    assert !HasAttributeSpecial(val);
    KeyValsAppendPlain([], key, val);
    assert [] + [(key, val)] == [(key, val)];
    KeyValsIsAttributeList([]);
    var p1 := " " + key;
    assert p1 == " t";
    var p2 := p1 + "=\"";
    assert p2 == " t=\"";
    var p3 := p2 + val;
    assert p3 == " t=\"inlineStr";
    assert p3 + "\"" == " t=\"inlineStr\"";
  }

  /** The cell string is its five tags and the text between them, once each
      tag is known by its own pieces. */
  lemma InlineAssemble(k: string, cellAttr: string, sp: string, e: string,
                       sc: string, si: string, te: string, ei: string, ec: string)
    requires sc == "<c" + (k + cellAttr) + ">" && si == "<is" + [] + ">"
    requires te == ("<t" + sp + ">") + e + ("</t" + ">")
    requires ei == "</is" + ">" && ec == "</c" + ">"
    ensures "<c" + k + cellAttr + ">" + "<is>" + "<t" + sp + ">" + e + "</t>" + "</is>" + "</c>"
      == sc + si + te + ei + ec
  {
    InlineShape(k, cellAttr, sp, e);
  }

  /** How the pieces of the inline-string cell regroup into tags. */
  lemma InlineShape(k: string, cellAttr: string, sp: string, e: string)
    ensures "<c" + k + cellAttr + ">" + "<is>" + "<t" + sp + ">" + e + "</t>" + "</is>" + "</c>"
      == ("<c" + (k + cellAttr) + ">") + ("<is" + [] + ">") + (("<t" + sp + ">") + e + ("</t" + ">"))
         + ("</is" + ">") + ("</c" + ">")
  {
  }

  /** The `<si>` entry of `si_element` is `<si>` around a `<t>` data
      element, while `si_rich_element` puts its markup there unescaped. */
  lemma SiElementIsComposite(data: string, attrs: seq<Attribute>)
    ensures TagElementsStr("si", [], TagElementsStr("t", attrs, EscapeData(data)))
      == SiRichElementStr(TagElementsStr("t", attrs, EscapeData(data)))
  {
    KeyValsIsAttributeList([]);
  }

  /** The declaration with its defaults: UTF-8, standalone. */
  lemma XmlDeclDefault()
    ensures XmlDeclStr("UTF-8", true) == "<?xml version=\"1.0\" encoding=\"UTF-8\" standalone=\"yes\"?>\n"
  {
  }

  /** Text with one ampersand between two plain parts. */
  lemma EscapeOneAmpersand(a: string, b: string)
    requires !HasDataSpecial(a) && !HasDataSpecial(b)
    ensures EscapeData(a + "&" + b) == a + "&amp;" + b
  {
    EscapeDataAppend(a + "&", b);
    EscapeDataAppend(a, "&");
    EscapeDataIdentity(a);
    EscapeDataIdentity(b);
    AmpersandFirstEscapesOnce();
  }

  /** `data_element("t", "A & B")` writes `<t>A &amp; B</t>`. */
  lemma DataElementExampleStr(text: string)
    requires text == "A & B"
    ensures TagElementsStr("t", [], EscapeData(text)) == "<t>A &amp; B</t>"
  {
    var a, b := "A ", " B";
    var ed := EscapeData(text);
    assert ed == a + "&amp;" + b by {
      assert text == a + "&" + b;
      EscapeOneAmpersand(a, b);
    }
    assert TagElementsStr("t", [], ed) == "<t>" + ed + "</t>" by {
      KeyValsIsAttributeList([]);
      assert "<" + "t" == "<t" && "<t" + "" == "<t" && "<t" + ">" == "<t>";
      assert "</" + "t" + ">" == "</t>";
    }
    var p1 := "<t>" + a;
    assert p1 == "<t>A ";
    var p2 := p1 + "&amp;";
    assert p2 == "<t>A &amp;";
    var p3 := p2 + b;
    assert p3 == "<t>A &amp; B";
    assert "<t>" + ed == p3;
    assert p3 + "</t>" == "<t>A &amp; B</t>";
  }

  /** The start of the cell `inline_string("  pad  ", true, [["r", "A1"]])`
      writes. */
  lemma InlineStringExampleHead(key: string, val: string)
    requires key == "r" && val == "A1"
    ensures "<c" + KeyVals([(key, val)]) + " t=\"inlineStr\"" + ">" == "<c r=\"A1\" t=\"inlineStr\">"
  {
    assert KeyVals([(key, val)]) == " " + key + "=\"" + val + "\"" by {
      assert !HasAttributeSpecial(val);
      KeyValsIsAttributeList([]);
      KeyValsAppendPlain([], key, val);
      assert [] + [(key, val)] == [(key, val)];
    }
    assert "<c" + " r=\"A1\"" == "<c r=\"A1\"";
    assert "<c r=\"A1\"" + " t=\"inlineStr\"" == "<c r=\"A1\" t=\"inlineStr\"";
  }

  /** The rest of that cell: `<is>`, the `<t>` start tag that keeps white
      space, the text, which needs no escaping, and the closing tags. */
  lemma InlineStringExampleTail()
    ensures "<is>" + "<t" + SpaceAttr(true) + ">" == "<is><t xml:space=\"preserve\">"
    ensures EscapeData("  pad  ") == "  pad  "
    ensures "</t>" + "</is>" + "</c>" == "</t></is></c>"
  {
    assert !HasDataSpecial("  pad  ");
    assert "<is>" + "<t" == "<is><t";
    assert "<is><t" + " xml:space=\"preserve\"" == "<is><t xml:space=\"preserve\"";
  }

  /** `inline_string("  pad  ", true, [["r", "A1"]])` writes the cell with
      `xml:space="preserve"` on `<t>` and the text unchanged. */
  lemma InlineStringExampleStr()
    ensures InlineStringStr("  pad  ", true, [("r", "A1")])
      == "<c r=\"A1\" t=\"inlineStr\">" + "<is><t xml:space=\"preserve\">" + "  pad  " + "</t></is></c>"
  {
    InlineStringExampleHead("r", "A1");
    InlineStringExampleTail();
    var k, sp, e := KeyVals([("r", "A1")]), SpaceAttr(true), EscapeData("  pad  ");
    assert InlineStringStr("  pad  ", true, [("r", "A1")])
      == ("<c" + k + " t=\"inlineStr\"" + ">") + ("<is>" + "<t" + sp + ">") + e + ("</t>" + "</is>" + "</c>");
  }
}
