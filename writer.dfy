/**
 * XMLWriterSimple as an object: the in-memory sink (`StringIO`) is the
 * field `io`, and every emitter appends one fragment to it through
 * `IoWrite` (`@io << str`) and returns what `io_write` returned. Each
 * method's postcondition gives the new contents as the old contents plus
 * the exact fragment; the builders and their lemmas say what the fragments
 * are.
 */
module XmlWriter {
  import opened XmlEscape
  import opened XmlTags

  /** `XMLNS`: the SpreadsheetML main namespace, which callers pass as an
      ordinary attribute of the root tag they write. */
  const Xmlns: string := "http://schemas.openxmlformats.org/spreadsheetml/2006/main"

  class XmlWriterSimple {
    /** Everything written so far. */
    var io: string

    /** `initialize` without optimisation: an empty in-memory sink. */
    constructor ()
      ensures io == ""
    {
      io := "";
    }

    /** `io_write`: appends `str` and returns it. */
    method IoWrite(str: string) returns (written: string)
      modifies this
      ensures io == old(io) + str
      ensures written == str
    {
      io := io + str;
      written := str;
    }

    /** `xml_decl` */
    method XmlDecl(encoding: string := "UTF-8", standalone: bool := true) returns (written: string)
      modifies this
      ensures written == XmlDeclStr(encoding, standalone)
      ensures io == old(io) + written
    {
      written := IoWrite(XmlDeclStr(encoding, standalone));
    }

    /** `start_tag` */
    method StartTag(tag: string, attrs: seq<Attribute> := []) returns (written: string)
      modifies this
      ensures written == StartTagStr(tag, attrs)
      ensures io == old(io) + written
    {
      written := IoWrite(StartTagStr(tag, attrs));
    }

    /** `end_tag` */
    method EndTag(tag: string) returns (written: string)
      modifies this
      ensures written == EndTagStr(tag)
      ensures io == old(io) + written
    {
      written := IoWrite(EndTagStr(tag));
    }

    /** `empty_tag`: builds `<tag attrs/>` itself, the same string as
        `empty_tag_encoded_str`. */
    method EmptyTag(tag: string, attrs: seq<Attribute> := []) returns (written: string)
      modifies this
      ensures written == EmptyTagEncodedStr(tag, attrs)
      ensures io == old(io) + written
    {
      var str := "<" + tag + KeyVals(attrs) + "/>";
      written := IoWrite(str);
    }

    /** `empty_tag_encoded` */
    method EmptyTagEncoded(tag: string, attrs: seq<Attribute> := []) returns (written: string)
      modifies this
      ensures written == EmptyTagEncodedStr(tag, attrs)
      ensures io == old(io) + written
    {
      written := IoWrite(EmptyTagEncodedStr(tag, attrs));
    }

    /** `tag_elements`: start tag, then what the block writes (`body`),
        then the end tag, whose string is returned. */
    method TagElements(tag: string, attrs: seq<Attribute> := [], body: string) returns (written: string)
      modifies this
      ensures io == old(io) + TagElementsStr(tag, attrs, body)
      ensures written == EndTagStr(tag)
    {
      var _ := StartTag(tag, attrs);
      var _ := IoWrite(body);
      written := EndTag(tag);
    }

    /** `data_element`: a tag whose block writes the escaped text. */
    method DataElement(tag: string, data: string, attrs: seq<Attribute> := []) returns (written: string)
      modifies this
      ensures io == old(io) + TagElementsStr(tag, attrs, EscapeData(data))
      ensures written == EndTagStr(tag)
    {
      written := TagElements(tag, attrs, EscapeData(data));
    }

    /** `si_element`: `<si>` around a `<t>` data element. */
    method SiElement(data: string, attrs: seq<Attribute>) returns (written: string)
      modifies this
      ensures io == old(io) + TagElementsStr("si", [], TagElementsStr("t", attrs, EscapeData(data)))
      ensures written == EndTagStr("si")
    {
      var _ := StartTag("si", []);
      var _ := DataElement("t", data, attrs);
      written := EndTag("si");
    }

    /** `si_rich_element`: `<si>` around pre-rendered markup, unescaped. */
    method SiRichElement(data: string) returns (written: string)
      modifies this
      ensures written == SiRichElementStr(data)
      ensures io == old(io) + written
    {
      written := IoWrite(SiRichElementStr(data));
    }

    /** `inline_string`: an inline-string cell in one piece. */
    method InlineString(s: string, preserve: bool, attributes: seq<Attribute>) returns (written: string)
      modifies this
      ensures written == InlineStringStr(s, preserve, attributes)
      ensures io == old(io) + written
    {
      written := IoWrite(InlineStringStr(s, preserve, attributes));
    }

    /** `characters`: escaped text without a tag. */
    method Characters(data: string) returns (written: string)
      modifies this
      ensures written == EscapeData(data)
      ensures io == old(io) + written
    {
      written := IoWrite(EscapeData(data));
    }

    /** `crlf`: a single line feed. */
    method Crlf() returns (written: string)
      modifies this
      ensures written == "\n"
      ensures io == old(io) + written
    {
      written := IoWrite("\n");
    }

    /** `string`: everything written so far. */
    method String() returns (s: string)
      ensures s == io
    {
      s := io;
    }
  }

  /** A start tag with one attribute followed by its end tag. */
  method StartEndExample() returns (out: string)
    ensures out == "<a x=\"1\"></a>"
  {
    var w := new XmlWriterSimple();
    var _ := w.StartTag("a", [("x", "1")]);
    var _ := w.EndTag("a");
    out := w.String();
    TagStrExamples();
  }

  /** An empty tag without attributes. */
  method EmptyTagExample() returns (out: string)
    ensures out == "<a/>"
  {
    var w := new XmlWriterSimple();
    var _ := w.EmptyTag("a");
    out := w.String();
    TagStrExamples();
  }

  /** A data element whose text holds an ampersand. */
  method DataElementExample() returns (out: string)
    ensures out == "<t>A &amp; B</t>"
  {
    var w := new XmlWriterSimple();
    var _ := w.DataElement("t", "A & B");
    out := w.String();
    DataElementExampleStr("A & B");
  }

  /** An inline-string cell that keeps its white space. */
  method InlineStringExample() returns (out: string)
    ensures out == "<c r=\"A1\" t=\"inlineStr\">" + "<is><t xml:space=\"preserve\">" + "  pad  " + "</t></is></c>"
  {
    var w := new XmlWriterSimple();
    var _ := w.InlineString("  pad  ", true, [("r", "A1")]);
    out := w.String();
    InlineStringExampleStr();
  }

  /** The declaration with its defaults. */
  method XmlDeclExample() returns (out: string)
    ensures out == "<?xml version=\"1.0\" encoding=\"UTF-8\" standalone=\"yes\"?>\n"
  {
    var w := new XmlWriterSimple();
    var _ := w.XmlDecl();
    out := w.String();
    XmlDeclDefault();
  }
}
