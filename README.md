# XMLWriterSimple in Dafny

A model of `Writexlsx::Package::XMLWriterSimple` from the `write_xlsx` Ruby gem. It is the
streaming XML emitter that writes the part files of a spreadsheet package (worksheets,
shared strings and so on) into a buffer. The model follows the class's three layers: escaping,
tag strings and the writer. Two reading models stand beside them as partners of what is
written:

- **Escaping** (`escaping.dfy`, module `XmlEscape`). `escape_data` escapes element content
  (XML 1.0 section 2.4). `escape_attributes` escapes attribute values (XML 1.0 section 3.1).
  Each one is modelled as the code is written: a `=~` test for the special characters, then
  a chain of `gsub` calls, one per character, `&` first. Next to each escaper is a one-pass
  reference that escapes each character by itself. The lemmas prove that:
  - the chain equals the one-pass reference, so no entity is ever escaped twice;
  - the input comes back unchanged exactly when it holds no special character;
  - the forbidden characters are absent from the output;
  - every `&` in the output begins an entity;
  - escaping distributes over concatenation, for both escapers;
  - replacing the entities one after the other, with `&amp;` replaced last, recovers the input.
- **Tag strings** (`tags.dfy`, module `XmlTags`). These are `key_val` and the `inject` fold
  `key_vals`, the start, end, empty and enclosing tag strings, the XML declaration (XML 1.0
  section 2.8), and the fragments written in one piece: the `<si>` rich string, and the
  inline-string cell of SpreadsheetML (ECMA-376 Part 1, with `xml:space="preserve"` from
  XML 1.0 section 2.10). The lemmas prove that:
  - `key_vals` is the in-order concatenation of the escaped pairs;
  - the fused inline-string cell is the composition of the tag primitives;
  - concrete calls produce the exact literal output.
- **Reading back** (`reading.dfy`, module `XmlRead`). This is a small reader for what the
  builders write. It is the partner of the builders. Reading back these fragments returns
  exactly the tag name, the attribute pairs (values unescaped, order kept) and the text that
  were passed in:
  - a rendered attribute list;
  - a start tag, an empty tag or an end tag;
  - a data element.
  The reader needs a tag name without space, `/` or `>`, and attribute keys without `=`. The
  writer does not escape tag names or keys, and it does not check them. This reader is
  simpler than a conforming XML parser: it normalizes neither line ends nor attribute values
  (see "## Findings" and "## Left out").
- **Attribute-value normalization** (`normalize.dfy`, module `XmlNormalize`). This models how
  a conforming XML processor reads a quoted attribute value: line ends first (XML 1.0 section
  2.11), then attribute-value normalization (XML 1.0 section 3.3.3). Normalization turns each
  literal tab, LF or CR into a space, and each reference into the character it stands for.
  The lemmas show that `escape_attributes` loses tabs and line breaks on such a reading. They
  also prove that an escaper which writes those characters as character references
  round-trips every value.
- **The writer** (`writer.dfy`, module `XmlWriter`). Class `XmlWriterSimple` has one field,
  `io`, the in-memory sink (`StringIO`) as a string. Each emitter is a method:
  - it appends its fragment to `io` through `IoWrite` (`@io << str`);
  - it returns what the Ruby method returns;
  - its postcondition states the new buffer as the old buffer plus the exact fragment.
  The module also holds the `XMLNS` constant and a few client methods. Each client method
  drives a fresh writer and states the exact document it gets.

## Model

| member | source | states |
|---|---|---|
| XmlEscape.ReplaceChar | lib/write_xlsx/package/xml_writer_simple.rb:164-166 | a single-character `gsub` leaves a string without that character unchanged |
| XmlEscape.ReplaceCharAppend | lib/write_xlsx/package/xml_writer_simple.rb:164-166 | a single-character `gsub` of a concatenation is the concatenation of the two substituted parts |
| XmlEscape.EscapeDataPass | lib/write_xlsx/package/xml_writer_simple.rb:162-170 | one-pass reference escaping of content: no `<` or `>` in the output, a `"` in the output exactly when one is in the input, never shorter, and longer exactly when the input holds `&`, `<` or `>` |
| XmlEscape.EscapeDataSubstIsPass | lib/write_xlsx/package/xml_writer_simple.rb:164-166 | the `&`-then-`<`-then-`>` gsub chain equals one-pass escaping on every input, so no entity it introduces is rewritten |
| XmlEscape.EscapeDataIsPass | lib/write_xlsx/package/xml_writer_simple.rb:162-170 | `escape_data` with its `=~` short-circuit equals one-pass escaping on every input |
| XmlEscape.EscapeDataIdentity | lib/write_xlsx/package/xml_writer_simple.rb:162-170 | `escape_data` returns its input if and only if the input holds none of `&`, `<`, `>` |
| XmlEscape.EscapeDataMarkupFree | lib/write_xlsx/package/xml_writer_simple.rb:162-170 | the output of `escape_data` holds no `<` and no `>`, and holds `"` exactly when the input does (quotes are left alone) |
| XmlEscape.EscapeDataAppend | lib/write_xlsx/package/xml_writer_simple.rb:162-170 | escaping `a + b` gives the escape of `a` followed by the escape of `b` |
| XmlEscape.EscapeDataAmpersands | lib/write_xlsx/package/xml_writer_simple.rb:162-170 | every `&` in the output of `escape_data` begins `&amp;`, `&lt;` or `&gt;` |
| XmlEscape.UnescapeEscapeData | lib/write_xlsx/package/xml_writer_simple.rb:162-170 | replacing `&lt;`, then `&gt;`, then `&amp;` in the output of `escape_data` recovers the input exactly |
| XmlEscape.EscapeAttributesPass | lib/write_xlsx/package/xml_writer_simple.rb:152-160 | one-pass reference escaping of attribute values: no `"`, `<` or `>` in the output, never shorter, and longer exactly when the input holds `"`, `&`, `<` or `>` |
| XmlEscape.EscapeAttributesSubstIsPass | lib/write_xlsx/package/xml_writer_simple.rb:155-159 | the `&`, `"`, `<`, `>` gsub chain equals one-pass escaping on every input |
| XmlEscape.EscapeAttributesIsPass | lib/write_xlsx/package/xml_writer_simple.rb:152-160 | `escape_attributes` with its early return equals one-pass escaping on every input |
| XmlEscape.EscapeAttributesIdentity | lib/write_xlsx/package/xml_writer_simple.rb:152-160 | `escape_attributes` returns its input if and only if the input holds none of `"`, `&`, `<`, `>` |
| XmlEscape.EscapeAttributesMarkupFree | lib/write_xlsx/package/xml_writer_simple.rb:152-160 | the output of `escape_attributes` holds no `"`, `<` or `>` |
| XmlEscape.EscapeAttributesAppend | lib/write_xlsx/package/xml_writer_simple.rb:152-160 | `escape_attributes` of `a + b`, with its early return, gives the escape of `a` followed by the escape of `b` |
| XmlEscape.EscapeAttributesAmpersands | lib/write_xlsx/package/xml_writer_simple.rb:152-160 | every `&` in the output of `escape_attributes` begins `&amp;`, `&quot;`, `&lt;` or `&gt;` |
| XmlEscape.UnescapeEscapeAttributes | lib/write_xlsx/package/xml_writer_simple.rb:152-160 | replacing `&quot;`, `&lt;`, `&gt;`, then `&amp;` in the output of `escape_attributes` recovers the input exactly |
| XmlEscape.AmpersandLastWouldDoubleEscape | lib/write_xlsx/package/xml_writer_simple.rb:164-166 | with `&` replaced after `<` instead of first, `<` would come out as `&amp;lt;`, which is why the chain starts with `&` |
| XmlEscape.AmpersandFirstEscapesOnce | lib/write_xlsx/package/xml_writer_simple.rb:152-170 | `escape_data("<")` is `&lt;`, `escape_data("&")` is `&amp;`, and `escape_attributes('"')` is `&quot;`, each escaped once |
| XmlTags.KeyValsIsAttributeList | lib/write_xlsx/package/xml_writer_simple.rb:143-150 | the `inject` fold of `key_vals` equals the in-order concatenation of ` key="escape_attributes(val)"`, and an empty list gives `""` |
| XmlTags.KeyValsAppend | lib/write_xlsx/package/xml_writer_simple.rb:143-150 | `key_vals` of a joined list is the join of the two renderings, and one pair renders as ` key="escaped value"` with the key as given |
| XmlTags.KeyValsAppendPlain | lib/write_xlsx/package/xml_writer_simple.rb:143-150 | appending a pair whose value holds no special character appends ` key="value"` verbatim |
| XmlTags.SpaceAttrIsKeyVals | lib/write_xlsx/package/xml_writer_simple.rb:100 | the `<t>` attribute of `inline_string` is the rendering of `[["xml:space", "preserve"]]` when `preserve` holds, and empty otherwise |
| XmlTags.TagStrExamples | lib/write_xlsx/package/xml_writer_simple.rb:49-72 | `empty_tag_encoded_str("a", [])` is `<a/>`, and `start_tag_str("a", [["x","1"]]) + end_tag_str("a")` is `<a x="1"></a>` |
| XmlTags.InlineStringIsComposite | lib/write_xlsx/package/xml_writer_simple.rb:95-109 | the fused inline-string cell equals a `<c>` start tag with the caller's attributes followed by `t="inlineStr"`, then `<is>`, then a `<t>` element holding the escaped text (with `xml:space="preserve"` when asked), then `</is></c>` |
| XmlTags.SiElementIsComposite | lib/write_xlsx/package/xml_writer_simple.rb:81-90 | the `<si>` entry written by `si_element` is the `si_rich_element` wrapping of its escaped `<t>` data element |
| XmlTags.XmlDeclDefault | lib/write_xlsx/package/xml_writer_simple.rb:27-30 | the declaration with the default arguments is `<?xml version="1.0" encoding="UTF-8" standalone="yes"?>` and a line feed |
| XmlTags.EscapeOneAmpersand | lib/write_xlsx/package/xml_writer_simple.rb:162-170 | text with one `&` between two plain parts is written with `&amp;` in its place and nothing else changed |
| XmlTags.DataElementExampleStr | lib/write_xlsx/package/xml_writer_simple.rb:74-76 | the `<t>` element for the text `A & B` is `<t>A &amp; B</t>` |
| XmlTags.InlineStringExampleStr | lib/write_xlsx/package/xml_writer_simple.rb:95-109 | `inline_string("  pad  ", true, [["r","A1"]])` writes `<c r="A1" t="inlineStr"><is><t xml:space="preserve">  pad  </t></is></c>` |
| XmlRead.ReadAttributeList | lib/write_xlsx/package/xml_writer_simple.rb:147-150 | reading back a rendered attribute list gives the pairs in order with their values unescaped, and stops where the list ends |
| XmlRead.ReadAttributesOfKeyVals | lib/write_xlsx/package/xml_writer_simple.rb:143-150 | reading back the output of `key_vals` gives exactly the pairs it was given, when no key holds `=` |
| XmlRead.ReadStartTagOf | lib/write_xlsx/package/xml_writer_simple.rb:49-51 | reading back `start_tag_str(tag, attrs)` gives `tag` and `attrs` and leaves what follows untouched |
| XmlRead.ReadEndTagOf | lib/write_xlsx/package/xml_writer_simple.rb:57-59 | reading back `end_tag_str(tag)` gives `tag` |
| XmlRead.ReadEmptyTagOf | lib/write_xlsx/package/xml_writer_simple.rb:61-72 | reading back the empty tag of `empty_tag` and `empty_tag_encoded_str` gives `tag` and `attrs` |
| XmlRead.ReadDataElementOf | lib/write_xlsx/package/xml_writer_simple.rb:38-43 | reading back `tag_elements_str(tag, attrs) { escape_data(data) }` gives the tag, the attributes and the original text |
| XmlNormalize.SpacedText | lib/write_xlsx/package/xml_writer_simple.rb:152-160 | reference for what normalization leaves of a value without references: no tab, LF or CR remains |
| XmlNormalize.SpacedTextIdentity | lib/write_xlsx/package/xml_writer_simple.rb:152-160 | normalization leaves a value unchanged if and only if the value holds no tab, LF or CR |
| XmlNormalize.NormalizeEscapeAttributesPass | lib/write_xlsx/package/xml_writer_simple.rb:152-160 | a conforming reading of the escaped value gives the value with each tab, LF, CR and CR LF pair turned into one space |
| XmlNormalize.AttributeBreaksAreLost | lib/write_xlsx/package/xml_writer_simple.rb:152-160 | as written: for every value holding a tab, LF or CR, a conforming reading of `escape_attributes(v)` is not `v` |
| XmlNormalize.NewlineAttributeExample | lib/write_xlsx/package/xml_writer_simple.rb:143-160 | as written: `key_vals([["k", "a\nb"]])` writes the line feed raw, and a conforming reading of that value gives `a b` |
| XmlNormalize.EscapeAttributesCharRefs | lib/write_xlsx/package/xml_writer_simple.rb:152-160 | corrected escaping: no `"`, `<`, `>`, tab, LF or CR in the output |
| XmlNormalize.NormalizeEscapeAttributesCharRefs | lib/write_xlsx/package/xml_writer_simple.rb:152-160 | corrected escaping: a conforming reading gives back every value exactly |
| XmlNormalize.EscapeAttributesCharRefsAgrees | lib/write_xlsx/package/xml_writer_simple.rb:152-160 | the corrected escaping equals `escape_attributes` on every value without tab, LF or CR |
| XmlWriter.XmlWriterSimple.constructor | lib/write_xlsx/package/xml_writer_simple.rb:14-21 | a new writer with the in-memory sink starts empty |
| XmlWriter.XmlWriterSimple.IoWrite | lib/write_xlsx/package/xml_writer_simple.rb:135-139 | appends exactly `str` to the buffer and returns `str` |
| XmlWriter.XmlWriterSimple.XmlDecl | lib/write_xlsx/package/xml_writer_simple.rb:27-30 | appends the declaration with the given encoding and `yes`/`no` for `standalone`, and returns it |
| XmlWriter.XmlWriterSimple.StartTag | lib/write_xlsx/package/xml_writer_simple.rb:45-47 | appends `start_tag_str(tag, attrs)` and returns it |
| XmlWriter.XmlWriterSimple.EndTag | lib/write_xlsx/package/xml_writer_simple.rb:53-55 | appends `end_tag_str(tag)` and returns it |
| XmlWriter.XmlWriterSimple.EmptyTag | lib/write_xlsx/package/xml_writer_simple.rb:61-64 | appends the string it builds inline, which equals `empty_tag_encoded_str(tag, attrs)`, and returns it |
| XmlWriter.XmlWriterSimple.EmptyTagEncoded | lib/write_xlsx/package/xml_writer_simple.rb:66-68 | appends `empty_tag_encoded_str(tag, attrs)` and returns it |
| XmlWriter.XmlWriterSimple.TagElements | lib/write_xlsx/package/xml_writer_simple.rb:32-36 | appends the start tag, what the block writes and the end tag, which together equal `tag_elements_str`, and returns the end tag string |
| XmlWriter.XmlWriterSimple.DataElement | lib/write_xlsx/package/xml_writer_simple.rb:74-76 | appends `start_tag_str(t, a) + escape_data(d) + end_tag_str(t)` |
| XmlWriter.XmlWriterSimple.SiElement | lib/write_xlsx/package/xml_writer_simple.rb:81-83 | appends `<si>`, then the `<t>` data element, then `</si>` |
| XmlWriter.XmlWriterSimple.SiRichElement | lib/write_xlsx/package/xml_writer_simple.rb:88-90 | appends `"<si>" + data + "</si>"`, the data unescaped |
| XmlWriter.XmlWriterSimple.InlineString | lib/write_xlsx/package/xml_writer_simple.rb:95-109 | appends the inline-string cell in one piece and returns it |
| XmlWriter.XmlWriterSimple.Characters | lib/write_xlsx/package/xml_writer_simple.rb:111-113 | appends the escaped text and returns it |
| XmlWriter.XmlWriterSimple.Crlf | lib/write_xlsx/package/xml_writer_simple.rb:115-117 | appends exactly a line feed |
| XmlWriter.XmlWriterSimple.String | lib/write_xlsx/package/xml_writer_simple.rb:126-128 | returns the whole buffer written so far |
| XmlWriter.StartEndExample | lib/write_xlsx/package/xml_writer_simple.rb:45-59 | a fresh writer given `start_tag("a", [["x","1"]])` and `end_tag("a")` holds `<a x="1"></a>` |
| XmlWriter.EmptyTagExample | lib/write_xlsx/package/xml_writer_simple.rb:61-64 | a fresh writer given `empty_tag("a")` holds `<a/>` |
| XmlWriter.DataElementExample | lib/write_xlsx/package/xml_writer_simple.rb:74-76 | a fresh writer given `data_element("t", "A & B")` holds `<t>A &amp; B</t>` |
| XmlWriter.InlineStringExample | lib/write_xlsx/package/xml_writer_simple.rb:95-109 | a fresh writer given `inline_string("  pad  ", true, [["r","A1"]])` holds the exact cell, white space kept |
| XmlWriter.XmlDeclExample | lib/write_xlsx/package/xml_writer_simple.rb:27-30 | a fresh writer given `xml_decl` with no arguments holds the UTF-8, standalone declaration |

## Left out

- The `Tempfile` sink chosen by `initialize(true)`, its `binmode`, and the rewind-and-read path of `string` (xml_writer_simple.rb:14-21, 129-132). These are file-system I/O. Only the in-memory sink is modelled, as a string field.
- `close`, its `File.open(@filename, "wb")` copy, and `set_xml_writer` (xml_writer_simple.rb:119-124, 23-25). These are destination-file I/O and releasing the stream.
- `attr_writer :io` (xml_writer_simple.rb:12). It swaps in an arbitrary foreign stream object, whose behaviour is not visible here.
- Ruby blocks. `tag_elements` and `tag_elements_str` take the text their block writes or returns as a string argument (`body`), not a callback.
- The regular-expression engine. `=~` is modelled as a membership test on the special characters, and each `gsub` as character-by-character replacement.
- Non-string values. Ruby interpolates integers and other values through `to_s`. Here every tag, key, value, encoding and text is a string.
- XmlWriter.XmlWriterSimple.XmlDecl: `standalone` is a `bool`. The model does not capture Ruby's truthiness, where any value other than `false` and `nil` gives `yes`.
- XmlWriter.XmlWriterSimple.InlineString: `preserve` is a `bool`. The model does not capture Ruby's truthiness, where any value other than `false` and `nil` adds `xml:space="preserve"`.
- Strings and encodings. A `string` here is a sequence of Unicode characters, while a Ruby String is bytes plus an encoding. The `=~` tests and the `gsub` calls (xml_writer_simple.rb:153-159, 163-166) raise `ArgumentError` on a string whose bytes are not valid in its encoding. That error path is not modelled.
- XmlRead.ReadAttributesOfKeyVals: the reader does not normalize attribute values. Its round trip therefore holds for this reader, not for a conforming XML parser, which turns an unescaped tab, LF or CR into a space. See "## Findings".
- XmlRead.ReadDataElementOf: the reader does not normalize line ends. A conforming parser reads a CR that `escape_data` left in element content as LF (XML 1.0 section 2.11), so the round trip holds for this reader only.
- A client example that writes a root tag with the `XMLNS` namespace attribute is not included. The constant itself is modelled as `XmlWriter.Xmlns`.
- Tag names and attribute keys are written as given, as the code does. No well-formedness check and no tag stack is modelled. The reader lemmas only name the conditions under which such output can be read back.

## Findings

| source | as written | input that shows it | evidently intended | confidence | as-written member | corrected member |
|---|---|---|---|---|---|---|
| lib/write_xlsx/package/xml_writer_simple.rb:152-160 | `escape_attributes` escapes only `"`, `&`, `<`, `>`, so tab, LF and CR are written raw inside the quotes. Attribute-value normalization (XML 1.0 section 3.3.3) turns each of them into a space. | `key_vals([["k", "a\nb"]])` writes ` k="a` LF `b"`, and a conforming parser reads the value as `a b` | a value written by `key_vals` reads back unchanged: write tab, LF and CR as `&#9;`, `&#10;`, `&#13;` | medium; not executed | XmlNormalize.AttributeBreaksAreLost | XmlNormalize.NormalizeEscapeAttributesCharRefs |

The writer keeps the code's `escape_attributes`, because the model describes what the code writes. The corrected escaping, `XmlNormalize.EscapeAttributesCharRefs`, stands beside it. It round-trips every value under a conforming reading, and `XmlNormalize.EscapeAttributesCharRefsAgrees` proves it agrees with the code on every value without tab, LF or CR.
