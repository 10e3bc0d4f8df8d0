/**
 * A small reader for the fragments XMLWriterSimple writes, used only as
 * the partner of the builders: the lemmas prove that reading back an
 * attribute list, a start tag, an empty tag, an end tag or a data element
 * recovers exactly the tag name, the attribute pairs (values unescaped)
 * and the text the builders were given. The writer itself checks none of
 * this; the lemmas say under which conditions on names and keys (which the
 * writer does not escape) its output can be read back.
 */
module XmlRead {
  import opened XmlEscape
  import opened XmlTags

  datatype Option<T> = None | Some(value: T)

  /** Splits `s` before its first character that is in `stop`. */
  function Span(s: string, stop: set<char>): (r: (string, string))
    ensures r.0 + r.1 == s
    ensures forall x :: x in r.0 ==> x !in stop
    ensures r.1 == [] || r.1[0] in stop
    decreases |s|
  {
    if s == [] || s[0] in stop then ([], s)
    else
      var (p, q) := Span(s[1..], stop);
      ([s[0]] + p, q)
  }

  /** A split before a stop character is the one `Span` finds. */
  lemma {:induction false} SpanOf(p: string, q: string, stop: set<char>)
    requires forall x :: x in p ==> x !in stop
    requires q == [] || q[0] in stop
    ensures Span(p + q, stop) == (p, q)
    decreases |p|
  {
    if p == [] {
      assert p + q == q;
    } else {
      assert (p + q)[0] == p[0] && (p + q)[1..] == p[1..] + q;
      SpanOf(p[1..], q, stop);
      assert [p[0]] + p[1..] == p;
    }
  }

  /** Characters that end a tag name. */
  const NameStops: set<char> := {' ', '/', '>'}

  /** A tag name the reader can delimit. */
  predicate IsTagName(tag: string) {
    ' ' !in tag && '/' !in tag && '>' !in tag
  }

  /** Attribute keys the reader can delimit: none holds `=`. */
  predicate KeysArePlain(attrs: seq<Attribute>) {
    forall i :: 0 <= i < |attrs| ==> '=' !in attrs[i].0
  }

  /** Reads ` key="value"` pairs until the next character is not a space. */
  function ReadAttributes(s: string): Option<(seq<Attribute>, string)>
    decreases |s|
  {
    if s == [] || s[0] != ' ' then Some(([], s))
    else
      var (key, t) := Span(s[1..], {'='});
      if !StartsWith(t, "=\"") then None
      else
        var (raw, u) := Span(t[2..], {'"'});
        if u == [] then None
        else
          match ReadAttributes(u[1..])
          case None => None
          case Some((more, rest)) => Some(([(key, UnescapeAttributes(raw))] + more, rest))
  }

  /** Reads `<name attrs>`. */
  function ReadStartTag(s: string): Option<(string, seq<Attribute>, string)> {
    if !StartsWith(s, "<") then None
    else
      var (name, t) := Span(s[1..], NameStops);
      match ReadAttributes(t)
      case None => None
      case Some((attrs, u)) => if StartsWith(u, ">") then Some((name, attrs, u[1..])) else None
  }

  /** Reads `<name attrs/>`. */
  function ReadEmptyTag(s: string): Option<(string, seq<Attribute>, string)> {
    if !StartsWith(s, "<") then None
    else
      var (name, t) := Span(s[1..], NameStops);
      match ReadAttributes(t)
      case None => None
      case Some((attrs, u)) => if StartsWith(u, "/>") then Some((name, attrs, u[2..])) else None
  }

  /** Reads `</name>`. */
  function ReadEndTag(s: string): Option<(string, string)> {
    if !StartsWith(s, "</") then None
    else
      var (name, t) := Span(s[2..], {'>'});
      if t == [] then None else Some((name, t[1..]))
  }

  /** Reads `<name attrs>text</name>`, the text unescaped. */
  function ReadDataElement(s: string): Option<(string, seq<Attribute>, string, string)> {
    match ReadStartTag(s)
    case None => None
    case Some((name, attrs, t)) =>
      var (raw, u) := Span(t, {'<'});
      match ReadEndTag(u)
      case None => None
      case Some((closing, rest)) =>
        if closing == name then Some((name, attrs, UnescapeData(raw), rest)) else None
  }

  /** Reading back a rendered attribute list gives the pairs, values
      unescaped, in their order, and stops where the list ends. */
  lemma {:induction false} ReadAttributeList(attrs: seq<Attribute>, rest: string)
    requires KeysArePlain(attrs)
    requires rest == [] || rest[0] != ' '
    ensures ReadAttributes(AttributeList(attrs) + rest) == Some((attrs, rest))
    decreases |attrs|
  {
    if attrs == [] {
      assert AttributeList(attrs) + rest == rest;
    } else {
      assert '=' !in attrs[0].0;
      assert KeysArePlain(attrs[1..]) by {
        assert forall i :: 0 <= i < |attrs[1..]| ==> attrs[1..][i] == attrs[i + 1];
      }
      ReadAttributeList(attrs[1..], rest);
      ReadAttributeListCons(attrs[0], attrs[1..], rest);
      assert [attrs[0]] + attrs[1..] == attrs;
    }
  }

  /** One more rendered pair in front of a readable list. */
  lemma ReadAttributeListCons(a: Attribute, more: seq<Attribute>, rest: string)
    requires '=' !in a.0
    requires ReadAttributes(AttributeList(more) + rest) == Some((more, rest))
    ensures ReadAttributes(AttributeList([a] + more) + rest) == Some(([a] + more, rest))
  {
    var tail := AttributeList(more) + rest;
    assert AttributeList([a] + more) + rest == RenderAttribute(a) + tail by {
      assert ([a] + more)[0] == a && ([a] + more)[1..] == more;
    }
    ReadAttributeCons(a, tail, more, rest);
  }

  /** Reading one rendered pair in front of a readable list. */
  lemma ReadAttributeCons(a: Attribute, tail: string, more: seq<Attribute>, rest: string)
    requires '=' !in a.0
    requires ReadAttributes(tail) == Some((more, rest))
    ensures ReadAttributes(RenderAttribute(a) + tail) == Some(([a] + more, rest))
  {
    var ev := EscapeAttributes(a.1);
    assert '"' !in ev by {
      EscapeAttributesMarkupFree(a.1);
    }
    assert UnescapeAttributes(ev) == a.1 by {
      UnescapeEscapeAttributes(a.1);
    }
    ReadPairSplits(a.0, ev, tail);
    ReadAttributesStep(KeyVal(a.0, ev) + tail, a.0, "\"" + tail, ev, a.1, more, rest);
  }

  /** The two splits `ReadAttributes` makes on ` key="raw"` followed by
      `tail`. */
  lemma ReadPairSplits(key: string, raw: string, tail: string)
    requires '=' !in key && '"' !in raw
    ensures var s := KeyVal(key, raw) + tail;
      var u := "\"" + tail;
      s != [] && s[0] == ' ' &&
      Span(s[1..], {'='}) == (key, "=\"" + raw + u) &&
      Span(("=\"" + raw + u)[2..], {'"'}) == (raw, u) &&
      u != [] && u[1..] == tail
  {
    var u := "\"" + tail;
    var t := "=\"" + raw + u;
    assert (KeyVal(key, raw) + tail)[1..] == key + t;
    SpanOf(key, t, {'='});
    assert t[2..] == raw + u;
    SpanOf(raw, u, {'"'});
    assert u[1..] == tail;
  }

  /** One step of `ReadAttributes`, its splits given. */
  lemma ReadAttributesStep(s: string, key: string, u: string, raw: string, val: string, more: seq<Attribute>, rest: string)
    requires s != [] && s[0] == ' '
    requires Span(s[1..], {'='}) == (key, "=\"" + raw + u)
    requires Span(("=\"" + raw + u)[2..], {'"'}) == (raw, u)
    requires u != [] && ReadAttributes(u[1..]) == Some((more, rest))
    requires UnescapeAttributes(raw) == val
    ensures ReadAttributes(s) == Some(([(key, val)] + more, rest))
  {
    assert StartsWith("=\"" + raw + u, "=\"");
  }

  lemma ReadAttributesOfKeyVals(attrs: seq<Attribute>, rest: string)
    requires KeysArePlain(attrs)
    requires rest == [] || rest[0] != ' '
    ensures ReadAttributes(KeyVals(attrs) + rest) == Some((attrs, rest))
  {
    KeyValsIsAttributeList(attrs);
    ReadAttributeList(attrs, rest);
  }

  /** A tag name is split off before its attribute list and the `>` or
      `/>` that closes the tag. */
  lemma SpanTagName(tag: string, attrs: seq<Attribute>, close: string)
    requires IsTagName(tag) && close != [] && close[0] in NameStops
    ensures Span(tag + (KeyVals(attrs) + close), NameStops) == (tag, KeyVals(attrs) + close)
  {
    var after := KeyVals(attrs) + close;
    KeyValsIsAttributeList(attrs);
    assert after[0] in NameStops by {
      if attrs != [] {
        assert after[0] == AttributeList(attrs)[0] == ' ';
      } else {
        assert after == close;
      }
    }
    SpanOf(tag, after, NameStops);
  }

  /** Reading back `start_tag_str(tag, attrs)` gives `tag` and `attrs`. */
  lemma ReadStartTagOf(tag: string, attrs: seq<Attribute>, rest: string)
    requires IsTagName(tag) && KeysArePlain(attrs)
    ensures ReadStartTag(StartTagStr(tag, attrs) + rest) == Some((tag, attrs, rest))
  {
    var s := StartTagStr(tag, attrs) + rest;
    var after := KeyVals(attrs) + (">" + rest);
    assert Span(s[1..], NameStops) == (tag, after) by {
      assert s[1..] == tag + after;
      SpanTagName(tag, attrs, ">" + rest);
    }
    assert ReadAttributes(after) == Some((attrs, ">" + rest)) by {
      ReadAttributesOfKeyVals(attrs, ">" + rest);
    }
    assert (">" + rest)[1..] == rest;
  }

  /** Reading back the string of `empty_tag(tag, attrs)` gives `tag` and
      `attrs`. */
  lemma ReadEmptyTagOf(tag: string, attrs: seq<Attribute>, rest: string)
    requires IsTagName(tag) && KeysArePlain(attrs)
    ensures ReadEmptyTag(EmptyTagEncodedStr(tag, attrs) + rest) == Some((tag, attrs, rest))
  {
    var s := EmptyTagEncodedStr(tag, attrs) + rest;
    var after := KeyVals(attrs) + ("/>" + rest);
    assert Span(s[1..], NameStops) == (tag, after) by {
      assert s[1..] == tag + after;
      SpanTagName(tag, attrs, "/>" + rest);
    }
    assert ReadAttributes(after) == Some((attrs, "/>" + rest)) by {
      ReadAttributesOfKeyVals(attrs, "/>" + rest);
    }
    assert ("/>" + rest)[2..] == rest;
  }

  /** Reading back `end_tag_str(tag)` gives `tag`. */
  lemma ReadEndTagOf(tag: string, rest: string)
    requires '>' !in tag
    ensures ReadEndTag(EndTagStr(tag) + rest) == Some((tag, rest))
  {
    var s := EndTagStr(tag) + rest;
    assert s[2..] == tag + (">" + rest);
    SpanOf(tag, ">" + rest, {'>'});
    assert (">" + rest)[1..] == rest;
  }

  /** Reading back what `data_element(tag, data, attrs)` writes gives the
      tag, the attributes and the original text. */
  lemma ReadDataElementOf(tag: string, data: string, attrs: seq<Attribute>, rest: string)
    requires IsTagName(tag) && KeysArePlain(attrs)
    ensures ReadDataElement(TagElementsStr(tag, attrs, EscapeData(data)) + rest)
      == Some((tag, attrs, data, rest))
  {
    var ed := EscapeData(data);
    var tail := EndTagStr(tag) + rest;
    assert TagElementsStr(tag, attrs, ed) + rest == StartTagStr(tag, attrs) + (ed + tail);
    ReadStartTagOf(tag, attrs, ed + tail);
    EscapeDataMarkupFree(data);
    SpanOf(ed, tail, {'<'});
    ReadEndTagOf(tag, rest);
    UnescapeEscapeData(data);
  }
}
