/**
 * How a conforming XML processor reads an attribute value written between
 * double quotes: line ends are normalized first (XML 1.0 section 2.11: a
 * CR LF pair or a lone CR becomes LF), then attribute-value normalization
 * (XML 1.0 section 3.3.3) appends a space for every literal tab, line feed
 * or carriage return, and the referenced character itself for every
 * entity or character reference.
 *
 * The lemmas show that `escape_attributes`, which leaves tab, LF and CR as
 * they are, loses them on such a reading, and that an escaper which also
 * writes those three characters as character references does not.
 */
module XmlNormalize {
  import opened XmlEscape
  import opened XmlTags
  import opened XmlRead

  /** Tab, line feed and carriage return: the white space normalization
      turns into spaces. */
  predicate IsBreakOrTab(c: char) {
    c == '\t' || c == '\n' || c == '\r'
  }

  /** The character a reference `&name;` stands for: the predefined
      entities and the character references of tab, LF and CR. */
  function ReferenceChar(name: string): Option<char> {
    if name == "amp" then Some('&')
    else if name == "quot" then Some('"')
    else if name == "lt" then Some('<')
    else if name == "gt" then Some('>')
    else if name == "apos" then Some('\'')
    else if name == "#9" then Some('\t')
    else if name == "#10" then Some('\n')
    else if name == "#13" then Some('\r')
    else None
  }

  function Prepend(c: char, o: Option<string>): Option<string> {
    match o
    case None => None
    case Some(v) => Some([c] + v)
  }

  /** The value a conforming processor reports for the text `raw` between
      the quotes, or `None` where `raw` is not well-formed there. */
  function NormalizeAttributeValue(raw: string): Option<string>
    decreases |raw|
  {
    if raw == [] then Some([])
    else if raw[0] == '&' then
      var (name, t) := Span(raw[1..], {';'});
      if t == [] then None
      else
        match ReferenceChar(name)
        case None => None
        case Some(c) => Prepend(c, NormalizeAttributeValue(t[1..]))
    else if raw[0] == '<' || raw[0] == '"' then None
    else if raw[0] == '\r' && |raw| >= 2 && raw[1] == '\n' then Prepend(' ', NormalizeAttributeValue(raw[2..]))
    else if IsBreakOrTab(raw[0]) then Prepend(' ', NormalizeAttributeValue(raw[1..]))
    else Prepend(raw[0], NormalizeAttributeValue(raw[1..]))
  }

  /** Reference: `s` with every tab, LF and CR, and every CR LF pair,
      replaced by one space. */
  function SpacedText(s: string): (r: string)
    ensures forall i :: 0 <= i < |r| ==> !IsBreakOrTab(r[i])
    decreases |s|
  {
    if s == [] then []
    else if s[0] == '\r' && |s| >= 2 && s[1] == '\n' then " " + SpacedText(s[2..])
    else if IsBreakOrTab(s[0]) then " " + SpacedText(s[1..])
    else [s[0]] + SpacedText(s[1..])
  }

  /** A text without tab, LF or CR is left as it is. */
  lemma {:induction false} SpacedTextIdentity(s: string)
    ensures SpacedText(s) == s <==> forall i :: 0 <= i < |s| ==> !IsBreakOrTab(s[i])
    decreases |s|
  {
    if s != [] && forall i :: 0 <= i < |s| ==> !IsBreakOrTab(s[i]) {
      assert !IsBreakOrTab(s[0]);
      assert forall i :: 0 <= i < |s[1..]| ==> !IsBreakOrTab(s[1..][i]) by {
        forall i | 0 <= i < |s[1..]| ensures !IsBreakOrTab(s[1..][i]) {
          assert s[1..][i] == s[i + 1];
        }
      }
      SpacedTextIdentity(s[1..]);
      assert s == [s[0]] + s[1..];
    }
  }

  /** The reference `escape_attributes` writes for a special character. */
  lemma EntityName(c: char) returns (name: string)
    requires c == '&' || c == '"' || c == '<' || c == '>'
    ensures EscapeAttributeChar(c) == "&" + name + ";"
    ensures ';' !in name && ReferenceChar(name) == Some(c)
  {
    if c == '&' {
      name := "amp";
      assert "&amp;" == "&" + name + ";";
    } else if c == '"' {
      name := "quot";
      assert "&quot;" == "&" + name + ";";
    } else if c == '<' {
      name := "lt";
      assert "&lt;" == "&" + name + ";";
    } else {
      name := "gt";
      assert "&gt;" == "&" + name + ";";
    }
  }

  /** The character reference the corrected escaping writes for tab, LF
      or CR. */
  lemma CharRefName(c: char) returns (name: string)
    requires IsBreakOrTab(c)
    ensures EscapeAttributeCharRef(c) == "&" + name + ";"
    ensures ';' !in name && ReferenceChar(name) == Some(c)
  {
    if c == '\t' {
      name := "#9";
      assert "&#9;" == "&" + name + ";";
    } else if c == '\n' {
      name := "#10";
      assert "&#10;" == "&" + name + ";";
    } else {
      name := "#13";
      assert "&#13;" == "&" + name + ";";
    }
  }

  /** A reference is read as the character it stands for. */
  lemma ReferenceStep(name: string, c: char, rest: string)
    requires ';' !in name && ReferenceChar(name) == Some(c)
    ensures NormalizeAttributeValue("&" + name + ";" + rest) == Prepend(c, NormalizeAttributeValue(rest))
  {
    var raw := "&" + name + ";" + rest;
    assert raw[1..] == name + (";" + rest);
    SpanOf(name, ";" + rest, {';'});
    assert (";" + rest)[1..] == rest;
  }

  /** A character that is neither markup nor white space is read as it is. */
  lemma PlainStep(c: char, rest: string)
    requires c != '&' && c != '<' && c != '"' && !IsBreakOrTab(c)
    ensures NormalizeAttributeValue([c] + rest) == Prepend(c, NormalizeAttributeValue(rest))
  {
    assert ([c] + rest)[1..] == rest;
  }

  /** The escape of a non-empty text begins with `&` or with the text's own
      first character. */
  lemma EscapeAttributesPassHead(t: string)
    requires t != []
    ensures EscapeAttributesPass(t) != []
    ensures EscapeAttributesPass(t)[0] == '&' || EscapeAttributesPass(t)[0] == t[0]
  {
    assert EscapeAttributesPass(t) == EscapeAttributeChar(t[0]) + EscapeAttributesPass(t[1..]);
  }

  /** As written: a conforming reading of what `escape_attributes` writes
      gives the value with every tab, LF and CR (and CR LF pair) turned into
      one space. */
  lemma {:induction false} NormalizeEscapeAttributesPass(s: string)
    ensures NormalizeAttributeValue(EscapeAttributesPass(s)) == Some(SpacedText(s))
    decreases |s|
  {
    if s != [] {
      var c, t := s[0], s[1..];
      var e := EscapeAttributesPass(t);
      assert EscapeAttributesPass(s) == EscapeAttributeChar(c) + e;
      if c == '\r' && |s| >= 2 && s[1] == '\n' {
        NormalizeCrLfStep(s);
        NormalizeEscapeAttributesPass(s[2..]);
      } else {
        if c == '\r' && t != [] {
          EscapeAttributesPassHead(t);
        }
        PassStep(c, e);
        NormalizeEscapeAttributesPass(t);
      }
    }
  }

  /** One character escaped by `escape_attributes` is read back as itself,
      or as a space when it is a tab, LF or CR not beginning a CR LF pair. */
  lemma PassStep(c: char, e: string)
    requires c == '\r' ==> e == [] || e[0] != '\n'
    ensures NormalizeAttributeValue(EscapeAttributeChar(c) + e)
      == Prepend(if IsBreakOrTab(c) then ' ' else c, NormalizeAttributeValue(e))
  {
    if c == '&' || c == '"' || c == '<' || c == '>' {
      var name := EntityName(c);
      ReferenceStep(name, c, e);
    } else if IsBreakOrTab(c) {
      BreakStep(c, e);
    } else {
      PlainStep(c, e);
    }
  }

  /** A CR LF pair in the value is read as one space. */
  lemma NormalizeCrLfStep(s: string)
    requires |s| >= 2 && s[0] == '\r' && s[1] == '\n'
    ensures NormalizeAttributeValue(EscapeAttributesPass(s)) == Prepend(' ', NormalizeAttributeValue(EscapeAttributesPass(s[2..])))
  {
    var rest := EscapeAttributesPass(s[2..]);
    assert EscapeAttributesPass(s) == ['\r', '\n'] + rest by {
      var t := s[1..];
      assert EscapeAttributesPass(s) == ['\r'] + EscapeAttributesPass(t);
      assert t[1..] == s[2..];
      assert EscapeAttributesPass(t) == ['\n'] + rest;
    }
    CrLfStep(rest);
  }

  lemma CrLfStep(rest: string)
    ensures NormalizeAttributeValue(['\r', '\n'] + rest) == Prepend(' ', NormalizeAttributeValue(rest))
  {
    assert (['\r', '\n'] + rest)[2..] == rest;
  }

  /** A literal tab, LF or CR that does not begin a CR LF pair is read as a
      space. */
  lemma BreakStep(c: char, rest: string)
    requires IsBreakOrTab(c)
    requires c == '\r' ==> rest == [] || rest[0] != '\n'
    ensures NormalizeAttributeValue([c] + rest) == Prepend(' ', NormalizeAttributeValue(rest))
  {
    assert ([c] + rest)[1..] == rest;
  }

  /** As written: a value holding a tab, LF or CR does not survive
      `escape_attributes` and a conforming reading. */
  lemma AttributeBreaksAreLost(v: string)
    requires '\t' in v || '\n' in v || '\r' in v
    ensures NormalizeAttributeValue(EscapeAttributes(v)) == Some(SpacedText(v))
    ensures NormalizeAttributeValue(EscapeAttributes(v)) != Some(v)
  {
    EscapeAttributesIsPass(v);
    NormalizeEscapeAttributesPass(v);
    var i :| 0 <= i < |v| && IsBreakOrTab(v[i]);
    SpacedTextIdentity(v);
  }

  /** As written: `key_vals([["k", "a\nb"]])` writes ` k="a` LF `b"`, and a
      conforming reading of that value gives `a b`. */
  lemma NewlineAttributeExample(v: string)
    requires v == "a\nb"
    ensures KeyVals([("k", v)]) == " k=\"" + v + "\""
    ensures NormalizeAttributeValue(EscapeAttributes(v)) == Some("a b")
  {
    assert !HasAttributeSpecial(v);
    KeyValsIsAttributeList([]);
    KeyValsAppendPlain([], "k", v);
    assert [] + [("k", v)] == [("k", v)];
    EscapeAttributesIsPass(v);
    NormalizeEscapeAttributesPass(v);
    assert SpacedText(v) == "a b" by {
      var t1, t2 := v[1..], v[2..];
      assert v[0] == 'a' && t1[0] == '\n' && |t1| == 2 && t2 == "b";
      assert SpacedText(t2) == "b" by {
        assert t2[1..] == [];
      }
      assert SpacedText(t1) == " " + SpacedText(t1[1..]);
      assert t1[1..] == t2;
      assert SpacedText(v) == ['a'] + SpacedText(t1);
    }
  }

  // ---------------------------------------------------------------------
  // Corrected escaping
  // ---------------------------------------------------------------------

  /** One character of an attribute value, with tab, LF and CR also written
      as character references. */
  function EscapeAttributeCharRef(c: char): (r: string)
    ensures IsBreakOrTab(c) || r == EscapeAttributeChar(c)
    ensures '"' !in r && '<' !in r && '>' !in r
    ensures forall i :: 0 <= i < |r| ==> !IsBreakOrTab(r[i])
  {
    if c == '\t' then "&#9;"
    else if c == '\n' then "&#10;"
    else if c == '\r' then "&#13;"
    else EscapeAttributeChar(c)
  }

  /** Corrected `escape_attributes`: as the code, and tab, LF and CR
      written as `&#9;`, `&#10;`, `&#13;`. */
  function EscapeAttributesCharRefs(s: string): (r: string)
    ensures '"' !in r && '<' !in r && '>' !in r
    ensures forall i :: 0 <= i < |r| ==> !IsBreakOrTab(r[i])
  {
    if s == [] then []
    else
      EscapeAttributeCharRef(s[0]) + EscapeAttributesCharRefs(s[1..])
  }

  /** The corrected escaping reads back exactly under a conforming reading,
      for every value. */
  lemma {:induction false} NormalizeEscapeAttributesCharRefs(s: string)
    ensures NormalizeAttributeValue(EscapeAttributesCharRefs(s)) == Some(s)
    decreases |s|
  {
    if s != [] {
      var c, t := s[0], s[1..];
      var e := EscapeAttributesCharRefs(t);
      assert EscapeAttributesCharRefs(s) == EscapeAttributeCharRef(c) + e;
      CharRefsStep(c, e);
      NormalizeEscapeAttributesCharRefs(t);
      assert [c] + t == s;
    }
  }

  /** One escaped character of the corrected escaping is read back as
      that character. */
  lemma CharRefsStep(c: char, e: string)
    ensures NormalizeAttributeValue(EscapeAttributeCharRef(c) + e) == Prepend(c, NormalizeAttributeValue(e))
  {
    if c == '&' || c == '"' || c == '<' || c == '>' {
      var name := EntityName(c);
      ReferenceStep(name, c, e);
    } else if IsBreakOrTab(c) {
      var name := CharRefName(c);
      ReferenceStep(name, c, e);
    } else {
      PlainStep(c, e);
    }
  }

  /** The corrected escaping differs from `escape_attributes` only on values
      holding a tab, LF or CR. */
  lemma {:induction false} EscapeAttributesCharRefsAgrees(s: string)
    requires forall i :: 0 <= i < |s| ==> !IsBreakOrTab(s[i])
    ensures EscapeAttributesCharRefs(s) == EscapeAttributes(s)
    decreases |s|
  {
    EscapeAttributesIsPass(s);
    if s != [] {
      assert !IsBreakOrTab(s[0]);
      assert forall i :: 0 <= i < |s[1..]| ==> !IsBreakOrTab(s[1..][i]) by {
        forall i | 0 <= i < |s[1..]| ensures !IsBreakOrTab(s[1..][i]) {
          assert s[1..][i] == s[i + 1];
        }
      }
      EscapeAttributesCharRefsAgrees(s[1..]);
      EscapeAttributesIsPass(s[1..]);
    }
  }
}
