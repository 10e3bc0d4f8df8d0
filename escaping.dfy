/**
 * Character escaping of XMLWriterSimple: `escape_data` for element content
 * (XML 1.0 section 2.4, Character Data and Markup) and `escape_attributes`
 * for attribute values (XML 1.0 section 3.1).
 *
 * Each escaper is modelled as the code has it: a test for the special
 * characters (`str =~ /[...]/`) guarding a chain of `gsub` calls, one per
 * special character, `&` first. Beside it stands a one-pass reference
 * definition that escapes each character on its own; the lemmas prove the
 * chain equal to the one-pass definition (so no entity is escaped twice),
 * characterise the output, and prove that undoing the substitutions
 * recovers the input.
 */
module XmlEscape {

  /** `s` begins with `p`. */
  predicate StartsWith(s: string, p: string) {
    |p| <= |s| && s[..|p|] == p
  }

  // ---------------------------------------------------------------------
  // The two forms of `gsub` the escapers use
  // ---------------------------------------------------------------------

  /** `s.gsub(/c/, rep)` for a single character `c`: every `c` in `s`
      becomes `rep`, every other character stays. */
  function ReplaceChar(s: string, c: char, rep: string): (r: string)
    ensures c !in s ==> r == s
  {
    if s == [] then []
    else (if s[0] == c then rep else [s[0]]) + ReplaceChar(s[1..], c, rep)
  }

  /** `s.gsub(pat, rep)` for a literal, non-empty pattern: scanning left to
      right, each occurrence of `pat` that does not overlap an earlier one is
      replaced; the replacement text is not scanned again. */
  function ReplaceStr(s: string, pat: string, rep: string): (r: string)
    requires |pat| > 0
    ensures pat[0] !in s ==> r == s
    decreases |s|
  {
    if |s| < |pat| then s
    else if s[..|pat|] == pat then rep + ReplaceStr(s[|pat|..], pat, rep)
    else [s[0]] + ReplaceStr(s[1..], pat, rep)
  }

  lemma ReplaceCharSingle(x: char, c: char, rep: string)
    ensures ReplaceChar([x], c, rep) == if x == c then rep else [x]
  {
    assert [x][1..] == [];
  }

  lemma {:induction false} ReplaceCharAppend(a: string, b: string, c: char, rep: string)
    ensures ReplaceChar(a + b, c, rep) == ReplaceChar(a, c, rep) + ReplaceChar(b, c, rep)
  {
    if a == [] {
      assert a + b == b;
    } else {
      assert (a + b)[0] == a[0] && (a + b)[1..] == a[1..] + b;
      ReplaceCharAppend(a[1..], b, c, rep);
    }
  }

  /** A character that does not begin the pattern is copied. */
  lemma ReplaceStrSkipOne(x: char, b: string, pat: string, rep: string)
    requires |pat| > 0 && x != pat[0]
    ensures ReplaceStr([x] + b, pat, rep) == [x] + ReplaceStr(b, pat, rep)
  {
    var s := [x] + b;
    if |s| < |pat| {
      assert ReplaceStr(b, pat, rep) == b;
    } else {
      assert s[..|pat|] != pat by {
        assert s[..|pat|][0] == x;
      }
      assert s[1..] == b;
    }
  }

  /** A prefix `q` without the pattern's first character is copied. */
  lemma {:induction false} ReplaceStrSkip(q: string, b: string, pat: string, rep: string)
    requires |pat| > 0 && pat[0] !in q
    ensures ReplaceStr(q + b, pat, rep) == q + ReplaceStr(b, pat, rep)
  {
    if q == [] {
      assert q + b == b;
    } else {
      var rb := ReplaceStr(b, pat, rep);
      assert ReplaceStr(q[1..] + b, pat, rep) == q[1..] + rb by {
        assert pat[0] !in q[1..] by {
          assert forall i :: 0 <= i < |q[1..]| ==> q[1..][i] == q[i + 1];
        }
        ReplaceStrSkip(q[1..], b, pat, rep);
      }
      assert ReplaceStr(q + b, pat, rep) == [q[0]] + ReplaceStr(q[1..] + b, pat, rep) by {
        assert q + b == [q[0]] + (q[1..] + b);
        ReplaceStrSkipOne(q[0], q[1..] + b, pat, rep);
      }
      assert [q[0]] + (q[1..] + rb) == q + rb by {
        assert q == [q[0]] + q[1..];
      }
    }
  }

  /** An occurrence of the pattern at the front is replaced. */
  lemma ReplaceStrMatch(b: string, pat: string, rep: string)
    requires |pat| > 0
    ensures ReplaceStr(pat + b, pat, rep) == rep + ReplaceStr(b, pat, rep)
  {
    assert (pat + b)[..|pat|] == pat;
    assert (pat + b)[|pat|..] == b;
  }

  /** An entity `p` that starts like the pattern but differs from it in its
      second character, and has no further copy of the pattern's first
      character, is copied. */
  lemma ReplaceStrMismatch(p: string, b: string, pat: string, rep: string)
    requires |p| >= 2 && |pat| >= 2 && p[1] != pat[1] && pat[0] !in p[1..]
    ensures ReplaceStr(p + b, pat, rep) == p + ReplaceStr(b, pat, rep)
  {
    var s := p + b;
    assert s[1..] == p[1..] + b;
    ReplaceStrSkip(p[1..], b, pat, rep);
    if |s| < |pat| {
      assert ReplaceStr(s, pat, rep) == s;
      assert ReplaceStr(b, pat, rep) == b;
    } else {
      assert s[..|pat|] != pat by { assert s[..|pat|][1] == p[1]; }
      assert ReplaceStr(s, pat, rep) == [s[0]] + ReplaceStr(s[1..], pat, rep);
      assert p == [p[0]] + p[1..];
    }
  }

  // ---------------------------------------------------------------------
  // Entities
  // ---------------------------------------------------------------------

  /** The entities `escape_data` can produce. */
  const DataEntities: set<string> := {"&amp;", "&lt;", "&gt;"}

  /** The entities `escape_attributes` can produce. */
  const AttributeEntities: set<string> := {"&amp;", "&quot;", "&lt;", "&gt;"}

  /** Every `&` in `r` is the first character of one of `entities`. */
  ghost predicate AmpersandsBeginEntities(r: string, entities: set<string>) {
    forall i :: 0 <= i < |r| && r[i] == '&' ==>
      exists e :: e in entities && StartsWith(r[i..], e)
  }

  lemma AmpersandsBeginEntitiesAppend(a: string, b: string, entities: set<string>)
    requires AmpersandsBeginEntities(a, entities)
    requires AmpersandsBeginEntities(b, entities)
    ensures AmpersandsBeginEntities(a + b, entities)
  {
    var r := a + b;
    forall i | 0 <= i < |r| && r[i] == '&'
      ensures exists e :: e in entities && StartsWith(r[i..], e)
    {
      if i < |a| {
        assert a[i] == '&';
        var e :| e in entities && StartsWith(a[i..], e);
        assert r[i..] == a[i..] + b;
        assert r[i..][..|e|] == a[i..][..|e|];
      } else {
        assert r[i..] == b[i - |a|..];
        assert b[i - |a|] == '&';
      }
    }
  }

  // ---------------------------------------------------------------------
  // escape_data
  // ---------------------------------------------------------------------

  /** `str =~ /[&<>]/` */
  predicate HasDataSpecial(s: string) {
    '&' in s || '<' in s || '>' in s
  }

  /** The `gsub` chain of `escape_data`: `&`, then `<`, then `>`. */
  function EscapeDataSubst(s: string): string {
    ReplaceChar(ReplaceChar(ReplaceChar(s, '&', "&amp;"), '<', "&lt;"), '>', "&gt;")
  }

  /** `escape_data`: the input itself when it holds no special character,
      otherwise the substitution chain. */
  function EscapeData(s: string): string {
    if HasDataSpecial(s) then EscapeDataSubst(s) else s
  }

  /** Reference: how one character of element content is written. */
  function EscapeDataChar(c: char): (r: string)
    ensures |r| >= 1 && (c == '&' || c == '<' || c == '>' <==> |r| > 1)
  {
    if c == '&' then "&amp;"
    else if c == '<' then "&lt;"
    else if c == '>' then "&gt;"
    else [c]
  }

  /** Reference: element content escaped one character at a time. */
  function EscapeDataPass(s: string): (r: string)
    ensures '<' !in r && '>' !in r
    ensures '"' in r <==> '"' in s
    ensures |r| >= |s|
    ensures HasDataSpecial(s) <==> |r| > |s|
  {
    if s == [] then []
    else
      assert s == [s[0]] + s[1..];
      EscapeDataChar(s[0]) + EscapeDataPass(s[1..])
  }

  /** The substitution chain distributes over concatenation. */
  lemma EscapeDataSubstAppend(a: string, b: string)
    ensures EscapeDataSubst(a + b) == EscapeDataSubst(a) + EscapeDataSubst(b)
  {
    ReplaceCharAppend(a, b, '&', "&amp;");
    var a1, b1 := ReplaceChar(a, '&', "&amp;"), ReplaceChar(b, '&', "&amp;");
    ReplaceCharAppend(a1, b1, '<', "&lt;");
    ReplaceCharAppend(ReplaceChar(a1, '<', "&lt;"), ReplaceChar(b1, '<', "&lt;"), '>', "&gt;");
  }

  /** On one character the chain gives that character's escape. */
  lemma EscapeDataSubstChar(c: char)
    ensures EscapeDataSubst([c]) == EscapeDataChar(c)
  {
    ReplaceCharSingle(c, '&', "&amp;");
    var r1 := ReplaceChar([c], '&', "&amp;");
    if c == '&' {
      assert '<' !in r1 && '>' !in r1;
    } else {
      ReplaceCharSingle(c, '<', "&lt;");
      var r2 := ReplaceChar(r1, '<', "&lt;");
      if c == '<' {
        assert '>' !in r2;
      } else {
        ReplaceCharSingle(c, '>', "&gt;");
      }
    }
  }

  /** The `&`-first chain escapes each character exactly once: it agrees
      with the one-pass definition on every input, so for instance `<`
      becomes `&lt;` and never `&amp;lt;`. */
  lemma {:induction false} EscapeDataSubstIsPass(s: string)
    ensures EscapeDataSubst(s) == EscapeDataPass(s)
  {
    if s != [] {
      assert s == [s[0]] + s[1..];
      EscapeDataSubstAppend([s[0]], s[1..]);
      EscapeDataSubstChar(s[0]);
      EscapeDataSubstIsPass(s[1..]);
    }
  }

  /** `escape_data` is the one-pass escaping: the `=~` short-circuit returns
      the input only where the chain would have returned it too. */
  lemma EscapeDataIsPass(s: string)
    ensures EscapeData(s) == EscapeDataPass(s)
  {
    EscapeDataSubstIsPass(s);
  }

  /** `escape_data` returns its input exactly when the input holds none of
      `&`, `<`, `>`. */
  lemma EscapeDataIdentity(s: string)
    ensures EscapeData(s) == s <==> !HasDataSpecial(s)
  {
    EscapeDataIsPass(s);
  }

  /** The output of `escape_data` holds no `<` and no `>`, and holds a `"`
      exactly when the input does: quotes are left alone. */
  lemma EscapeDataMarkupFree(s: string)
    ensures '<' !in EscapeData(s) && '>' !in EscapeData(s)
    ensures '"' in EscapeData(s) <==> '"' in s
  {
    EscapeDataIsPass(s);
  }

  /** Escaping text in two parts writes the same as escaping it whole, so
      `characters(a); characters(b)` and `characters(a + b)` agree. */
  lemma EscapeDataAppend(a: string, b: string)
    ensures EscapeData(a + b) == EscapeData(a) + EscapeData(b)
  {
    EscapeDataIsPass(a);
    EscapeDataIsPass(b);
    EscapeDataIsPass(a + b);
    EscapeDataSubstIsPass(a);
    EscapeDataSubstIsPass(b);
    EscapeDataSubstIsPass(a + b);
    EscapeDataSubstAppend(a, b);
  }

  lemma {:induction false} EscapeDataPassAmpersands(s: string)
    ensures AmpersandsBeginEntities(EscapeDataPass(s), DataEntities)
  {
    if s != [] {
      var p := EscapeDataChar(s[0]);
      assert AmpersandsBeginEntities(p, DataEntities) by {
        forall i | 0 <= i < |p| && p[i] == '&'
          ensures exists e :: e in DataEntities && StartsWith(p[i..], e)
        {
          assert i == 0 && p[0..] == p && StartsWith(p, p);
        }
      }
      EscapeDataPassAmpersands(s[1..]);
      AmpersandsBeginEntitiesAppend(p, EscapeDataPass(s[1..]), DataEntities);
    }
  }

  /** In the output of `escape_data` every `&` begins `&amp;`, `&lt;` or
      `&gt;`: the output holds no bare ampersand. */
  lemma EscapeDataAmpersands(s: string)
    ensures AmpersandsBeginEntities(EscapeData(s), DataEntities)
  {
    EscapeDataIsPass(s);
    EscapeDataPassAmpersands(s);
  }

  /** Undoing `escape_data` by substitution: `&lt;`, then `&gt;`, then
      `&amp;`. */
  function UnescapeData(s: string): string {
    ReplaceStr(ReplaceStr(ReplaceStr(s, "&lt;", "<"), "&gt;", ">"), "&amp;", "&")
  }

  /** `c` after the first step of `UnescapeData`. */
  function DataAfterLt(c: char): string {
    if c == '<' then "<" else EscapeDataChar(c)
  }

  /** `c` after the second step of `UnescapeData`. */
  function DataAfterGt(c: char): string {
    if c == '&' then "&amp;" else [c]
  }

  lemma UnescapeDataStepLt(c: char, b: string)
    ensures ReplaceStr(EscapeDataChar(c) + b, "&lt;", "<") == DataAfterLt(c) + ReplaceStr(b, "&lt;", "<")
  {
    if c == '<' { ReplaceStrMatch(b, "&lt;", "<"); }
    else if c == '&' || c == '>' { ReplaceStrMismatch(EscapeDataChar(c), b, "&lt;", "<"); }
    else { ReplaceStrSkip([c], b, "&lt;", "<"); }
  }

  lemma UnescapeDataStepGt(c: char, b: string)
    ensures ReplaceStr(DataAfterLt(c) + b, "&gt;", ">") == DataAfterGt(c) + ReplaceStr(b, "&gt;", ">")
  {
    if c == '>' { ReplaceStrMatch(b, "&gt;", ">"); }
    else if c == '&' { ReplaceStrMismatch("&amp;", b, "&gt;", ">"); }
    else { ReplaceStrSkip([c], b, "&gt;", ">"); }
  }

  lemma UnescapeDataStepAmp(c: char, b: string)
    ensures ReplaceStr(DataAfterGt(c) + b, "&amp;", "&") == [c] + ReplaceStr(b, "&amp;", "&")
  {
    if c == '&' { ReplaceStrMatch(b, "&amp;", "&"); }
    else { ReplaceStrSkip([c], b, "&amp;", "&"); }
  }

  lemma {:induction false} UnescapeDataPass(s: string)
    ensures UnescapeData(EscapeDataPass(s)) == s
  {
    if s != [] {
      var c, t := s[0], s[1..];
      assert s == [c] + t;
      var e := EscapeDataPass(t);
      UnescapeDataStepLt(c, e);
      var u1 := ReplaceStr(e, "&lt;", "<");
      UnescapeDataStepGt(c, u1);
      var u2 := ReplaceStr(u1, "&gt;", ">");
      UnescapeDataStepAmp(c, u2);
      UnescapeDataPass(t);
    }
  }

  /** Round trip: replacing `&lt;`, `&gt;`, then `&amp;` in the output of
      `escape_data` gives back the input exactly. */
  lemma UnescapeEscapeData(s: string)
    ensures UnescapeData(EscapeData(s)) == s
  {
    EscapeDataIsPass(s);
    UnescapeDataPass(s);
  }

  // ---------------------------------------------------------------------
  // escape_attributes
  // ---------------------------------------------------------------------

  /** `str =~ /["&<>]/` */
  predicate HasAttributeSpecial(s: string) {
    '"' in s || '&' in s || '<' in s || '>' in s
  }

  /** The `gsub` chain of `escape_attributes`: `&`, then `"`, then `<`,
      then `>`. */
  function EscapeAttributesSubst(s: string): string {
    ReplaceChar(ReplaceChar(ReplaceChar(ReplaceChar(s, '&', "&amp;"), '"', "&quot;"), '<', "&lt;"), '>', "&gt;")
  }

  /** `escape_attributes`: the input itself when it holds no special
      character, otherwise the substitution chain. */
  function EscapeAttributes(s: string): string {
    if !HasAttributeSpecial(s) then s else EscapeAttributesSubst(s)
  }

  /** Reference: how one character of an attribute value is written. */
  function EscapeAttributeChar(c: char): (r: string)
    ensures |r| >= 1 && (c == '"' || c == '&' || c == '<' || c == '>' <==> |r| > 1)
  {
    if c == '&' then "&amp;"
    else if c == '"' then "&quot;"
    else if c == '<' then "&lt;"
    else if c == '>' then "&gt;"
    else [c]
  }

  /** Reference: an attribute value escaped one character at a time. */
  function EscapeAttributesPass(s: string): (r: string)
    ensures '"' !in r && '<' !in r && '>' !in r
    ensures |r| >= |s|
    ensures HasAttributeSpecial(s) <==> |r| > |s|
  {
    if s == [] then []
    else
      assert s == [s[0]] + s[1..];
      EscapeAttributeChar(s[0]) + EscapeAttributesPass(s[1..])
  }

  lemma EscapeAttributesSubstAppend(a: string, b: string)
    ensures EscapeAttributesSubst(a + b) == EscapeAttributesSubst(a) + EscapeAttributesSubst(b)
  {
    ReplaceCharAppend(a, b, '&', "&amp;");
    var a1, b1 := ReplaceChar(a, '&', "&amp;"), ReplaceChar(b, '&', "&amp;");
    ReplaceCharAppend(a1, b1, '"', "&quot;");
    var a2, b2 := ReplaceChar(a1, '"', "&quot;"), ReplaceChar(b1, '"', "&quot;");
    ReplaceCharAppend(a2, b2, '<', "&lt;");
    ReplaceCharAppend(ReplaceChar(a2, '<', "&lt;"), ReplaceChar(b2, '<', "&lt;"), '>', "&gt;");
  }

  lemma EscapeAttributesSubstChar(c: char)
    ensures EscapeAttributesSubst([c]) == EscapeAttributeChar(c)
  {
    ReplaceCharSingle(c, '&', "&amp;");
    var r1 := ReplaceChar([c], '&', "&amp;");
    if c == '&' {
      assert '"' !in r1 && '<' !in r1 && '>' !in r1;
    } else {
      ReplaceCharSingle(c, '"', "&quot;");
      var r2 := ReplaceChar(r1, '"', "&quot;");
      if c == '"' {
        assert '<' !in r2 && '>' !in r2;
      } else {
        ReplaceCharSingle(c, '<', "&lt;");
        var r3 := ReplaceChar(r2, '<', "&lt;");
        if c == '<' {
          assert '>' !in r3;
        } else {
          ReplaceCharSingle(c, '>', "&gt;");
        }
      }
    }
  }

  /** The `&`-first chain escapes each character exactly once: `"` becomes
      `&quot;`, never `&amp;quot;`. */
  lemma {:induction false} EscapeAttributesSubstIsPass(s: string)
    ensures EscapeAttributesSubst(s) == EscapeAttributesPass(s)
  {
    if s != [] {
      assert s == [s[0]] + s[1..];
      EscapeAttributesSubstAppend([s[0]], s[1..]);
      EscapeAttributesSubstChar(s[0]);
      EscapeAttributesSubstIsPass(s[1..]);
    }
  }

  /** `escape_attributes` is the one-pass escaping, short-circuit included. */
  lemma EscapeAttributesIsPass(s: string)
    ensures EscapeAttributes(s) == EscapeAttributesPass(s)
  {
    EscapeAttributesSubstIsPass(s);
  }

  /** `escape_attributes` returns its input exactly when the input holds
      none of `"`, `&`, `<`, `>`. */
  lemma EscapeAttributesIdentity(s: string)
    ensures EscapeAttributes(s) == s <==> !HasAttributeSpecial(s)
  {
    EscapeAttributesIsPass(s);
  }

  /** The output of `escape_attributes` holds no `"`, `<` or `>`. */
  lemma EscapeAttributesMarkupFree(s: string)
    ensures '"' !in EscapeAttributes(s) && '<' !in EscapeAttributes(s) && '>' !in EscapeAttributes(s)
  {
    EscapeAttributesIsPass(s);
  }

  /** Escaping a value in two parts writes the same as escaping it whole. */
  lemma EscapeAttributesAppend(a: string, b: string)
    ensures EscapeAttributes(a + b) == EscapeAttributes(a) + EscapeAttributes(b)
  {
    EscapeAttributesIsPass(a);
    EscapeAttributesIsPass(b);
    EscapeAttributesIsPass(a + b);
    EscapeAttributesSubstIsPass(a);
    EscapeAttributesSubstIsPass(b);
    EscapeAttributesSubstIsPass(a + b);
    EscapeAttributesSubstAppend(a, b);
  }

  lemma {:induction false} EscapeAttributesPassAmpersands(s: string)
    ensures AmpersandsBeginEntities(EscapeAttributesPass(s), AttributeEntities)
  {
    if s != [] {
      var p := EscapeAttributeChar(s[0]);
      assert AmpersandsBeginEntities(p, AttributeEntities) by {
        forall i | 0 <= i < |p| && p[i] == '&'
          ensures exists e :: e in AttributeEntities && StartsWith(p[i..], e)
        {
          assert i == 0 && p[0..] == p && StartsWith(p, p);
        }
      }
      EscapeAttributesPassAmpersands(s[1..]);
      AmpersandsBeginEntitiesAppend(p, EscapeAttributesPass(s[1..]), AttributeEntities);
    }
  }

  /** In the output of `escape_attributes` every `&` begins `&amp;`,
      `&quot;`, `&lt;` or `&gt;`. */
  lemma EscapeAttributesAmpersands(s: string)
    ensures AmpersandsBeginEntities(EscapeAttributes(s), AttributeEntities)
  {
    EscapeAttributesIsPass(s);
    EscapeAttributesPassAmpersands(s);
  }

  /** Undoing `escape_attributes` by substitution: `&quot;`, `&lt;`,
      `&gt;`, then `&amp;`. */
  function UnescapeAttributes(s: string): string {
    ReplaceStr(ReplaceStr(ReplaceStr(ReplaceStr(s, "&quot;", "\""), "&lt;", "<"), "&gt;", ">"), "&amp;", "&")
  }

  /** `c` after the first step of `UnescapeAttributes`. */
  function AttributeAfterQuot(c: char): string {
    if c == '"' then "\"" else EscapeAttributeChar(c)
  }

  /** `c` after the second step of `UnescapeAttributes`. */
  function AttributeAfterLt(c: char): string {
    if c == '"' || c == '<' then [c] else EscapeAttributeChar(c)
  }

  /** `c` after the third step of `UnescapeAttributes`. */
  function AttributeAfterGt(c: char): string {
    if c == '&' then "&amp;" else [c]
  }

  lemma UnescapeAttributesStepQuot(c: char, b: string)
    ensures ReplaceStr(EscapeAttributeChar(c) + b, "&quot;", "\"") == AttributeAfterQuot(c) + ReplaceStr(b, "&quot;", "\"")
  {
    if c == '"' { ReplaceStrMatch(b, "&quot;", "\""); }
    else if c == '&' || c == '<' || c == '>' { ReplaceStrMismatch(EscapeAttributeChar(c), b, "&quot;", "\""); }
    else { ReplaceStrSkip([c], b, "&quot;", "\""); }
  }

  lemma UnescapeAttributesStepLt(c: char, b: string)
    ensures ReplaceStr(AttributeAfterQuot(c) + b, "&lt;", "<") == AttributeAfterLt(c) + ReplaceStr(b, "&lt;", "<")
  {
    if c == '<' { ReplaceStrMatch(b, "&lt;", "<"); }
    else if c == '&' || c == '>' { ReplaceStrMismatch(EscapeAttributeChar(c), b, "&lt;", "<"); }
    else { ReplaceStrSkip([c], b, "&lt;", "<"); }
  }

  lemma UnescapeAttributesStepGt(c: char, b: string)
    ensures ReplaceStr(AttributeAfterLt(c) + b, "&gt;", ">") == AttributeAfterGt(c) + ReplaceStr(b, "&gt;", ">")
  {
    if c == '>' { ReplaceStrMatch(b, "&gt;", ">"); }
    else if c == '&' { ReplaceStrMismatch("&amp;", b, "&gt;", ">"); }
    else { ReplaceStrSkip([c], b, "&gt;", ">"); }
  }

  lemma UnescapeAttributesStepAmp(c: char, b: string)
    ensures ReplaceStr(AttributeAfterGt(c) + b, "&amp;", "&") == [c] + ReplaceStr(b, "&amp;", "&")
  {
    if c == '&' { ReplaceStrMatch(b, "&amp;", "&"); }
    else { ReplaceStrSkip([c], b, "&amp;", "&"); }
  }

  lemma {:induction false} UnescapeAttributesPass(s: string)
    ensures UnescapeAttributes(EscapeAttributesPass(s)) == s
  {
    if s != [] {
      var c, t := s[0], s[1..];
      assert s == [c] + t;
      var e := EscapeAttributesPass(t);
      UnescapeAttributesStepQuot(c, e);
      var u1 := ReplaceStr(e, "&quot;", "\"");
      UnescapeAttributesStepLt(c, u1);
      var u2 := ReplaceStr(u1, "&lt;", "<");
      UnescapeAttributesStepGt(c, u2);
      var u3 := ReplaceStr(u2, "&gt;", ">");
      UnescapeAttributesStepAmp(c, u3);
      UnescapeAttributesPass(t);
    }
  }

  /** Round trip: replacing `&quot;`, `&lt;`, `&gt;`, then `&amp;` in the
      output of `escape_attributes` gives back the input exactly. */
  lemma UnescapeEscapeAttributes(s: string)
    ensures UnescapeAttributes(EscapeAttributes(s)) == s
  {
    EscapeAttributesIsPass(s);
    UnescapeAttributesPass(s);
  }

  // ---------------------------------------------------------------------
  // Why `&` goes first
  // ---------------------------------------------------------------------

  /** The order matters: substituting `<` before `&` would rewrite the `&`
      of the entity it had just produced, turning `<` into `&amp;lt;`. */
  lemma AmpersandLastWouldDoubleEscape()
    ensures ReplaceChar(ReplaceChar("<", '<', "&lt;"), '&', "&amp;") == "&amp;lt;"
  {
    ReplaceCharSingle('<', '<', "&lt;");
    assert "<" == ['<'];
    assert "&lt;" == ['&'] + "lt;";
    ReplaceCharAppend(['&'], "lt;", '&', "&amp;");
    ReplaceCharSingle('&', '&', "&amp;");
    assert '&' !in "lt;";
  }

  /** `escape_data` turns `<` into `&lt;` and `&` into `&amp;`, and
      `escape_attributes` turns `"` into `&quot;`, each escaped once. */
  lemma AmpersandFirstEscapesOnce()
    ensures EscapeData("<") == "&lt;"
    ensures EscapeData("&") == "&amp;"
    ensures EscapeAttributes("\"") == "&quot;"
  {
    assert EscapeData("<") == "&lt;" by {
      EscapeDataOne('<');
      assert "<" == ['<'];
    }
    assert EscapeData("&") == "&amp;" by {
      EscapeDataOne('&');
      assert "&" == ['&'];
    }
    assert EscapeAttributes("\"") == "&quot;" by {
      EscapeAttributesOne('"');
      assert "\"" == ['"'];
    }
  }

  /** `escape_data` of one character is that character's escape. */
  lemma EscapeDataOne(c: char)
    ensures EscapeData([c]) == EscapeDataChar(c)
  {
    EscapeDataIsPass([c]);
    assert [c] == [c] + [];
    assert [c][1..] == [];
  }

  /** `escape_attributes` of one character is that character's escape. */
  lemma EscapeAttributesOne(c: char)
    ensures EscapeAttributes([c]) == EscapeAttributeChar(c)
  {
    EscapeAttributesIsPass([c]);
    assert [c][1..] == [];
  }
}
