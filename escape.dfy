/**
 * `escapeXml`: five chained global replacements that turn the characters with a predefined
 * entity in XML 1.0 (Fifth Edition), section 4.6, into those entity references.
 */
module XmlEscape {

  /** `str.replace(/c/g, rep)`: every occurrence of the character c replaced by rep. */
  function ReplaceAll(s: string, c: char, rep: string): string {
    if s == [] then [] else (if s[0] == c then rep else [s[0]]) + ReplaceAll(s[1..], c, rep)
  }

  /** After the replacement no raw c is left, provided rep does not contain c itself. */
  lemma {:induction false} ReplaceAllRemoves(s: string, c: char, rep: string)
    requires forall j :: 0 <= j < |rep| ==> rep[j] != c
    ensures forall i :: 0 <= i < |ReplaceAll(s, c, rep)| ==> ReplaceAll(s, c, rep)[i] != c
  {
    if s != [] {
      ReplaceAllRemoves(s[1..], c, rep);
      var h := if s[0] == c then rep else [s[0]];
      var t := ReplaceAll(s[1..], c, rep);
      forall i | 0 <= i < |h + t|
        ensures (h + t)[i] != c
      {
        if i >= |h| {
          assert (h + t)[i] == t[i - |h|] && t[i - |h|] != c;
        } else if s[0] == c {
          assert (h + t)[i] == rep[i] && rep[i] != c;
        } else {
          assert (h + t)[i] == s[0];
        }
      }
    }
  }

  /** Text without c is left as it is. */
  lemma {:induction false} ReplaceAllAbsent(s: string, c: char, rep: string)
    requires forall i :: 0 <= i < |s| ==> s[i] != c
    ensures ReplaceAll(s, c, rep) == s
  {
    if s != [] {
      ReplaceAllAbsent(s[1..], c, rep);
      assert s == [s[0]] + s[1..];
    }
  }

  /** The source's `escapeXml`, replacement by replacement, '&' first. */
  function EscapeXml(s: string): string {
    var amp := ReplaceAll(s, '&', "&amp;");
    var quot := ReplaceAll(amp, '"', "&quot;");
    var apos := ReplaceAll(quot, '\'', "&apos;");
    var lt := ReplaceAll(apos, '<', "&lt;");
    ReplaceAll(lt, '>', "&gt;")
  }

  /** The five characters that have a predefined entity. */
  predicate IsMarkup(c: char) {
    c == '&' || c == '"' || c == '\'' || c == '<' || c == '>'
  }

  /** The entity reference for one character; any other character stands for itself. */
  function EscapeChar(c: char): string {
    match c
    case '&' => "&amp;"
    case '"' => "&quot;"
    case '\'' => "&apos;"
    case '<' => "&lt;"
    case '>' => "&gt;"
    case _ => [c]
  }

  /** Reference definition: escape each character on its own and concatenate. */
  function EscapeEach(s: string): string {
    if s == [] then [] else EscapeChar(s[0]) + EscapeEach(s[1..])
  }

  /** The text at position i begins with one of the five entity references. */
  predicate EntityAt(r: string, i: nat)
    requires i <= |r|
  {
    var t := r[i..];
    "&amp;" <= t || "&quot;" <= t || "&apos;" <= t || "&lt;" <= t || "&gt;" <= t
  }

  /** Safe to place in character data and in quoted attribute values. */
  predicate Escaped(r: string) {
    && (forall i :: 0 <= i < |r| ==> r[i] != '<' && r[i] != '>' && r[i] != '"' && r[i] != '\'')
    && (forall i :: 0 <= i < |r| && r[i] == '&' ==> EntityAt(r, i))
  }

  /** Decodes the five entity references, leaving every other character alone. */
  function Unescape(r: string): string
    decreases |r|
  {
    if r == [] then []
    else if "&amp;" <= r then "&" + Unescape(r[5..])
    else if "&quot;" <= r then "\"" + Unescape(r[6..])
    else if "&apos;" <= r then "'" + Unescape(r[6..])
    else if "&lt;" <= r then "<" + Unescape(r[4..])
    else if "&gt;" <= r then ">" + Unescape(r[4..])
    else [r[0]] + Unescape(r[1..])
  }

  lemma {:induction false} ReplaceAllAppend(a: string, b: string, c: char, rep: string)
    ensures ReplaceAll(a + b, c, rep) == ReplaceAll(a, c, rep) + ReplaceAll(b, c, rep)
  {
    if a != [] {
      assert (a + b)[1..] == a[1..] + b;
      ReplaceAllAppend(a[1..], b, c, rep);
    } else {
      assert a + b == b;
    }
  }

  lemma ReplaceAllSingleton(c: char, x: char, rep: string)
    ensures ReplaceAll([c], x, rep) == if c == x then rep else [c]
  {
    assert [c][1..] == [];
  }

  /** Replacing the later characters leaves t alone when it holds none of them. */
  lemma LaterPassesKeep(t: string, from: nat)
    requires from <= 4
    requires forall i :: 0 <= i < |t| ==>
      (t[i] != '>' && (from < 3 ==> t[i] != '<') && (from < 2 ==> t[i] != '\'') && (from < 1 ==> t[i] != '"'))
    ensures from < 1 ==> ReplaceAll(t, '"', "&quot;") == t
    ensures from < 2 ==> ReplaceAll(t, '\'', "&apos;") == t
    ensures from < 3 ==> ReplaceAll(t, '<', "&lt;") == t
    ensures ReplaceAll(t, '>', "&gt;") == t
  {
    if from < 1 { ReplaceAllAbsent(t, '"', "&quot;"); }
    if from < 2 { ReplaceAllAbsent(t, '\'', "&apos;"); }
    if from < 3 { ReplaceAllAbsent(t, '<', "&lt;"); }
    ReplaceAllAbsent(t, '>', "&gt;");
  }

  /** A character without an entity passes all five replacements unchanged. */
  lemma EscapeXmlPlainChar(c: char)
    requires !IsMarkup(c)
    ensures EscapeXml([c]) == [c]
  {
    LaterPassesKeep([c], 0);
    ReplaceAllSingleton(c, '&', "&amp;");
  }

  /**
   * A character with an entity is replaced by its own pass, and the later passes leave
   * the entity alone; the passes before it do not touch it.
   */
  lemma EscapeXmlMarkupChar(c: char, from: nat, entity: string)
    requires from <= 4
    requires c == "&\"'<>"[from] && entity == ["&amp;", "&quot;", "&apos;", "&lt;", "&gt;"][from]
    ensures EscapeXml([c]) == entity
  {
    var s1 := ReplaceAll([c], '&', "&amp;");
    var s2 := ReplaceAll(s1, '"', "&quot;");
    var s3 := ReplaceAll(s2, '\'', "&apos;");
    var s4 := ReplaceAll(s3, '<', "&lt;");
    var before := [s1, s2, s3, s4, ReplaceAll(s4, '>', "&gt;")];
    LaterPassesKeep(entity, from);
    ReplaceAllSingleton(c, '&', "&amp;");
    if from >= 1 {
      ReplaceAllSingleton(c, '"', "&quot;");
    }
    if from >= 2 {
      ReplaceAllSingleton(c, '\'', "&apos;");
    }
    if from >= 3 {
      ReplaceAllSingleton(c, '<', "&lt;");
    }
    if from >= 4 {
      ReplaceAllSingleton(c, '>', "&gt;");
    }
    assert before[from] == entity;
  }

  lemma EscapeXmlOneChar(c: char)
    ensures EscapeXml([c]) == EscapeChar(c)
  {
    match c
    case '&' => EscapeXmlMarkupChar(c, 0, "&amp;");
    case '"' => EscapeXmlMarkupChar(c, 1, "&quot;");
    case '\'' => EscapeXmlMarkupChar(c, 2, "&apos;");
    case '<' => EscapeXmlMarkupChar(c, 3, "&lt;");
    case '>' => EscapeXmlMarkupChar(c, 4, "&gt;");
    case _ => EscapeXmlPlainChar(c);
  }

  /** Because '&' is replaced first, the chained replacements equal the per-character map. */
  lemma {:induction false} EscapeXmlIsPerCharacter(s: string)
    ensures EscapeXml(s) == EscapeEach(s)
  {
    if s != [] {
      var h, t := [s[0]], s[1..];
      assert s == h + t;
      var amp := ReplaceAll(s, '&', "&amp;");
      ReplaceAllAppend(h, t, '&', "&amp;");
      var quot := ReplaceAll(amp, '"', "&quot;");
      ReplaceAllAppend(ReplaceAll(h, '&', "&amp;"), ReplaceAll(t, '&', "&amp;"), '"', "&quot;");
      var h2 := ReplaceAll(ReplaceAll(h, '&', "&amp;"), '"', "&quot;");
      var t2 := ReplaceAll(ReplaceAll(t, '&', "&amp;"), '"', "&quot;");
      ReplaceAllAppend(h2, t2, '\'', "&apos;");
      var h3 := ReplaceAll(h2, '\'', "&apos;");
      var t3 := ReplaceAll(t2, '\'', "&apos;");
      ReplaceAllAppend(h3, t3, '<', "&lt;");
      var h4 := ReplaceAll(h3, '<', "&lt;");
      var t4 := ReplaceAll(t3, '<', "&lt;");
      ReplaceAllAppend(h4, t4, '>', "&gt;");
      assert EscapeXml(s) == EscapeXml(h) + EscapeXml(t);
      EscapeXmlOneChar(s[0]);
      EscapeXmlIsPerCharacter(t);
    }
  }

  /** An entity reference that starts at i stays there when more text follows. */
  lemma EntityAtAppend(a: string, b: string, i: nat)
    requires i <= |a| && EntityAt(a, i)
    ensures EntityAt(a + b, i)
  {
    assert (a + b)[i..] == a[i..] + b;
  }

  /** Escaped text stays escaped under concatenation. */
  lemma EscapedConcat(a: string, b: string)
    requires Escaped(a) && Escaped(b)
    ensures Escaped(a + b)
  {
    var r := a + b;
    forall i | 0 <= i < |r| && r[i] == '&'
      ensures EntityAt(r, i)
    {
      if i < |a| {
        EntityAtAppend(a, b, i);
      } else {
        assert r[i..] == b[i - |a|..];
        assert EntityAt(b, i - |a|);
      }
    }
  }

  lemma EscapeCharIsEscaped(c: char)
    ensures Escaped(EscapeChar(c))
  {
    var e := EscapeChar(c);
    forall i | 0 <= i < |e| && e[i] == '&'
      ensures EntityAt(e, i)
    {
      assert i == 0 && e[0..] == e;
    }
  }

  lemma {:induction false} EscapeEachIsEscaped(s: string)
    ensures Escaped(EscapeEach(s))
  {
    if s != [] {
      EscapeCharIsEscaped(s[0]);
      EscapeEachIsEscaped(s[1..]);
      EscapedConcat(EscapeChar(s[0]), EscapeEach(s[1..]));
    }
  }

  /**
   * The output contains no raw '<', '>', '"' or '\'', and every '&' in it begins one of
   * `&amp;`, `&quot;`, `&apos;`, `&lt;`, `&gt;`.
   */
  lemma EscapeXmlIsEscaped(s: string)
    ensures Escaped(EscapeXml(s))
  {
    EscapeXmlIsPerCharacter(s);
    EscapeEachIsEscaped(s);
  }

  lemma {:induction false} EscapeEachIdentity(s: string)
    requires forall i :: 0 <= i < |s| ==> !IsMarkup(s[i])
    ensures EscapeEach(s) == s
  {
    if s != [] {
      EscapeEachIdentity(s[1..]);
      assert s == [s[0]] + s[1..];
    }
  }

  /** On text without any of the five characters, escaping changes nothing. */
  lemma EscapeXmlIdentity(s: string)
    requires forall i :: 0 <= i < |s| ==> !IsMarkup(s[i])
    ensures EscapeXml(s) == s
  {
    EscapeXmlIsPerCharacter(s);
    EscapeEachIdentity(s);
  }

  /** Decoding a character's escape followed by anything decodes the character first. */
  lemma UnescapeEscapeChar(c: char, rest: string)
    ensures Unescape(EscapeChar(c) + rest) == [c] + Unescape(rest)
  {
    var e := EscapeChar(c);
    var r := e + rest;
    assert r[|e|..] == rest;
    assert r[..|e|] == e;
    if IsMarkup(c) {
      assert r[0] == '&';
      assert r[1] == e[1] && r[2] == e[2];
    } else {
      assert r[0] == c && r[0] != '&';
    }
  }

  lemma {:induction false} UnescapeEscapeEach(s: string)
    ensures Unescape(EscapeEach(s)) == s
  {
    if s != [] {
      UnescapeEscapeChar(s[0], EscapeEach(s[1..]));
      UnescapeEscapeEach(s[1..]);
      assert s == [s[0]] + s[1..];
    }
  }

  /** Decoding the five entities after escaping gives back the input. */
  lemma UnescapeEscapeXml(s: string)
    ensures Unescape(EscapeXml(s)) == s
  {
    EscapeXmlIsPerCharacter(s);
    UnescapeEscapeEach(s);
  }

  /** Some character of s has a predefined entity. */
  predicate HasMarkup(s: string) {
    exists i :: 0 <= i < |s| && IsMarkup(s[i])
  }

  lemma {:induction false} EscapeEachGrows(s: string)
    ensures |EscapeEach(s)| >= |s|
    ensures HasMarkup(s) ==> |EscapeEach(s)| > |s| && '&' in EscapeEach(s)
  {
    if s != [] {
      EscapeEachGrows(s[1..]);
      var e := EscapeChar(s[0]);
      if HasMarkup(s) && !IsMarkup(s[0]) {
        var i :| 0 <= i < |s| && IsMarkup(s[i]);
        assert IsMarkup(s[1..][i - 1]);
      }
      if IsMarkup(s[0]) {
        assert e[0] == '&';
      }
    }
  }

  /** Escaping leaves s unchanged exactly when s has none of the five characters. */
  lemma EscapeXmlFixedPoint(s: string)
    ensures EscapeXml(s) == s <==> !HasMarkup(s)
  {
    EscapeXmlIsPerCharacter(s);
    EscapeEachGrows(s);
    if !HasMarkup(s) {
      EscapeXmlIdentity(s);
    }
  }

  /**
   * Escaping is not idempotent: a second pass changes the text exactly when the first pass
   * changed it, because every entity it wrote begins with a raw '&'.
   */
  lemma EscapeXmlTwice(s: string)
    ensures EscapeXml(EscapeXml(s)) == EscapeXml(s) <==> !HasMarkup(s)
  {
    var once := EscapeXml(s);
    EscapeXmlFixedPoint(s);
    EscapeXmlFixedPoint(once);
    if HasMarkup(s) {
      EscapeXmlIsPerCharacter(s);
      EscapeEachGrows(s);
      var i :| 0 <= i < |once| && once[i] == '&';
      assert IsMarkup(once[i]);
    }
  }

  /** The per-character map turns the entity "&amp;" into "&amp;amp;". */
  lemma EscapeEachOfAmp()
    ensures EscapeEach("&amp;") == "&amp;amp;"
  {
    var t, tail := "&amp;", "amp;";
    EscapeEachIdentity(tail);
    assert t[1..] == tail;
  }

  /** For example, "&" escapes to "&amp;", and escaping that again gives "&amp;amp;". */
  lemma EscapeXmlDoubleEscapesAmp()
    ensures EscapeXml("&") == "&amp;"
    ensures EscapeXml(EscapeXml("&")) == "&amp;amp;"
  {
    EscapeXmlOneChar('&');
    EscapeXmlIsPerCharacter("&amp;");
    EscapeEachOfAmp();
  }
}
