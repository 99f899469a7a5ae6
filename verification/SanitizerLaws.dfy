/** Laws of the sanitiser's parts: printed attributes scan back to themselves and are stable, and escaped
    text is clean and stays as it is. */
module SanitizerLaws {
  import opened Optional
  import opened Text
  import opened Entities
  import opened Sanitizer

  // ------------------------------------------------------------------ attributes

  ghost predicate IsAttributeName(name: string) {
    && name != [] && IsNameStart(name[0]) && Lower(name) == name
    && forall i :: 0 <= i < |name| ==> IsNameChar(name[i])
  }

  ghost predicate Printable(a: Attribute) {
    IsAttributeName(a.name) && Trim(a.value) == a.value
  }

  ghost predicate AllPrintable(attributes: seq<Attribute>) {
    forall a :: a in attributes ==> Printable(a)
  }

  lemma LowerName(name: string)
    requires name != [] && IsNameStart(name[0]) && forall i :: 0 <= i < |name| ==> IsNameChar(name[i])
    ensures IsAttributeName(Lower(name))
  {
    assert Lower(Lower(name)) == Lower(name);
  }

  /** Every attribute the scanner finds can be printed and found again. */
  lemma {:induction false} ScannedArePrintable(raw: string)
    ensures AllPrintable(Attributes(raw))
    decreases |raw|
  {
    if raw != [] {
      var (n, name, value) := MatchAttribute(raw);
      if n > 0 {
        LowerName(name);
        TrimTwice(ReplaceAll(PASSES, value));
        ScannedArePrintable(raw[n..]);
      } else {
        ScannedArePrintable(raw[1..]);
      }
    }
  }

  lemma FindIs(s: string, c: char, i: nat, j: nat)
    requires i <= j < |s| && s[j] == c && forall k :: i <= k < j ==> s[k] != c
    ensures Find(s, c, i) == j
  {
    var f := Find(s, c, i);
    assert s[f..] != [] || f == |s|;
  }

  lemma NameBeforeEquals(s: string, n: nat)
    requires 0 < n && n + 1 < |s| && IsNameStart(s[0]) && forall i :: 0 <= i < n ==> IsNameChar(s[i])
    requires s[n] == '=' && s[n + 1] == '"'
    ensures MatchName(s) == Some((n, n + 1))
  {
    SpanIs(s, IsNameChar, n);
    SpanIs(s[n..], IsSpace, 0);
    SpanIs(s[n + 1..], IsSpace, 0);
  }

  lemma MatchQuoted(s: string, n: nat, j: nat)
    requires 0 < n && n + 2 <= j < |s| && IsNameStart(s[0]) && forall i :: 0 <= i < n ==> IsNameChar(s[i])
    requires s[n] == '=' && s[n + 1] == '"' && s[j] == '"' && forall k :: n + 2 <= k < j ==> s[k] != '"'
    ensures MatchAttribute(s) == (j + 1, s[..n], s[n + 2..j])
  {
    hide MatchName;
    NameBeforeEquals(s, n);
    FindIs(s, '"', n + 2, j);
  }

  lemma PairLayout(name: string, v: string, rest: string)
    ensures ShowPair(name, v)[1..] + rest == name + ("=\"" + v + "\"" + rest)
  {
    assert ShowPair(name, v)[1..] == name + "=\"" + v + "\"";
  }

  lemma MatchLaidOut(s: string, name: string, v: string, rest: string)
    requires IsAttributeName(name) && '"' !in v && s == name + ("=\"" + v + "\"" + rest)
    ensures MatchAttribute(s) == (|name| + 3 + |v|, name, v)
  {
    hide MatchAttribute;
    var n, tail := |name|, "=\"" + v + "\"" + rest;
    var j := n + 2 + |v|;
    assert s[..n] == name && forall k :: n <= k < |s| ==> s[k] == tail[k - n];
    assert tail[0] == '=' && tail[1] == '"' && tail[2 + |v|] == '"' && tail[2..2 + |v|] == v;
    assert s[n + 2..j] == tail[2..2 + |v|];
    forall k | n + 2 <= k < j ensures s[k] != '"' {
      assert s[k] == tail[k - n] == v[k - n - 2];
    }
    MatchQuoted(s, n, j);
  }

  /** The scanner reads one printed attribute whole. */
  lemma MatchShown(name: string, v: string, rest: string)
    requires IsAttributeName(name) && '"' !in v
    ensures var shown := ShowPair(name, v);
            MatchAttribute(shown[1..] + rest) == (|shown| - 1, name, v)
  {
    hide MatchAttribute;
    PairLayout(name, v, rest);
    MatchLaidOut(ShowPair(name, v)[1..] + rest, name, v, rest);
  }

  lemma ScanOne(a: Attribute, rest: string)
    requires Printable(a)
    ensures Attributes(ShowAttribute(a) + rest) == [a] + Attributes(rest)
  {
    var shown := ShowAttribute(a);
    var raw := shown + rest;
    assert raw[0] == ' ' && MatchAttribute(raw).0 == 0;
    assert raw[1..] == shown[1..] + rest;
    EscapedIsInert(a.value);
    MatchShown(a.name, EscapeHtml(a.value), rest);
    assert raw[1..][|shown| - 1..] == rest;
    DecodeUndoesEscape(a.value);
  }

  /** Printing attributes and scanning the text gives the same attributes back. */
  lemma {:induction false} ScanUndoesShow(attributes: seq<Attribute>)
    requires AllPrintable(attributes)
    ensures Attributes(ShowAttributes(attributes)) == attributes
  {
    if attributes != [] {
      assert Printable(attributes[0]);
      ScanOne(attributes[0], ShowAttributes(attributes[1..]));
      ScanUndoesShow(attributes[1..]);
    }
  }

  lemma {:induction false} KeptFacts(options: SanitizeOptions, tag: string, attributes: seq<Attribute>)
    ensures forall a :: a in Kept(options, tag, attributes) ==> a in attributes && Keep(options, tag, a)
  {
    if attributes != [] {
      KeptFacts(options, tag, attributes[1..]);
    }
  }

  lemma {:induction false} KeepAll(options: SanitizeOptions, tag: string, attributes: seq<Attribute>)
    requires forall a :: a in attributes ==> Keep(options, tag, a)
    ensures Kept(options, tag, attributes) == attributes
  {
    if attributes != [] {
      assert attributes[0] in attributes;
      KeepAll(options, tag, attributes[1..]);
    }
  }

  /** Sanitising an attribute list leaves only permitted attributes, and sanitising the printed list
      again changes nothing. */
  lemma AttributesStable(options: SanitizeOptions, tag: string, raw: string)
    ensures var shown := SanitizeAttributes(options, tag, raw);
            && SanitizeAttributes(options, tag, shown) == shown
            && (forall a :: a in Attributes(shown) ==> Keep(options, tag, a))
            && AllPrintable(Attributes(shown)) && shown == ShowAttributes(Attributes(shown))
  {
    var kept := Kept(options, tag, Attributes(raw));
    ScannedArePrintable(raw);
    KeptFacts(options, tag, Attributes(raw));
    ScanUndoesShow(kept);
    KeepAll(options, tag, kept);
  }

  // ------------------------------------------------------------------ text

  /** Text as the sanitiser leaves it: no angle brackets, and every `&` begins a reference. */
  ghost predicate CleanText(t: string) {
    forall i :: 0 <= i < |t| ==> t[i] != '<' && t[i] != '>' && (t[i] == '&' ==> Reference(t[i + 1..]) > 0)
  }

  /** A reference is still one when more text follows. */
  lemma ReferenceExtends(s: string, more: string)
    requires Reference(s) > 0
    ensures Reference(s + more) > 0
  {
    var u := s + more;
    if s[0] == '#' {
      var d := Span(s[1..], IsDigit);
      assert u[1..] == s[1..] + more;
      if d > 0 && 1 + d < |s| && s[1 + d] == ';' {
        SpanIs(u[1..], IsDigit, d);
      } else {
        var h := Span(s[2..], IsHex);
        assert u[2..] == s[2..] + more;
        assert !IsDigit(s[1]) && d == 0;
        SpanIs(u[1..], IsDigit, 0);
        SpanIs(u[2..], IsHex, h);
      }
    } else {
      SpanIs(u, IsAlnum, Span(s, IsAlnum));
    }
  }

  lemma CleanConcat(a: string, b: string)
    requires CleanText(a) && CleanText(b)
    ensures CleanText(a + b)
  {
    var u := a + b;
    forall i | 0 <= i < |u|
      ensures u[i] != '<' && u[i] != '>' && (u[i] == '&' ==> Reference(u[i + 1..]) > 0)
    {
      if i < |a| {
        assert u[i + 1..] == a[i + 1..] + b;
        if a[i] == '&' {
          ReferenceExtends(a[i + 1..], b);
        }
      } else {
        assert u[i] == b[i - |a|] && u[i + 1..] == b[i - |a| + 1..];
      }
    }
  }

  /** Clean text passes through unchanged. */
  lemma {:induction false} EscapeKeepsClean(t: string)
    requires CleanText(t)
    ensures EscapeText(t) == t
  {
    AmpersandsKeepClean(t);
    Untouched(t, '<', "&lt;");
    Untouched(t, '>', "&gt;");
  }

  lemma {:induction false} AmpersandsKeepClean(t: string)
    requires CleanText(t)
    ensures EscapeAmpersands(t) == t
    decreases |t|
  {
    if t != [] {
      assert forall i :: 0 <= i < |t[1..]| ==> t[1..][i] == t[i + 1] && t[1..][i + 1..] == t[i + 2..];
      AmpersandsKeepClean(t[1..]);
    }
  }

  /** The three text passes done in one scan. */
  ghost function Escaped(t: string): string
    decreases |t|
  {
    if t == [] then []
    else EscapedChar(t) + Escaped(t[1..])
  }

  ghost function EscapedChar(t: string): string
    requires t != []
  {
    if t[0] == '&' && Reference(t[1..]) == 0 then "&amp;"
    else if t[0] == '<' then "&lt;"
    else if t[0] == '>' then "&gt;"
    else [t[0]]
  }

  lemma {:induction false} EscapeIsOneScan(t: string)
    ensures EscapeText(t) == Escaped(t)
    decreases |t|
  {
    if t != [] {
      var head := if t[0] == '&' && Reference(t[1..]) == 0 then "&amp;" else [t[0]];
      var tail := EscapeAmpersands(t[1..]);
      ReplaceConcat(head, tail, '<', "&lt;");
      ReplaceConcat(ReplaceChar(head, '<', "&lt;"), ReplaceChar(tail, '<', "&lt;"), '>', "&gt;");
      AngleHead(t, head);
      EscapeIsOneScan(t[1..]);
    }
  }

  lemma AngleHead(t: string, head: string)
    requires t != [] && head == if t[0] == '&' && Reference(t[1..]) == 0 then "&amp;" else [t[0]]
    ensures ReplaceChar(ReplaceChar(head, '<', "&lt;"), '>', "&gt;") == EscapedChar(t)
  {
    EscapeAngles(t[0], head);
  }

  /** A run of plain characters survives the scan. */
  lemma {:induction false} PlainSurvives(t: string, n: nat)
    requires n <= |t| && forall i :: 0 <= i < n ==> t[i] != '&' && t[i] != '<' && t[i] != '>'
    ensures n <= |Escaped(t)| && Escaped(t)[..n] == t[..n]
    decreases n
  {
    if n > 0 {
      PlainSurvives(t[1..], n - 1);
      assert t[..n] == [t[0]] + t[1..][..n - 1];
    }
  }

  /** A reference is a run of plain characters and depends on nothing after it. */
  lemma ReferenceIsPlain(s: string)
    requires Reference(s) > 0
    ensures var n := Reference(s);
            && (forall i :: 0 <= i < n ==> s[i] != '&' && s[i] != '<' && s[i] != '>')
            && Reference(s[..n]) > 0
  {
    if s[0] == '#' {
      NumericReference(s);
    } else {
      SpanIs(s[..Reference(s)], IsAlnum, Span(s, IsAlnum));
    }
  }

  lemma NumericReference(s: string)
    requires Reference(s) > 0 && s[0] == '#'
    ensures var n := Reference(s);
            && (forall i :: 0 <= i < n ==> s[i] != '&' && s[i] != '<' && s[i] != '>')
            && Reference(s[..n]) > 0
  {
    var n := Reference(s);
    var u := s[..n];
    var d := Span(s[1..], IsDigit);
    assert u[1..] == s[1..][..n - 1];
    if d > 0 && 1 + d < |s| && s[1 + d] == ';' {
      forall i | 1 <= i < 1 + d ensures IsDigit(s[i]) {
        assert s[i] == s[1..][i - 1];
      }
      SpanIs(u[1..], IsDigit, d);
    } else {
      var h := Span(s[2..], IsHex);
      forall i | 2 <= i < 2 + h ensures IsHex(s[i]) {
        assert s[i] == s[2..][i - 2];
      }
      assert u[2..] == s[2..][..n - 2];
      assert u[1] == 'x' && u[1..][0] == 'x';
      SpanIs(u[1..], IsDigit, 0);
      SpanIs(u[2..], IsHex, h);
    }
  }

  lemma {:induction false} EscapedIsClean(t: string)
    ensures CleanText(Escaped(t))
    decreases |t|
  {
    hide CleanText;
    hide Reference;
    if t == [] {
      EmptyIsClean();
    } else {
      var tail, rest := t[1..], Escaped(t[1..]);
      EscapedIsClean(tail);
      if t[0] == '&' && Reference(tail) > 0 {
        var n := Reference(tail);
        ReferenceIsPlain(tail);
        PlainSurvives(tail, n);
        ReferenceExtends(tail[..n], rest[n..]);
        assert tail[..n] + rest[n..] == rest;
        AmpersandBefore(rest);
      } else {
        CleanHead(t);
        CleanConcat(EscapedChar(t), rest);
      }
    }
  }

  lemma EmptyIsClean()
    ensures CleanText("")
  {
  }

  /** An ampersand that begins a reference may stand before clean text. */
  lemma AmpersandBefore(rest: string)
    requires CleanText(rest) && Reference(rest) > 0
    ensures CleanText(['&'] + rest)
  {
    hide Reference;
    var u := ['&'] + rest;
    forall i | 0 <= i < |u| ensures u[i] != '<' && u[i] != '>' && (u[i] == '&' ==> Reference(u[i + 1..]) > 0) {
      if i == 0 {
        assert u[1..] == rest;
      } else {
        assert u[i] == rest[i - 1] && u[i + 1..] == rest[i..];
      }
    }
  }

  lemma CleanHead(t: string)
    requires t != [] && !(t[0] == '&' && Reference(t[1..]) > 0)
    ensures CleanText(EscapedChar(t))
  {
    CleanNamed("amp", "&amp;");
    CleanNamed("lt", "&lt;");
    CleanNamed("gt", "&gt;");
    hide Reference;
  }

  lemma CleanNamed(name: string, reference: string)
    requires name != [] && (forall i :: 0 <= i < |name| ==> IsLetter(name[i])) && reference == "&" + name + ";"
    ensures CleanText(reference)
  {
    var tail := name + ";";
    assert reference[1..] == tail;
    SpanIs(tail, IsAlnum, |name|);
  }

  /** Whatever the text, its escaped form is clean. */
  lemma TextIsCleaned(t: string)
    ensures CleanText(EscapeText(t))
  {
    EscapeIsOneScan(t);
    EscapedIsClean(t);
  }
}
