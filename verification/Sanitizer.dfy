/** Sanitising HTML for a message body: tokenise, filter with a stack, print. */
module Sanitizer {
  import opened Optional
  import opened Text
  import opened Entities

  // ---------------------------------------------------------------- tokens

  datatype Token = Run(raw: string) | Open(tag: string, attributes: string, selfClosing: bool) | Close(tag: string)

  const VOID_TAGS: set<string> := {"br", "hr", "img"}
  const DROPPED_TAGS: set<string> := {"script", "style", "iframe", "object"}

  predicate IsTagChar(c: char) {
    IsAlnum(c) || c == '-'
  }

  /** Where the tag ends: the first `>` outside quotes, at or after `i`. */
  function TagEnd(s: string, i: nat): (e: Option<nat>)
    requires i <= |s|
    ensures e.Some? ==> i <= e.value < |s| && s[e.value] == '>'
    decreases |s| - i
  {
    if i == |s| then None
    else if s[i] == '>' then Some(i)
    else if s[i] == '"' || s[i] == '\'' then
      var j := Find(s, s[i], i + 1);
      if j == |s| then None else TagEnd(s, j + 1)
    else TagEnd(s, i + 1)
  }

  /** The first index at or after `i` holding `c`, or the length. */
  function Find(s: string, c: char, i: nat): (j: nat)
    requires i <= |s|
    ensures i <= j <= |s| && (forall k :: i <= k < j ==> s[k] != c) && (j < |s| ==> s[j] == c)
    decreases |s| - i
  {
    if i == |s| || s[i] == c then i else Find(s, c, i + 1)
  }

  /** The tag at the start of `s`, and its length; zero when there is none. */
  function MatchTag(s: string): (r: (nat, Token))
    ensures r.0 <= |s|
    ensures r.0 > 0 ==> !r.1.Run?
  {
    var none := (0, Run(""));
    if s == [] || s[0] != '<' then none
    else
      var p := if |s| > 1 && s[1] == '/' then 2 else 1;
      var n := Span(s[p..], IsTagChar);
      if n == 0 || !IsLetter(s[p]) then none
      else
        var end := TagEnd(s, p + n);
        if end.None? then none
        else
          var e := end.value;
          var tag := Lower(s[p..p + n]);
          (e + 1, if p == 2 then Close(tag) else Open(tag, s[p + n..e], s[e - 1] == '/' || tag in VOID_TAGS))
  }

  function Flush(text: string): seq<Token> {
    if text == [] then [] else [Run(text)]
  }

  /** The tokens of `s`, given the plain text collected so far. */
  function Tokens(text: string, s: string): seq<Token>
    decreases |s|
  {
    if s == [] then Flush(text)
    else
      var (n, token) := MatchTag(s);
      if n > 0 then Flush(text) + [token] + Tokens([], s[n..])
      else Tokens(text + [s[0]], s[1..])
  }

  lemma Assoc<T>(a: seq<T>, b: seq<T>, c: seq<T>)
    ensures a + (b + c) == a + b + c
  {
  }

  /** The tokeniser by position: what it still puts out at `i` with the text since `last` pending. */
  ghost function TokensFrom(html: string, last: nat, i: nat): seq<Token>
    requires last <= i <= |html|
    decreases |html| - i
  {
    if i == |html| then Flush(html[last..])
    else
      var (n, token) := MatchTag(html[i..]);
      if n > 0 then FlushWith(html[last..i], token) + TokensFrom(html, i + n, i + n)
      else TokensFrom(html, last, i + 1)
  }

  lemma AtTheEnd(html: string, last: nat, text: string, s: string)
    requires last <= |html| && text == html[last..|html|] && s == html[|html|..]
    ensures TokensFrom(html, last, |html|) == Tokens(text, s)
  {
    assert html[last..] == text;
  }

  lemma TokensStep(text: string, s: string)
    requires s != []
    ensures var (n, token) := MatchTag(s);
            Tokens(text, s) == if n > 0 then FlushWith(text, token) + Tokens([], s[n..]) else Tokens(text + [s[0]], s[1..])
  {
    hide MatchTag;
  }

  lemma PositionStep(html: string, last: nat, i: nat)
    requires last <= i < |html|
    ensures var (n, token) := MatchTag(html[i..]);
            TokensFrom(html, last, i)
              == if n > 0 then FlushWith(html[last..i], token) + TokensFrom(html, i + n, i + n) else TokensFrom(html, last, i + 1)
  {
    hide MatchTag;
  }

  lemma {:induction false} TokensByPosition(html: string, last: nat, i: nat, text: string, s: string)
    requires last <= i <= |html| && text == html[last..i] && s == html[i..]
    ensures TokensFrom(html, last, i) == Tokens(text, s)
    decreases |html| - i
  {
    hide *;
    if i == |html| {
      AtTheEnd(html, last, text, s);
    } else {
      TokensStep(text, s);
      PositionStep(html, last, i);
      var n := MatchTag(s).0;
      if n > 0 {
        SliceJump(html, i, n);
        TokensByPosition(html, i + n, i + n, [], s[n..]);
      } else {
        SliceStep(html, last, i);
        TokensByPosition(html, last, i + 1, text + [s[0]], s[1..]);
      }
    }
  }

  lemma SliceJump(html: string, i: nat, n: nat)
    requires i + n <= |html|
    ensures html[i..][n..] == html[i + n..] && html[i + n..i + n] == []
  {
  }

  lemma SliceStep(html: string, last: nat, i: nat)
    requires last <= i < |html|
    ensures html[last..i] + [html[i..][0]] == html[last..i + 1] && html[i..][1..] == html[i + 1..]
  {
  }

  /** One round of the loop: the tokens it puts out, and the two positions after it. */
  method NextToken(html: string, last: nat, i: nat) returns (more: seq<Token>, newLast: nat, next: nat)
    requires last <= i < |html|
    ensures newLast <= next <= |html| && i < next
    ensures more + TokensFrom(html, newLast, next) == TokensFrom(html, last, i)
  {
    hide *;
    var (n, token) := MatchTag(html[i..]);
    PositionStep(html, last, i);
    if n > 0 {
      return FlushWith(html[last..i], token), i + n, i + n;
    }
    assert [] + TokensFrom(html, last, i + 1) == TokensFrom(html, last, i + 1);
    return [], last, i + 1;
  }

  method Tokenize(html: string) returns (tokens: seq<Token>)
    ensures tokens == Tokens([], html)
  {
    tokens := [];
    var last, i := 0, 0;
    ghost var goal := TokensFrom(html, 0, 0);
    TokensByPosition(html, 0, 0, [], html);
    assert [] + goal == goal;
    while i < |html|
      invariant 0 <= last <= i <= |html|
      invariant tokens + TokensFrom(html, last, i) == goal
    {
      var more, newLast, next := NextToken(html, last, i);
      Assoc(tokens, more, TokensFrom(html, newLast, next));
      tokens, last, i := tokens + more, newLast, next;
    }
    tokens := tokens + Flush(html[last..]);
  }

  function FlushWith(text: string, token: Token): (r: seq<Token>)
    ensures r == Flush(text) + [token]
  {
    if text == [] then [token] else [Run(text), token]
  }

  // ------------------------------------------------------------- attributes

  predicate IsNameStart(c: char) {
    IsLetter(c) || c == '_' || c == ':'
  }

  predicate IsNameChar(c: char) {
    IsAlnum(c) || c == '-' || c == '_' || c == ':' || c == '.'
  }

  predicate IsBareChar(c: char) {
    !IsSpace(c) && c != '"' && c != '\'' && c != '>'
  }

  /** An attribute name and its `=` at the start of `s`: the length of the name and where the value begins. */
  function MatchName(s: string): (r: Option<(nat, nat)>)
    ensures r.Some? ==> 0 < r.value.0 < r.value.1 < |s|
  {
    if s == [] || !IsNameStart(s[0]) then None
    else
      var n := Span(s, IsNameChar);
      var eq := n + Span(s[n..], IsSpace);
      if eq == |s| || s[eq] != '=' then None
      else
        var v := eq + 1 + Span(s[eq + 1..], IsSpace);
        if v == |s| then None else Some((n, v))
  }

  /** The value at `v`, quoted or bare: its first and last bound, and where the attribute ends. */
  function MatchValue(s: string, v: nat): (r: Option<(nat, nat, nat)>)
    requires v < |s|
    ensures r.Some? ==> v <= r.value.0 <= r.value.1 <= r.value.2 <= |s| && v < r.value.2
  {
    if s[v] == '"' || s[v] == '\'' then
      var j := Find(s, s[v], v + 1);
      if j == |s| then None else Some((v + 1, j, j + 1))
    else
      var b := Span(s[v..], IsBareChar);
      if b == 0 then None else Some((v, v + b, v + b))
  }

  /** The attribute at the start of `s`: its length, zero for none, its name and its raw value. */
  function MatchAttribute(s: string): (r: (nat, string, string))
    ensures r.0 <= |s|
  {
    var name := MatchName(s);
    if name.None? then (0, "", "")
    else
      var value := MatchValue(s, name.value.1);
      if value.None? then (0, "", "")
      else (value.value.2, s[..name.value.0], s[value.value.0..value.value.1])
  }

  datatype Attribute = Attribute(name: string, value: string)

  /** Name and decoded value of every attribute in the raw text, in order. */
  function Attributes(raw: string): seq<Attribute>
    decreases |raw|
  {
    if raw == [] then []
    else
      var (n, name, value) := MatchAttribute(raw);
      if n > 0 then [Attribute(Lower(name), DecodeAttributeValue(value))] + Attributes(raw[n..])
      else Attributes(raw[1..])
  }

  /** The options of a call. The URL check is left abstract: any test of the decoded value. */
  datatype SanitizeOptions = SanitizeOptions(extraTags: set<string>, allowImages: bool, maxDepth: int,
                                             safeUrl: string -> bool)
  {
    predicate Allowed(tag: string) {
      (tag in MATRIX_ALLOWED_TAGS || tag in extraTags) && (tag == "img" ==> allowImages)
    }
  }

  const MATRIX_ALLOWED_TAGS: set<string> := {
    "font", "del", "h1", "h2", "h3", "h4", "h5", "h6", "blockquote", "p", "a", "ul", "ol", "sup", "sub",
    "li", "b", "i", "u", "strong", "em", "s", "code", "hr", "br", "div", "table", "thead", "tbody", "tr",
    "th", "td", "caption", "pre", "span", "img", "details", "summary" }

  function AllowedAttributes(tag: string): set<string> {
    if tag == "font" then {"data-mx-bg-color", "data-mx-color", "color"}
    else if tag == "span" then
      {"data-mx-bg-color", "data-mx-color", "data-mx-spoiler", "data-mx-maths",
       "data-msc4286-external-payment-details"}
    else if tag == "a" then {"name", "target", "href"}
    else if tag == "img" then {"width", "height", "alt", "title", "src"}
    else if tag == "ol" then {"start"}
    else if tag == "code" then {"class"}
    else if tag == "div" then {"data-mx-maths"}
    else {}
  }

  predicate IsLanguageClass(value: string) {
    "language-" < value && forall i :: 9 <= i < |value| ==>
      IsAlnum(value[i]) || value[i] == '_' || value[i] == '+' || value[i] == '-'
  }

  predicate Keep(options: SanitizeOptions, tag: string, a: Attribute) {
    && a.name in AllowedAttributes(tag)
    && (a.name == "href" ==> options.safeUrl(a.value))
    && (a.name == "src" ==> StartsWithFolded(a.value, "mxc://") && options.allowImages)
    && (a.name == "class" && tag == "code" ==> IsLanguageClass(a.value))
  }

  function Kept(options: SanitizeOptions, tag: string, attributes: seq<Attribute>): seq<Attribute> {
    if attributes == [] then []
    else (if Keep(options, tag, attributes[0]) then [attributes[0]] else []) + Kept(options, tag, attributes[1..])
  }

  function ShowAttribute(a: Attribute): string {
    ShowPair(a.name, EscapeHtml(a.value))
  }

  function ShowPair(name: string, value: string): string {
    " " + name + "=\"" + value + "\""
  }

  function ShowAttributes(attributes: seq<Attribute>): string {
    if attributes == [] then "" else ShowAttribute(attributes[0]) + ShowAttributes(attributes[1..])
  }

  function SanitizeAttributes(options: SanitizeOptions, tag: string, raw: string): string {
    ShowAttributes(Kept(options, tag, Attributes(raw)))
  }

  // ---------------------------------------------------------------- text

  /** The length of the character reference that follows an `&`, zero when there is none. */
  function Reference(s: string): (n: nat)
    ensures n <= |s|
  {
    if s == [] then 0
    else if s[0] == '#' then
      var d := Span(s[1..], IsDigit);
      var h := if |s| > 1 && s[1] == 'x' then Span(s[2..], IsHex) else 0;
      if d > 0 && 1 + d < |s| && s[1 + d] == ';' then d + 2
      else if h > 0 && 2 + h < |s| && s[2 + h] == ';' then h + 3
      else 0
    else if IsLetter(s[0]) then
      var n := Span(s, IsAlnum);
      if n < |s| && s[n] == ';' then n + 1 else 0
    else 0
  }

  function EscapeAmpersands(s: string): string
    decreases |s|
  {
    if s == [] then []
    else (if s[0] == '&' && Reference(s[1..]) == 0 then "&amp;" else [s[0]]) + EscapeAmpersands(s[1..])
  }

  function EscapeText(text: string): string {
    ReplaceChar(ReplaceChar(EscapeAmpersands(text), '<', "&lt;"), '>', "&gt;")
  }

  // ---------------------------------------------------------------- the stack machine

  /** A piece of output. */
  datatype Piece = Text(text: string) | Start(tag: string, attributes: string) | End(tag: string)

  function Show(p: Piece): string {
    match p
    case Text(text) => text
    case Start(tag, attributes) => "<" + tag + attributes + ">"
    case End(tag) => "</" + tag + ">"
  }

  function Print(ps: seq<Piece>): string {
    if ps == [] then "" else Show(ps[0]) + Print(ps[1..])
  }

  /** The last index of `tag`, or -1. */
  function LastIndexOf(open: seq<string>, tag: string): (k: int)
    ensures -1 <= k < |open|
    ensures k >= 0 ==> open[k] == tag
    ensures forall j :: k < j < |open| ==> open[j] != tag
  {
    if open == [] then -1
    else if open[|open| - 1] == tag then |open| - 1
    else LastIndexOf(open[..|open| - 1], tag)
  }

  /** Closing tags for everything on the stack from `k` up, innermost first. */
  function Closers(open: seq<string>, k: nat): seq<Piece>
    requires k <= |open|
    decreases |open|
  {
    if |open| == k then [] else [End(open[|open| - 1])] + Closers(open[..|open| - 1], k)
  }

  datatype State = State(open: seq<string>, depth: nat, suppressed: string)

  /** What one token does to the state and which pieces it emits. */
  function Consume(options: SanitizeOptions, st: State, token: Token): (State, seq<Piece>) {
    if st.depth > 0 then
      if token.Open? && token.tag == st.suppressed && !token.selfClosing then
        (st.(depth := st.depth + 1), [])
      else if token.Close? && token.tag == st.suppressed then
        (st.(depth := st.depth - 1, suppressed := if st.depth == 1 then "" else st.suppressed), [])
      else (st, [])
    else match token
      case Run(raw) => (st, [Text(EscapeText(raw))])
      case Open(tag, raw, selfClosing) =>
        if tag in DROPPED_TAGS then
          (if selfClosing then st else st.(depth := 1, suppressed := tag), [])
        else if !options.Allowed(tag) || |st.open| >= options.maxDepth then (st, [])
        else
          var piece := Start(tag, SanitizeAttributes(options, tag, raw));
          (if selfClosing || tag in VOID_TAGS then st else st.(open := st.open + [tag]), [piece])
      case Close(tag) =>
        if !options.Allowed(tag) || tag in VOID_TAGS then (st, [])
        else
          var k := LastIndexOf(st.open, tag);
          if k == -1 then (st, []) else (st.(open := st.open[..k]), Closers(st.open, k))
  }

  function ConsumeAll(options: SanitizeOptions, st: State, tokens: seq<Token>): seq<Piece>
    decreases |tokens|
  {
    if tokens == [] then Closers(st.open, 0)
    else
      var (st', ps) := Consume(options, st, tokens[0]);
      ps + ConsumeAll(options, st', tokens[1..])
  }

  const INITIAL := State([], 0, "")

  function Sanitized(options: SanitizeOptions, html: string): string {
    Print(ConsumeAll(options, INITIAL, Tokens([], html)))
  }

  function Concat(parts: seq<string>): string {
    if parts == [] then "" else Concat(parts[..|parts| - 1]) + parts[|parts| - 1]
  }

  function Cut(result: string, maxLength: Option<nat>): string {
    if maxLength.Some? && |result| > maxLength.value then result[..maxLength.value] else result
  }

  lemma Pushed(out: seq<string>, part: string)
    ensures Concat(out + [part]) == Concat(out) + part
  {
    assert (out + [part])[..|out|] == out;
  }

  lemma PrintOne(p: Piece)
    ensures Print([p]) == Show(p)
  {
    assert [p][1..] == [];
  }

  lemma CloseOne(open: seq<string>, k: nat, i: nat)
    requires k <= i < |open|
    ensures Print(Closers(open[..i + 1], k)) == Show(End(open[i])) + Print(Closers(open[..i], k))
  {
    assert open[..i + 1][..i] == open[..i];
    PrintConcat([End(open[i])], Closers(open[..i], k));
    PrintOne(End(open[i]));
  }

  lemma NoneToClose(open: seq<string>, k: nat)
    requires k <= |open|
    ensures Print(Closers(open[..k], k)) == "" && open[..|open|] == open
  {
  }

  /** Close every open tag from `k` up. */
  method CloseDownTo(out: seq<string>, open: seq<string>, k: nat) returns (out': seq<string>)
    requires k <= |open|
    ensures Concat(out') == Concat(out) + Print(Closers(open, k))
  {
    hide Closers;
    hide Print;
    hide Concat;
    out' := out;
    var i := |open|;
    NoneToClose(open, k);
    while i > k
      invariant k <= i <= |open|
      invariant Concat(out') + Print(Closers(open[..i], k)) == Concat(out) + Print(Closers(open, k))
    {
      i := i - 1;
      CloseOne(open, k, i);
      Pushed(out', Show(End(open[i])));
      Assoc(Concat(out'), Show(End(open[i])), Print(Closers(open[..i], k)));
      out' := out' + ["</" + open[i] + ">"];
    }
  }

  /** The body of the loop over the tokens. */
  method Filter(options: SanitizeOptions, token: Token, out: seq<string>, open: seq<string>,
                depth: nat, suppressed: string)
    returns (out': seq<string>, open': seq<string>, depth': nat, suppressed': string)
    ensures var (st, ps) := Consume(options, State(open, depth, suppressed), token);
            State(open', depth', suppressed') == st && Concat(out') == Concat(out) + Print(ps)
  {
    out', open', depth', suppressed' := out, open, depth, suppressed;
    if depth > 0 {
      if token.Open? && token.tag == suppressed && !token.selfClosing {
        depth' := depth + 1;
      } else if token.Close? && token.tag == suppressed {
        depth' := depth - 1;
        if depth' == 0 {
          suppressed' := "";
        }
      }
      return;
    }
    match token {
      case Run(raw) =>
        Pushed(out, EscapeText(raw));
        PrintOne(Text(EscapeText(raw)));
        out' := out + [EscapeText(raw)];
      case Open(tag, raw, selfClosing) =>
        if tag in DROPPED_TAGS {
          if !selfClosing {
            depth', suppressed' := 1, tag;
          }
        } else if options.Allowed(tag) && |open| < options.maxDepth {
          var attributes := SanitizeAttributes(options, tag, raw);
          Pushed(out, Show(Start(tag, attributes)));
          PrintOne(Start(tag, attributes));
          out' := out + ["<" + tag + attributes + ">"];
          if !(selfClosing || tag in VOID_TAGS) {
            open' := open + [tag];
          }
        }
      case Close(tag) =>
        if options.Allowed(tag) && tag !in VOID_TAGS {
          var k := LastIndexOf(open, tag);
          if k != -1 {
            out' := CloseDownTo(out, open, k);
            open' := open[..k];
          }
        }
    }
  }

  /** What the rest of the tokens still prints. */
  ghost function Rest(options: SanitizeOptions, st: State, tokens: seq<Token>, i: nat): string
    requires i <= |tokens|
  {
    Print(ConsumeAll(options, st, tokens[i..]))
  }

  lemma RestStep(options: SanitizeOptions, st: State, tokens: seq<Token>, i: nat)
    requires i < |tokens|
    ensures var (st', ps) := Consume(options, st, tokens[i]);
            Rest(options, st, tokens, i) == Print(ps) + Rest(options, st', tokens, i + 1)
  {
    hide Consume;
    hide Print;
    var (st', ps) := Consume(options, st, tokens[i]);
    assert tokens[i..][1..] == tokens[i + 1..];
    PrintConcat(ps, ConsumeAll(options, st', tokens[i + 1..]));
  }

  lemma RestEnds(options: SanitizeOptions, html: string, st: State, tokens: seq<Token>)
    ensures Rest(options, INITIAL, Tokens([], html), 0) == Sanitized(options, html)
    ensures Rest(options, st, tokens, |tokens|) == Print(Closers(st.open, 0))
  {
    assert Tokens([], html)[0..] == Tokens([], html) && tokens[|tokens|..] == [];
  }

  method SanitizeMatrixHtml(html: string, options: SanitizeOptions, maxLength: Option<nat>) returns (result: string)
    ensures result == Cut(Sanitized(options, html), maxLength)
  {
    hide Tokens;
    hide Rest;
    hide Consume;
    hide ConsumeAll;
    hide Closers;
    hide Print;
    hide Sanitized;
    var out: seq<string>, open: seq<string> := [], [];
    var suppressDepth: nat, suppressTag := 0, "";
    var tokens := Tokenize(html);
    RestEnds(options, html, INITIAL, tokens);
    var i := 0;
    while i < |tokens|
      invariant 0 <= i <= |tokens|
      invariant Concat(out) + Rest(options, State(open, suppressDepth, suppressTag), tokens, i) == Sanitized(options, html)
    {
      ghost var (st, ps) := Consume(options, State(open, suppressDepth, suppressTag), tokens[i]);
      RestStep(options, State(open, suppressDepth, suppressTag), tokens, i);
      Assoc(Concat(out), Print(ps), Rest(options, st, tokens, i + 1));
      out, open, suppressDepth, suppressTag := Filter(options, tokens[i], out, open, suppressDepth, suppressTag);
      i := i + 1;
    }
    RestEnds(options, html, State(open, suppressDepth, suppressTag), tokens);
    out := CloseDownTo(out, open, 0);
    result := Concat(out);
    if maxLength.Some? && |result| > maxLength.value {
      result := result[..maxLength.value];
    }
  }

  lemma {:induction false} PrintConcat(a: seq<Piece>, b: seq<Piece>)
    ensures Print(a + b) == Print(a) + Print(b)
  {
    if a == [] {
      assert a + b == b;
    } else {
      assert (a + b)[1..] == a[1..] + b;
      PrintConcat(a[1..], b);
    }
  }
}
