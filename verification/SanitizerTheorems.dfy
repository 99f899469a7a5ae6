/** The theorems about whole outputs of the sanitiser. */
module SanitizerTheorems {
  import opened Optional
  import opened Text
  import opened Entities
  import opened Sanitizer
  import opened SanitizerLaws

  // ------------------------------------------------ printed pieces tokenise back

  ghost predicate IsTagName(tag: string) {
    && tag != [] && IsLetter(tag[0]) && Lower(tag) == tag
    && forall i :: 0 <= i < |tag| ==> IsTagChar(tag[i])
  }

  ghost predicate AreShown(attributes: string) {
    var list := Attributes(attributes);
    AllPrintable(list) && attributes == ShowAttributes(list)
  }

  ghost predicate PieceOk(p: Piece) {
    match p
    case Text(text) => CleanText(text)
    case Start(tag, attributes) => IsTagName(tag) && AreShown(attributes)
    case End(tag) => IsTagName(tag)
  }

  lemma {:induction false} TagEndSkip(s: string, i: nat, j: nat)
    requires i <= j <= |s| && forall k :: i <= k < j ==> s[k] != '>' && s[k] != '"' && s[k] != '\''
    ensures TagEnd(s, i) == TagEnd(s, j)
    decreases j - i
  {
    if i < j {
      TagEndSkip(s, i + 1, j);
    }
  }

  lemma TagEndOverPair(s: string, i: nat, name: string, v: string)
    requires IsAttributeName(name) && '"' !in v
    requires i + |name| + |v| + 4 <= |s| && s[i..i + |name| + |v| + 4] == ShowPair(name, v)
    ensures TagEnd(s, i) == TagEnd(s, i + |name| + |v| + 4)
  {
    var q, j := i + |name| + 2, i + |name| + |v| + 3;
    var shown := ShowPair(name, v);
    assert forall k :: i <= k <= j ==> s[k] == shown[k - i];
    assert shown[|name| + 2] == '"' && shown[|name| + |v| + 3] == '"' && shown[|name| + 1] == '=' && shown[0] == ' ';
    forall k | i <= k < q ensures s[k] != '>' && s[k] != '"' && s[k] != '\'' {
      if i < k < q - 1 {
        assert shown[k - i] == name[k - i - 1];
      }
    }
    TagEndSkip(s, i, q);
    forall k | q < k < j ensures s[k] != '"' {
      assert shown[k - i] == v[k - q - 1];
    }
    FindIs(s, '"', q + 1, j);
  }

  lemma TwoParts(s: string, i: nat, a: string, b: string)
    requires i + |a + b| <= |s| && s[i..i + |a + b|] == a + b
    ensures s[i..i + |a|] == a && s[i + |a|..i + |a| + |b|] == b
  {
    assert s[i..i + |a + b|][..|a|] == a && s[i..i + |a + b|][|a|..] == b;
    assert s[i..i + |a|] == s[i..i + |a + b|][..|a|];
    assert s[i + |a|..i + |a + b|] == s[i..i + |a + b|][|a|..];
  }

  lemma {:induction false} TagEndOverAttributes(s: string, i: nat, attributes: seq<Attribute>)
    requires AllPrintable(attributes)
    requires var n := |ShowAttributes(attributes)|;
             i + n < |s| && s[i..i + n] == ShowAttributes(attributes) && s[i + n] == '>'
    ensures TagEnd(s, i) == Some(i + |ShowAttributes(attributes)|)
    decreases |attributes|
  {
    hide EscapeHtml;
    hide TagEnd;
    if attributes == [] {
      EndsHere(s, i);
    } else {
      var a, rest := attributes[0], ShowAttributes(attributes[1..]);
      var v := EscapeHtml(a.value);
      EscapedIsInert(a.value);
      assert Printable(a);
      var n := |ShowPair(a.name, v)|;
      TwoParts(s, i, ShowPair(a.name, v), rest);
      TagEndOverPair(s, i, a.name, v);
      TagEndOverAttributes(s, i + n, attributes[1..]);
    }
  }

  lemma EndsHere(s: string, i: nat)
    requires i < |s| && s[i] == '>'
    ensures TagEnd(s, i) == Some(i)
  {
  }

  /** Printed attributes are empty or begin with a blank and end with a quote. */
  lemma {:induction false} ShownEnds(attributes: seq<Attribute>)
    ensures var shown := ShowAttributes(attributes);
            shown != [] ==> shown[0] == ' ' && shown[|shown| - 1] == '"'
  {
    if attributes != [] {
      ShownEnds(attributes[1..]);
      var one := ShowAttribute(attributes[0]);
      assert one[|one| - 1] == '"' && one[0] == ' ';
    }
  }

  lemma MatchTagAt(s: string, p: nat, n: nat, e: nat)
    requires 1 <= p <= 2 && 0 < n && p + n <= e < |s| && s[0] == '<'
    requires p == 2 <==> s[1] == '/'
    requires IsLetter(s[p]) && (forall k :: p <= k < p + n ==> IsTagChar(s[k])) && !IsTagChar(s[p + n])
    requires TagEnd(s, p + n) == Some(e)
    ensures MatchTag(s) == (e + 1, var tag := Lower(s[p..p + n]);
                if p == 2 then Close(tag) else Open(tag, s[p + n..e], s[e - 1] == '/' || tag in VOID_TAGS))
  {
    hide TagEnd;
    hide Span;
    hide Lower;
    SpanFrom(s, p, n);
  }

  lemma SpanFrom(s: string, p: nat, n: nat)
    requires p + n < |s| && (forall k :: p <= k < p + n ==> IsTagChar(s[k])) && !IsTagChar(s[p + n])
    ensures Span(s[p..], IsTagChar) == n
  {
    assert forall k :: 0 <= k < |s| - p ==> s[p..][k] == s[p + k];
    SpanIs(s[p..], IsTagChar, n);
  }

  lemma StartLayout(s: string, tag: string, attributes: string, rest: string)
    requires s == "<" + tag + attributes + ">" + rest
    ensures var n, m := |tag|, |attributes|;
            && |s| == n + m + 2 + |rest| && s[0] == '<' && s[1..1 + n] == tag
            && s[1 + n..1 + n + m] == attributes && s[1 + n + m] == '>'
            && (forall k :: 1 <= k < 1 + n ==> s[k] == tag[k - 1])
            && (m > 0 ==> s[1 + n] == attributes[0] && s[n + m] == attributes[m - 1])
  {
  }

  lemma MatchStart(tag: string, attributes: string, rest: string)
    requires IsTagName(tag) && AreShown(attributes)
    ensures var shown := Show(Start(tag, attributes));
            MatchTag(shown + rest) == (|shown|, Open(tag, attributes, tag in VOID_TAGS))
  {
    hide MatchTag;
    hide IsTagName;
    hide AreShown;
    var s := Show(Start(tag, attributes)) + rest;
    MatchStartIn(s, tag, attributes, rest);
  }

  lemma MatchStartIn(s: string, tag: string, attributes: string, rest: string)
    requires IsTagName(tag) && AreShown(attributes) && s == "<" + tag + attributes + ">" + rest
    ensures MatchTag(s) == (|tag| + |attributes| + 2, Open(tag, attributes, tag in VOID_TAGS))
  {
    hide MatchTag;
    hide TagEnd;
    hide Attributes;
    hide ShowAttributes;
    StartEnds(s, tag, Attributes(attributes), rest);
    StartLayout(s, tag, attributes, rest);
    MatchTagAt(s, 1, |tag|, 1 + |tag| + |attributes|);
  }

  lemma StartEnds(s: string, tag: string, list: seq<Attribute>, rest: string)
    requires IsTagName(tag) && AllPrintable(list) && s == "<" + tag + ShowAttributes(list) + ">" + rest
    ensures var n, m := |tag|, |ShowAttributes(list)|;
            && TagEnd(s, 1 + n) == Some(1 + n + m)
            && s[n + m] != '/' && !IsTagChar(s[1 + n]) && s[1] != '/'
  {
    StartLayout(s, tag, ShowAttributes(list), rest);
    ShownEnds(list);
    TagEndOverAttributes(s, 1 + |tag|, list);
  }

  lemma MatchEnd(tag: string, rest: string)
    requires IsTagName(tag)
    ensures var shown := Show(End(tag));
            MatchTag(shown + rest) == (|shown|, Close(tag))
  {
    var s := Show(End(tag)) + rest;
    var n := |tag|;
    assert s == "</" + tag + ">" + rest;
    assert s[0] == '<' && s[1] == '/' && s[2..2 + n] == tag && s[2 + n] == '>';
    forall k | 2 <= k < 2 + n ensures IsTagChar(s[k]) {
      assert s[k] == s[2..2 + n][k - 2];
    }
    assert s[2] == s[2..2 + n][0];
    MatchTagAt(s, 2, n, 2 + n);
  }

  lemma NoTag(s: string)
    requires s != [] && s[0] != '<'
    ensures MatchTag(s).0 == 0
  {
  }

  lemma {:induction false} TextJoins(text: string, t: string, rest: string)
    requires '<' !in t
    ensures Tokens(text, t + rest) == Tokens(text + t, rest)
    decreases |t|
  {
    hide MatchTag;
    if t == [] {
      assert t + rest == rest && text + t == text;
    } else {
      var s := t + rest;
      assert s[0] == t[0];
      NoTag(s);
      assert s[1..] == t[1..] + rest;
      TextJoins(text + [t[0]], t[1..], rest);
      assert text + [t[0]] + t[1..] == text + t;
    }
  }

  /** The tokens of printed pieces: tags as printed, neighbouring texts merged. */
  ghost function Merge(text: string, ps: seq<Piece>): seq<Token>
    decreases |ps|
  {
    if ps == [] then Flush(text)
    else match ps[0]
      case Text(t) => Merge(text + t, ps[1..])
      case Start(tag, attributes) =>
        Flush(text) + [Open(tag, attributes, tag in VOID_TAGS)] + Merge([], ps[1..])
      case End(tag) => Flush(text) + [Close(tag)] + Merge([], ps[1..])
  }

  /** Printed pieces tokenise back to themselves. */
  lemma {:induction false} TokensOfPrinted(text: string, ps: seq<Piece>)
    requires forall p :: p in ps ==> PieceOk(p)
    ensures Tokens(text, Print(ps)) == Merge(text, ps)
    decreases |ps|
  {
    if ps != [] {
      var p, rest := ps[0], Print(ps[1..]);
      var s := Print(ps);
      assert PieceOk(p);
      TokensOfPrinted(if p.Text? then text + p.text else [], ps[1..]);
      match p
      case Text(t) =>
        TextJoins(text, t, rest);
      case Start(tag, attributes) =>
        MatchStart(tag, attributes, rest);
        assert s[|Show(p)|..] == rest;
      case End(tag) =>
        MatchEnd(tag, rest);
        assert s[|Show(p)|..] == rest;
    }
  }

  // -------------------------------------------------------- what the input leaves open

  ghost predicate LexicalToken(t: Token) {
    t.Run? || IsTagName(t.tag)
  }

  lemma {:induction false} TokensAreLexical(text: string, s: string)
    ensures forall t :: t in Tokens(text, s) ==> LexicalToken(t)
    decreases |s|
  {
    if s != [] {
      var (n, token) := MatchTag(s);
      if n > 0 {
        MatchIsLexical(s);
        TokensAreLexical([], s[n..]);
      } else {
        TokensAreLexical(text + [s[0]], s[1..]);
      }
    }
  }

  lemma MatchIsLexical(s: string)
    requires MatchTag(s).0 > 0
    ensures LexicalToken(MatchTag(s).1)
  {
    var p := if |s| > 1 && s[1] == '/' then 2 else 1;
    var n := Span(s[p..], IsTagChar);
    var name := s[p..p + n];
    assert forall i :: 0 <= i < n ==> name[i] == s[p..][i];
    assert Lower(Lower(name)) == Lower(name);
  }

  /** The guard of the branch that prints an opening tag without remembering it. */
  ghost predicate LeavesOpen(options: SanitizeOptions, st: State, t: Token) {
    && st.depth == 0 && t.Open? && t.selfClosing && t.tag !in VOID_TAGS && t.tag !in DROPPED_TAGS
    && options.Allowed(t.tag) && |st.open| < options.maxDepth
  }

  /** How often a token list reaches that branch. */
  ghost function LeftOpen(options: SanitizeOptions, st: State, tokens: seq<Token>): nat
    decreases |tokens|
  {
    if tokens == [] then 0
    else (if LeavesOpen(options, st, tokens[0]) then 1 else 0)
         + LeftOpen(options, Consume(options, st, tokens[0]).0, tokens[1..])
  }

  /** The token list nests: every close matches the innermost open tag, nothing is left open, depth
      stays within the limit, and all tags are allowed ones. */
  ghost predicate WellNested(options: SanitizeOptions, open: seq<string>, tokens: seq<Token>)
    decreases |tokens|
  {
    if tokens == [] then open == []
    else match tokens[0]
      case Run(_) => WellNested(options, open, tokens[1..])
      case Open(tag, _, _) =>
        && options.Allowed(tag) && tag !in DROPPED_TAGS && |open| < options.maxDepth
        && WellNested(options, if tag in VOID_TAGS then open else open + [tag], tokens[1..])
      case Close(tag) =>
        && open != [] && open[|open| - 1] == tag
        && WellNested(options, open[..|open| - 1], tokens[1..])
  }

  /** Non-void opening tags minus closing tags. */
  ghost function Net(ps: seq<Piece>): int {
    if ps == [] then 0
    else (match ps[0]
          case Text(_) => 0
          case Start(tag, _) => if tag in VOID_TAGS then 0 else 1
          case End(_) => -1) + Net(ps[1..])
  }

  ghost function NetTokens(ts: seq<Token>): int {
    if ts == [] then 0
    else (match ts[0]
          case Run(_) => 0
          case Open(tag, _, _) => if tag in VOID_TAGS then 0 else 1
          case Close(_) => -1) + NetTokens(ts[1..])
  }

  lemma {:induction false} NetConcat(a: seq<Piece>, b: seq<Piece>)
    ensures Net(a + b) == Net(a) + Net(b)
  {
    if a == [] {
      assert a + b == b;
    } else {
      assert (a + b)[1..] == a[1..] + b;
      NetConcat(a[1..], b);
    }
  }

  lemma {:induction false} NetTokensConcat(a: seq<Token>, b: seq<Token>)
    ensures NetTokens(a + b) == NetTokens(a) + NetTokens(b)
  {
    if a == [] {
      assert a + b == b;
    } else {
      assert (a + b)[1..] == a[1..] + b;
      NetTokensConcat(a[1..], b);
    }
  }

  lemma {:induction false} NetOfClosers(open: seq<string>, k: nat)
    requires k <= |open|
    ensures Net(Closers(open, k)) == k - |open|
    decreases |open|
  {
    if k < |open| {
      NetOfClosers(open[..|open| - 1], k);
    }
  }

  /** The output opens as many tags as it closes, plus those left open. */
  lemma {:induction false} NetOfOutput(options: SanitizeOptions, st: State, tokens: seq<Token>)
    ensures Net(ConsumeAll(options, st, tokens)) == LeftOpen(options, st, tokens) - |st.open|
    decreases |tokens|
  {
    if tokens == [] {
      NetOfClosers(st.open, 0);
    } else {
      var (st', ps) := Consume(options, st, tokens[0]);
      NetOfOutput(options, st', tokens[1..]);
      NetConcat(ps, ConsumeAll(options, st', tokens[1..]));
      if ps != [] && tokens[0].Close? {
        NetOfClosers(st.open, LastIndexOf(st.open, tokens[0].tag));
      } else if ps != [] {
        assert ps == [ps[0]] && ps[1..] == [];
      }
    }
  }

  lemma {:induction false} NetOfNested(options: SanitizeOptions, open: seq<string>, tokens: seq<Token>)
    requires WellNested(options, open, tokens)
    ensures NetTokens(tokens) == -|open|
    decreases |tokens|
  {
    if tokens != [] {
      var t := tokens[0];
      var open' := if t.Run? || (t.Open? && t.tag in VOID_TAGS) then open
                   else if t.Open? then open + [t.tag] else open[..|open| - 1];
      NetOfNested(options, open', tokens[1..]);
    }
  }

  lemma {:induction false} NetOfMerge(text: string, ps: seq<Piece>)
    ensures NetTokens(Merge(text, ps)) == Net(ps)
    decreases |ps|
  {
    if ps != [] {
      NetOfMerge(if ps[0].Text? then text + ps[0].text else [], ps[1..]);
      if !ps[0].Text? {
        var token := if ps[0].Start? then Open(ps[0].tag, ps[0].attributes, ps[0].tag in VOID_TAGS) else Close(ps[0].tag);
        NetTokensConcat(Flush(text) + [token], Merge([], ps[1..]));
        NetTokensConcat(Flush(text), [token]);
      }
    }
  }

  // ------------------------------------------------------------- the first pass

  /** The stack holds allowed tags that can be closed again. */
  ghost predicate StackOk(options: SanitizeOptions, open: seq<string>) {
    forall tag :: tag in open ==> IsTagName(tag) && options.Allowed(tag) && tag !in VOID_TAGS && tag !in DROPPED_TAGS
  }

  /** A piece the sanitiser prints: clean text, an allowed tag with permitted attributes only. */
  ghost predicate Printed(options: SanitizeOptions, p: Piece) {
    && PieceOk(p)
    && (!p.Text? ==> options.Allowed(p.tag) && p.tag !in DROPPED_TAGS)
    && (p.Start? ==> SanitizeAttributes(options, p.tag, p.attributes) == p.attributes)
    && (p.Start? ==> forall a :: a in Attributes(p.attributes) ==> Keep(options, p.tag, a))
    && (p.End? ==> p.tag !in VOID_TAGS)
  }

  lemma {:induction false} ClosersPrinted(options: SanitizeOptions, open: seq<string>, k: nat)
    requires k <= |open| && StackOk(options, open)
    ensures forall p :: p in Closers(open, k) ==> Printed(options, p)
    decreases |open|
  {
    if k < |open| {
      assert open[|open| - 1] in open;
      ClosersPrinted(options, open[..|open| - 1], k);
    }
  }

  lemma StartPrinted(options: SanitizeOptions, tag: string, raw: string)
    requires IsTagName(tag) && options.Allowed(tag) && tag !in DROPPED_TAGS
    ensures Printed(options, Start(tag, SanitizeAttributes(options, tag, raw)))
  {
    hide SanitizeAttributes;
    AttributesStable(options, tag, raw);
  }

  lemma RunPrinted(options: SanitizeOptions, raw: string)
    ensures Printed(options, Text(EscapeText(raw)))
  {
    TextIsCleaned(raw);
  }

  lemma PushOk(options: SanitizeOptions, open: seq<string>, tag: string)
    requires StackOk(options, open) && IsTagName(tag) && options.Allowed(tag) && tag !in VOID_TAGS && tag !in DROPPED_TAGS
    ensures StackOk(options, open + [tag])
  {
  }

  lemma PopOk(options: SanitizeOptions, open: seq<string>, k: nat)
    requires StackOk(options, open) && k <= |open|
    ensures StackOk(options, open[..k])
  {
  }

  lemma ConsumePrints(options: SanitizeOptions, st: State, t: Token)
    requires StackOk(options, st.open) && LexicalToken(t)
    ensures var (st', ps) := Consume(options, st, t);
            StackOk(options, st'.open) && forall p :: p in ps ==> Printed(options, p)
  {
    hide StackOk;
    hide Printed;
    hide IsTagName;
    hide EscapeText;
    hide SanitizeAttributes;
    if st.depth == 0 {
      match t
      case Run(raw) => RunPrinted(options, raw);
      case Open(tag, raw, _) =>
        if tag !in DROPPED_TAGS && options.Allowed(tag) {
          StartPrinted(options, tag, raw);
          if tag !in VOID_TAGS { PushOk(options, st.open, tag); }
        }
      case Close(tag) =>
        var k := LastIndexOf(st.open, tag);
        if k >= 0 {
          ClosersPrinted(options, st.open, k);
          PopOk(options, st.open, k);
        }
    }
  }

  lemma {:induction false} OutputPrinted(options: SanitizeOptions, st: State, tokens: seq<Token>)
    requires StackOk(options, st.open) && forall t :: t in tokens ==> LexicalToken(t)
    ensures forall p :: p in ConsumeAll(options, st, tokens) ==> Printed(options, p)
    decreases |tokens|
  {
    if tokens == [] {
      ClosersPrinted(options, st.open, 0);
    } else {
      assert tokens[0] in tokens;
      ConsumePrints(options, st, tokens[0]);
      OutputPrinted(options, Consume(options, st, tokens[0]).0, tokens[1..]);
    }
  }

  /** The pieces nest from a stack: the piece form of WellNested. */
  ghost predicate Nests(options: SanitizeOptions, open: seq<string>, ps: seq<Piece>)
    decreases |ps|
  {
    if ps == [] then open == []
    else match ps[0]
      case Text(_) => Nests(options, open, ps[1..])
      case Start(tag, _) =>
        && |open| < options.maxDepth
        && Nests(options, if tag in VOID_TAGS then open else open + [tag], ps[1..])
      case End(tag) =>
        && open != [] && open[|open| - 1] == tag && Nests(options, open[..|open| - 1], ps[1..])
  }

  lemma {:induction false} ClosersNest(options: SanitizeOptions, open: seq<string>, k: nat, rest: seq<Piece>)
    requires k <= |open| && Nests(options, open[..k], rest)
    ensures Nests(options, open, Closers(open, k) + rest)
    decreases |open|
  {
    if k == |open| {
      assert open[..k] == open && Closers(open, k) + rest == rest;
    } else {
      var below := open[..|open| - 1];
      assert below[..k] == open[..k];
      ClosersNest(options, below, k, rest);
      var all := Closers(open, k) + rest;
      assert all[1..] == Closers(below, k) + rest;
    }
  }

  lemma {:induction false} OutputNests(options: SanitizeOptions, st: State, tokens: seq<Token>)
    requires LeftOpen(options, st, tokens) == 0
    ensures Nests(options, st.open, ConsumeAll(options, st, tokens))
    decreases |tokens|
  {
    if tokens == [] {
      ClosersNest(options, st.open, 0, []);
      assert Closers(st.open, 0) + [] == Closers(st.open, 0);
    } else {
      var (st', ps) := Consume(options, st, tokens[0]);
      var rest := ConsumeAll(options, st', tokens[1..]);
      OutputNests(options, st', tokens[1..]);
      if ps == [] {
        assert ps + rest == rest;
      } else if tokens[0].Close? {
        ClosersNest(options, st.open, LastIndexOf(st.open, tokens[0].tag), rest);
      } else {
        assert (ps + rest)[1..] == rest;
      }
    }
  }

  lemma {:induction false} MergeNests(options: SanitizeOptions, open: seq<string>, text: string, ps: seq<Piece>)
    requires Nests(options, open, ps) && forall p :: p in ps ==> Printed(options, p)
    ensures WellNested(options, open, Merge(text, ps))
    decreases |ps|
  {
    if ps == [] {
      if text != [] {
        assert Flush(text)[1..] == [];
      }
    } else {
      var p := ps[0];
      assert Printed(options, p);
      var open' := if p.Text? || (p.Start? && p.tag in VOID_TAGS) then open
                   else if p.Start? then open + [p.tag] else open[..|open| - 1];
      MergeNests(options, open', if p.Text? then text + p.text else [], ps[1..]);
      if !p.Text? {
        var token := if p.Start? then Open(p.tag, p.attributes, p.tag in VOID_TAGS) else Close(p.tag);
        FlushNests(options, open, text, token, Merge([], ps[1..]));
      }
    }
  }

  lemma FlushNests(options: SanitizeOptions, open: seq<string>, text: string, token: Token, rest: seq<Token>)
    requires WellNested(options, open, [token] + rest)
    ensures WellNested(options, open, Flush(text) + [token] + rest)
  {
    var all := Flush(text) + [token] + rest;
    if text == [] {
      assert all == [token] + rest;
    } else {
      assert all[0] == Run(text) && all[1..] == [token] + rest;
    }
  }

  // ------------------------------------------------------------- the second pass

  lemma ConsumeFirst(options: SanitizeOptions, st: State, token: Token, rest: seq<Token>)
    ensures var (st', ps) := Consume(options, st, token);
            ConsumeAll(options, st, [token] + rest) == ps + ConsumeAll(options, st', rest)
  {
    hide Consume;
    var all := [token] + rest;
    assert all[0] == token && all[1..] == rest;
  }

  lemma ConsumeText(options: SanitizeOptions, open: seq<string>, text: string)
    requires CleanText(text)
    ensures Consume(options, State(open, 0, ""), Run(text)) == (State(open, 0, ""), [Text(text)])
  {
    hide CleanText;
    EscapeKeepsClean(text);
  }

  lemma ConsumeAfterFlush(options: SanitizeOptions, open: seq<string>, text: string, token: Token, rest: seq<Token>)
    requires CleanText(text)
    ensures var st := State(open, 0, ""); var (st', ps) := Consume(options, st, token);
            Print(ConsumeAll(options, st, Flush(text) + [token] + rest))
              == text + (Print(ps) + Print(ConsumeAll(options, st', rest)))
  {
    hide Consume;
    hide ConsumeAll;
    hide CleanText;
    var st := State(open, 0, "");
    var (st', ps) := Consume(options, st, token);
    var one := [token] + rest;
    ConsumeFirst(options, st, token, rest);
    PrintConcat(ps, ConsumeAll(options, st', rest));
    if text == [] {
      assert Flush(text) + [token] + rest == one;
    } else {
      assert Flush(text) + [token] + rest == [Run(text)] + one;
      ConsumeText(options, open, text);
      ConsumeFirst(options, st, Run(text), one);
      PrintConcat([Text(text)], ConsumeAll(options, st, one));
      PrintOne(Text(text));
    }
  }

  lemma ClosersOfTop(open: seq<string>)
    requires open != []
    ensures LastIndexOf(open, open[|open| - 1]) == |open| - 1
    ensures Closers(open, |open| - 1) == [End(open[|open| - 1])]
  {
    assert Closers(open[..|open| - 1], |open| - 1) == [];
  }

  /** The token of a printed tag is consumed into that very tag. */
  lemma ConsumePrinted(options: SanitizeOptions, open: seq<string>, p: Piece)
    requires Printed(options, p) && !p.Text?
    requires p.Start? ==> |open| < options.maxDepth
    requires p.End? ==> open != [] && open[|open| - 1] == p.tag
    ensures Consume(options, State(open, 0, ""), TokenOf(p)) == (State(After(open, p), 0, ""), [p])
  {
    if p.End? {
      ClosersOfTop(open);
    }
  }

  ghost function TokenOf(p: Piece): Token
    requires !p.Text?
  {
    if p.Start? then Open(p.tag, p.attributes, p.tag in VOID_TAGS) else Close(p.tag)
  }

  ghost function After(open: seq<string>, p: Piece): seq<string> {
    if p.Start? && p.tag !in VOID_TAGS then open + [p.tag]
    else if p.End? && open != [] then open[..|open| - 1]
    else open
  }

  /** Sanitising printed, nested pieces prints the same characters. */
  lemma {:induction false} SecondPass(options: SanitizeOptions, open: seq<string>, text: string, ps: seq<Piece>)
    requires Nests(options, open, ps) && (forall p :: p in ps ==> Printed(options, p)) && CleanText(text)
    ensures Print(ConsumeAll(options, State(open, 0, ""), Merge(text, ps))) == text + Print(ps)
    decreases |ps|
  {
    if ps == [] {
      SecondPassEnds(options, text);
    } else {
      var p := ps[0];
      assert Printed(options, p);
      if p.Text? {
        CleanConcat(text, p.text);
        SecondPass(options, open, text + p.text, ps[1..]);
        Assoc(text, p.text, Print(ps[1..]));
      } else {
        SecondPass(options, After(open, p), [], ps[1..]);
        SecondPassTag(options, open, text, p, ps[1..]);
      }
    }
  }

  lemma SecondPassEnds(options: SanitizeOptions, text: string)
    requires CleanText(text)
    ensures Print(ConsumeAll(options, State([], 0, ""), Flush(text))) == text
  {
    EscapeKeepsClean(text);
    if text != [] {
      assert Flush(text)[1..] == [];
      PrintOne(Text(text));
      assert [Text(text)] + [] == [Text(text)];
    }
  }

  lemma SecondPassTag(options: SanitizeOptions, open: seq<string>, text: string, p: Piece, ps: seq<Piece>)
    requires CleanText(text) && Printed(options, p) && !p.Text?
    requires p.Start? ==> |open| < options.maxDepth
    requires p.End? ==> open != [] && open[|open| - 1] == p.tag
    requires Print(ConsumeAll(options, State(After(open, p), 0, ""), Merge([], ps))) == [] + Print(ps)
    ensures Print(ConsumeAll(options, State(open, 0, ""), Flush(text) + [TokenOf(p)] + Merge([], ps)))
         == text + (Show(p) + Print(ps))
  {
    ConsumeAfterFlush(options, open, text, TokenOf(p), Merge([], ps));
    ConsumePrinted(options, open, p);
    PrintOne(p);
    assert [] + Print(ps) == Print(ps);
  }

  // --------------------------------------------------------------- the theorems

  ghost function Pieces(options: SanitizeOptions, html: string): seq<Piece> {
    ConsumeAll(options, INITIAL, Tokens([], html))
  }

  /** The number of tags the sanitiser leaves open on this input. */
  ghost function LeavesOpenOn(options: SanitizeOptions, html: string): nat {
    LeftOpen(options, INITIAL, Tokens([], html))
  }

  lemma OutputTokens(options: SanitizeOptions, html: string)
    ensures Tokens([], Sanitized(options, html)) == Merge([], Pieces(options, html))
    ensures forall p :: p in Pieces(options, html) ==> Printed(options, p)
  {
    TokensAreLexical([], html);
    OutputPrinted(options, INITIAL, Tokens([], html));
    TokensOfPrinted([], Pieces(options, html));
  }

  /** Read again by the sanitiser's own tokeniser, the output is a well-nested sequence of allowed
      tags within the depth limit, exactly when no tag was left open. */
  lemma WellNestedExactly(options: SanitizeOptions, html: string)
    ensures WellNested(options, [], Tokens([], Sanitized(options, html))) <==> LeavesOpenOn(options, html) == 0
  {
    var ps := Pieces(options, html);
    OutputTokens(options, html);
    NetOfOutput(options, INITIAL, Tokens([], html));
    NetOfMerge([], ps);
    if LeavesOpenOn(options, html) == 0 {
      OutputNests(options, INITIAL, Tokens([], html));
      MergeNests(options, [], [], ps);
    } else if WellNested(options, [], Tokens([], Sanitized(options, html))) {
      NetOfNested(options, [], Tokens([], Sanitized(options, html)));
      assert false;
    }
  }

  lemma {:induction false} MergedTags(options: SanitizeOptions, text: string, ps: seq<Piece>)
    requires forall p :: p in ps ==> Printed(options, p)
    ensures forall t :: t in Merge(text, ps) ==>
              && (!t.Run? ==> options.Allowed(t.tag) && t.tag !in DROPPED_TAGS)
              && (t.Open? ==> (t.selfClosing <==> t.tag in VOID_TAGS))
              && (t.Open? ==> forall a :: a in Attributes(t.attributes) ==> Keep(options, t.tag, a))
    decreases |ps|
  {
    if ps != [] {
      assert Printed(options, ps[0]);
      MergedTags(options, if ps[0].Text? then text + ps[0].text else [], ps[1..]);
    }
  }

  /** Whatever the input, every tag of the output is allowed and every attribute permitted: no script
      or style, no event handler, no link that the URL test refuses, no image that is not `mxc:`. */
  lemma OnlyPermittedMarkup(options: SanitizeOptions, html: string)
    ensures forall t :: t in Tokens([], Sanitized(options, html)) ==>
              && (!t.Run? ==> options.Allowed(t.tag) && t.tag !in DROPPED_TAGS)
              && (t.Open? ==> forall a :: a in Attributes(t.attributes) ==> Keep(options, t.tag, a))
  {
    OutputTokens(options, html);
    MergedTags(options, [], Pieces(options, html));
  }

  lemma {:induction false} NoneLeftOpen(options: SanitizeOptions, st: State, tokens: seq<Token>)
    requires forall t :: t in tokens && t.Open? && t.selfClosing ==> t.tag in VOID_TAGS
    ensures LeftOpen(options, st, tokens) == 0
    decreases |tokens|
  {
    if tokens != [] {
      assert tokens[0] in tokens;
      NoneLeftOpen(options, Consume(options, st, tokens[0]).0, tokens[1..]);
    }
  }

  lemma OutputLeavesNone(options: SanitizeOptions, html: string)
    ensures LeavesOpenOn(options, Sanitized(options, html)) == 0
  {
    OutputTokens(options, html);
    MergedTags(options, [], Pieces(options, html));
    NoneLeftOpen(options, INITIAL, Tokens([], Sanitized(options, html)));
  }

  /** Sanitising twice is sanitising once, exactly when no tag was left open. */
  lemma IdempotentExactly(options: SanitizeOptions, html: string)
    ensures Sanitized(options, Sanitized(options, html)) == Sanitized(options, html)
            <==> LeavesOpenOn(options, html) == 0
  {
    var out := Sanitized(options, html);
    if LeavesOpenOn(options, html) == 0 {
      OutputTokens(options, html);
      OutputNests(options, INITIAL, Tokens([], html));
      SecondPass(options, [], [], Pieces(options, html));
    } else {
      WellNestedExactly(options, html);
      OutputLeavesNone(options, html);
      WellNestedExactly(options, out);
    }
  }

  /** Whatever the input, two passes give well-nested markup that a third leaves alone. */
  lemma TwoPassesSettle(options: SanitizeOptions, html: string)
    ensures var twice := Sanitized(options, Sanitized(options, html));
            WellNested(options, [], Tokens([], twice)) && Sanitized(options, twice) == twice
  {
    OutputLeavesNone(options, html);
    WellNestedExactly(options, Sanitized(options, html));
    IdempotentExactly(options, Sanitized(options, html));
  }

  /** An input without self-closing tags other than void ones leaves nothing open. */
  lemma NoSelfClosingSuffices(options: SanitizeOptions, html: string)
    requires forall t :: t in Tokens([], html) && t.Open? && t.selfClosing ==> t.tag in VOID_TAGS
    ensures LeavesOpenOn(options, html) == 0
  {
    NoneLeftOpen(options, INITIAL, Tokens([], html));
  }

  /** The input `<b/>` leaves its tag open. */
  lemma SelfClosingExample(options: SanitizeOptions)
    requires options.maxDepth > 0
    ensures LeavesOpenOn(options, "<b/>") == 1
  {
    var html := "<b/>";
    assert TagEnd(html, 2) == TagEnd(html, 3) == Some(3);
    MatchTagAt(html, 1, 1, 3);
    assert html[1..2] == "b" && Lower("b") == "b" && html[2..3] == "/" && html[4..] == [];
    var token := Open("b", "/", true);
    assert MatchTag(html) == (4, token);
    assert Tokens([], html) == Flush([]) + [token] + Tokens([], []) == [token];
    assert "b" in MATRIX_ALLOWED_TAGS && |"b"| == 1;
    assert options.Allowed("b");
    assert LeavesOpen(options, INITIAL, token);
    assert [token][1..] == [];
    assert LeftOpen(options, INITIAL, [token]) == 1 + LeftOpen(options, Consume(options, INITIAL, token).0, []);
  }
}
