/** What the sanitiser keeps: the text outside dropped elements, the tags of well-nested markup and the
    permitted attributes. */
module SanitizerContent {
  import opened Optional
  import opened Text
  import opened Entities
  import opened Sanitizer
  import opened SanitizerLaws
  import opened SanitizerTheorems

  // ------------------------------------------------------------ dropped elements

  /** An opening tag whose element is discarded with its content. */
  ghost predicate OpensDropped(t: Token) {
    t.Open? && !t.selfClosing && t.tag in {"script", "style", "iframe", "object"}
  }

  /** Of the element that token `i` opens, how many of its name are open before token `k`. */
  ghost function Depth(tokens: seq<Token>, i: nat, k: nat): int
    requires i < k <= |tokens| && !tokens[i].Run?
    decreases k
  {
    if k == i + 1 then 1
    else
      var t, tag := tokens[k - 1], tokens[i].tag;
      Depth(tokens, i, k - 1)
      + if t.Open? && t.tag == tag && !t.selfClosing then 1 else if t.Close? && t.tag == tag then -1 else 0
  }

  /** The element that token `i` opens is not closed before token `k`. */
  ghost predicate Unclosed(tokens: seq<Token>, i: nat, k: nat)
    requires i < k <= |tokens| && !tokens[i].Run?
  {
    forall j :: i < j <= k ==> Depth(tokens, i, j) > 0
  }

  /** Does token `k` lie inside a dropped element? Its opening tag lies in none itself. */
  ghost predicate Inside(tokens: seq<Token>, k: nat)
    requires k <= |tokens|
    decreases k
  {
    exists i :: 0 <= i < k && OpensDropped(tokens[i]) && !Inside(tokens, i) && Unclosed(tokens, i, k)
  }

  ghost function StateAt(options: SanitizeOptions, tokens: seq<Token>, k: nat): State
    requires k <= |tokens|
  {
    if k == 0 then INITIAL else Consume(options, StateAt(options, tokens, k - 1), tokens[k - 1]).0
  }

  /** From its opening tag on, the counter is the depth of the dropped element. */
  lemma {:induction false} DepthCounts(options: SanitizeOptions, tokens: seq<Token>, i: nat, k: nat)
    requires i < k <= |tokens| && OpensDropped(tokens[i]) && StateAt(options, tokens, i).depth == 0
    requires Unclosed(tokens, i, k - 1 + if k == i + 1 then 1 else 0)
    ensures var st := StateAt(options, tokens, k);
            st.depth == Depth(tokens, i, k) && (st.depth > 0 ==> st.suppressed == tokens[i].tag)
    decreases k
  {
    if k > i + 1 {
      DepthCounts(options, tokens, i, k - 1);
      assert Depth(tokens, i, k - 1) > 0;
    }
  }

  lemma OpenerIsInside(tokens: seq<Token>, k: nat)
    requires 0 < k <= |tokens| && OpensDropped(tokens[k - 1]) && !Inside(tokens, k - 1)
    ensures Inside(tokens, k)
  {
    assert Unclosed(tokens, k - 1, k);
  }

  /** The opening tag of the dropped element that a position lies in. */
  lemma {:induction false} InsideHas(tokens: seq<Token>, k: nat) returns (i: nat)
    requires k <= |tokens| && Inside(tokens, k)
    ensures i < k && OpensDropped(tokens[i]) && !Inside(tokens, i) && Unclosed(tokens, i, k)
  {
    i :| 0 <= i < k && OpensDropped(tokens[i]) && !Inside(tokens, i) && Unclosed(tokens, i, k);
  }

  lemma IsInside(tokens: seq<Token>, i: nat, k: nat)
    requires i < k <= |tokens| && OpensDropped(tokens[i]) && !Inside(tokens, i) && Unclosed(tokens, i, k)
    ensures Inside(tokens, k)
  {
  }

  lemma UnclosedGoesOn(tokens: seq<Token>, i: nat, k: nat)
    requires i < k < |tokens| && !tokens[i].Run? && Unclosed(tokens, i, k) && Depth(tokens, i, k + 1) > 0
    ensures Unclosed(tokens, i, k + 1)
  {
    hide Depth;
  }

  /** Outside dropped elements only the opening tag of one starts the counter. */
  lemma CounterStarts(options: SanitizeOptions, tokens: seq<Token>, k: nat)
    requires k < |tokens| && StateAt(options, tokens, k).depth == 0
    ensures StateAt(options, tokens, k + 1).depth > 0 <==> OpensDropped(tokens[k])
  {
  }

  /** The counter is positive exactly inside dropped elements. */
  lemma {:induction false} InsideIsSuppressed(options: SanitizeOptions, tokens: seq<Token>, k: nat)
    requires k <= |tokens|
    ensures StateAt(options, tokens, k).depth > 0 <==> Inside(tokens, k)
    decreases k
  {
    if k > 0 {
      hide StateAt;
      hide Inside;
      hide OpensDropped;
      InsideIsSuppressed(options, tokens, k - 1);
      if Inside(tokens, k - 1) {
        var i := InsideHas(tokens, k - 1);
        InsideIsSuppressed(options, tokens, i);
        DepthCounts(options, tokens, i, k);
        if Depth(tokens, i, k) > 0 {
          UnclosedGoesOn(tokens, i, k - 1);
          IsInside(tokens, i, k);
        }
      } else {
        CounterStarts(options, tokens, k - 1);
        if OpensDropped(tokens[k - 1]) {
          OpenerIsInside(tokens, k);
        }
      }
      if Inside(tokens, k) {
        var i := InsideHas(tokens, k);
        InsideIsSuppressed(options, tokens, i);
        DepthCounts(options, tokens, i, k);
      }
    }
  }

  // ------------------------------------------------------------ the text that survives

  /** The text of these tokens. */
  ghost function Words(tokens: seq<Token>): string {
    if tokens == [] then "" else (if tokens[0].Run? then tokens[0].raw else "") + Words(tokens[1..])
  }

  /** The text runs from token `k` on that lie outside dropped elements, escaped. */
  ghost function Surviving(tokens: seq<Token>, k: nat): string
    requires k <= |tokens|
    decreases |tokens| - k
  {
    if k == |tokens| then ""
    else (if tokens[k].Run? && !Inside(tokens, k) then EscapeText(tokens[k].raw) else "") + Surviving(tokens, k + 1)
  }

  ghost function TextOf(ps: seq<Piece>): string {
    if ps == [] then "" else (if ps[0].Text? then ps[0].text else "") + TextOf(ps[1..])
  }

  lemma {:induction false} TextOfConcat(a: seq<Piece>, b: seq<Piece>)
    ensures TextOf(a + b) == TextOf(a) + TextOf(b)
  {
    if a == [] {
      assert a + b == b;
    } else {
      assert (a + b)[1..] == a[1..] + b;
      TextOfConcat(a[1..], b);
    }
  }

  lemma {:induction false} ClosersHaveNoText(open: seq<string>, k: nat)
    requires k <= |open|
    ensures TextOf(Closers(open, k)) == ""
    decreases |open|
  {
    if k < |open| {
      ClosersHaveNoText(open[..|open| - 1], k);
    }
  }

  /** The text one token puts out. */
  lemma ConsumedText(options: SanitizeOptions, st: State, t: Token)
    ensures TextOf(Consume(options, st, t).1) == if t.Run? && st.depth == 0 then EscapeText(t.raw) else ""
  {
    var ps := Consume(options, st, t).1;
    if st.depth == 0 && t.Close? {
      var k := LastIndexOf(st.open, t.tag);
      if k >= 0 {
        ClosersHaveNoText(st.open, k);
      }
    } else if ps != [] {
      assert ps == [ps[0]] && ps[1..] == [];
    }
  }

  lemma OutputStep(options: SanitizeOptions, tokens: seq<Token>, k: nat)
    requires k < |tokens|
    ensures var st := StateAt(options, tokens, k);
            ConsumeAll(options, st, tokens[k..])
            == Consume(options, st, tokens[k]).1 + ConsumeAll(options, StateAt(options, tokens, k + 1), tokens[k + 1..])
  {
    hide Consume;
    assert tokens[k..] == [tokens[k]] + tokens[k + 1..];
    ConsumeFirst(options, StateAt(options, tokens, k), tokens[k], tokens[k + 1..]);
  }

  lemma {:induction false} OutputText(options: SanitizeOptions, tokens: seq<Token>, k: nat)
    requires k <= |tokens|
    ensures TextOf(ConsumeAll(options, StateAt(options, tokens, k), tokens[k..])) == Surviving(tokens, k)
    decreases |tokens| - k
  {
    hide Consume;
    hide Inside;
    hide StateAt;
    var st := StateAt(options, tokens, k);
    if k == |tokens| {
      ClosersHaveNoText(st.open, 0);
    } else {
      hide ConsumeAll;
      hide TextOf;
      var ps := Consume(options, st, tokens[k]).1;
      OutputStep(options, tokens, k);
      InsideIsSuppressed(options, tokens, k);
      ConsumedText(options, st, tokens[k]);
      TextOfConcat(ps, ConsumeAll(options, StateAt(options, tokens, k + 1), tokens[k + 1..]));
      OutputText(options, tokens, k + 1);
    }
  }

  lemma {:induction false} WordsConcat(a: seq<Token>, b: seq<Token>)
    ensures Words(a + b) == Words(a) + Words(b)
  {
    if a == [] {
      assert a + b == b;
    } else {
      assert (a + b)[1..] == a[1..] + b;
      WordsConcat(a[1..], b);
    }
  }

  lemma WordsOfFlush(text: string, token: Token)
    requires !token.Run?
    ensures Words(Flush(text)) == text && Words(Flush(text) + [token]) == text
  {
    assert Words([]) == "";
    assert text != [] ==> [Run(text)][1..] == [] && Flush(text) == [Run(text)];
    WordsConcat(Flush(text), [token]);
    assert [token][1..] == [];
  }

  lemma {:induction false} WordsOfMerge(text: string, ps: seq<Piece>)
    ensures Words(Merge(text, ps)) == text + TextOf(ps)
    decreases |ps|
  {
    if ps == [] {
      WordsOfFlush(text, Close(""));
    } else {
      WordsOfMerge(if ps[0].Text? then text + ps[0].text else [], ps[1..]);
      if !ps[0].Text? {
        WordsOfFlush(text, TokenOf(ps[0]));
        WordsConcat(Flush(text) + [TokenOf(ps[0])], Merge([], ps[1..]));
      }
    }
  }

  /** Whatever the input: the text of the output, read again, is exactly the escaped text of the input
      outside dropped elements, in order. Text inside unknown tags is kept. */
  lemma TextSurvivesExactly(options: SanitizeOptions, html: string)
    ensures Words(Tokens([], Sanitized(options, html))) == Surviving(Tokens([], html), 0)
  {
    var tokens := Tokens([], html);
    OutputTokens(options, html);
    WordsOfMerge([], Pieces(options, html));
    OutputText(options, tokens, 0);
    assert tokens[0..] == tokens;
  }

  // ------------------------------------------------------------ the markup that survives

  /** The tokens printed one by one, with text escaped and attributes sanitised. */
  ghost function Reprinted(options: SanitizeOptions, tokens: seq<Token>): string {
    if tokens == [] then ""
    else
      (match tokens[0]
       case Run(raw) => EscapeText(raw)
       case Open(tag, raw, _) => "<" + tag + SanitizeAttributes(options, tag, raw) + ">"
       case Close(tag) => "</" + tag + ">") + Reprinted(options, tokens[1..])
  }

  ghost predicate OnlyVoidSelfClosing(tokens: seq<Token>) {
    forall t :: t in tokens && t.Open? && t.selfClosing ==> t.tag in VOID_TAGS
  }

  lemma {:induction false} NestedIsReprinted(options: SanitizeOptions, open: seq<string>, tokens: seq<Token>)
    requires WellNested(options, open, tokens) && OnlyVoidSelfClosing(tokens)
    requires forall tag :: tag in open ==> options.Allowed(tag) && tag !in VOID_TAGS
    ensures Print(ConsumeAll(options, State(open, 0, ""), tokens)) == Reprinted(options, tokens)
    decreases |tokens|
  {
    if tokens != [] {
      var t := tokens[0];
      var (st, ps) := Consume(options, State(open, 0, ""), t);
      assert t in tokens;
      if t.Close? {
        ClosersOfTop(open);
      }
      assert |ps| == 1 && ps == [ps[0]];
      PrintOne(ps[0]);
      PrintConcat(ps, ConsumeAll(options, st, tokens[1..]));
      NestedIsReprinted(options, st.open, tokens[1..]);
    }
  }

  /** A well-nested input of allowed tags within the depth, where only void tags close themselves, keeps
      every tag and every text in place. */
  lemma NestedMarkupSurvives(options: SanitizeOptions, html: string)
    requires WellNested(options, [], Tokens([], html)) && OnlyVoidSelfClosing(Tokens([], html))
    ensures Sanitized(options, html) == Reprinted(options, Tokens([], html))
  {
    NestedIsReprinted(options, [], Tokens([], html));
  }

  // ------------------------------------------------------------ the attributes that survive

  /** What an attribute must be to stay on a tag. */
  ghost predicate Permitted(options: SanitizeOptions, tag: string, a: Attribute) {
    && a.name in AllowedAttributes(tag)
    && (a.name == "href" ==> options.safeUrl(a.value))
    && (a.name == "src" ==> options.allowImages && StartsWithFolded(a.value, "mxc://"))
    && (a.name == "class" && tag == "code" ==> IsLanguage(a.value))
  }

  ghost predicate IsLanguage(value: string) {
    |value| > 9 && value[..9] == "language-" && forall c :: c in value[9..] ==> IsAlnum(c) || c in {'_', '+', '-'}
  }

  lemma LanguageClass(value: string)
    ensures IsLanguageClass(value) <==> IsLanguage(value)
  {
    if IsLanguageClass(value) {
      assert forall i :: 9 <= i < |value| ==> value[i] in value[9..];
    }
  }

  lemma {:induction false} KeptExactly(options: SanitizeOptions, tag: string, attributes: seq<Attribute>)
    ensures forall a :: a in Kept(options, tag, attributes) <==> a in attributes && Permitted(options, tag, a)
  {
    if attributes != [] {
      LanguageClass(attributes[0].value);
      KeptExactly(options, tag, attributes[1..]);
    }
  }

  /** Whatever a tag's raw attributes, those of the printed tag are exactly the permitted ones among them. */
  lemma AttributesSurviveExactly(options: SanitizeOptions, tag: string, raw: string)
    ensures forall a :: a in Attributes(SanitizeAttributes(options, tag, raw))
                        <==> a in Attributes(raw) && Permitted(options, tag, a)
  {
    var kept := Kept(options, tag, Attributes(raw));
    ScannedArePrintable(raw);
    KeptFacts(options, tag, Attributes(raw));
    ScanUndoesShow(kept);
    KeptExactly(options, tag, Attributes(raw));
  }
}
