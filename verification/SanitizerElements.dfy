/** Which elements are open where, said from the input's tokens alone, and the whole output from that. */
module SanitizerElements {
  import opened Text
  import opened Sanitizer
  import opened SanitizerTheorems
  import opened SanitizerContent

  /** Does token `i` open an element of the output? */
  ghost predicate Opens(options: SanitizeOptions, tokens: seq<Token>, i: nat)
    requires i < |tokens|
    decreases i, 2
  {
    && tokens[i].Open? && !tokens[i].selfClosing && tokens[i].tag !in VOID_TAGS
    && Admits(options, tokens, i)
  }

  /** May the opening tag `i` be printed: outside dropped elements, allowed, and not too deep. */
  ghost predicate Admits(options: SanitizeOptions, tokens: seq<Token>, i: nat)
    requires i < |tokens| && tokens[i].Open?
    decreases i, 1
  {
    && !Inside(tokens, i) && tokens[i].tag !in {"script", "style", "iframe", "object"}
    && options.Allowed(tokens[i].tag) && |OpenAt(options, tokens, i)| < options.maxDepth
  }

  /** The openers whose elements are open before token `k`. */
  ghost function OpenAt(options: SanitizeOptions, tokens: seq<Token>, k: nat): (openers: set<nat>)
    requires k <= |tokens|
    ensures forall i :: i in openers ==> i < k && tokens[i].Open?
    decreases k, 0
  {
    set i: nat | i < k && Opens(options, tokens, i)
                 && forall c :: i < c < k ==> !ClosedBy(options, tokens, i, c)
  }

  /** Does token `c` end the element of opener `i`? It closes the innermost open element of its name and
      all those within. */
  ghost predicate ClosedBy(options: SanitizeOptions, tokens: seq<Token>, i: nat, c: nat)
    requires i < c < |tokens|
    decreases c, 1
  {
    && tokens[c].Close? && !Inside(tokens, c)
    && (exists j :: j in OpenAt(options, tokens, c) && j <= i && tokens[j].tag == tokens[c].tag)
    && (forall j :: j in OpenAt(options, tokens, c) && j > i ==> tokens[j].tag != tokens[c].tag)
  }

  /** The end tags of these elements, the innermost first. */
  ghost function EndTags(tokens: seq<Token>, openers: set<nat>, n: nat): string
    requires n <= |tokens|
    decreases n
  {
    if n == 0 then ""
    else (if n - 1 in openers && tokens[n - 1].Open? then "</" + tokens[n - 1].tag + ">" else "")
         + EndTags(tokens, openers, n - 1)
  }

  /** What token `k` puts into the output. */
  ghost function Printed(options: SanitizeOptions, tokens: seq<Token>, k: nat): string
    requires k < |tokens|
  {
    match tokens[k]
    case Run(raw) => if Inside(tokens, k) then "" else EscapeText(raw)
    case Open(tag, raw, _) =>
      if Admits(options, tokens, k) then "<" + tag + SanitizeAttributes(options, tag, raw) + ">" else ""
    case Close(_) => EndTags(tokens, OpenAt(options, tokens, k) - OpenAt(options, tokens, k + 1), k)
  }

  /** The output from token `k` on; whatever is open at the end is closed. */
  ghost function Output(options: SanitizeOptions, tokens: seq<Token>, k: nat): string
    requires k <= |tokens|
    decreases |tokens| - k
  {
    if k == |tokens| then EndTags(tokens, OpenAt(options, tokens, k), k)
    else Printed(options, tokens, k) + Output(options, tokens, k + 1)
  }

  // ------------------------------------------------------------ the stack

  /** A stack of openers: ascending, holding exactly the open ones, with the tags of `open`. */
  ghost predicate Stacks(tokens: seq<Token>, k: nat, openers: set<nat>, stack: seq<nat>, open: seq<string>)
    requires k <= |tokens|
  {
    && |stack| == |open|
    && (forall q :: 0 <= q < |stack| ==>
          stack[q] in openers && stack[q] < k && tokens[stack[q]].Open? && tokens[stack[q]].tag == open[q])
    && (forall p, q :: 0 <= p < q < |stack| ==> stack[p] < stack[q])
    && (forall i :: i in openers ==> i in stack)
  }

  lemma {:induction false} StackSize(tokens: seq<Token>, k: nat, openers: set<nat>, stack: seq<nat>, open: seq<string>)
    requires k <= |tokens| && Stacks(tokens, k, openers, stack, open)
    ensures |openers| == |open|
    decreases |open|
  {
    if stack == [] {
      assert openers == {};
    } else {
      var m := |stack| - 1;
      var fewer := openers - {stack[m]};
      assert stack[..m] + [stack[m]] == stack;
      assert Stacks(tokens, k, fewer, stack[..m], open[..m]) by {
        assert forall i :: i in fewer ==> i in stack[..m];
      }
      StackSize(tokens, k, fewer, stack[..m], open[..m]);
    }
  }

  /** What a closing tag with the innermost element of its name at `p` leaves open. */
  lemma Unwound(options: SanitizeOptions, tokens: seq<Token>, k: nat, stack: seq<nat>, open: seq<string>, p: nat)
    requires k < |tokens| && tokens[k].Close? && !Inside(tokens, k)
    requires Stacks(tokens, k, OpenAt(options, tokens, k), stack, open)
    requires p < |open| && open[p] == tokens[k].tag && forall q :: p < q < |open| ==> open[q] != tokens[k].tag
    ensures Stacks(tokens, k + 1, OpenAt(options, tokens, k + 1), stack[..p], open[..p])
  {
    StillOpen(options, tokens, k);
    forall q | 0 <= q < |stack| ensures ClosedBy(options, tokens, stack[q], k) <==> q >= p {
      if q >= p {
        assert stack[p] in OpenAt(options, tokens, k) && stack[p] <= stack[q];
      } else {
        assert stack[p] in OpenAt(options, tokens, k) && stack[p] > stack[q];
      }
    }
    forall i | i in OpenAt(options, tokens, k + 1) ensures i in stack[..p] {
      assert i in stack;
      var q :| 0 <= q < |stack| && stack[q] == i;
      assert stack[..p][q] == i;
    }
  }

  /** From one token to the next, an element stays open unless it is closed, and one may open. */
  lemma StillOpen(options: SanitizeOptions, tokens: seq<Token>, k: nat)
    requires k < |tokens|
    ensures forall i: nat :: i in OpenAt(options, tokens, k + 1)
              <==> if i < k then i in OpenAt(options, tokens, k) && !ClosedBy(options, tokens, i, k)
                   else i == k && Opens(options, tokens, k)
  {
    hide Opens;
    hide ClosedBy;
    var was, now := OpenAt(options, tokens, k), OpenAt(options, tokens, k + 1);
    forall i: nat
      ensures i in now <==> if i < k then i in was && !ClosedBy(options, tokens, i, k) else i == k && Opens(options, tokens, k)
    {
      if i < k && i in was && !ClosedBy(options, tokens, i, k) {
        assert forall c :: i < c < k + 1 ==> !ClosedBy(options, tokens, i, c);
      }
    }
  }

  lemma Unchanged(options: SanitizeOptions, tokens: seq<Token>, k: nat)
    requires k < |tokens| && !Opens(options, tokens, k)
    requires forall i :: i in OpenAt(options, tokens, k) ==> !ClosedBy(options, tokens, i, k)
    ensures OpenAt(options, tokens, k + 1) == OpenAt(options, tokens, k)
  {
    hide Opens;
    hide ClosedBy;
    StillOpen(options, tokens, k);
  }

  /** The innermost element a closing tag ends, and no element when there is none of its name. */
  lemma NothingToClose(options: SanitizeOptions, tokens: seq<Token>, k: nat, stack: seq<nat>, open: seq<string>)
    requires k < |tokens| && tokens[k].Close? && tokens[k].tag !in open
    requires Stacks(tokens, k, OpenAt(options, tokens, k), stack, open)
    ensures OpenAt(options, tokens, k + 1) == OpenAt(options, tokens, k)
  {
    hide Inside;
    forall i | i in OpenAt(options, tokens, k) ensures !ClosedBy(options, tokens, i, k) {
      forall j | j in OpenAt(options, tokens, k) ensures tokens[j].tag != tokens[k].tag {
        assert j in stack;
        var q :| 0 <= q < |stack| && stack[q] == j;
        assert open[q] in open;
      }
    }
    Unchanged(options, tokens, k);
  }

  lemma Pushed(options: SanitizeOptions, tokens: seq<Token>, k: nat, stack: seq<nat>, open: seq<string>)
    requires k < |tokens| && Opens(options, tokens, k)
    requires Stacks(tokens, k, OpenAt(options, tokens, k), stack, open)
    ensures Stacks(tokens, k + 1, OpenAt(options, tokens, k + 1), stack + [k], open + [tokens[k].tag])
  {
    hide OpenAt;
    StillOpen(options, tokens, k);
    assert forall i :: i in OpenAt(options, tokens, k) ==> !ClosedBy(options, tokens, i, k);
    var stack' := stack + [k];
    assert stack'[|stack|] == k;
    forall i | i in OpenAt(options, tokens, k + 1) ensures i in stack' {
      assert i < k ==> i in stack;
    }
  }

  lemma OpenersAreAllowed(options: SanitizeOptions, tokens: seq<Token>, k: nat, i: nat)
    requires k <= |tokens| && i in OpenAt(options, tokens, k)
    ensures options.Allowed(tokens[i].tag) && tokens[i].tag !in VOID_TAGS
  {
    assert Opens(options, tokens, i);
    assert Admits(options, tokens, i);
    hide *;
  }

  lemma StackStep(options: SanitizeOptions, tokens: seq<Token>, k: nat, stack: seq<nat>, st: State)
    returns (stack': seq<nat>)
    requires k < |tokens| && (st.depth > 0 <==> Inside(tokens, k))
    requires Stacks(tokens, k, OpenAt(options, tokens, k), stack, st.open)
    ensures Stacks(tokens, k + 1, OpenAt(options, tokens, k + 1), stack', Consume(options, st, tokens[k]).0.open)
  {
    hide OpenAt;
    hide Inside;
    var t := tokens[k];
    stack' := stack;
    if t.Close? && !Inside(tokens, k) {
      var p := LastIndexOf(st.open, t.tag);
      if p >= 0 {
        OpenersAreAllowed(options, tokens, k, stack[p]);
        Unwound(options, tokens, k, stack, st.open, p);
        stack' := stack[..p];
      } else {
        NothingToClose(options, tokens, k, stack, st.open);
      }
    } else if Opens(options, tokens, k) {
      StackSize(tokens, k, OpenAt(options, tokens, k), stack, st.open);
      Pushed(options, tokens, k, stack, st.open);
      stack' := stack + [k];
    } else {
      StackSize(tokens, k, OpenAt(options, tokens, k), stack, st.open);
      Unchanged(options, tokens, k);
    }
  }

  /** The stack of the filter holds exactly the open elements. */
  lemma {:induction false} StackIsOpen(options: SanitizeOptions, tokens: seq<Token>, k: nat) returns (stack: seq<nat>)
    requires k <= |tokens|
    ensures Stacks(tokens, k, OpenAt(options, tokens, k), stack, StateAt(options, tokens, k).open)
    decreases k
  {
    hide Inside;
    if k == 0 {
      stack := [];
    } else {
      stack := StackIsOpen(options, tokens, k - 1);
      var st := StateAt(options, tokens, k - 1);
      InsideIsSuppressed(options, tokens, k - 1);
      stack := StackStep(options, tokens, k - 1, stack, st);
    }
  }

  // ------------------------------------------------------------ the output

  lemma {:induction false} NoEndTags(tokens: seq<Token>, openers: set<nat>, n: nat)
    requires n <= |tokens| && forall i :: 0 <= i < n ==> i !in openers
    ensures EndTags(tokens, openers, n) == ""
  {
    if n > 0 {
      NoEndTags(tokens, openers, n - 1);
    }
  }

  /** The closing tags the filter puts out for its stack from `p` up. */
  lemma {:induction false} ClosersAreEndTags(tokens: seq<Token>, n: nat, stack: seq<nat>, open: seq<string>, p: nat,
                                            leaving: set<nat>)
    requires n <= |tokens| && |stack| == |open| && p <= |open|
    requires forall q :: 0 <= q < |stack| ==> stack[q] < n && tokens[stack[q]].Open? && tokens[stack[q]].tag == open[q]
    requires forall q, r :: 0 <= q < r < |stack| ==> stack[q] < stack[r]
    requires forall i: nat :: i < n ==> (i in leaving <==> i in stack[p..])
    ensures Print(Closers(open, p)) == EndTags(tokens, leaving, n)
    decreases n
  {
    if |stack| == p {
      NoEndTags(tokens, leaving, n);
    } else {
      hide *;
      var m := |stack| - 1;
      TopOf(n, stack, p, leaving);
      EndTagsStep(tokens, leaving, n);
      if stack[m] == n - 1 {
        ClosersAreEndTags(tokens, n - 1, stack[..m], open[..m], p, leaving);
        CloseOne(open, p, m);
        assert open[..m + 1] == open;
      } else {
        ClosersAreEndTags(tokens, n - 1, stack, open, p, leaving);
      }
    }
  }

  lemma EndTagsStep(tokens: seq<Token>, openers: set<nat>, n: nat)
    requires 0 < n <= |tokens|
    ensures EndTags(tokens, openers, n)
            == (if n - 1 in openers && tokens[n - 1].Open? then Show(End(tokens[n - 1].tag)) else "")
               + EndTags(tokens, openers, n - 1)
  {
  }

  lemma TopOf(n: nat, stack: seq<nat>, p: nat, leaving: set<nat>)
    requires p < |stack| && forall q :: 0 <= q < |stack| ==> stack[q] < n
    requires forall q, r :: 0 <= q < r < |stack| ==> stack[q] < stack[r]
    requires forall i: nat :: i < n ==> (i in leaving <==> i in stack[p..])
    ensures var m := |stack| - 1;
            && (n - 1 in leaving <==> stack[m] == n - 1)
            && (stack[m] != n - 1 ==> forall q :: 0 <= q < |stack| ==> stack[q] < n - 1)
            && (stack[m] == n - 1 ==> forall i: nat :: i < n - 1 ==> (i in leaving <==> i in stack[..m][p..]))
  {
    var m := |stack| - 1;
    assert stack[p..] == stack[..m][p..] + [stack[m]];
  }

  lemma PrintedByStep(options: SanitizeOptions, tokens: seq<Token>, k: nat)
    requires k < |tokens|
    ensures Print(Consume(options, StateAt(options, tokens, k), tokens[k]).1) == Printed(options, tokens, k)
  {
    hide Inside;
    hide StateAt;
    var t, st := tokens[k], StateAt(options, tokens, k);
    var stack := StackIsOpen(options, tokens, k);
    InsideIsSuppressed(options, tokens, k);
    StackSize(tokens, k, OpenAt(options, tokens, k), stack, st.open);
    if t.Close? {
      CloseIsPrinted(options, tokens, k, stack, st);
    } else {
      hide OpenAt;
      var ps := Consume(options, st, t).1;
      if ps != [] {
        assert ps == [ps[0]];
        PrintOne(ps[0]);
      }
    }
  }

  lemma CloseIsPrinted(options: SanitizeOptions, tokens: seq<Token>, k: nat, stack: seq<nat>, st: State)
    requires k < |tokens| && tokens[k].Close? && (st.depth > 0 <==> Inside(tokens, k))
    requires Stacks(tokens, k, OpenAt(options, tokens, k), stack, st.open)
    ensures Print(Consume(options, st, tokens[k]).1) == Printed(options, tokens, k)
  {
    hide OpenAt;
    hide Inside;
    var tag, was, now := tokens[k].tag, OpenAt(options, tokens, k), OpenAt(options, tokens, k + 1);
    var p := LastIndexOf(st.open, tag);
    if st.depth > 0 {
      Unchanged(options, tokens, k);
      NoEndTags(tokens, was - now, k);
    } else if p == -1 {
      NothingToClose(options, tokens, k, stack, st.open);
      NoEndTags(tokens, was - now, k);
    } else {
      OpenersAreAllowed(options, tokens, k, stack[p]);
      Unwound(options, tokens, k, stack, st.open, p);
      Leaving(stack, p, was, now);
      ClosersAreEndTags(tokens, k, stack, st.open, p, was - now);
    }
  }

  lemma Leaving(stack: seq<nat>, p: nat, was: set<nat>, now: set<nat>)
    requires p <= |stack| && forall q, r :: 0 <= q < r < |stack| ==> stack[q] < stack[r]
    requires forall i :: i in was <==> i in stack
    requires forall i :: i in now <==> i in stack[..p]
    ensures forall i :: i in was - now <==> i in stack[p..]
  {
    forall i | i in stack ensures i in stack[..p] <==> i !in stack[p..] {
      var q :| 0 <= q < |stack| && stack[q] == i;
      if q < p {
        assert stack[..p][q] == i;
      } else {
        assert stack[p..][q - p] == i;
      }
    }
  }

  lemma {:induction false} OutputFrom(options: SanitizeOptions, tokens: seq<Token>, k: nat)
    requires k <= |tokens|
    ensures Print(ConsumeAll(options, StateAt(options, tokens, k), tokens[k..])) == Output(options, tokens, k)
    decreases |tokens| - k
  {
    hide StateAt;
    hide Consume;
    hide Printed;
    if k == |tokens| {
      var stack := StackIsOpen(options, tokens, k);
      ClosersAreEndTags(tokens, k, stack, StateAt(options, tokens, k).open, 0, OpenAt(options, tokens, k));
    } else {
      hide ConsumeAll;
      OutputStep(options, tokens, k);
      PrintedByStep(options, tokens, k);
      PrintConcat(Consume(options, StateAt(options, tokens, k), tokens[k]).1,
                  ConsumeAll(options, StateAt(options, tokens, k + 1), tokens[k + 1..]));
      OutputFrom(options, tokens, k + 1);
    }
  }

  /** The whole output, for every input: the escaped text outside dropped elements, the admitted opening
      tags, and for each closing tag the end tags of the elements it ends. */
  lemma OutputExactly(options: SanitizeOptions, html: string)
    ensures Sanitized(options, html) == Output(options, Tokens([], html), 0)
  {
    var tokens := Tokens([], html);
    OutputFrom(options, tokens, 0);
    assert tokens[0..] == tokens;
  }
}
