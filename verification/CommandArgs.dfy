/** Splitting command arguments with quotes. */
module CommandArgs {
  import opened Optional
  import opened Text

  /** The line ends that `.` does not match. */
  predicate IsLineEnd(c: char) {
    c == '\n' || c == '\r' || c == '\U{2028}' || c == '\U{2029}'
  }

  predicate IsBare(c: char) {
    !IsSpace(c)
  }

  /** The end of the quoted run whose body goes on at `i`, if it is closed. */
  function CloseQuote(s: string, quote: char, i: nat): (e: Option<nat>)
    requires i <= |s|
    ensures e.Some? ==> i < e.value <= |s| && s[e.value - 1] == quote
    decreases |s| - i
  {
    if i == |s| then None
    else if s[i] == quote then Some(i + 1)
    else if s[i] == '\\' then
      if i + 1 < |s| && !IsLineEnd(s[i + 1]) then CloseQuote(s, quote, i + 2) else None
    else CloseQuote(s, quote, i + 1)
  }

  predicate IsQuote(c: char) {
    c == '"' || c == '\''
  }

  /** The length of the token at the start of `s`, which begins with no blank. */
  function TokenLength(s: string): (n: nat)
    requires s != [] && !IsSpace(s[0])
    ensures 0 < n <= |s|
  {
    var quoted := if IsQuote(s[0]) then CloseQuote(s, s[0], 1) else None;
    if quoted.Some? then quoted.value else Span(s, IsBare)
  }

  /** Drop the backslash before a quote or a backslash. */
  function Unescape(s: string): string
    decreases |s|
  {
    if s == [] then []
    else if s[0] == '\\' && |s| > 1 && (IsQuote(s[1]) || s[1] == '\\') then [s[1]] + Unescape(s[2..])
    else [s[0]] + Unescape(s[1..])
  }

  function Strip(token: string): string {
    if token != [] && IsQuote(token[0]) && token[|token| - 1] == token[0] then
      Unescape(if |token| > 1 then token[1..|token| - 1] else "")
    else token
  }

  function Tokens(s: string): seq<string>
    decreases |s|
  {
    if s == [] then []
    else if IsSpace(s[0]) then Tokens(s[1..])
    else
      var n := TokenLength(s);
      [Strip(s[..n])] + Tokens(s[n..])
  }

  method TokenizeArgs(raw: string) returns (out: seq<string>)
    ensures out == Tokens(raw)
  {
    hide TokenLength;
    hide Strip;
    out := [];
    var i := 0;
    assert raw[0..] == raw;
    while i < |raw|
      invariant 0 <= i <= |raw|
      invariant out + Tokens(raw[i..]) == Tokens(raw)
    {
      if IsSpace(raw[i]) {
        assert raw[i..][1..] == raw[i + 1..];
        i := i + 1;
      } else {
        var n := TokenLength(raw[i..]);
        assert raw[i..][..n] == raw[i..i + n] && raw[i..][n..] == raw[i + n..];
        assert out + ([Strip(raw[i..i + n])] + Tokens(raw[i + n..])) == out + [Strip(raw[i..i + n])] + Tokens(raw[i + n..]);
        out := out + [Strip(raw[i..i + n])];
        i := i + n;
      }
    }
    assert raw[i..] == [];
  }

  // -------------------------------------------------------------------- quoting

  /** Put a backslash before the quote in use and before backslashes. */
  function Escape(x: string, quote: char): string {
    if x == [] then []
    else (if x[0] == quote || x[0] == '\\' then ['\\', x[0]] else [x[0]]) + Escape(x[1..], quote)
  }

  function Quote(x: string, quote: char): string {
    [quote] + Escape(x, quote) + [quote]
  }

  /** How one argument is written. */
  datatype Arg = Quoted(value: string, quote: char) | Bare(value: string) {

    ghost predicate Valid() {
      match this
      case Quoted(_, quote) => quote == '"' || quote == '\''
      case Bare(value) => value != [] && value[0] != '"' && value[0] != '\'' && forall c :: c in value ==> !IsSpace(c)
    }

    function Write(): string {
      match this
      case Quoted(value, quote) => Quote(value, quote)
      case Bare(value) => value
    }
  }

  ghost predicate IsBlank(s: string) {
    forall c :: c in s ==> IsSpace(c)
  }

  /** Arguments, each with the blanks that follow it. */
  function Line(args: seq<(Arg, string)>): string {
    if args == [] then [] else args[0].0.Write() + args[0].1 + Line(args[1..])
  }

  function Values(args: seq<(Arg, string)>): seq<string> {
    if args == [] then [] else [args[0].0.value] + Values(args[1..])
  }

  lemma {:induction false} CloseQuoteAt(s: string, quote: char, i: nat, x: string)
    requires IsQuote(quote)
    requires var e := Escape(x, quote); i + |e| < |s| && s[i..i + |e|] == e && s[i + |e|] == quote
    ensures CloseQuote(s, quote, i) == Some(i + |Escape(x, quote)| + 1)
    decreases |x|
  {
    if x != [] {
      var e, rest := Escape(x, quote), Escape(x[1..], quote);
      var n := |e| - |rest|;
      assert e[n..] == rest && s[i] == s[i..i + |e|][0];
      assert s[i + n..i + |e|] == s[i..i + |e|][n..];
      if n == 2 {
        assert s[i + 1] == s[i..i + |e|][1] == x[0];
      }
      CloseQuoteAt(s, quote, i + n, x[1..]);
    }
  }

  lemma {:induction false} UnescapeUndoes(x: string, quote: char)
    requires IsQuote(quote)
    ensures Unescape(Escape(x, quote)) == x
    decreases |x|
  {
    if x != [] {
      var e, rest := Escape(x, quote), Escape(x[1..], quote);
      UnescapeUndoes(x[1..], quote);
      if x[0] == quote || x[0] == '\\' {
        assert e[2..] == rest;
      } else {
        assert e[1..] == rest;
      }
    }
  }

  lemma ReadsQuoted(x: string, quote: char, rest: string)
    requires IsQuote(quote)
    ensures var w := Quote(x, quote);
            TokenLength(w + rest) == |w| && Strip(w) == x
  {
    hide Unescape;
    var w, e := Quote(x, quote), Escape(x, quote);
    var s := w + rest;
    assert s[1..1 + |e|] == e && s[0] == quote && s[1 + |e|] == quote;
    CloseQuoteAt(s, quote, 1, x);
    UnescapeUndoes(x, quote);
    assert w[1..|w| - 1] == e;
  }

  lemma ReadsBare(x: string, rest: string)
    requires Bare(x).Valid() && (rest == [] || IsSpace(rest[0]))
    ensures TokenLength(x + rest) == |x| && Strip(x) == x
  {
    var s := x + rest;
    assert forall i :: 0 <= i < |x| ==> s[i] == x[i] && x[i] in x;
    SpanIs(s, IsBare, |x|);
  }

  /** A written argument is read back whole when a blank or the end follows. */
  lemma ReadsOne(arg: Arg, rest: string)
    requires arg.Valid() && (rest == [] || IsSpace(rest[0]))
    ensures Tokens(arg.Write() + rest) == [arg.value] + Tokens(rest)
  {
    hide TokenLength;
    hide Strip;
    var w := arg.Write();
    var s := w + rest;
    match arg {
      case Quoted(x, quote) => ReadsQuoted(x, quote, rest);
      case Bare(x) => ReadsBare(x, rest);
    }
    assert s[..|w|] == w && s[|w|..] == rest;
  }

  lemma {:induction false} SkipsBlanks(blanks: string, rest: string)
    requires IsBlank(blanks)
    ensures Tokens(blanks + rest) == Tokens(rest)
    decreases |blanks|
  {
    if blanks == [] {
      assert blanks + rest == rest;
    } else {
      assert blanks[0] in blanks;
      assert (blanks + rest)[1..] == blanks[1..] + rest;
      SkipsBlanks(blanks[1..], rest);
    }
  }

  /** Tokenising undoes writing: any values, each in double or single quotes or bare where it may be,
      with any blanks before, between and after, are read back as they were. */
  lemma {:induction false} TokenizeUndoesWriting(before: string, args: seq<(Arg, string)>)
    requires IsBlank(before)
    requires forall i :: 0 <= i < |args| ==>
               args[i].0.Valid() && IsBlank(args[i].1) && (i < |args| - 1 ==> args[i].1 != [])
    ensures Tokens(before + Line(args)) == Values(args)
    decreases |args|
  {
    SkipsBlanks(before, Line(args));
    if args != [] {
      var arg, blanks, rest := args[0].0, args[0].1, Line(args[1..]);
      assert Line(args) == arg.Write() + (blanks + rest);
      if blanks != [] {
        assert blanks[0] in blanks;
      }
      ReadsOne(arg, blanks + rest);
      TokenizeUndoesWriting(blanks, args[1..]);
    }
  }

  function QuoteAll(xs: seq<string>): seq<string> {
    if xs == [] then [] else [Quote(xs[0], '"')] + QuoteAll(xs[1..])
  }

  /** The joined form is one such line. */
  lemma {:induction false} JoinedIsLine(xs: seq<string>) returns (args: seq<(Arg, string)>)
    ensures Join(QuoteAll(xs), " ") == Line(args) && Values(args) == xs && |args| == |xs|
    ensures forall i :: 0 <= i < |args| ==> args[i].0.Valid() && args[i].1 == (if i < |args| - 1 then " " else "")
    decreases |xs|
  {
    if xs == [] {
      args := [];
    } else {
      var rest := JoinedIsLine(xs[1..]);
      var first := (Quoted(xs[0], '"'), if |xs| > 1 then " " else "");
      args := [first] + rest;
      assert QuoteAll(xs)[1..] == QuoteAll(xs[1..]) && args[1..] == rest;
      if |xs| == 1 {
        assert QuoteAll(xs[1..]) == [];
        assert Line(args) == Quote(xs[0], '"') + "" + Line(rest);
      } else {
        assert |QuoteAll(xs)| > 1 by { assert QuoteAll(xs[1..]) != []; }
      }
    }
  }

  /** For every list of strings: double-quote each, join with single blanks, tokenise, and the list
      comes back. */
  lemma TokenizeUndoesQuoting(xs: seq<string>)
    ensures Tokens(Join(QuoteAll(xs), " ")) == xs
  {
    var args := JoinedIsLine(xs);
    TokenizeUndoesWriting("", args);
    assert "" + Line(args) == Line(args);
  }

  // -------------------------------------------------------------------- quotes that are never closed

  /** What may stand between two quotes: no such quote and no backslash, or a backslash and any character that
      does not end the line. */
  ghost predicate IsBody(x: string, quote: char)
    decreases |x|
  {
    x == [] || if x[0] == '\\' then |x| > 1 && x[1] !in "\n\r\U{2028}\U{2029}" && IsBody(x[2..], quote)
               else x[0] != quote && IsBody(x[1..], quote)
  }

  /** A quoted run ends exactly with a quote that follows a body. */
  lemma {:induction false} ClosesExactly(s: string, quote: char, i: nat, k: nat)
    requires (quote == '"' || quote == '\'') && i <= k < |s|
    ensures CloseQuote(s, quote, i) == Some(k + 1) <==> s[k] == quote && IsBody(s[i..k], quote)
    decreases |s| - i
  {
    var x := s[i..k];
    if s[i] == quote {
      assert x == [] || x[0] == quote;
    } else if s[i] == '\\' {
      if i + 1 < |s| && !IsLineEnd(s[i + 1]) && i + 2 <= k {
        assert x[2..] == s[i + 2..k];
        ClosesExactly(s, quote, i + 2, k);
      } else if i + 1 == k {
        assert x == ['\\'];
      }
    } else if i < k {
      assert x[1..] == s[i + 1..k];
      ClosesExactly(s, quote, i + 1, k);
    }
  }

  /** A backslash stays unless a quote or a backslash follows it. */
  lemma {:induction false} OtherBackslashesStay(x: string)
    requires forall i :: 0 <= i < |x| - 1 && x[i] == '\\' ==> x[i + 1] != '"' && x[i + 1] != '\'' && x[i + 1] != '\\'
    ensures Unescape(x) == x
    decreases |x|
  {
    if x != [] {
      assert forall i :: 0 <= i < |x[1..]| ==> x[1..][i] == x[i + 1];
      OtherBackslashesStay(x[1..]);
    }
  }

  /** A quote that is never closed is an ordinary character: the argument is the run up to the next blank,
      taken for quoted only if it happens to end in that quote too. */
  lemma UnclosedIsBare(s: string, n: nat)
    requires s != [] && (s[0] == '"' || s[0] == '\'') && 0 < n <= |s|
    requires forall k :: 0 < k < |s| && s[k] == s[0] ==> !IsBody(s[1..k], s[0])
    requires (forall i :: 0 <= i < n ==> !IsSpace(s[i])) && (n < |s| ==> IsSpace(s[n]))
    ensures Tokens(s)
            == [if s[n - 1] != s[0] then s[..n] else if n == 1 then "" else Unescape(s[1..n - 1])] + Tokens(s[n..])
  {
    hide *;
    UnclosedLength(s, n);
    NextToken(s);
    UnclosedStrip(s, n);
  }

  lemma NextToken(s: string)
    requires s != [] && !IsSpace(s[0])
    ensures var n := TokenLength(s); Tokens(s) == [Strip(s[..n])] + Tokens(s[n..])
  {
    hide TokenLength;
    hide Strip;
  }

  lemma UnclosedLength(s: string, n: nat)
    requires s != [] && (s[0] == '"' || s[0] == '\'') && 0 < n <= |s|
    requires forall k :: 0 < k < |s| && s[k] == s[0] ==> !IsBody(s[1..k], s[0])
    requires (forall i :: 0 <= i < n ==> !IsSpace(s[i])) && (n < |s| ==> IsSpace(s[n]))
    ensures !IsSpace(s[0]) && TokenLength(s) == n
  {
    hide CloseQuote;
    hide IsBody;
    if CloseQuote(s, s[0], 1).Some? {
      ClosesExactly(s, s[0], 1, CloseQuote(s, s[0], 1).value - 1);
    }
    SpanIs(s, IsBare, n);
  }

  lemma UnclosedStrip(s: string, n: nat)
    requires s != [] && (s[0] == '"' || s[0] == '\'') && 0 < n <= |s|
    ensures Strip(s[..n]) == if s[n - 1] != s[0] then s[..n] else if n == 1 then "" else Unescape(s[1..n - 1])
  {
    assert s[..n][n - 1] == s[n - 1] && s[..n][0] == s[0];
    assert n > 1 ==> s[..n][1..n - 1] == s[1..n - 1];
  }
}
