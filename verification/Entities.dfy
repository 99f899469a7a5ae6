/** Escaping text for HTML and decoding attribute values, pass by pass. */
module Entities {
  import opened Text

  function EscapeHtml(text: string): string {
    var a := ReplaceChar(text, '&', "&amp;");
    var b := ReplaceChar(a, '<', "&lt;");
    var c := ReplaceChar(b, '>', "&gt;");
    var d := ReplaceChar(c, '"', "&quot;");
    ReplaceChar(d, '\'', "&#39;")
  }

  /** The replacement passes of `decodeAttributeValue`. */
  datatype Pass = Decimal | Hexadecimal | Named(name: string, character: char)

  function DigitValue(c: char): nat
    requires IsHex(c)
  {
    if IsDigit(c) then (c - '0') as nat
    else if 'a' <= c then 10 + (c - 'a') as nat
    else 10 + (c - 'A') as nat
  }

  function Number(digits: string, base: nat): nat
    requires forall c :: c in digits ==> IsHex(c)
  {
    if digits == [] then 0
    else Number(digits[..|digits| - 1], base) * base + DigitValue(digits[|digits| - 1])
  }

  /** A code point, or nothing when there is no such character. */
  function CodePoint(code: nat): string {
    if code < 0xD800 || 0xE000 <= code < 0x11_0000 then [code as char] else ""
  }

  predicate StartsWithFolded(s: string, name: string) {
    |name| <= |s| && forall i :: 0 <= i < |name| ==> LowerChar(s[i]) == name[i]
  }

  /** The length of the match of a pass at the start of `s`, zero for none, and its replacement. */
  function Match(p: Pass, s: string): (r: (nat, string))
    ensures r.0 <= |s|
  {
    match p
    case Decimal =>
      if |s| < 2 || s[0] != '&' || s[1] != '#' then (0, "")
      else
        var n := Span(s[2..], IsDigit);
        if n == 0 then (0, "")
        else (2 + n + Semicolon(s[2 + n..]), CodePoint(Number(s[2..][..n], 10)))
    case Hexadecimal =>
      if |s| < 3 || s[0] != '&' || s[1] != '#' || s[2] != 'x' then (0, "")
      else
        var n := Span(s[3..], IsHex);
        if n == 0 then (0, "")
        else (3 + n + Semicolon(s[3 + n..]), CodePoint(Number(s[3..][..n], 16)))
    case Named(name, c) =>
      if StartsWithFolded(s, name) then (|name|, [c]) else (0, "")
  }

  function Semicolon(s: string): (n: nat)
    ensures n <= |s|
  {
    if s != [] && s[0] == ';' then 1 else 0
  }

  /** A global replacement: left to right, each match consumed whole. */
  function Replace(p: Pass, s: string): string
    decreases |s|
  {
    if s == [] then []
    else
      var (n, sub) := Match(p, s);
      if n > 0 then sub + Replace(p, s[n..]) else [s[0]] + Replace(p, s[1..])
  }

  const PASSES: seq<Pass> :=
    [Decimal, Hexadecimal, Named("&quot;", '"'), Named("&apos;", '\''), Named("&lt;", '<'),
     Named("&gt;", '>'), Named("&amp;", '&')]

  function ReplaceAll(passes: seq<Pass>, s: string): string
    decreases |passes|
  {
    if passes == [] then s else ReplaceAll(passes[1..], Replace(passes[0], s))
  }

  function DecodeAttributeValue(value: string): string {
    Trim(ReplaceAll(PASSES, value))
  }

  // ----------------------------------------------------------------- the round trip

  /** How a character of the original text looks after `k` passes over its escaped form. */
  ghost function Chunk(k: nat, c: char): string {
    if c == '\'' && k < 1 then "&#39;"
    else if c == '"' && k < 3 then "&quot;"
    else if c == '<' && k < 5 then "&lt;"
    else if c == '>' && k < 6 then "&gt;"
    else if c == '&' && k < 7 then "&amp;"
    else [c]
  }

  ghost function Chunks(k: nat, s: string): string {
    if s == [] then [] else Chunk(k, s[0]) + Chunks(k, s[1..])
  }

  lemma {:induction false} EscapeIsChunks(s: string)
    ensures EscapeHtml(s) == Chunks(0, s)
  {
    if s != [] {
      EscapeIsChunks(s[1..]);
      EscapeConcat([s[0]], s[1..]);
      assert [s[0]] + s[1..] == s;
      EscapeChar(s[0]);
    }
  }

  lemma EscapeConcat(a: string, b: string)
    ensures EscapeHtml(a + b) == EscapeHtml(a) + EscapeHtml(b)
  {
    var p, q := a, b;
    ReplaceConcat(p, q, '&', "&amp;");
    p, q := ReplaceChar(p, '&', "&amp;"), ReplaceChar(q, '&', "&amp;");
    ReplaceConcat(p, q, '<', "&lt;");
    p, q := ReplaceChar(p, '<', "&lt;"), ReplaceChar(q, '<', "&lt;");
    ReplaceConcat(p, q, '>', "&gt;");
    p, q := ReplaceChar(p, '>', "&gt;"), ReplaceChar(q, '>', "&gt;");
    ReplaceConcat(p, q, '"', "&quot;");
    p, q := ReplaceChar(p, '"', "&quot;"), ReplaceChar(q, '"', "&quot;");
    ReplaceConcat(p, q, '\'', "&#39;");
  }

  lemma {:induction false} Untouched(s: string, c: char, sub: string)
    requires c !in s
    ensures ReplaceChar(s, c, sub) == s
    decreases |s|
  {
    if s != [] {
      Untouched(s[1..], c, sub);
    }
  }

  lemma Single(c: char, x: char, sub: string)
    ensures ReplaceChar([c], x, sub) == if c == x then sub else [c]
  {
    assert [c][1..] == [];
  }

  /** The five passes on one character: at most one of them changes it. */
  lemma EscapeChar(c: char)
    ensures EscapeHtml([c]) == Chunk(0, c)
  {
    var a := if c == '&' then "&amp;" else [c];
    var d := if c == '<' then "&lt;" else if c == '>' then "&gt;" else a;
    Single(c, '&', "&amp;");
    EscapeAngles(c, a);
    EscapeQuotes(c, d);
  }

  lemma EscapeAngles(c: char, now: string)
    requires now == [c] || (c != '<' && c != '>' && '<' !in now && '>' !in now)
    ensures ReplaceChar(ReplaceChar(now, '<', "&lt;"), '>', "&gt;")
              == if c == '<' then "&lt;" else if c == '>' then "&gt;" else now
  {
    SingleOr(c, now, '<', "&lt;");
    SingleOr(c, if c == '<' then "&lt;" else now, '>', "&gt;");
  }

  lemma EscapeQuotes(c: char, now: string)
    requires now == [c] || (c != '"' && c != '\'' && '"' !in now && '\'' !in now)
    ensures ReplaceChar(ReplaceChar(now, '"', "&quot;"), '\'', "&#39;")
              == if c == '"' then "&quot;" else if c == '\'' then "&#39;" else now
  {
    SingleOr(c, now, '"', "&quot;");
    SingleOr(c, if c == '"' then "&quot;" else now, '\'', "&#39;");
  }

  /** A character that is still itself is replaced; the escape of another one is left alone. */
  lemma SingleOr(c: char, now: string, x: char, sub: string)
    requires now == [c] || (c != x && x !in now)
    ensures ReplaceChar(now, x, sub) == if c == x then sub else now
  {
    if now == [c] {
      Single(c, x, sub);
    } else {
      Untouched(now, x, sub);
    }
  }

  /** The decimal pass on the escaped apostrophe. */
  lemma DecimalOnApostrophe(rest: string)
    ensures Replace(Decimal, "&#39;" + rest) == "'" + Replace(Decimal, rest)
  {
    var s := "&#39;" + rest;
    assert s[2..] == "39;" + rest;
    SpanIs(s[2..], IsDigit, 2);
    assert s[2..][..2] == "39";
    assert Number("39", 10) == 39 by { assert "39"[..1] == "3" && "3"[..0] == ""; }
    assert s[4..] == ";" + rest && s[5..] == rest;
  }

  lemma NamedOnItsName(name: string, c: char, rest: string)
    requires name != [] && forall i :: 0 <= i < |name| ==> LowerChar(name[i]) == name[i]
    ensures Replace(Named(name, c), name + rest) == [c] + Replace(Named(name, c), rest)
  {
    var s := name + rest;
    assert s[|name|..] == rest;
    assert StartsWithFolded(s, name);
  }

  ghost predicate WellFormed(p: Pass) {
    p.Named? ==> |p.name| >= 3 && p.name[0] == '&'
  }

  lemma NoAmpersandNoMatch(p: Pass, s: string)
    requires WellFormed(p) && s != [] && s[0] != '&'
    ensures Match(p, s).0 == 0
  {
  }

  lemma Copied(p: Pass, c: char, tail: string)
    requires Match(p, [c] + tail).0 == 0
    ensures Replace(p, [c] + tail) == [c] + Replace(p, tail)
  {
    assert ([c] + tail)[1..] == tail;
  }

  lemma Cut(chunk: string, rest: string)
    requires chunk != []
    ensures chunk + rest == [chunk[0]] + (chunk[1..] + rest)
    ensures chunk == [chunk[0]] + chunk[1..]
  {
  }

  lemma Glue(c: char, a: string, b: string)
    ensures [c] + (a + b) == ([c] + a) + b
  {
  }

  /** Text without `&` is copied by every pass. */
  lemma {:induction false} PassSkips(p: Pass, chunk: string, rest: string)
    requires WellFormed(p) && '&' !in chunk
    ensures Replace(p, chunk + rest) == chunk + Replace(p, rest)
    decreases |chunk|
  {
    if chunk == [] {
      assert chunk + rest == rest;
    } else {
      Cut(chunk, rest);
      NoAmpersandNoMatch(p, chunk + rest);
      Copied(p, chunk[0], chunk[1..] + rest);
      PassSkips(p, chunk[1..], rest);
      Glue(chunk[0], chunk[1..], Replace(p, rest));
    }
  }

  lemma NamedMisses(name: string, s: string)
    requires |name| >= 3 && |s| >= 3
    requires LowerChar(s[1]) != name[1] || LowerChar(s[2]) != name[2]
    ensures !StartsWithFolded(s, name)
  {
  }

  /** An escape that differs from what the pass looks for within three characters is copied. */
  lemma PassSkipsOther(p: Pass, chunk: string, rest: string)
    requires WellFormed(p) && |chunk| >= 3 && '&' !in chunk[1..]
    requires if p.Named? then LowerChar(chunk[1]) != p.name[1] || LowerChar(chunk[2]) != p.name[2]
             else chunk[1] != '#'
    ensures Replace(p, chunk + rest) == chunk + Replace(p, rest)
  {
    if p.Named? {
      NamedMisses(p.name, chunk + rest);
    }
    Cut(chunk, rest);
    Copied(p, chunk[0], chunk[1..] + rest);
    PassSkips(p, chunk[1..], rest);
    Glue(chunk[0], chunk[1..], Replace(p, rest));
  }

  ghost predicate Differs(p: Pass, chunk: string) {
    && |chunk| >= 3 && '&' !in chunk[1..]
    && if p.Named? then WellFormed(p) && (LowerChar(chunk[1]) != p.name[1] || LowerChar(chunk[2]) != p.name[2])
       else chunk[1] != '#'
  }

  /** Pass by pass, a chunk stays because the pass cannot see it, or is just what the pass looks for. */
  lemma ChunkStep(k: nat, c: char)
    requires k < 7
    ensures WellFormed(PASSES[k])
    ensures Chunk(k + 1, c) == Chunk(k, c) ==>
              (Chunk(k, c) == [c] && c != '&') || Differs(PASSES[k], Chunk(k, c))
    ensures Chunk(k + 1, c) != Chunk(k, c) ==>
              Chunk(k + 1, c) == [c]
              && if k == 0 then c == '\'' && Chunk(k, c) == "&#39;"
                 else PASSES[k] == Named(Chunk(k, c), c) && forall i :: 0 <= i < |Chunk(k, c)| ==> LowerChar(Chunk(k, c)[i]) == Chunk(k, c)[i]
  {
  }

  /** A pass eats exactly its own kind of chunk, whatever follows. */
  lemma PassOnChunk(k: nat, c: char, rest: string)
    requires k < 7
    ensures Replace(PASSES[k], Chunk(k, c) + rest) == Chunk(k + 1, c) + Replace(PASSES[k], rest)
  {
    ChunkStep(k, c);
    PassOn(PASSES[k], k == 0, Chunk(k, c), Chunk(k + 1, c), c, rest);
  }

  lemma PassOn(p: Pass, first: bool, chunk: string, after: string, c: char, rest: string)
    requires WellFormed(p) && chunk != [] && (first ==> p == Decimal)
    requires after == chunk ==> (chunk == [c] && c != '&') || Differs(p, chunk)
    requires after != chunk ==>
               after == [c]
               && if first then c == '\'' && chunk == "&#39;"
                  else p == Named(chunk, c) && forall i :: 0 <= i < |chunk| ==> LowerChar(chunk[i]) == chunk[i]
    ensures Replace(p, chunk + rest) == after + Replace(p, rest)
  {
    if after != chunk {
      if first { DecimalOnApostrophe(rest); } else { NamedOnItsName(chunk, c, rest); }
    } else if chunk == [c] && c != '&' {
      PassSkips(p, chunk, rest);
    } else {
      PassSkipsOther(p, chunk, rest);
    }
  }

  lemma {:induction false} PassOnChunks(k: nat, s: string)
    requires k < 7
    ensures Replace(PASSES[k], Chunks(k, s)) == Chunks(k + 1, s)
    decreases |s|
  {
    if s != [] {
      PassOnChunk(k, s[0], Chunks(k, s[1..]));
      PassOnChunks(k, s[1..]);
    }
  }

  lemma {:induction false} AllPasses(k: nat, s: string)
    requires k <= 7
    ensures ReplaceAll(PASSES[k..], Chunks(k, s)) == s
    decreases 7 - k
  {
    if k == 7 {
      NoChunksLeft(s);
    } else {
      PassOnChunks(k, s);
      assert PASSES[k..][1..] == PASSES[k + 1..];
      AllPasses(k + 1, s);
    }
  }

  lemma {:induction false} NoChunksLeft(s: string)
    ensures Chunks(7, s) == s
    decreases |s|
  {
    if s != [] {
      NoChunksLeft(s[1..]);
    }
  }

  /** Decoding undoes escaping, up to trimming, for every string and through all seven passes. */
  lemma DecodeUndoesEscape(s: string)
    ensures DecodeAttributeValue(EscapeHtml(s)) == Trim(s)
  {
    EscapeIsChunks(s);
    AllPasses(0, s);
    assert PASSES[0..] == PASSES;
  }

  /** Escaped text has no markup or quote characters. */
  lemma EscapedIsInert(s: string)
    ensures forall c :: c in EscapeHtml(s) ==> c != '<' && c != '>' && c != '"' && c != '\''
  {
    EscapeIsChunks(s);
    ChunksAreInert(s);
  }

  lemma {:induction false} ChunksAreInert(s: string)
    ensures forall c :: c in Chunks(0, s) ==> c != '<' && c != '>' && c != '"' && c != '\''
    decreases |s|
  {
    if s != [] {
      ChunksAreInert(s[1..]);
    }
  }

  lemma TrimTwice(s: string)
    ensures Trim(Trim(s)) == Trim(s)
  {
    var t := Trim(s);
    assert TrimStart(t) == t;
    assert TrimEnd(t) == t;
  }

  /** What was decoded once survives another round of escaping and decoding. */
  lemma DecodedIsStable(value: string)
    ensures DecodeAttributeValue(EscapeHtml(DecodeAttributeValue(value))) == DecodeAttributeValue(value)
  {
    DecodeUndoesEscape(DecodeAttributeValue(value));
    TrimTwice(ReplaceAll(PASSES, value));
  }

  // ----------------------------------------------------------------- numeric references

  function HexDigit(d: nat, upper: bool): (c: char)
    requires d < 16
    ensures IsHex(c) && DigitValue(c) == d && (d < 10 ==> IsDigit(c))
  {
    if d < 10 then '0' + d as char else (if upper then 'A' else 'a') + (d - 10) as char
  }

  /** A number written in a base. */
  function Digits(n: nat, base: nat, upper: bool): (s: string)
    requires 2 <= base <= 16
    ensures s != [] && forall c :: c in s ==> IsHex(c) && (base <= 10 ==> IsDigit(c))
    decreases n
  {
    if n < base then [HexDigit(n, upper)]
    else Quotient(n, base); Digits(n / base, base, upper) + [HexDigit(n % base, upper)]
  }

  lemma Quotient(n: nat, base: nat)
    requires 2 <= base <= n
    ensures n / base < n && n % base < base
  {
  }

  lemma Parts(n: nat, base: nat)
    requires base > 0
    ensures (n / base) * base + n % base == n
  {
  }

  lemma NumberStep(digits: string, d: char, base: nat)
    requires (forall c :: c in digits ==> IsHex(c)) && IsHex(d)
    ensures Number(digits + [d], base) == Number(digits, base) * base + DigitValue(d)
  {
    assert (digits + [d])[..|digits|] == digits;
  }

  lemma {:induction false} NumberOfDigits(n: nat, base: nat, upper: bool)
    requires 2 <= base <= 16
    ensures Number(Digits(n, base, upper), base) == n
    decreases n
  {
    hide Number;
    hide DigitValue;
    if n < base {
      NumberStep([], HexDigit(n, upper), base);
      NumberOfNothing(base);
      assert [] + [HexDigit(n, upper)] == [HexDigit(n, upper)];
    } else {
      NumberOfDigits(n / base, base, upper);
      NumberStep(Digits(n / base, base, upper), HexDigit(n % base, upper), base);
      Parts(n, base);
    }
  }

  lemma NumberOfNothing(base: nat)
    ensures Number([], base) * base == 0
  {
  }

  lemma ReferenceLayout(start: string, digits: string, semicolon: string, rest: string)
    ensures var s := start + digits + semicolon + rest;
            && s[|start|..] == digits + (semicolon + rest)
            && s[|start|..][..|digits|] == digits && s[|start| + |digits|..] == semicolon + rest
            && s[|start| + |digits| + |semicolon|..] == rest
            && forall i :: 0 <= i < |start| ==> s[i] == start[i]
  {
    assert (start + digits + semicolon + rest)[|start|..] == digits + (semicolon + rest);
  }

  /** A numeric reference to any code point, decimal or hexadecimal, with its semicolon or before what does
      not go on with it, is replaced by its character, or by nothing when there is none. */
  lemma NumericReferenceDecodes(n: nat, hex: bool, upper: bool, semicolon: bool, rest: string)
    requires !semicolon ==> rest == [] || (rest[0] != ';' && if hex then !IsHex(rest[0]) else !IsDigit(rest[0]))
    ensures var p := if hex then Hexadecimal else Decimal;
            var written := (if hex then "&#x" else "&#") + Digits(n, if hex then 16 else 10, upper)
                           + (if semicolon then ";" else "");
            var there := n < 0xD800 || 0xE000 <= n < 0x11_0000;
            Replace(p, written + rest) == (if there then [n as char] else "") + Replace(p, rest)
  {
    hide Digits;
    hide Number;
    var start, base := if hex then "&#x" else "&#", if hex then 16 else 10;
    var digits, end := Digits(n, base, upper), if semicolon then ";" else "";
    var s, k := start + digits + end + rest, |start|;
    ReferenceLayout(start, digits, end, rest);
    NumberOfDigits(n, base, upper);
    assert !(if hex then IsHex else IsDigit)(';');
    assert |s[k..]| > |digits| ==> s[k..][|digits|] == (end + rest)[0];
    SpanIs(s[k..], if hex then IsHex else IsDigit, |digits|);
    assert Semicolon(end + rest) == |end|;
    MatchNumeric(hex, s, digits, n);
  }

  lemma MatchNumeric(hex: bool, s: string, digits: string, n: nat)
    requires var k := if hex then 3 else 2;
             && k + |digits| <= |s| && digits != [] && s[0] == '&' && s[1] == '#' && (hex ==> s[2] == 'x')
             && Span(s[k..], if hex then IsHex else IsDigit) == |digits| && s[k..][..|digits|] == digits
    requires (forall c :: c in digits ==> IsHex(c)) && Number(digits, if hex then 16 else 10) == n
    ensures var p, k := if hex then Hexadecimal else Decimal, if hex then 3 else 2;
            var m := k + |digits| + Semicolon(s[k + |digits|..]);
            Replace(p, s) == CodePoint(n) + Replace(p, s[m..])
  {
    hide Number;
    hide CodePoint;
    hide Span;
  }

  /** Is there a numeric reference at the start of the text: the opening and a digit? */
  ghost predicate BeginsReference(hex: bool, s: string) {
    var start := if hex then "&#x" else "&#";
    start < s && s[..|start|] == start && if hex then IsHex(s[|start|]) else IsDigit(s[|start|])
  }

  /** Where no reference begins, the character is copied. */
  lemma OthersAreCopied(hex: bool, s: string)
    requires s != [] && !BeginsReference(hex, s)
    ensures var p := if hex then Hexadecimal else Decimal;
            Replace(p, s) == [s[0]] + Replace(p, s[1..])
  {
    if hex {
      HexadecimalMisses(s);
    } else {
      DecimalMisses(s);
    }
    hide Match;
  }

  lemma DecimalMisses(s: string)
    requires s != [] && !BeginsReference(false, s)
    ensures Match(Decimal, s).0 == 0
  {
    if |s| > 2 && s[0] == '&' && s[1] == '#' {
      assert s[..2] == "&#";
      SpanIs(s[2..], IsDigit, 0);
    }
  }

  lemma HexadecimalMisses(s: string)
    requires s != [] && !BeginsReference(true, s)
    ensures Match(Hexadecimal, s).0 == 0
  {
    if |s| > 3 && s[0] == '&' && s[1] == '#' && s[2] == 'x' {
      assert s[..3] == "&#x";
      SpanIs(s[3..], IsHex, 0);
    }
  }

  /** A letter of a name, in either case. */
  ghost predicate SameLetter(c: char, lower: char) {
    c == lower || ('a' <= lower <= 'z' && c as int == lower as int - 32)
  }

  /** A named reference in any mixture of cases becomes its character; elsewhere the character is copied. */
  lemma NamedReferenceDecodes(k: nat, s: string)
    requires 2 <= k < 7 && s != []
    ensures var (name, c) := [("&quot;", '"'), ("&apos;", '\''), ("&lt;", '<'), ("&gt;", '>'), ("&amp;", '&')][k - 2];
            Replace(PASSES[k], s)
            == if |name| <= |s| && forall i :: 0 <= i < |name| ==> SameLetter(s[i], name[i])
               then [c] + Replace(PASSES[k], s[|name|..]) else [s[0]] + Replace(PASSES[k], s[1..])
  {
    hide Replace;
    NamesOf(k);
    var p := PASSES[k];
    NamedExactly(p.name, p.character, s);
  }

  lemma NamesOf(k: nat)
    requires 2 <= k < 7
    ensures var (name, c) := [("&quot;", '"'), ("&apos;", '\''), ("&lt;", '<'), ("&gt;", '>'), ("&amp;", '&')][k - 2];
            && PASSES[k] == Named(name, c) && name != []
            && forall i :: 0 <= i < |name| ==> 'a' <= name[i] <= 'z' || name[i] == '&' || name[i] == ';'
  {
  }

  lemma NamedExactly(name: string, c: char, s: string)
    requires s != [] && name != []
    requires forall i :: 0 <= i < |name| ==> 'a' <= name[i] <= 'z' || name[i] == '&' || name[i] == ';'
    ensures Replace(Named(name, c), s)
            == if |name| <= |s| && forall i :: 0 <= i < |name| ==> SameLetter(s[i], name[i])
               then [c] + Replace(Named(name, c), s[|name|..]) else [s[0]] + Replace(Named(name, c), s[1..])
  {
    if |name| <= |s| {
      forall i | 0 <= i < |name| ensures SameLetter(s[i], name[i]) <==> LowerChar(s[i]) == name[i] {
      }
    }
  }
}
