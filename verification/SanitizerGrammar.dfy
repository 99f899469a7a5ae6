/** Which strings are tags and attributes, said by how they are written, and that the scanner reads exactly
    those, the leftmost first. */
module SanitizerGrammar {
  import opened Optional
  import opened Text
  import opened Entities
  import opened Sanitizer
  import opened SanitizerLaws

  // ------------------------------------------------------------------ tags

  /** What may stand between the name of a tag and its `>`. */
  datatype Part = Plain(c: char) | Quoted(quote: char, inside: string)

  ghost predicate IsPart(p: Part) {
    match p
    case Plain(c) => c !in {'>', '"', '\''}
    case Quoted(quote, inside) => quote in {'"', '\''} && quote !in inside
  }

  ghost function Written(parts: seq<Part>): string {
    if parts == [] then ""
    else
      (match parts[0]
       case Plain(c) => [c]
       case Quoted(quote, inside) => [quote] + inside + [quote]) + Written(parts[1..])
  }

  datatype Tag = Tag(closing: bool, name: string, parts: seq<Part>)

  ghost predicate IsTag(t: Tag) {
    && t.name != [] && IsLetter(t.name[0]) && (forall c :: c in t.name ==> IsTagChar(c))
    && (forall p :: p in t.parts ==> IsPart(p))
    && (t.parts != [] && t.parts[0].Plain? ==> !IsTagChar(t.parts[0].c))
  }

  ghost function Head(t: Tag): string {
    (if t.closing then "</" else "<") + t.name
  }

  ghost function WrittenTag(t: Tag): string {
    Head(t) + Written(t.parts) + ">"
  }

  /** What the tag means: its name in lower case, and closed in itself if it ends in a slash or is void. */
  ghost function Meaning(t: Tag): Token {
    if t.closing then Close(Lower(t.name))
    else Open(Lower(t.name), Written(t.parts),
              (t.parts != [] && t.parts[|t.parts| - 1] == Plain('/')) || Lower(t.name) in {"br", "hr", "img"})
  }

  lemma EndHere(s: string, i: nat)
    requires i < |s| && s[i..][0] == '>'
    ensures TagEnd(s, i) == Some(i)
  {
  }

  lemma OverPlain(s: string, i: nat, c: char, tail: string)
    requires i <= |s| && s[i..] == [c] + tail && c !in {'>', '"', '\''}
    ensures i < |s| && s[i + 1..] == tail && TagEnd(s, i) == TagEnd(s, i + 1)
  {
    assert s[i] == s[i..][0] && s[i + 1..] == s[i..][1..];
  }

  /** A quoted part is stepped over. */
  lemma OverQuoted(s: string, i: nat, quote: char, inside: string, tail: string)
    requires i <= |s| && s[i..] == [quote] + inside + [quote] + tail && quote in {'"', '\''} && quote !in inside
    ensures var j := i + 1 + |inside|; j < |s| && s[j + 1..] == tail && TagEnd(s, i) == TagEnd(s, j + 1)
  {
    var j, u := i + 1 + |inside|, s[i..];
    assert s[i] == u[0] && s[j] == u[j - i] == quote && s[j + 1..] == u[j + 1 - i..];
    assert u[1..1 + |inside|] == inside && s[i + 1..j] == u[1..1 + |inside|];
    forall k | i + 1 <= k < j ensures s[k] != quote {
      assert s[k] == s[i + 1..j][k - i - 1] && s[k] in inside;
    }
    FindIs(s, quote, i + 1, j);
  }

  /** The end of a tag stands after its parts. */
  lemma {:induction false} EndAfterParts(s: string, i: nat, parts: seq<Part>, rest: string)
    requires i <= |s| && s[i..] == Written(parts) + ">" + rest && forall p :: p in parts ==> IsPart(p)
    ensures TagEnd(s, i) == Some(i + |Written(parts)|)
    decreases |parts|
  {
    hide TagEnd;
    if parts == [] {
      EndHere(s, i);
    } else {
      assert parts[0] in parts;
      var tail := Written(parts[1..]) + ">" + rest;
      match parts[0]
      case Plain(c) =>
        assert s[i..] == [c] + tail;
        OverPlain(s, i, c, tail);
        EndAfterParts(s, i + 1, parts[1..], rest);
      case Quoted(quote, inside) =>
        assert s[i..] == [quote] + inside + [quote] + tail;
        OverQuoted(s, i, quote, inside, tail);
        EndAfterParts(s, i + 2 + |inside|, parts[1..], rest);
    }
  }

  /** How the search for the end goes on. */
  lemma EndStep(s: string, i: nat) returns (next: nat)
    requires i <= |s| && TagEnd(s, i).Some? && s[i] != '>'
    ensures i < next <= |s| && TagEnd(s, next) == TagEnd(s, i) && next <= TagEnd(s, i).value
    ensures if s[i] == '"' || s[i] == '\'' then i + 1 < next && s[next - 1] == s[i] && s[i] !in s[i + 1..next - 1]
            else next == i + 1
  {
    if s[i] == '"' || s[i] == '\'' {
      next := Find(s, s[i], i + 1) + 1;
    } else {
      next := i + 1;
    }
  }

  lemma CutPart(s: string, i: nat, next: nat, e: nat)
    requires i < next <= e <= |s|
    ensures next == i + 1 ==> s[i..e] == [s[i]] + s[next..e]
    ensures i + 1 < next && s[next - 1] == s[i] ==> s[i..e] == [s[i]] + s[i + 1..next - 1] + [s[i]] + s[next..e]
  {
  }

  lemma PartFirst(p: Part, more: seq<Part>)
    requires IsPart(p) && forall q :: q in more ==> IsPart(q)
    ensures forall q :: q in [p] + more ==> IsPart(q)
    ensures Written([p] + more) == (if p.Plain? then [p.c] else [p.quote] + p.inside + [p.quote]) + Written(more)
  {
    assert ([p] + more)[1..] == more;
  }

  /** Whatever stands before the end of a tag consists of parts. */
  lemma {:induction false} PartsBeforeEnd(s: string, i: nat) returns (parts: seq<Part>)
    requires i <= |s| && TagEnd(s, i).Some?
    ensures s[i..TagEnd(s, i).value] == Written(parts) && forall p :: p in parts ==> IsPart(p)
    ensures parts != [] && parts[0].Plain? ==> i < |s| && parts[0].c == s[i]
    decreases |s| - i
  {
    var e := TagEnd(s, i).value;
    if s[i] == '>' {
      parts := [];
    } else {
      hide TagEnd;
      hide Written;
      var next := EndStep(s, i);
      var more := PartsBeforeEnd(s, next);
      var p := if s[i] == '"' || s[i] == '\'' then Quoted(s[i], s[i + 1..next - 1]) else Plain(s[i]);
      assert IsPart(p);
      hide *;
      PartFirst(p, more);
      parts := [p] + more;
      CutPart(s, i, next, e);
    }
  }

  lemma {:induction false} LastPart(parts: seq<Part>)
    requires forall p :: p in parts ==> IsPart(p)
    ensures parts == [] <==> Written(parts) == ""
    ensures parts != [] ==>
      (Written(parts)[|Written(parts)| - 1] == '/' <==> parts[|parts| - 1] == Plain('/'))
  {
    if parts != [] {
      assert parts[0] in parts;
      LastPart(parts[1..]);
    }
  }

  lemma MatchTagAt(s: string, p: nat, n: nat, e: nat)
    requires 0 < p < |s| && s[0] == '<' && p == (if s[1] == '/' then 2 else 1)
    requires Span(s[p..], IsTagChar) == n && 0 < n && IsLetter(s[p]) && p + n <= |s| && TagEnd(s, p + n) == Some(e)
    ensures var tag := Lower(s[p..p + n]);
            MatchTag(s) == (e + 1, if p == 2 then Close(tag)
                                   else Open(tag, s[p + n..e], s[e - 1] == '/' || tag in {"br", "hr", "img"}))
  {
    hide TagEnd;
    hide Span;
  }

  /** Where the parts of a written tag lie. */
  lemma TagLayout(t: Tag, rest: string)
    requires IsTag(t)
    ensures var s, p, n := WrittenTag(t) + rest, |Head(t)| - |t.name|, |t.name|;
            var e := p + n + |Written(t.parts)|;
            && e + 1 == |WrittenTag(t)| <= |s| && s[0] == '<' && p == (if s[1] == '/' then 2 else 1)
            && (p == 2 <==> t.closing)
            && s[p..] == t.name + (Written(t.parts) + ">" + rest) && s[p..p + n] == t.name
            && s[p + n..] == Written(t.parts) + ">" + rest && s[p + n..e] == Written(t.parts)
            && s[e - 1] == (if t.parts == [] then t.name[n - 1] else Written(t.parts)[|Written(t.parts)| - 1])
  {
    hide *;
    var h, name, w := Head(t), t.name, Written(t.parts);
    NameAndParts(t);
    LastPart(t.parts);
    TagText(t);
    var s, tail := WrittenTag(t) + rest, w + ">" + rest;
    assert s == h + tail;
    SliceAfter(h, tail);
    SliceAfter(h[..|h| - |name|], name + tail);
    assert h[..|h| - |name|] + (name + tail) == s;
    assert tail[..|w|] == w;
  }

  lemma TagText(t: Tag)
    requires IsTag(t)
    ensures var h, n := Head(t), |t.name|;
            && WrittenTag(t) == h + Written(t.parts) + ">" && |h| - n == (if t.closing then 2 else 1)
            && h[|h| - n..] == t.name && h[0] == '<' && h[1] == (if t.closing then '/' else t.name[0]) && t.name[0] != '/'
  {
    hide Written;
  }

  lemma SliceAfter(a: string, b: string)
    ensures (a + b)[|a|..] == b && (a + b)[..|a|] == a
  {
  }

  /** A written tag is read whole, whatever follows. */
  lemma TagIsRead(t: Tag, rest: string)
    requires IsTag(t)
    ensures MatchTag(WrittenTag(t) + rest) == (|WrittenTag(t)|, Meaning(t))
  {
    hide *;
    var s, p, n := WrittenTag(t) + rest, |Head(t)| - |t.name|, |t.name|;
    var e := p + n + |Written(t.parts)|;
    TagLayout(t, rest);
    NameStops(t, rest);
    NameAndParts(t);
    EndAfterParts(s, p + n, t.parts, rest);
    MatchTagAt(s, p, n, e);
    MeaningIs(t, s[e - 1]);
  }

  lemma NameAndParts(t: Tag)
    requires IsTag(t)
    ensures t.name != [] && forall p :: p in t.parts ==> IsPart(p)
  {
  }

  lemma MeaningIs(t: Tag, last: char)
    requires IsTag(t)
    requires last == (if t.parts == [] then t.name[|t.name| - 1] else Written(t.parts)[|Written(t.parts)| - 1])
    ensures var tag := Lower(t.name);
            Meaning(t) == if t.closing then Close(tag)
                          else Open(tag, Written(t.parts), last == '/' || tag in {"br", "hr", "img"})
  {
    LastPart(t.parts);
    assert t.name[|t.name| - 1] in t.name;
    assert IsTagChar(t.name[|t.name| - 1]);
  }

  lemma NameStops(t: Tag, rest: string)
    requires IsTag(t)
    ensures var tail := Written(t.parts) + ">" + rest;
            Span(t.name + tail, IsTagChar) == |t.name| && IsLetter((t.name + tail)[0]) && (t.name + tail)[0] != '/'
  {
    var tail := Written(t.parts) + ">" + rest;
    if t.parts != [] {
      assert t.parts[0] in t.parts;
    }
    assert !IsTagChar(tail[0]);
    assert forall i :: 0 <= i < |t.name| ==> t.name[i] in t.name;
    SpanIs(t.name + tail, IsTagChar, |t.name|);
  }

  /** How a tag was found. */
  lemma FoundTag(s: string, p: nat, n: nat)
    requires MatchTag(s).0 > 0 && p == (if |s| > 1 && s[1] == '/' then 2 else 1)
    requires p <= |s| ==> n == Span(s[p..], IsTagChar)
    ensures s[0] == '<' && 0 < n && p + n <= |s| && IsLetter(s[p])
    ensures TagEnd(s, p + n) == Some(MatchTag(s).0 - 1)
  {
    hide Span;
    hide TagEnd;
  }

  lemma TagOf(s: string, p: nat, n: nat, e: nat, t: Tag)
    requires 0 < n && p + n <= e < |s| && s[0] == '<' && s[e] == '>' && p == (if s[1] == '/' then 2 else 1)
    requires t.closing == (p == 2) && t.name == s[p..p + n] && s[p + n..e] == Written(t.parts)
    ensures WrittenTag(t) == s[..e + 1]
  {
    hide Written;
    assert s[..e + 1] == s[..p] + s[p..p + n] + s[p + n..e] + [s[e]];
    assert s[..p] == if p == 2 then "</" else "<";
  }

  /** Whatever is read as a tag is a written tag. */
  lemma ReadIsTag(s: string) returns (t: Tag)
    requires MatchTag(s).0 > 0
    ensures IsTag(t) && WrittenTag(t) == s[..MatchTag(s).0]
  {
    hide MatchTag;
    hide Written;
    hide WrittenTag;
    var p := if |s| > 1 && s[1] == '/' then 2 else 1;
    var n := if p <= |s| then Span(s[p..], IsTagChar) else 0;
    FoundTag(s, p, n);
    var parts := PartsBeforeEnd(s, p + n);
    t := Tag(p == 2, s[p..p + n], parts);
    InClass(s, p, p + n, IsTagChar);
    assert parts != [] && parts[0].Plain? ==> !IsTagChar(parts[0].c) by { assert p + n < |s| ==> s[p..][n] == s[p + n]; }
    hide *;
    TagOf(s, p, n, MatchTag(s).0 - 1, t);
    TagIs(t);
  }

  lemma TagIs(t: Tag)
    requires t.name != [] && IsLetter(t.name[0]) && forall c :: c in t.name ==> IsTagChar(c)
    requires forall p :: p in t.parts ==> IsPart(p)
    requires t.parts != [] && t.parts[0].Plain? ==> !IsTagChar(t.parts[0].c)
    ensures IsTag(t)
  {
  }

  ghost predicate BeginsWith(s: string, t: Tag) {
    IsTag(t) && WrittenTag(t) <= s
  }

  /** No tag begins at any of the first `n` positions. */
  ghost predicate NoTagBefore(s: string, n: nat)
    requires n <= |s|
  {
    forall j, t :: 0 <= j < n ==> !BeginsWith(s[j..], t)
  }

  lemma {:induction false} TextIsCollected(text: string, s: string, n: nat)
    requires n <= |s| && NoTagBefore(s, n)
    ensures Tokens(text, s) == Tokens(text + s[..n], s[n..])
    decreases n
  {
    hide *;
    if n == 0 {
      assert text + s[..0] == text && s[0..] == s;
    } else {
      NotRead(s, n);
      TokensStep(text, s);
      TextIsCollected(text + [s[0]], s[1..], n - 1);
      assert text + [s[0]] + s[1..][..n - 1] == text + s[..n] && s[1..][n - 1..] == s[n..];
    }
  }

  lemma ReadBegins(s: string, t: Tag)
    requires IsTag(t) && 0 <= MatchTag(s).0 && WrittenTag(t) == s[..MatchTag(s).0]
    ensures BeginsWith(s, t)
  {
  }

  lemma NotRead(s: string, n: nat)
    requires 0 < n <= |s| && NoTagBefore(s, n)
    ensures MatchTag(s).0 == 0 && NoTagBefore(s[1..], n - 1)
  {
    hide MatchTag;
    hide BeginsWith;
    assert s[0..] == s;
    if MatchTag(s).0 > 0 {
      var t := ReadIsTag(s);
      ReadBegins(s, t);
    }
    forall j, t | 0 <= j < n - 1 ensures !BeginsWith(s[1..][j..], t) {
      assert s[1..][j..] == s[j + 1..];
    }
  }

  /** The tokens of a string: the text before its leftmost tag, what that tag means, and the tokens of what
      follows it. */
  lemma NextTag(html: string, n: nat, t: Tag)
    requires n <= |html| && NoTagBefore(html, n) && BeginsWith(html[n..], t)
    ensures Tokens([], html) == Flush(html[..n]) + [Meaning(t)] + Tokens([], html[n..][|WrittenTag(t)|..])
  {
    var s, w := html[n..], WrittenTag(t);
    assert s == w + s[|w|..];
    assert [] + html[..n] == html[..n];
    hide *;
    TextIsCollected([], html, n);
    ReadHere(s, t);
    TokensStep(html[..n], s);
  }

  lemma ReadHere(s: string, t: Tag)
    requires BeginsWith(s, t)
    ensures MatchTag(s) == (|WrittenTag(t)|, Meaning(t)) && 0 < |WrittenTag(t)| <= |s| && s != []
    ensures Flush(s) == if s == [] then [] else [Run(s)]
  {
    assert s == WrittenTag(t) + s[|WrittenTag(t)|..];
    TagIsRead(t, s[|WrittenTag(t)|..]);
  }

  /** A string without tags is one text. */
  lemma NoTagAtAll(html: string)
    requires NoTagBefore(html, |html|)
    ensures Tokens([], html) == if html == [] then [] else [Run(html)]
  {
    TextIsCollected([], html, |html|);
    assert [] + html[..|html|] == html && html[|html|..] == [];
  }

  // ------------------------------------------------------------------ attributes

  /** An attribute as written: a name, an equals sign with space around it, and a value. */
  datatype Field = Field(name: string, before: string, after: string, value: Value)
  datatype Value = Bare(raw: string) | InQuotes(quote: char, raw: string)

  /** A bare value goes as far as it can. */
  ghost predicate IsField(f: Field, rest: string) {
    && f.name != [] && IsNameStart(f.name[0]) && (forall c :: c in f.name ==> IsNameChar(c))
    && (forall c :: c in f.before + f.after ==> IsSpace(c))
    && match f.value
       case Bare(raw) => raw != [] && (forall c :: c in raw ==> IsBareChar(c)) && (rest != [] ==> !IsBareChar(rest[0]))
       case InQuotes(quote, raw) => quote in {'"', '\''} && quote !in raw
  }

  ghost function WrittenValue(v: Value): string {
    match v
    case Bare(raw) => raw
    case InQuotes(quote, raw) => [quote] + raw + [quote]
  }

  ghost function WrittenField(f: Field): string {
    f.name + f.before + "=" + f.after + WrittenValue(f.value)
  }

  lemma SpanPrefix(a: string, b: string, inClass: char -> bool)
    requires (forall c :: c in a ==> inClass(c)) && (b != [] ==> !inClass(b[0]))
    ensures Span(a + b, inClass) == |a|
  {
    assert forall i :: 0 <= i < |a| ==> a[i] in a;
    SpanIs(a + b, inClass, |a|);
  }

  /** Where a class stops: the parts of an attribute begin with characters of different classes. */
  lemma FieldStops(f: Field, rest: string)
    requires IsField(f, rest)
    ensures (forall c :: c in f.before ==> IsSpace(c)) && (forall c :: c in f.after ==> IsSpace(c))
    ensures WrittenValue(f.value) != [] && !IsSpace(WrittenValue(f.value)[0])
    ensures var next := if f.before == [] then '=' else f.before[0]; !IsNameChar(next)
  {
    assert f.before != [] ==> f.before[0] in f.before + f.after;
    assert f.value.Bare? ==> f.value.raw[0] in f.value.raw;
    forall c | c in f.before || c in f.after ensures IsSpace(c) {
      assert c in f.before + f.after;
    }
  }

  /** The layout of an attribute and what follows. */
  lemma FieldLayout(f: Field, v: string, s: string)
    requires s == f.name + f.before + "=" + f.after + v
    ensures var n, eq := |f.name|, |f.name| + |f.before|;
            && eq + 1 + |f.after| <= |s|
            && s == f.name + (f.before + ("=" + (f.after + v))) && s[..n] == f.name
            && s[n..] == f.before + ("=" + (f.after + v)) && s[eq] == '='
            && s[eq + 1..] == f.after + v && s[eq + 1 + |f.after|..] == v
  {
    var tail := "=" + (f.after + v);
    assert s == f.name + (f.before + tail) && s == f.name + f.before + tail;
  }

  lemma NameIsRead(f: Field, v: string, s: string)
    requires f.name != [] && IsNameStart(f.name[0]) && (forall c :: c in f.name ==> IsNameChar(c))
    requires (forall c :: c in f.before ==> IsSpace(c)) && (forall c :: c in f.after ==> IsSpace(c))
    requires v != [] && !IsSpace(v[0]) && s == f.name + f.before + "=" + f.after + v
    requires var next := if f.before == [] then '=' else f.before[0]; !IsNameChar(next)
    ensures MatchName(s) == Some((|f.name|, |f.name| + |f.before| + 1 + |f.after|))
  {
    hide Span;
    hide MatchName;
    var n, eq, tail := |f.name|, |f.name| + |f.before|, "=" + (f.after + v);
    FieldLayout(f, v, s);
    SpanPrefix(f.name, f.before + tail, IsNameChar);
    SpanPrefix(f.before, tail, IsSpace);
    SpanPrefix(f.after, v, IsSpace);
    MatchNameAt(s, n, eq, eq + 1 + |f.after|);
  }

  lemma MatchNameAt(s: string, n: nat, eq: nat, v: nat)
    requires 0 < n <= eq < v < |s| && IsNameStart(s[0]) && Span(s, IsNameChar) == n
    requires Span(s[n..], IsSpace) == eq - n && s[eq] == '=' && Span(s[eq + 1..], IsSpace) == v - eq - 1
    ensures MatchName(s) == Some((n, v))
  {
    hide Span;
  }

  lemma BareIsRead(s: string, v: nat, raw: string, rest: string)
    requires v < |s| && s[v..] == raw + rest && raw != []
    requires (forall c :: c in raw ==> IsBareChar(c)) && (rest != [] ==> !IsBareChar(rest[0]))
    ensures var e := v + |raw|; MatchValue(s, v) == Some((v, e, e)) && e <= |s| && s[v..e] == raw
  {
    hide Span;
    assert raw[0] in raw && s[v] == s[v..][0] == raw[0];
    SpanPrefix(raw, rest, IsBareChar);
    assert s[v..v + |raw|] == s[v..][..|raw|];
  }

  lemma QuotedIsRead(s: string, v: nat, quote: char, raw: string, rest: string)
    requires v < |s| && s[v..] == [quote] + raw + [quote] + rest && quote in {'"', '\''} && quote !in raw
    ensures var e := v + 1 + |raw|; MatchValue(s, v) == Some((v + 1, e, e + 1)) && e < |s| && s[v + 1..e] == raw
  {
    var e, u := v + 1 + |raw|, s[v..];
    assert s[v] == u[0] && s[e] == u[e - v] == quote;
    assert u[1..1 + |raw|] == raw && s[v + 1..e] == u[1..1 + |raw|];
    forall k | v + 1 <= k < e ensures s[k] != quote {
      assert s[k] == s[v + 1..e][k - v - 1] && s[k] in raw;
    }
    FindIs(s, quote, v + 1, e);
  }

  /** A written attribute is read whole. */
  lemma FieldIsRead(f: Field, rest: string)
    requires IsField(f, rest)
    ensures MatchAttribute(WrittenField(f) + rest) == (|WrittenField(f)|, f.name, f.value.raw)
  {
    hide *;
    var v, at := WrittenValue(f.value) + rest, |f.name| + |f.before| + 1 + |f.after|;
    var s := WrittenField(f) + rest;
    FieldText(f, rest);
    FieldStops(f, rest);
    FieldLayout(f, v, s);
    NameIsRead(f, v, s);
    ValueIsRead(f.value, s, at, rest);
    MatchAttributeAt(s, |f.name|, at);
  }

  lemma FieldText(f: Field, rest: string)
    requires IsField(f, rest)
    ensures var v := WrittenValue(f.value) + rest;
            && WrittenField(f) + rest == f.name + f.before + "=" + f.after + v
            && |WrittenField(f)| == |f.name| + |f.before| + 1 + |f.after| + |WrittenValue(f.value)|
    ensures f.name != [] && IsNameStart(f.name[0]) && forall c :: c in f.name ==> IsNameChar(c)
    ensures IsField(Field("a", "", "", f.value), rest)
  {
    var v := WrittenValue(f.value) + rest;
    assert WrittenField(f) + rest == f.name + f.before + "=" + f.after + v;
  }

  lemma ValueIsRead(value: Value, s: string, at: nat, rest: string)
    requires IsField(Field("a", "", "", value), rest) && at < |s| && s[at..] == WrittenValue(value) + rest
    ensures MatchValue(s, at).Some?
    ensures var (from, to, end) := MatchValue(s, at).value; end == at + |WrittenValue(value)| && s[from..to] == value.raw
  {
    hide MatchValue;
    match value
    case Bare(raw) => BareIsRead(s, at, raw, rest);
    case InQuotes(quote, raw) => QuotedIsRead(s, at, quote, raw, rest);
  }

  lemma MatchAttributeAt(s: string, n: nat, at: nat)
    requires n <= at < |s| && MatchName(s) == Some((n, at)) && MatchValue(s, at).Some?
    ensures var (from, to, end) := MatchValue(s, at).value; MatchAttribute(s) == (end, s[..n], s[from..to])
  {
    hide MatchName;
    hide MatchValue;
  }

  lemma InClass(s: string, i: nat, j: nat, inClass: char -> bool)
    requires i <= j <= |s| && j - i == Span(s[i..], inClass)
    ensures forall c :: c in s[i..j] ==> inClass(c)
  {
    assert s[i..j] == s[i..][..j - i];
  }

  lemma NameWasRead(s: string) returns (before: string, after: string)
    requires MatchName(s).Some?
    ensures var (n, v) := MatchName(s).value;
            && IsNameStart(s[0]) && (forall c :: c in s[..n] ==> IsNameChar(c))
            && (forall c :: c in before + after ==> IsSpace(c)) && s[..v] == s[..n] + before + "=" + after
  {
    hide *;
    var (n, v) := MatchName(s).value;
    var eq := NameFound(s);
    before, after := s[n..eq], s[eq + 1..v];
    InClass(s, n, eq, IsSpace);
    InClass(s, eq + 1, v, IsSpace);
    assert s[0..] == s;
    InClass(s, 0, n, IsNameChar);
    assert s[..v] == s[..n] + s[n..eq] + [s[eq]] + s[eq + 1..v];
  }

  lemma NameFound(s: string) returns (eq: nat)
    requires MatchName(s).Some?
    ensures var (n, v) := MatchName(s).value;
            && n <= eq < v <= |s| && s[eq] == '=' && IsNameStart(s[0]) && Span(s, IsNameChar) == n
            && Span(s[n..], IsSpace) == eq - n && Span(s[eq + 1..], IsSpace) == v - eq - 1
  {
    hide Span;
    var n := MatchName(s).value.0;
    eq := n + Span(s[n..], IsSpace);
  }

  lemma ValueWasRead(s: string, v: nat) returns (value: Value)
    requires v < |s| && MatchValue(s, v).Some?
    ensures var (from, to, end) := MatchValue(s, v).value;
            && s[v..end] == WrittenValue(value) && value.raw == s[from..to]
            && IsField(Field("a", "", "", value), s[end..])
  {
    var (from, to, end) := MatchValue(s, v).value;
    if s[v] == '"' || s[v] == '\'' {
      value := InQuotes(s[v], s[from..to]);
      QuotedFound(s, v);
      hide *;
      assert s[v..end] == [s[v]] + s[from..to] + [s[to]];
      QuotedOk(value.quote, value.raw, s[end..]);
    } else {
      value := Bare(s[v..end]);
      BareFound(s, v);
      hide *;
      BareOk(value.raw, s[end..]);
    }
  }

  lemma QuotedFound(s: string, v: nat)
    requires v < |s| && MatchValue(s, v).Some? && (s[v] == '"' || s[v] == '\'')
    ensures var (from, to, end) := MatchValue(s, v).value;
            from == v + 1 && end == to + 1 && s[to] == s[v] && s[v] !in s[from..to]
  {
    hide Span;
  }

  lemma BareFound(s: string, v: nat)
    requires v < |s| && MatchValue(s, v).Some? && s[v] != '"' && s[v] != '\''
    ensures var (from, to, end) := MatchValue(s, v).value;
            && from == v && to == end && (forall c :: c in s[v..end] ==> IsBareChar(c))
            && (s[end..] != [] ==> !IsBareChar(s[end..][0]))
  {
    hide Find;
    var end := MatchValue(s, v).value.2;
    InClass(s, v, end, IsBareChar);
    assert s[end..] != [] ==> s[end..][0] == s[v..][end - v];
  }

  lemma QuotedOk(quote: char, raw: string, rest: string)
    requires quote in {'"', '\''} && quote !in raw
    ensures IsField(Field("a", "", "", InQuotes(quote, raw)), rest)
  {
  }

  lemma BareOk(raw: string, rest: string)
    requires raw != [] && (forall c :: c in raw ==> IsBareChar(c)) && (rest != [] ==> !IsBareChar(rest[0]))
    ensures IsField(Field("a", "", "", Bare(raw)), rest)
  {
  }

  /** Whatever is read as an attribute is a written one. */
  lemma ReadIsField(s: string) returns (f: Field)
    requires MatchAttribute(s).0 > 0
    ensures var n := MatchAttribute(s).0; IsField(f, s[n..]) && WrittenField(f) == s[..n]
  {
    hide MatchName;
    hide MatchValue;
    var (n, v) := MatchName(s).value;
    var end := MatchValue(s, v).value.2;
    var before, after := NameWasRead(s);
    var value := ValueWasRead(s, v);
    f := Field(s[..n], before, after, value);
    assert s[..end] == s[..v] + s[v..end];
  }

  ghost predicate BeginsField(s: string, f: Field) {
    WrittenField(f) <= s && IsField(f, s[|WrittenField(f)|..])
  }

  ghost predicate NoFieldBefore(s: string, n: nat)
    requires n <= |s|
  {
    forall j, f :: 0 <= j < n ==> !BeginsField(s[j..], f)
  }

  lemma NoFieldRead(s: string, n: nat)
    requires 0 < n <= |s| && NoFieldBefore(s, n)
    ensures MatchAttribute(s).0 == 0 && NoFieldBefore(s[1..], n - 1)
  {
    hide MatchAttribute;
    hide BeginsField;
    assert s[0..] == s;
    if MatchAttribute(s).0 > 0 {
      var f := ReadIsField(s);
      FieldBegins(s, f);
    }
    forall j, f | 0 <= j < n - 1 ensures !BeginsField(s[1..][j..], f) {
      assert s[1..][j..] == s[j + 1..];
    }
  }

  lemma FieldBegins(s: string, f: Field)
    requires var n := MatchAttribute(s).0; IsField(f, s[n..]) && WrittenField(f) == s[..n]
    ensures BeginsField(s, f)
  {
  }

  lemma {:induction false} Skipped(raw: string, n: nat)
    requires n <= |raw| && NoFieldBefore(raw, n)
    ensures Attributes(raw) == Attributes(raw[n..])
    decreases n
  {
    hide MatchAttribute;
    hide NoFieldBefore;
    if n == 0 {
      assert raw[0..] == raw;
    } else {
      NoFieldRead(raw, n);
      Skipped(raw[1..], n - 1);
      assert raw[1..][n - 1..] == raw[n..];
    }
  }

  /** The attributes of a tag: the leftmost one written, its name in lower case and its value decoded, and
      the attributes of what follows it. */
  lemma NextAttribute(raw: string, n: nat, f: Field)
    requires n <= |raw| && NoFieldBefore(raw, n) && BeginsField(raw[n..], f)
    ensures Attributes(raw) == [Attribute(Lower(f.name), DecodeAttributeValue(f.value.raw))]
                               + Attributes(raw[n..][|WrittenField(f)|..])
  {
    hide MatchAttribute;
    var s, w := raw[n..], WrittenField(f);
    assert s == w + s[|w|..];
    Skipped(raw, n);
    FieldIsRead(f, s[|w|..]);
  }

  lemma NoAttributeAtAll(raw: string)
    requires NoFieldBefore(raw, |raw|)
    ensures Attributes(raw) == []
  {
    Skipped(raw, |raw|);
  }

  // ------------------------------------------------------------------ character references

  ghost predicate All(s: string, inClass: char -> bool) {
    forall i :: 0 <= i < |s| ==> inClass(s[i])
  }

  /** What may stand between an ampersand and its semicolon. */
  ghost predicate IsReference(body: string) {
    || (|body| > 1 && body[0] == '#' && All(body[1..], IsDigit))
    || (|body| > 2 && body[0] == '#' && body[1] == 'x' && All(body[2..], IsHex))
    || (|body| > 0 && IsLetter(body[0]) && All(body, IsAlnum))
  }

  lemma ReferenceIsRead(s: string, n: nat)
    requires n < |s| && IsReference(s[..n]) && s[n] == ';'
    ensures Reference(s) == n + 1
  {
    var body := s[..n];
    if s[0] != '#' {
      forall i | 0 <= i < n ensures IsAlnum(s[i]) {
        assert body[i] == s[i];
      }
      SpanIs(s, IsAlnum, n);
    } else if All(body[1..], IsDigit) && n > 1 {
      assert forall i :: 0 <= i < n - 1 ==> s[1..][i] == body[1..][i];
      SpanIs(s[1..], IsDigit, n - 1);
    } else {
      assert forall i :: 0 <= i < n - 2 ==> s[2..][i] == body[2..][i];
      SpanIs(s[2..], IsHex, n - 2);
      SpanIs(s[1..], IsDigit, 0);
    }
  }

  lemma ReadIsReference(s: string)
    requires Reference(s) > 0
    ensures var n := Reference(s) - 1; n < |s| && s[n] == ';' && IsReference(s[..n])
  {
    var n := Reference(s) - 1;
    var body := s[..n];
    if s[0] == '#' {
      assert n > 1 ==> body[1..] == s[1..][..n - 1];
      assert n > 2 ==> body[2..] == s[2..][..n - 2];
    }
  }

  /** An ampersand of a text is left alone exactly when a number, a hexadecimal number or a name follows it,
      up to a semicolon; every other one is escaped, and so are the angle brackets. */
  lemma TextEscapedExactly(t: string)
    requires t != []
    ensures var reference := exists n :: 0 < n < |t| && t[n] == ';' && IsReference(t[1..n]);
            EscapeText(t) == (if t[0] == '&' && !reference then "&amp;" else if t[0] == '<' then "&lt;"
                              else if t[0] == '>' then "&gt;" else [t[0]]) + EscapeText(t[1..])
  {
    EscapeIsOneScan(t);
    EscapeIsOneScan(t[1..]);
    hide *;
    ReferenceAfter(t);
    ScanStep(t);
  }

  lemma ScanStep(t: string)
    requires t != []
    ensures Escaped(t) == (if t[0] == '&' && Reference(t[1..]) == 0 then "&amp;" else if t[0] == '<' then "&lt;"
                           else if t[0] == '>' then "&gt;" else [t[0]]) + Escaped(t[1..])
  {
    hide Reference;
  }

  lemma ReferenceAfter(t: string)
    requires t != []
    ensures Reference(t[1..]) > 0 <==> exists n :: 0 < n < |t| && t[n] == ';' && IsReference(t[1..n])
  {
    hide Reference;
    hide IsReference;
    var s := t[1..];
    if Reference(s) > 0 {
      ReadIsReference(s);
      var n := Reference(s);
      assert s[..n - 1] == t[1..n];
    }
    forall n | 0 < n < |t| && t[n] == ';' && IsReference(t[1..n]) ensures Reference(s) > 0 {
      assert s[..n - 1] == t[1..n];
      ReferenceIsRead(s, n - 1);
    }
  }
}
