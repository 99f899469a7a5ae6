/** The fingerprint of a set of names: sorted, each with its length in front, hashed. */
module Fingerprint {

  newtype byte = x: int | 0 <= x < 256

  /** A name in UTF-8. */
  type Name = seq<byte>

  /** An ideal hash: digests are equal exactly when the hashed bytes are. */
  datatype Digest = Sha256(input: seq<byte>)

  const COLON: byte := 58
  const ZERO: byte := 48

  /** The decimal digits of a length. */
  function Decimal(n: nat): (r: seq<byte>)
    ensures r != []
    ensures forall c :: c in r ==> ZERO <= c < COLON
  {
    var digit := ZERO + (n % 10) as byte;
    if n < 10 then [digit] else Decimal(n / 10) + [digit]
  }

  function Frame(name: Name): (r: seq<byte>)
    ensures r != []
  {
    Decimal(|name|) + [COLON] + name
  }

  function Encode(names: seq<Name>): seq<byte> {
    if names == [] then [] else Frame(names[0]) + Encode(names[1..])
  }

  /** Lexicographic order. */
  predicate Below(a: Name, b: Name)
    decreases |a|
  {
    if b == [] then false
    else if a == [] then true
    else a[0] < b[0] || (a[0] == b[0] && Below(a[1..], b[1..]))
  }

  /** Insert a name into a sorted list, unless it is there. */
  function Insert(sorted: seq<Name>, name: Name): seq<Name> {
    if sorted == [] then [name]
    else if name == sorted[0] then sorted
    else if Below(name, sorted[0]) then [name] + sorted
    else [sorted[0]] + Insert(sorted[1..], name)
  }

  /** The distinct names in order. */
  function Sorted(names: seq<Name>): seq<Name>
    decreases |names|
  {
    if names == [] then [] else Insert(Sorted(names[..|names| - 1]), names[|names| - 1])
  }

  ghost function Members(names: seq<Name>): set<Name> {
    set n | n in names
  }

  /** The fingerprint as a function; the method below feeds the hash name by name. */
  function FingerprintSet(names: seq<Name>): Digest {
    Sha256(Encode(Sorted(names)))
  }

  method Compute(names: seq<Name>) returns (digest: Digest)
    ensures digest == FingerprintSet(names)
  {
    var sorted: seq<Name> := [];
    for i := 0 to |names|
      invariant sorted == Sorted(names[..i])
    {
      assert names[..i + 1][..i] == names[..i];
      sorted := Insert(sorted, names[i]);
    }
    assert names[..|names|] == names;
    var fed: seq<byte> := [];
    for i := 0 to |sorted|
      invariant fed + Encode(sorted[i..]) == Encode(sorted)
    {
      assert sorted[i..][1..] == sorted[i + 1..];
      assert fed + (Frame(sorted[i]) + Encode(sorted[i + 1..])) == fed + Frame(sorted[i]) + Encode(sorted[i + 1..]);
      fed := fed + Frame(sorted[i]);
    }
    digest := Sha256(fed);
  }

  // --------------------------------------------------------- unique decodability

  ghost function Value(digits: seq<byte>): int {
    if digits == [] then 0 else Value(digits[..|digits| - 1]) * 10 + digits[|digits| - 1] as int - 48
  }

  lemma {:induction false} DecimalValue(n: nat)
    ensures Value(Decimal(n)) == n
  {
    var d := Decimal(n);
    if n < 10 {
      assert d[..0] == [];
    } else {
      DecimalValue(n / 10);
      assert d[..|d| - 1] == Decimal(n / 10);
    }
  }

  /** A framed name can be read off the front of the bytes in only one way. */
  lemma FrameOnce(a: Name, b: Name, r: seq<byte>, s: seq<byte>)
    requires Frame(a) + r == Frame(b) + s
    ensures a == b && r == s
  {
    var x, y := Decimal(|a|), Decimal(|b|);
    var u := Frame(a) + r;
    ColonAt(a, r);
    ColonAt(b, s);
    assert |x| == |y|;
    assert x == u[..|x|] == y;
    DecimalValue(|a|);
    DecimalValue(|b|);
    var n := |x| + 1;
    assert a == u[n..n + |a|] == b;
    assert r == u[n + |a|..] == s;
  }

  lemma ColonAt(a: Name, r: seq<byte>)
    ensures var u := Frame(a) + r; var n := |Decimal(|a|)|;
            && |u| == n + 1 + |a| + |r| && u[n] == COLON && u[..n] == Decimal(|a|)
            && (forall i :: 0 <= i < n ==> u[i] < COLON)
            && u[n + 1..n + 1 + |a|] == a && u[n + 1 + |a|..] == r
  {
    var u, d := Frame(a) + r, Decimal(|a|);
    forall i | 0 <= i < |d| ensures u[i] < COLON {
      assert u[i] == d[i] && d[i] in d;
    }
  }

  /** Length-prefixed concatenation is uniquely decodable: equal bytes, equal lists. */
  lemma {:induction false} EncodeInjective(a: seq<Name>, b: seq<Name>)
    requires Encode(a) == Encode(b)
    ensures a == b
  {
    if a != [] && b != [] {
      FrameOnce(a[0], b[0], Encode(a[1..]), Encode(b[1..]));
      EncodeInjective(a[1..], b[1..]);
    }
  }

  // --------------------------------------------------------------- canonical order

  lemma {:induction false} BelowTotal(a: Name, b: Name)
    ensures a == b || Below(a, b) || Below(b, a)
    ensures !(Below(a, b) && Below(b, a)) && !Below(a, a)
    decreases |a|
  {
    if a != [] {
      BelowTotal(a[1..], a[1..]);
    }
    if a != [] && b != [] && a[0] == b[0] {
      BelowTotal(a[1..], b[1..]);
    }
  }

  lemma {:induction false} BelowTransitive(a: Name, b: Name, c: Name)
    requires Below(a, b) && Below(b, c)
    ensures Below(a, c)
    decreases |a|
  {
    if a != [] && a[0] == b[0] == c[0] {
      BelowTransitive(a[1..], b[1..], c[1..]);
    }
  }

  ghost predicate Ascending(names: seq<Name>) {
    forall i, j :: 0 <= i < j < |names| ==> Below(names[i], names[j])
  }

  lemma {:induction false} InsertFacts(sorted: seq<Name>, name: Name)
    requires Ascending(sorted)
    ensures Ascending(Insert(sorted, name))
    ensures Members(Insert(sorted, name)) == Members(sorted) + {name}
  {
    if sorted != [] {
      var first, rest := sorted[0], sorted[1..];
      assert sorted == [first] + rest;
      BelowTotal(name, first);
      if name != first && Below(name, first) {
        InFront(name, sorted);
      } else if name != first {
        InsertFacts(rest, name);
        Behind(first, rest, name, Insert(rest, name));
      }
    }
  }

  lemma InFront(name: Name, sorted: seq<Name>)
    requires sorted != [] && Ascending(sorted) && Below(name, sorted[0])
    ensures Ascending([name] + sorted) && Members([name] + sorted) == Members(sorted) + {name}
  {
    var r := [name] + sorted;
    forall j | 0 < j < |r| ensures Below(name, r[j]) {
      if j > 1 {
        BelowTransitive(name, sorted[0], r[j]);
      }
    }
  }

  lemma Behind(first: Name, rest: seq<Name>, name: Name, tail: seq<Name>)
    requires Ascending([first] + rest) && Ascending(tail) && Members(tail) == Members(rest) + {name} && Below(first, name)
    ensures Ascending([first] + tail) && Members([first] + tail) == Members([first] + rest) + {name}
  {
    var before := [first] + rest;
    forall j | 0 <= j < |tail| ensures Below(first, tail[j]) {
      assert tail[j] in Members(tail);
      if tail[j] != name {
        var k :| 0 <= k < |rest| && rest[k] == tail[j];
        assert before[0] == first && before[k + 1] == tail[j];
      }
    }
    assert forall n :: n in [first] + tail <==> n == first || n in Members(tail);
    assert forall n :: n in before <==> n == first || n in Members(rest);
  }

  lemma {:induction false} SortedFacts(names: seq<Name>)
    ensures Ascending(Sorted(names)) && Members(Sorted(names)) == Members(names)
    decreases |names|
  {
    if names != [] {
      var front, last := names[..|names| - 1], names[|names| - 1];
      SortedFacts(front);
      InsertFacts(Sorted(front), last);
      assert names == front + [last];
    }
  }

  /** An ascending list is determined by its members. */
  lemma {:induction false} AscendingUnique(a: seq<Name>, b: seq<Name>)
    requires Ascending(a) && Ascending(b) && Members(a) == Members(b)
    ensures a == b
  {
    NoMembers(a);
    NoMembers(b);
    if a != [] {
      assert a[0] in Members(b);
      assert b[0] in Members(a);
      FirstIsLeast(a, b[0]);
      FirstIsLeast(b, a[0]);
      BelowTotal(a[0], b[0]);
      RestMembers(a);
      RestMembers(b);
      AscendingUnique(a[1..], b[1..]);
    }
  }

  lemma NoMembers(names: seq<Name>)
    ensures names == [] <==> Members(names) == {}
  {
    if names != [] {
      assert names[0] in Members(names);
    }
  }

  lemma FirstIsLeast(a: seq<Name>, n: Name)
    requires Ascending(a) && n in a
    ensures a[0] == n || Below(a[0], n)
  {
  }

  lemma RestMembers(a: seq<Name>)
    requires Ascending(a) && a != []
    ensures Members(a[1..]) == Members(a) - {a[0]}
  {
    BelowTotal(a[0], a[0]);
    assert a == [a[0]] + a[1..];
    assert a[0] !in a[1..];
  }

  /** Two member lists have the same fingerprint exactly when they are equal as sets. */
  lemma FingerprintInjective(a: seq<Name>, b: seq<Name>)
    ensures FingerprintSet(a) == FingerprintSet(b) <==> Members(a) == Members(b)
  {
    SortedFacts(a);
    SortedFacts(b);
    if FingerprintSet(a) == FingerprintSet(b) {
      EncodeInjective(Sorted(a), Sorted(b));
    }
    if Members(a) == Members(b) {
      AscendingUnique(Sorted(a), Sorted(b));
    }
  }
}
