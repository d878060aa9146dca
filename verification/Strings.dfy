/** The string operations of the Go standard library that the modelled code
    calls, on sequences of Unicode scalar values (valid UTF-8 text). */
module Strings {

  // ----- white space -----

  /** unicode.IsSpace: the code points with the property White_Space. */
  predicate IsSpace(c: char): (b: bool)
    ensures var n := c as int;
            b <==>
              || 9 <= n <= 13 || n == 32 || n == 0x85 || n == 0xA0 || n == 0x1680 || 0x2000 <= n <= 0x200A
              || n == 0x2028 || n == 0x2029 || n == 0x202F || n == 0x205F || n == 0x3000
  {
    || '\t' <= c <= '\r' || c == ' ' || c == '\U{85}' || c == '\U{A0}' || c == '\U{1680}'
    || '\U{2000}' <= c <= '\U{200A}' || c == '\U{2028}' || c == '\U{2029}' || c == '\U{202F}'
    || c == '\U{205F}' || c == '\U{3000}'
  }

  predicate AllSpace(s: string) {
    forall i | 0 <= i < |s| :: IsSpace(s[i])
  }

  function TrimLeft(s: string): string {
    if s != [] && IsSpace(s[0]) then TrimLeft(s[1..]) else s
  }

  function TrimRight(s: string): string {
    if s != [] && IsSpace(s[|s| - 1]) then TrimRight(s[..|s| - 1]) else s
  }

  /** strings.TrimSpace. */
  function TrimSpace(s: string): string {
    TrimRight(TrimLeft(s))
  }

  predicate Trimmed(s: string) {
    s == [] || (!IsSpace(s[0]) && !IsSpace(s[|s| - 1]))
  }

  lemma {:induction false} TrimLeftParts(s: string) returns (a: string)
    ensures TrimLeft(s) == [] || !IsSpace(TrimLeft(s)[0])
    ensures AllSpace(a) && s == a + TrimLeft(s)
  {
    if s != [] && IsSpace(s[0]) {
      a := TrimLeftParts(s[1..]);
      a := [s[0]] + a;
    } else {
      a := "";
    }
  }

  lemma {:induction false} TrimRightParts(s: string) returns (b: string)
    ensures TrimRight(s) == [] || !IsSpace(TrimRight(s)[|TrimRight(s)| - 1])
    ensures AllSpace(b) && s == TrimRight(s) + b
  {
    if s != [] && IsSpace(s[|s| - 1]) {
      b := TrimRightParts(s[..|s| - 1]);
      b := b + [s[|s| - 1]];
    } else {
      b := "";
    }
  }

  lemma JoinedParts(s: string, a: string, l: string, t: string, b: string)
    requires s == a + l && l == t + b
    ensures s == a + t + b
    ensures t != [] ==> t[0] == l[0]
  {}

  /** Trimming removes white space at the two ends and nothing else. */
  lemma TrimParts(s: string) returns (a: string, b: string)
    ensures Trimmed(TrimSpace(s))
    ensures AllSpace(a) && AllSpace(b) && s == a + TrimSpace(s) + b
  {
    a := TrimLeftParts(s);
    b := TrimRightParts(TrimLeft(s));
    JoinedParts(s, a, TrimLeft(s), TrimSpace(s), b);
  }

  lemma {:induction false} TrimLeftAbsorbs(a: string, s: string)
    requires AllSpace(a)
    ensures TrimLeft(a + s) == TrimLeft(s)
  {
    if a == [] {
      assert a + s == s;
    } else {
      assert (a + s)[1..] == a[1..] + s;
      TrimLeftAbsorbs(a[1..], s);
    }
  }

  lemma {:induction false} TrimRightAbsorbs(s: string, b: string)
    requires AllSpace(b)
    ensures TrimRight(s + b) == TrimRight(s)
  {
    if b == [] {
      assert s + b == s;
    } else {
      assert (s + b)[..|s + b| - 1] == s + b[..|b| - 1];
      TrimRightAbsorbs(s, b[..|b| - 1]);
    }
  }

  lemma {:induction false} TrimLeftAllSpace(s: string)
    requires AllSpace(s)
    ensures TrimLeft(s) == []
  {
    if s != [] {
      TrimLeftAllSpace(s[1..]);
    }
  }

  lemma BlankIff(s: string)
    ensures TrimSpace(s) == "" <==> AllSpace(s)
  {
    var _, _ := TrimParts(s);
    if AllSpace(s) {
      TrimLeftAllSpace(s);
    }
  }

  /** White space around a string does not change what TrimSpace returns. */
  lemma TrimAbsorbs(a: string, s: string, b: string)
    requires AllSpace(a) && AllSpace(b)
    ensures TrimSpace(a + s + b) == TrimSpace(s)
  {
    assert a + s + b == a + (s + b);
    TrimLeftAbsorbs(a, s + b);
    var c := TrimLeftParts(s);
    var l := TrimLeft(s);
    assert s + b == c + (l + b);
    TrimLeftAbsorbs(c, l + b);
    if l == [] {
      assert l + b == b;
      TrimLeftAllSpace(b);
    } else {
      assert TrimLeft(l + b) == l + b;
      TrimRightAbsorbs(l, b);
    }
  }

  /** A string is left alone by TrimSpace exactly when it has no white space
      at its ends; in particular TrimSpace is idempotent. */
  lemma TrimFixedIff(s: string)
    ensures TrimSpace(s) == s <==> Trimmed(s)
    ensures TrimSpace(TrimSpace(s)) == TrimSpace(s)
  {
    var _, _ := TrimParts(s);
    assert forall t: string | Trimmed(t) :: TrimSpace(t) == t;
  }

  // ----- searching and splitting -----

  /** The index of the first c in s, or |s| when there is none. */
  function IndexOf(s: string, c: char): (i: nat)
    ensures i <= |s|
    ensures forall j | 0 <= j < i :: s[j] != c
    ensures i < |s| ==> s[i] == c
  {
    if s == [] || s[0] == c then 0 else 1 + IndexOf(s[1..], c)
  }

  lemma IndexOfUnique(s: string, c: char, i: nat)
    requires i <= |s| && c !in s[..i] && (i < |s| ==> s[i] == c)
    ensures IndexOf(s, c) == i
  {
    assert forall j | 0 <= j < i :: s[j] == s[..i][j];
  }

  /** strings.Split with a one-character separator. */
  function Split(s: string, sep: char): (parts: seq<string>)
    ensures |parts| >= 1
    decreases |s|
  {
    var i := IndexOf(s, sep);
    if i == |s| then [s] else [s[..i]] + Split(s[i + 1..], sep)
  }

  function Join(parts: seq<string>, sep: char): string {
    if parts == [] then ""
    else if |parts| == 1 then parts[0]
    else parts[0] + [sep] + Join(parts[1..], sep)
  }

  predicate FreeOf(parts: seq<string>, sep: char) {
    forall p | p in parts :: sep !in p
  }

  /** Split loses nothing and leaves no separator inside a part. */
  lemma {:induction false} SplitParts(s: string, sep: char)
    ensures Join(Split(s, sep), sep) == s
    ensures FreeOf(Split(s, sep), sep)
    decreases |s|
  {
    var i := IndexOf(s, sep);
    if i < |s| {
      SplitParts(s[i + 1..], sep);
      var rest := Split(s[i + 1..], sep);
      assert ([s[..i]] + rest)[1..] == rest;
      assert s == s[..i] + [sep] + s[i + 1..];
    }
  }

  /** Split undoes Join on separator-free parts, so it is the only such splitting. */
  lemma {:induction false} SplitJoin(parts: seq<string>, sep: char)
    requires parts != [] && FreeOf(parts, sep)
    ensures Split(Join(parts, sep), sep) == parts
  {
    var s := Join(parts, sep);
    var p := parts[0];
    assert sep !in p;
    if |parts| == 1 {
      IndexOfUnique(s, sep, |p|);
    } else {
      var rest := Join(parts[1..], sep);
      assert s == p + [sep] + rest;
      assert s[..|p|] == p && s[|p| + 1..] == rest;
      IndexOfUnique(s, sep, |p|);
      SplitJoin(parts[1..], sep);
    }
  }

  /** strings.TrimRight(s, "/"). */
  function TrimRightSlashes(s: string): string {
    if s != "" && s[|s| - 1] == '/' then TrimRightSlashes(s[..|s| - 1]) else s
  }

  /** It takes away the slashes at the end and nothing else. */
  lemma {:induction false} TrimSlashesMeaning(s: string)
    ensures var t := TrimRightSlashes(s);
            && |t| <= |s| && s[..|t|] == t && (t == "" || t[|t| - 1] != '/')
            && forall i | |t| <= i < |s| :: s[i] == '/'
  {
    if s != "" && s[|s| - 1] == '/' {
      TrimSlashesMeaning(s[..|s| - 1]);
    }
  }

  lemma SplitAt(s: string, head: string, tail: string, sep: char)
    requires s == head + [sep] + tail && sep !in head
    ensures Split(s, sep) == [head] + Split(tail, sep)
  {
    assert s[..|head|] == head && s[|head| + 1..] == tail;
    IndexOfUnique(s, sep, |head|);
  }

  lemma Associate(a: seq<string>, b: seq<string>, c: seq<string>)
    ensures a + (b + c) == a + b + c
  {}

  /** Joining two texts with the separator joins their splittings. */
  lemma {:induction false} SplitConcat(a: string, b: string, sep: char)
    ensures Split(a + [sep] + b, sep) == Split(a, sep) + Split(b, sep)
    decreases |a|
  {
    var i := IndexOf(a, sep);
    if i == |a| {
      SplitAt(a + [sep] + b, a, b, sep);
    } else {
      var head, tail := a[..i], a[i + 1..];
      SplitAt(a, head, tail, sep);
      assert a + [sep] + b == head + [sep] + (tail + [sep] + b);
      SplitAt(a + [sep] + b, head, tail + [sep] + b, sep);
      SplitConcat(tail, b, sep);
      Associate([head], Split(tail, sep), Split(b, sep));
    }
  }

  // ----- decimal printing (fmt's %d on a count) -----

  function Digit(d: nat): char
    requires d < 10
  {
    ('0' as int + d) as char
  }

  function Decimal(n: nat): (s: string)
    ensures s != []
  {
    if n < 10 then [Digit(n)] else Decimal(n / 10) + [Digit(n % 10)]
  }

  function DecimalValue(s: string): int {
    if s == [] then 0 else 10 * DecimalValue(s[..|s| - 1]) + (s[|s| - 1] as int - '0' as int)
  }

  lemma {:induction false} DecimalRoundTrip(n: nat)
    ensures DecimalValue(Decimal(n)) == n
  {
    if n < 10 {
      assert DecimalValue([Digit(n)]) == n;
    } else {
      DecimalRoundTrip(n / 10);
      assert Decimal(n)[..|Decimal(n)| - 1] == Decimal(n / 10);
    }
  }

  /** Two counts never print alike. */
  lemma DecimalInjective(m: nat, n: nat)
    requires Decimal(m) == Decimal(n)
    ensures m == n
  {
    DecimalRoundTrip(m);
    DecimalRoundTrip(n);
  }
}
