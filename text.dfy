/** String operations the route handlers rely on, stated over `seq<char>`:
    ASCII lowercasing (`String.prototype.toLowerCase`), substring search
    (`includes`), the `replace(/\s+/g, "-")` key normalisation, `split` on a
    single character, `join`, and decimal rendering of numbers in template
    strings. */
module Text {

  // ---------------------------------------------------------------------------
  // Lowercasing
  // ---------------------------------------------------------------------------

  function LowerChar(c: char): char {
    if 'A' <= c <= 'Z' then (c as int - 'A' as int + 'a' as int) as char else c
  }

  /** `toLowerCase`, restricted to the ASCII letters. */
  function Lower(s: string): string {
    seq(|s|, i requires 0 <= i < |s| => LowerChar(s[i]))
  }

  /** `a` and `b` differ at most in the letter case of their characters. */
  predicate SameIgnoringCase(a: string, b: string) {
    |a| == |b| && forall i :: 0 <= i < |a| ==> LowerChar(a[i]) == LowerChar(b[i])
  }

  lemma LowerOfSameIgnoringCase(a: string, b: string)
    requires SameIgnoringCase(a, b)
    ensures Lower(a) == Lower(b)
  {
    assert forall i :: 0 <= i < |a| ==> Lower(a)[i] == Lower(b)[i];
  }

  lemma LowerIdempotent(s: string)
    ensures Lower(Lower(s)) == Lower(s)
  {
    assert forall i :: 0 <= i < |s| ==> Lower(Lower(s))[i] == Lower(s)[i];
  }

  // ---------------------------------------------------------------------------
  // Substring containment
  // ---------------------------------------------------------------------------

  /** `p` occurs in `t` starting at index `i`. */
  predicate OccursAt(t: string, p: string, i: nat) {
    i + |p| <= |t| && t[i..i + |p|] == p
  }

  /** `t.includes(p)`: literal substring containment, no word boundaries. */
  predicate Contains(t: string, p: string) {
    exists i: nat | i <= |t| - |p| :: OccursAt(t, p, i)
  }

  lemma OccursAtChar(t: string, p: string, i: nat, k: nat)
    requires OccursAt(t, p, i) && k < |p|
    ensures t[i + k] == p[k]
  {
    assert t[i..i + |p|][k] == t[i + k];
  }

  /** Containment is transitive: whatever occurs in `p` occurs in every text
      containing `p`. This is why a keyword that is a substring of another
      keyword always rides along with it. */
  lemma ContainsTransitive(t: string, p: string, q: string)
    requires Contains(t, p) && Contains(p, q)
    ensures Contains(t, q)
  {
    var i: nat :| i <= |t| - |p| && OccursAt(t, p, i);
    var j: nat :| j <= |p| - |q| && OccursAt(p, q, j);
    forall k | 0 <= k < |q| ensures t[i + j + k] == q[k] {
      OccursAtChar(p, q, j, k);
      OccursAtChar(t, p, i, j + k);
    }
    assert t[i + j..i + j + |q|] == q;
    assert OccursAt(t, q, i + j);
  }

  lemma ContainsEmpty(t: string)
    ensures Contains(t, "")
  {
    assert OccursAt(t, "", 0);
  }

  /** A string of length two occurs only where its two characters do. */
  lemma NotContainsPair(t: string, p: string)
    requires |p| == 2
    requires forall i :: 0 <= i < |t| - 1 ==> !(t[i] == p[0] && t[i + 1] == p[1])
    ensures !Contains(t, p)
  {
    forall i: nat | i <= |t| - |p| ensures !OccursAt(t, p, i) {
      if OccursAt(t, p, i) {
        OccursAtChar(t, p, i, 0);
        OccursAtChar(t, p, i, 1);
      }
    }
  }

  /** A pattern whose first character never appears in `t` does not occur. */
  lemma NotContainsHead(t: string, p: string)
    requires |p| > 0
    requires forall i :: 0 <= i < |t| ==> t[i] != p[0]
    ensures !Contains(t, p)
  {
    forall i: nat | i <= |t| - |p| ensures !OccursAt(t, p, i) {
      if OccursAt(t, p, i) {
        OccursAtChar(t, p, i, 0);
      }
    }
  }

  // ---------------------------------------------------------------------------
  // Key normalisation: lowercase, every whitespace run becomes one "-"
  // ---------------------------------------------------------------------------

  /** The characters the regular-expression class `\s` matches: ECMAScript
      WhiteSpace and LineTerminator code points. */
  predicate IsSpace(c: char) {
    || c == ' ' || c == '\t' || c == '\n' || c == '\r'
    || c == '\U{000B}' || c == '\U{000C}' || c == '\U{00A0}' || c == '\U{FEFF}'
    || c == '\U{1680}' || ('\U{2000}' <= c <= '\U{200A}')
    || c == '\U{2028}' || c == '\U{2029}' || c == '\U{202F}' || c == '\U{205F}'
    || c == '\U{3000}'
  }

  predicate NoSpace(s: string) {
    forall i :: 0 <= i < |s| ==> !IsSpace(s[i])
  }

  /** `s` with its leading whitespace run removed. */
  function DropSpaces(s: string): (r: string)
    ensures |r| <= |s| && s[|s| - |r|..] == r
    ensures r == [] || !IsSpace(r[0])
  {
    if s != [] && IsSpace(s[0]) then DropSpaces(s[1..]) else s
  }

  /** `replace(/\s+/g, "-")`. */
  function Hyphenate(s: string): string
    decreases |s|
  {
    if s == [] then []
    else if IsSpace(s[0]) then "-" + Hyphenate(DropSpaces(s[1..]))
    else [s[0]] + Hyphenate(s[1..])
  }

  /** The lookup key of a role, location or skill name. */
  function NormalizeKey(s: string): string {
    Hyphenate(Lower(s))
  }

  lemma {:induction false} HyphenateNoSpace(s: string)
    ensures NoSpace(Hyphenate(s))
    decreases |s|
  {
    if s == [] {
    } else if IsSpace(s[0]) {
      HyphenateNoSpace(DropSpaces(s[1..]));
    } else {
      HyphenateNoSpace(s[1..]);
    }
  }

  /** Text without whitespace is left as it is. */
  lemma {:induction false} HyphenateIdentity(s: string)
    requires NoSpace(s)
    ensures Hyphenate(s) == s
    decreases |s|
  {
    if s != [] {
      assert !IsSpace(s[0]);
      HyphenateIdentity(s[1..]);
    }
  }

  /** Each maximal whitespace run between a word `x` and the rest `y` becomes
      exactly one "-". */
  lemma {:induction false} HyphenateRun(x: string, run: string, y: string)
    requires NoSpace(x)
    requires |run| > 0 && forall i :: 0 <= i < |run| ==> IsSpace(run[i])
    requires y == [] || !IsSpace(y[0])
    ensures Hyphenate(x + run + y) == x + "-" + Hyphenate(y)
    decreases |x|
  {
    if x == [] {
      assert x + run + y == run + y;
      HyphenateRunStart(run, y);
    } else {
      assert x + run + y == [x[0]] + (x[1..] + run + y);
      HyphenateCons(x[0], x[1..] + run + y);
      HyphenateRun(x[1..], run, y);
    }
  }

  lemma HyphenateCons(c: char, rest: string)
    requires !IsSpace(c)
    ensures Hyphenate([c] + rest) == [c] + Hyphenate(rest)
  {
    assert ([c] + rest)[1..] == rest;
  }

  lemma HyphenateRunStart(run: string, y: string)
    requires |run| > 0 && forall i :: 0 <= i < |run| ==> IsSpace(run[i])
    requires y == [] || !IsSpace(y[0])
    ensures Hyphenate(run + y) == "-" + Hyphenate(y)
  {
    var s, rest := run + y, run[1..];
    assert s[0] == run[0];
    assert s[1..] == rest + y;
    assert forall i :: 0 <= i < |rest| ==> IsSpace(rest[i]) by {
      forall i | 0 <= i < |rest| ensures IsSpace(rest[i]) {
        assert rest[i] == run[i + 1];
      }
    }
    DropRun(rest, y);
    assert Hyphenate(s) == "-" + Hyphenate(DropSpaces(s[1..]));
  }

  lemma {:induction false} DropRun(run: string, y: string)
    requires forall i :: 0 <= i < |run| ==> IsSpace(run[i])
    requires y == [] || !IsSpace(y[0])
    ensures DropSpaces(run + y) == y
    decreases |run|
  {
    if run != [] {
      assert (run + y)[1..] == run[1..] + y;
      DropRun(run[1..], y);
    }
  }

  lemma NormalizeKeyNoSpace(s: string)
    ensures NoSpace(NormalizeKey(s))
  {
    HyphenateNoSpace(Lower(s));
  }

  lemma {:induction false} HyphenateLower(s: string)
    requires Lower(s) == s
    ensures Lower(Hyphenate(s)) == Hyphenate(s)
    decreases |s|
  {
    if s == [] {
    } else if IsSpace(s[0]) {
      var d := DropSpaces(s[1..]);
      assert Lower(d) == d by {
        forall i | 0 <= i < |d| ensures LowerChar(d[i]) == d[i] {
          assert d[i] == s[1..][|s[1..]| - |d| + i];
          assert LowerChar(s[|s| - |d| + i]) == s[|s| - |d| + i];
        }
      }
      HyphenateLower(d);
    } else {
      assert Lower(s[1..]) == s[1..] by {
        forall i | 0 <= i < |s| - 1 ensures LowerChar(s[1..][i]) == s[1..][i] {
          assert LowerChar(s[i + 1]) == s[i + 1];
        }
      }
      HyphenateLower(s[1..]);
      assert Lower([s[0]] + Hyphenate(s[1..]))
          == [LowerChar(s[0])] + Lower(Hyphenate(s[1..]));
    }
  }

  /** Normalising a key twice changes nothing. */
  lemma NormalizeKeyIdempotent(s: string)
    ensures NormalizeKey(NormalizeKey(s)) == NormalizeKey(s)
  {
    var k := NormalizeKey(s);
    LowerIdempotent(s);
    HyphenateLower(Lower(s));
    HyphenateNoSpace(Lower(s));
    HyphenateIdentity(k);
  }

  // ---------------------------------------------------------------------------
  // split and join
  // ---------------------------------------------------------------------------

  /** `s.split(c)` for a one-character separator. */
  function Split(s: string, c: char): (parts: seq<string>)
    ensures |parts| >= 1
    decreases |s|
  {
    if s == [] then [[]]
    else
      var rest := Split(s[1..], c);
      if s[0] == c then [[]] + rest else [[s[0]] + rest[0]] + rest[1..]
  }

  /** `parts.join(sep)`. */
  function Join(parts: seq<string>, sep: string): string
    decreases |parts|
  {
    if |parts| == 0 then []
    else if |parts| == 1 then parts[0]
    else parts[0] + sep + Join(parts[1..], sep)
  }

  /** No field of a split contains the separator, and joining the fields
      with the separator gives the text back. */
  lemma {:induction false} SplitJoin(s: string, c: char)
    ensures forall k :: 0 <= k < |Split(s, c)| ==> c !in Split(s, c)[k]
    ensures Join(Split(s, c), [c]) == s
    decreases |s|
  {
    if s != [] {
      var rest := Split(s[1..], c);
      SplitJoin(s[1..], c);
      if s[0] == c {
        assert Split(s, c) == [[]] + rest;
        assert Join([[]] + rest, [c]) == [] + [c] + Join(rest, [c]);
      } else {
        var parts := Split(s, c);
        assert parts == [[s[0]] + rest[0]] + rest[1..];
        if |rest| == 1 {
          assert Join(parts, [c]) == [s[0]] + rest[0];
        } else {
          assert Join(parts, [c]) == [s[0]] + rest[0] + [c] + Join(rest[1..], [c]);
          assert Join(rest, [c]) == rest[0] + [c] + Join(rest[1..], [c]);
        }
        forall k | 0 <= k < |parts| ensures c !in parts[k] {
          if k == 0 {
            assert parts[0] == [s[0]] + rest[0];
          } else {
            assert parts[k] == rest[k];
          }
        }
      }
    }
  }

  /** Joining separator-free fields and splitting again gives the fields
      back: the other half of the round trip in `SplitJoin`. */
  lemma {:induction false} JoinSplit(parts: seq<string>, c: char)
    requires |parts| >= 1
    requires forall k :: 0 <= k < |parts| ==> c !in parts[k]
    ensures Split(Join(parts, [c]), c) == parts
    decreases |parts|
  {
    if |parts| == 1 {
      SplitNoSeparator(parts[0], c);
    } else {
      var rest := parts[1..];
      assert forall k :: 0 <= k < |rest| ==> c !in rest[k] by {
        forall k | 0 <= k < |rest| ensures c !in rest[k] { assert rest[k] == parts[k + 1]; }
      }
      JoinSplit(rest, c);
      assert Join(parts, [c]) == parts[0] + [c] + Join(rest, [c]);
      SplitAfterWord(parts[0], c, Join(rest, [c]));
      assert [parts[0]] + rest == parts;
    }
  }

  /** The fields after a first word that holds no separator. */
  lemma {:induction false} SplitAfterWord(x: string, c: char, y: string)
    requires c !in x
    ensures Split(x + [c] + y, c) == [x] + Split(y, c)
    decreases |x|
  {
    if x == [] {
      assert (x + [c] + y)[1..] == y;
    } else {
      assert (x + [c] + y)[1..] == x[1..] + [c] + y;
      SplitAfterWord(x[1..], c, y);
      assert [x[0]] + x[1..] == x;
    }
  }

  /** A text without the separator is a single field. */
  lemma {:induction false} SplitNoSeparator(x: string, c: char)
    requires c !in x
    ensures Split(x, c) == [x]
    decreases |x|
  {
    if x != [] {
      SplitNoSeparator(x[1..], c);
      assert [x[0]] + x[1..] == x;
    }
  }

  /** A separator-free word followed by nothing or by a separator is the
      first field. */
  lemma FirstFieldOfWord(x: string, c: char, rest: string)
    requires c !in x
    requires rest == [] || rest[0] == c
    ensures Split(x + rest, c)[0] == x
  {
    if rest == [] {
      assert x + rest == x;
      SplitNoSeparator(x, c);
    } else {
      assert x + rest == x + [c] + rest[1..];
      SplitAfterWord(x, c, rest[1..]);
    }
  }

  /** The first field of a split is the longest prefix free of the separator. */
  lemma FirstFieldIsPrefix(s: string, c: char)
    ensures c !in Split(s, c)[0]
    ensures |Split(s, c)[0]| <= |s| && s[..|Split(s, c)[0]|] == Split(s, c)[0]
    ensures |Split(s, c)[0]| == |s| || s[|Split(s, c)[0]|] == c
  {
    SplitJoin(s, c);
    var parts := Split(s, c);
    if |parts| > 1 {
      assert s == parts[0] + [c] + Join(parts[1..], [c]);
      assert s[|parts[0]|] == c;
    }
  }

  // ---------------------------------------------------------------------------
  // Numbers in template strings
  // ---------------------------------------------------------------------------

  function Digit(d: nat): char
    requires d < 10
  {
    ('0' as int + d) as char
  }

  /** Decimal rendering of a natural number, as `${n}` gives it. */
  function NatToString(n: nat): string
    decreases n
  {
    if n < 10 then [Digit(n)] else NatToString(n / 10) + [Digit(n % 10)]
  }

  /** Decimal rendering of an integer, with a leading "-" when negative. */
  function IntToString(n: int): string {
    if n < 0 then "-" + NatToString(-n) else NatToString(n)
  }

  lemma NegatedIsNotNatural(a: nat, b: nat)
    ensures "-" + NatToString(a) != NatToString(b)
  {
    NatToStringDigits(b);
    assert !IsDigitChar(("-" + NatToString(a))[0]);
  }

  /** Different integers render differently: a "-" never starts the
      rendering of a natural number. */
  lemma IntToStringInjective(n: int, m: int)
    requires IntToString(n) == IntToString(m)
    ensures n == m
  {
    if n < 0 && m < 0 {
      assert NatToString(-n) == IntToString(n)[1..];
      assert NatToString(-m) == IntToString(m)[1..];
      NatToStringInjective(-n, -m);
    } else if n < 0 {
      NegatedIsNotNatural(-n, m);
    } else if m < 0 {
      NegatedIsNotNatural(-m, n);
    } else {
      NatToStringInjective(n, m);
    }
  }

  /** `Math.round`: the nearest integer, halves rounded up. */
  function Round(x: real): int {
    (x + 0.5).Floor
  }

  lemma RoundInt(n: int)
    ensures Round(n as real) == n
  {
  }

  /** Rounding never reverses an order. */
  lemma RoundMonotone(x: real, y: real)
    requires x <= y
    ensures Round(x) <= Round(y)
  {
  }

  /** A decimal digit. */
  predicate IsDigitChar(c: char) { '0' <= c <= '9' }

  lemma {:induction false} NatToStringDigits(n: nat)
    ensures |NatToString(n)| > 0
    ensures forall i :: 0 <= i < |NatToString(n)| ==> IsDigitChar(NatToString(n)[i])
    decreases n
  {
    if n >= 10 {
      NatToStringDigits(n / 10);
    }
  }

  lemma {:induction false} NatToStringInjective(n: nat, m: nat)
    requires NatToString(n) == NatToString(m)
    ensures n == m
    decreases n
  {
    if n >= 10 && m >= 10 {
      var a, b := NatToString(n / 10), NatToString(m / 10);
      assert NatToString(n) == a + [Digit(n % 10)] && NatToString(m) == b + [Digit(m % 10)];
      assert a == NatToString(n)[..|NatToString(n)| - 1];
      assert b == NatToString(m)[..|NatToString(m)| - 1];
      NatToStringInjective(n / 10, m / 10);
    } else if n >= 10 {
      NatToStringDigits(n / 10);
    } else if m >= 10 {
      NatToStringDigits(m / 10);
    }
  }

  lemma SeparatedParts(a: string, d: string)
    ensures (a + "_" + d)[|a|] == '_'
    ensures forall i :: 0 <= i < |d| ==> (a + "_" + d)[|a| + 1 + i] == d[i]
  {
  }

  /** A text followed by "_" and a decimal number determines both: the
      number holds no "_", so the last "_" is the separator. */
  lemma NumberSuffixInjective(a1: string, n1: nat, a2: string, n2: nat)
    requires a1 + "_" + NatToString(n1) == a2 + "_" + NatToString(n2)
    ensures a1 == a2 && n1 == n2
  {
    var s := a1 + "_" + NatToString(n1);
    var d1, d2 := NatToString(n1), NatToString(n2);
    NatToStringDigits(n1);
    NatToStringDigits(n2);
    SeparatedParts(a1, d1);
    SeparatedParts(a2, d2);
    if |d1| == |d2| {
      assert a1 == s[..|a1|] == a2;
      assert d1 == s[|a1| + 1..] == d2;
      NatToStringInjective(n1, n2);
    }
  }

  /** A sequence holding three distinct values has at least three elements. */
  lemma AtLeastThree<T>(s: seq<T>, x: T, y: T, z: T)
    requires x in s && y in s && z in s
    requires x != y && y != z && x != z
    ensures |s| >= 3
  {
    var i :| 0 <= i < |s| && s[i] == x;
    var j :| 0 <= j < |s| && s[j] == y;
    var k :| 0 <= k < |s| && s[k] == z;
  }

  /** `a` is `b` with some elements left out, order kept. */
  predicate IsSubsequence<T(==)>(a: seq<T>, b: seq<T>)
    decreases |b|
  {
    || a == []
    || (b != [] && ((a[0] == b[0] && IsSubsequence(a[1..], b[1..])) || IsSubsequence(a, b[1..])))
  }
}
