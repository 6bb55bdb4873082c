/**
 * String operations shared by the back end, the Python helpers and the front end:
 * the lexicographic order that SQL `BETWEEN` and `ORDER BY` use on text columns,
 * whitespace trimming (Python `str.strip`, JavaScript `String.prototype.trim`),
 * splitting and joining, and decimal rendering of numbers.
 */
module Text {
  import opened Wrappers

  // ---------------------------------------------------------------------------
  // Lexicographic order
  // ---------------------------------------------------------------------------

  /** `a` sorts at or before `b`: character by character, a proper prefix first. */
  predicate LexLe(a: string, b: string)
    decreases |a|
  {
    if a == [] then true
    else if b == [] then false
    else if a[0] != b[0] then a[0] < b[0]
    else LexLe(a[1..], b[1..])
  }

  lemma {:induction false} LexLeRefl(a: string)
    ensures LexLe(a, a)
    decreases |a|
  {
    if a != [] { LexLeRefl(a[1..]); }
  }

  lemma {:induction false} LexLeTotal(a: string, b: string)
    ensures LexLe(a, b) || LexLe(b, a)
    decreases |a|
  {
    if a != [] && b != [] && a[0] == b[0] { LexLeTotal(a[1..], b[1..]); }
  }

  lemma {:induction false} LexLeTrans(a: string, b: string, c: string)
    requires LexLe(a, b) && LexLe(b, c)
    ensures LexLe(a, c)
    decreases |a|
  {
    if a != [] && b != [] && c != [] && a[0] == b[0] && b[0] == c[0] {
      LexLeTrans(a[1..], b[1..], c[1..]);
    }
  }

  lemma {:induction false} LexLeAntisym(a: string, b: string)
    requires LexLe(a, b) && LexLe(b, a)
    ensures a == b
    decreases |a|
  {
    if a != [] && b != [] {
      LexLeAntisym(a[1..], b[1..]);
      assert a == [a[0]] + a[1..] && b == [b[0]] + b[1..];
    }
  }

  /**
   * Comparing two strings that start with equal-length heads: the heads decide,
   * unless they are equal, in which case the tails decide.
   */
  lemma {:induction false} LexLeConcat(p: string, q: string, a: string, b: string)
    requires |p| == |q|
    ensures LexLe(p + a, q + b) <==> (p != q && LexLe(p, q)) || (p == q && LexLe(a, b))
    decreases |p|
  {
    if p != [] {
      assert (p + a)[0] == p[0] && (q + b)[0] == q[0];
      assert (p + a)[1..] == p[1..] + a && (q + b)[1..] == q[1..] + b;
      LexLeConcat(p[1..], q[1..], a, b);
      assert p == [p[0]] + p[1..] && q == [q[0]] + q[1..];
    } else {
      assert p + a == a && q + b == b;
    }
  }

  // ---------------------------------------------------------------------------
  // Prefixes, substrings, single-character removal
  // ---------------------------------------------------------------------------

  predicate StartsWith(s: string, prefix: string) {
    |prefix| <= |s| && s[..|prefix|] == prefix
  }

  /** Python's `t in s` for two strings. */
  predicate IsSubstring(t: string, s: string) {
    exists i :: 0 <= i <= |s| - |t| && OccursAt(t, s, i)
  }

  predicate OccursAt(t: string, s: string, i: int)
    requires 0 <= i <= |s| - |t|
  {
    s[i..i + |t|] == t
  }

  /** A substring stays a substring inside any surrounding text. */
  lemma SubstringInContext(t: string, s: string, p: string, q: string)
    requires IsSubstring(t, s)
    ensures IsSubstring(t, p + s + q)
  {
    var i :| 0 <= i <= |s| - |t| && OccursAt(t, s, i);
    var w := p + s + q;
    assert w[|p| + i..|p| + i + |t|] == s[i..i + |t|];
    assert OccursAt(t, w, |p| + i);
  }

  /** Java's `s.replace(":", "")` for a one-character target: every `c` removed. */
  function RemoveChar(s: string, c: char): string {
    if s == [] then []
    else if s[0] == c then RemoveChar(s[1..], c)
    else [s[0]] + RemoveChar(s[1..], c)
  }

  /** No `c` is left, nothing is added, and a string without `c` comes back unchanged. */
  lemma {:induction false} RemoveCharDrops(s: string, c: char)
    ensures var r := RemoveChar(s, c);
            && c !in r && |r| <= |s| && (c !in s ==> r == s)
  {
    if s != [] {
      RemoveCharDrops(s[1..], c);
      assert c !in s ==> c !in s[1..] && s == [s[0]] + s[1..];
    }
  }

  lemma {:induction false} RemoveCharConcat(a: string, b: string, c: char)
    ensures RemoveChar(a + b, c) == RemoveChar(a, c) + RemoveChar(b, c)
    decreases |a|
  {
    if a == [] {
      assert a + b == b;
    } else {
      assert (a + b)[0] == a[0] && (a + b)[1..] == a[1..] + b;
      RemoveCharConcat(a[1..], b, c);
    }
  }

  // ---------------------------------------------------------------------------
  // Splitting and joining
  // ---------------------------------------------------------------------------

  /** Python's `s.split(c)` for a one-character separator (`"".split(c) == [""]`). */
  function Split(s: string, c: char): (r: seq<string>)
    ensures |r| >= 1
    decreases |s|
  {
    if s == [] then [""]
    else
      var rest := Split(s[1..], c);
      if s[0] == c then [""] + rest
      else [[s[0]] + rest[0]] + rest[1..]
  }

  /** Python's `sep.join(parts)`. */
  function Join(parts: seq<string>, sep: string): string {
    if |parts| == 0 then ""
    else if |parts| == 1 then parts[0]
    else parts[0] + sep + Join(parts[1..], sep)
  }

  lemma JoinConsHead(x: string, y: string, t: seq<string>, sep: string)
    ensures Join([x + y] + t, sep) == x + Join([y] + t, sep)
  {
    var l1, l2 := [x + y] + t, [y] + t;
    assert l1[1..] == t && l2[1..] == t;
  }

  /** Every part occurs in the joined string. */
  lemma {:induction false} JoinContains(parts: seq<string>, sep: string, i: int)
    requires 0 <= i < |parts|
    ensures IsSubstring(parts[i], Join(parts, sep))
    decreases |parts|
  {
    var j := Join(parts, sep);
    if |parts| == 1 || i == 0 {
      assert j[..|parts[0]|] == parts[0];
      assert OccursAt(parts[0], j, 0);
    } else {
      JoinContains(parts[1..], sep, i - 1);
      SubstringInContext(parts[i], Join(parts[1..], sep), parts[0] + sep, "");
      assert parts[0] + sep + Join(parts[1..], sep) + "" == j;
    }
  }

  /** No piece of a split contains the separator. */
  lemma {:induction false} SplitPiecesFree(s: string, c: char)
    ensures forall i :: 0 <= i < |Split(s, c)| ==> c !in Split(s, c)[i]
    decreases |s|
  {
    if s != [] {
      SplitPiecesFree(s[1..], c);
    }
  }

  /** Joining the pieces of a split with the separator gives the string back. */
  lemma {:induction false} JoinSplit(s: string, c: char)
    ensures Join(Split(s, c), [c]) == s
    decreases |s|
  {
    if s != [] {
      var rest := Split(s[1..], c);
      JoinSplit(s[1..], c);
      if s[0] == c {
        var l := [""] + rest;
        assert l[1..] == rest;
      } else {
        JoinConsHead([s[0]], rest[0], rest[1..], [c]);
        assert [rest[0]] + rest[1..] == rest;
      }
    }
  }

  /** A string without the separator splits into itself alone. */
  lemma {:induction false} SplitWhole(s: string, c: char)
    requires c !in s
    ensures Split(s, c) == [s]
    decreases |s|
  {
    if s != [] {
      SplitWhole(s[1..], c);
      assert [s[0]] + s[1..] == s;
    }
  }

  /** The text before the first separator is the first piece. */
  lemma {:induction false} SplitAfterFirst(a: string, b: string, c: char)
    requires c !in a
    ensures Split(a + [c] + b, c) == [a] + Split(b, c)
    decreases |a|
  {
    if a == [] {
      assert a + [c] + b == [c] + b;
      assert ([c] + b)[1..] == b;
    } else {
      var t := a + [c] + b;
      assert t[0] == a[0] && t[1..] == a[1..] + [c] + b;
      SplitAfterFirst(a[1..], b, c);
      assert [a[0]] + a[1..] == a;
    }
  }

  /** The text after the last separator is the last piece. */
  lemma {:induction false} SplitBeforeLast(a: string, d: string, c: char)
    requires c !in d
    ensures Split(a + [c] + d, c) == Split(a, c) + [d]
    decreases |a|
  {
    if a == [] {
      assert a + [c] + d == [c] + d;
      assert ([c] + d)[1..] == d;
      SplitWhole(d, c);
    } else {
      var t := a + [c] + d;
      assert t[0] == a[0] && t[1..] == a[1..] + [c] + d;
      SplitBeforeLast(a[1..], d, c);
      var r := Split(a[1..], c);
      if a[0] != c {
        assert (r + [d])[0] == r[0] && (r + [d])[1..] == r[1..] + [d];
      }
    }
  }

  // ---------------------------------------------------------------------------
  // Whitespace trimming
  // ---------------------------------------------------------------------------

  /** Whose notion of whitespace a trim uses. */
  datatype Runtime = Python | JavaScript

  /**
   * Python's `str.isspace` (characters of category Zs or bidirectional class
   * WS, B or S) and JavaScript's WhiteSpace and LineTerminator productions.
   */
  predicate IsSpace(rt: Runtime, c: char) {
    || c == '\t' || c == '\n' || c == '\U{B}' || c == '\U{C}' || c == '\r'
    || c == ' ' || c == '\U{A0}' || c == '\U{1680}' || ('\U{2000}' <= c <= '\U{200A}')
    || c == '\U{2028}' || c == '\U{2029}' || c == '\U{202F}' || c == '\U{205F}' || c == '\U{3000}'
    || (rt == Python && (('\U{1C}' <= c <= '\U{1F}') || c == '\U{85}'))
    || (rt == JavaScript && c == '\U{FEFF}')
  }

  /** Every character of `s` is whitespace. */
  predicate AllSpace(rt: Runtime, s: string) {
    s == [] || (IsSpace(rt, s[0]) && AllSpace(rt, s[1..]))
  }

  /** `AllSpace` says of each character that it is whitespace. */
  lemma {:induction false} AllSpaceIff(rt: Runtime, s: string)
    ensures AllSpace(rt, s) <==> forall k :: 0 <= k < |s| ==> IsSpace(rt, s[k])
  {
    if s != [] {
      AllSpaceIff(rt, s[1..]);
      assert forall k :: 1 <= k < |s| ==> s[k] == s[1..][k - 1];
    }
  }

  /** A concatenation is all whitespace exactly when both parts are. */
  lemma {:induction false} AllSpaceConcat(rt: Runtime, a: string, b: string)
    ensures AllSpace(rt, a + b) <==> AllSpace(rt, a) && AllSpace(rt, b)
  {
    if a != [] {
      assert (a + b)[1..] == a[1..] + b;
      AllSpaceConcat(rt, a[1..], b);
    } else {
      assert a + b == b;
    }
  }

  function TrimStart(rt: Runtime, s: string): string {
    if s != [] && IsSpace(rt, s[0]) then TrimStart(rt, s[1..]) else s
  }

  /** `TrimStart` drops a run of whitespace from the front and stops at a non-whitespace character. */
  lemma {:induction false} TrimStartDrops(rt: Runtime, s: string)
    ensures var r := TrimStart(rt, s);
            && |r| <= |s| && r == s[|s| - |r|..]
            && (r != [] ==> !IsSpace(rt, r[0]))
            && AllSpace(rt, s[..|s| - |r|])
  {
    if s != [] && IsSpace(rt, s[0]) {
      TrimStartDrops(rt, s[1..]);
      var r := TrimStart(rt, s[1..]);
      assert AllSpace(rt, s[..|s| - |r|]) by {
        assert s[..|s| - |r|][1..] == s[1..][..|s| - 1 - |r|];
      }
    } else {
      assert s[..0] == [];
    }
  }

  function TrimEnd(rt: Runtime, s: string): string {
    if s != [] && IsSpace(rt, s[|s| - 1]) then TrimEnd(rt, s[..|s| - 1]) else s
  }

  /** `TrimEnd` keeps a prefix of `s` that does not end in whitespace. */
  lemma {:induction false} TrimEndPrefix(rt: Runtime, s: string)
    ensures var r := TrimEnd(rt, s);
            && |r| <= |s| && r == s[..|r|]
            && (r != [] ==> !IsSpace(rt, r[|r| - 1]))
  {
    if s != [] && IsSpace(rt, s[|s| - 1]) {
      TrimEndPrefix(rt, s[..|s| - 1]);
      var r := TrimEnd(rt, s[..|s| - 1]);
      assert s[..|s| - 1][..|r|] == s[..|r|];
    }
  }

  /** What `TrimEnd` drops from the back of `s` is all whitespace. */
  lemma {:induction false} TrimEndDrops(rt: Runtime, s: string)
    ensures |TrimEnd(rt, s)| <= |s| && AllSpace(rt, s[|TrimEnd(rt, s)|..])
  {
    if s != [] && IsSpace(rt, s[|s| - 1]) {
      TrimEndDrops(rt, s[..|s| - 1]);
      var r := TrimEnd(rt, s[..|s| - 1]);
      assert s[|r|..] == s[..|s| - 1][|r|..] + [s[|s| - 1]];
      AllSpaceConcat(rt, s[..|s| - 1][|r|..], [s[|s| - 1]]);
    } else {
      assert s[|s|..] == [];
    }
  }

  /** `s.strip()` in Python, `s.trim()` in JavaScript. */
  function Trim(rt: Runtime, s: string): string {
    TrimEnd(rt, TrimStart(rt, s))
  }

  /** `r` is `s[i..j]`, and everything before `i` and from `j` on is whitespace. */
  predicate TrimmedSlice(rt: Runtime, s: string, r: string, i: int, j: int) {
    && 0 <= i <= j <= |s| && r == s[i..j]
    && AllSpace(rt, s[..i]) && AllSpace(rt, s[j..])
  }

  /** A prefix of a suffix of `s` is a slice of `s`, followed by the rest of that suffix. */
  lemma PrefixOfSuffix(s: string, i: int, r: string)
    requires 0 <= i <= |s| && |r| <= |s| - i && r == s[i..][..|r|]
    ensures r == s[i..i + |r|] && s[i + |r|..] == s[i..][|r|..]
  {
  }

  /** Trimming cuts whitespace off both ends of `s`, at the positions the two passes leave. */
  lemma TrimSlice(rt: Runtime, s: string, i: int, r: string)
    requires i == |s| - |TrimStart(rt, s)| && r == Trim(rt, s)
    ensures TrimmedSlice(rt, s, r, i, i + |r|)
  {
    var t := TrimStart(rt, s);
    TrimStartDrops(rt, s);
    TrimEndPrefix(rt, t);
    TrimEndDrops(rt, t);
    assert r == TrimEnd(rt, t);
    PrefixOfSuffix(s, i, r);
    assert s[i + |r|..] == t[|r|..];
  }

  /**
   * What trimming promises: the result is a slice of the input with no
   * whitespace at either end, and everything cut off is whitespace.
   */
  lemma TrimIsCore(rt: Runtime, s: string)
    ensures var r := Trim(rt, s);
      && (exists i, j :: TrimmedSlice(rt, s, r, i, j))
      && (r != [] ==> !IsSpace(rt, r[0]) && !IsSpace(rt, r[|r| - 1]))
  {
    var t := TrimStart(rt, s);
    var r := Trim(rt, s);
    TrimSlice(rt, s, |s| - |t|, r);
    TrimStartDrops(rt, s);
    TrimEndPrefix(rt, t);
    if r != [] {
      assert r[0] == t[0];
    }
  }

  /** A string trims to nothing exactly when every character in it is whitespace. */
  lemma TrimEmptyIff(rt: Runtime, s: string)
    ensures Trim(rt, s) == [] <==> forall k :: 0 <= k < |s| ==> IsSpace(rt, s[k])
  {
    AllSpaceIff(rt, s);
    var t := TrimStart(rt, s);
    var i := |s| - |t|;
    TrimSlice(rt, s, i, Trim(rt, s));
    TrimStartDrops(rt, s);
    if Trim(rt, s) == [] {
      assert s == s[..i] + s[i..];
      AllSpaceConcat(rt, s[..i], s[i..]);
    } else if t != [] {
      assert t[0] == s[i];
    }
  }

  /** A string with no whitespace at either end is left as it is. */
  lemma TrimNoOp(rt: Runtime, s: string)
    requires s != [] ==> !IsSpace(rt, s[0]) && !IsSpace(rt, s[|s| - 1])
    ensures Trim(rt, s) == s
  {
  }

  /**
   * Truthiness of a string that may be missing (Python's None, JavaScript's
   * null or undefined): a missing or empty string is false, in both languages.
   */
  predicate Truthy(s: Option<string>) {
    s.Some? && s.value != ""
  }

  // ---------------------------------------------------------------------------
  // Decimal numbers
  // ---------------------------------------------------------------------------

  function DigitChar(d: int): (c: char)
    requires 0 <= d < 10
    ensures '0' <= c <= '9'
  {
    (48 + d) as char
  }

  predicate IsDigit(c: char) {
    '0' <= c <= '9'
  }

  /** The shortest decimal rendering of a natural number. */
  function Decimal(n: nat): (r: string)
    ensures |r| >= 1
  {
    if n < 10 then [DigitChar(n)] else Decimal(n / 10) + [DigitChar(n % 10)]
  }

  /** Java's `Long.toString` / JavaScript's integer rendering: a sign, then digits. */
  function SignedDecimal(n: int): (r: string) {
    if n < 0 then "-" + Decimal(-n) else Decimal(n)
  }

  /** Concatenation is associative (stated once, for the proofs that regroup sequences). */
  lemma ConcatAssoc<T>(a: seq<T>, b: seq<T>, c: seq<T>)
    ensures a + (b + c) == (a + b) + c
  {
  }
}
