/** String operations the site's JavaScript uses, written out over `seq<char>`.
    Case folding is ASCII-only, which is exact for the case-insensitive regular
    expressions of the video normaliser (without the `u` flag JavaScript never
    folds a non-ASCII character onto an ASCII one) and a stand-in for
    `toLowerCase` elsewhere. */
module Text {

  predicate StartsWith(s: string, prefix: string) {
    prefix <= s
  }

  predicate EndsWith(s: string, suffix: string) {
    |suffix| <= |s| && s[|s| - |suffix|..] == suffix
  }

  /** `s.split('/').pop()`: everything after the last `/`, or `s` itself. */
  function LastSegment(s: string): (r: string)
    ensures |r| <= |s|
  {
    if s == [] then []
    else if s[|s| - 1] == '/' then []
    else LastSegment(s[..|s| - 1]) + [s[|s| - 1]]
  }

  /** The last segment holds no `/`, ends `s`, and is either all of `s` or
      follows a `/`. */
  lemma LastSegmentShape(s: string)
    ensures '/' !in LastSegment(s)
    ensures EndsWith(s, LastSegment(s))
    ensures LastSegment(s) == s || s[|s| - |LastSegment(s)| - 1] == '/'
  {
    LastSegmentNoSlash(s);
    LastSegmentSuffix(s);
    LastSegmentFollowsSlash(s);
  }

  lemma {:induction false} LastSegmentNoSlash(s: string)
    ensures '/' !in LastSegment(s)
  {
    if s != [] && s[|s| - 1] != '/' {
      LastSegmentNoSlash(s[..|s| - 1]);
    }
  }

  lemma {:induction false} LastSegmentSuffix(s: string)
    ensures EndsWith(s, LastSegment(s))
  {
    if s != [] && s[|s| - 1] != '/' {
      var init := s[..|s| - 1];
      LastSegmentSuffix(init);
      var k := |init| - |LastSegment(init)|;
      assert s[k..] == init[k..] + [s[|s| - 1]];
    }
  }

  lemma {:induction false} LastSegmentFollowsSlash(s: string)
    ensures LastSegment(s) == s || (|LastSegment(s)| < |s| && s[|s| - |LastSegment(s)| - 1] == '/')
  {
    if s != [] && s[|s| - 1] != '/' {
      var init := s[..|s| - 1];
      LastSegmentFollowsSlash(init);
      if LastSegment(init) == init {
        assert s == init + [s[|s| - 1]];
      } else {
        var k := |init| - |LastSegment(init)|;
        assert s[k - 1] == init[k - 1];
      }
    }
  }

  /** `s.replace(/\/+$/, '')` and the first step of `path.basename`. */
  function DropTrailingSlashes(s: string): (r: string)
    ensures r <= s
    ensures forall i | |r| <= i < |s| :: s[i] == '/'
    ensures r == [] || r[|r| - 1] != '/'
  {
    if s != [] && s[|s| - 1] == '/' then DropTrailingSlashes(s[..|s| - 1]) else s
  }

  /** Node's `path.basename` for a POSIX path: the last segment once trailing
      slashes are gone. */
  function Basename(path: string): string {
    LastSegment(DropTrailingSlashes(path))
  }

  function LowerChar(c: char): char {
    if 'A' <= c <= 'Z' then (c as int + 32) as char else c
  }

  function Lower(s: string): (r: string)
    ensures |r| == |s|
  {
    seq(|s|, i requires 0 <= i < |s| => LowerChar(s[i]))
  }

  /** The characters JavaScript's `trim` removes: WhiteSpace (including every
      Unicode space separator) and LineTerminator. */
  predicate IsWhitespace(c: char) {
    || c == ' ' || c == '\t' || c == '\n' || c == '\U{000B}' || c == '\U{000C}' || c == '\r'
    || c == '\U{00A0}' || c == '\U{1680}' || ('\U{2000}' <= c <= '\U{200A}')
    || c == '\U{2028}' || c == '\U{2029}' || c == '\U{202F}' || c == '\U{205F}'
    || c == '\U{3000}' || c == '\U{FEFF}'
  }

  /** The first index at or after `from` that does not hold whitespace. */
  function SkipWhitespace(s: string, from: nat): (r: nat)
    requires from <= |s|
    ensures from <= r <= |s|
    ensures forall i | from <= i < r :: IsWhitespace(s[i])
    ensures r < |s| ==> !IsWhitespace(s[r])
    decreases |s| - from
  {
    if from < |s| && IsWhitespace(s[from]) then SkipWhitespace(s, from + 1) else from
  }

  /** The end of `s[..upTo]` once its trailing whitespace is dropped. */
  function SkipWhitespaceBack(s: string, upTo: nat): (r: nat)
    requires upTo <= |s|
    ensures r <= upTo
    ensures forall i | r <= i < upTo :: IsWhitespace(s[i])
    ensures r > 0 ==> !IsWhitespace(s[r - 1])
    decreases upTo
  {
    if upTo > 0 && IsWhitespace(s[upTo - 1]) then SkipWhitespaceBack(s, upTo - 1) else upTo
  }

  function TrimStart(s: string): (r: string)
    ensures EndsWith(s, r)
    ensures forall i | 0 <= i < |s| - |r| :: IsWhitespace(s[i])
    ensures r == [] || !IsWhitespace(r[0])
  {
    s[SkipWhitespace(s, 0)..]
  }

  function TrimEnd(s: string): (r: string)
    ensures r <= s
    ensures forall i | |r| <= i < |s| :: IsWhitespace(s[i])
    ensures r == [] || !IsWhitespace(r[|r| - 1])
  {
    s[..SkipWhitespaceBack(s, |s|)]
  }

  /** `String.prototype.trim`. */
  function Trim(s: string): (r: string)
    ensures r == [] || (!IsWhitespace(r[0]) && !IsWhitespace(r[|r| - 1]))
  {
    TrimEnd(TrimStart(s))
  }

  /** The trimmed string is empty exactly when every character is whitespace. */
  lemma TrimEmptyIffBlank(s: string)
    ensures Trim(s) == [] <==> forall i | 0 <= i < |s| :: IsWhitespace(s[i])
  {
    var t := TrimStart(s);
    if Trim(s) == [] {
      assert t == [];
    }
  }

  /** A string with no whitespace at either end is its own trim. */
  lemma TrimUnchanged(s: string)
    requires s == [] || (!IsWhitespace(s[0]) && !IsWhitespace(s[|s| - 1]))
    ensures Trim(s) == s
  {
  }

  /** The longest prefix of `s` whose characters all satisfy `p`. */
  function TakeWhile(s: string, p: char -> bool): (r: string)
    ensures r <= s
    ensures forall i | 0 <= i < |r| :: p(r[i])
    ensures |r| < |s| ==> !p(s[|r|])
  {
    if s != [] && p(s[0]) then [s[0]] + TakeWhile(s[1..], p) else []
  }

  /** TakeWhile stops exactly at the first character that fails `p`. */
  lemma {:induction false} TakeWhileOfAppend(a: string, b: string, p: char -> bool)
    requires forall i | 0 <= i < |a| :: p(a[i])
    requires b == [] || !p(b[0])
    ensures TakeWhile(a + b, p) == a
  {
    if a != [] {
      assert (a + b)[1..] == a[1..] + b;
      TakeWhileOfAppend(a[1..], b, p);
    }
  }

  function DigitChar(d: nat): char
    requires d < 10
  {
    ('0' as int + d) as char
  }

  /** Decimal rendering of a natural number, as JavaScript prints it. */
  function NatToString(n: nat): (r: string)
    ensures |r| >= 1
    ensures forall i | 0 <= i < |r| :: '0' <= r[i] <= '9'
    decreases n
  {
    if n < 10 then [DigitChar(n)] else NatToString(n / 10) + [DigitChar(n % 10)]
  }

  lemma NatToStringLong(n: nat)
    requires n >= 10
    ensures |NatToString(n)| >= 2
  {
  }

  /** Distinct numbers print differently. */
  lemma {:induction false} NatToStringInjective(a: nat, b: nat)
    requires NatToString(a) == NatToString(b)
    ensures a == b
    decreases a
  {
    if a < 10 && b < 10 {
      assert NatToString(a)[0] == NatToString(b)[0];
    } else if a < 10 {
      NatToStringLong(b);
    } else if b < 10 {
      NatToStringLong(a);
    } else {
      var sa, sb := NatToString(a), NatToString(b);
      assert sa[|sa| - 1] == sb[|sb| - 1];
      assert DigitChar(a % 10) == DigitChar(b % 10);
      assert sa[..|sa| - 1] == NatToString(a / 10);
      assert sb[..|sb| - 1] == NatToString(b / 10);
      NatToStringInjective(a / 10, b / 10);
    }
  }

  function IntToString(i: int): (r: string)
    ensures r != []
  {
    if i < 0 then "-" + NatToString(-i) else NatToString(i)
  }

  /** `parts.join(sep)`. */
  function Join(parts: seq<string>, sep: string): string
  {
    if parts == [] then ""
    else if |parts| == 1 then parts[0]
    else parts[0] + sep + Join(parts[1..], sep)
  }

  /** The position of the first `c` in `s`, or `|s|` when there is none. */
  function IndexOf(s: string, c: char): (i: nat)
    ensures i <= |s|
    ensures forall j | 0 <= j < i :: s[j] != c
    ensures i < |s| ==> s[i] == c
  {
    if s == [] then 0 else if s[0] == c then 0 else 1 + IndexOf(s[1..], c)
  }

  /** `s.split(c)` for a one-character separator. */
  function Split(s: string, c: char): (r: seq<string>)
    ensures |r| >= 1
    decreases |s|
  {
    var i := IndexOf(s, c);
    if i == |s| then [s] else [s[..i]] + Split(s[i + 1..], c)
  }

  lemma SplitNoSeparator(a: string, c: char)
    requires c !in a
    ensures Split(a, c) == [a]
  {
    assert IndexOf(a, c) == |a|;
  }

  lemma SplitAtFirst(a: string, b: string, c: char)
    requires c !in a
    ensures Split(a + [c] + b, c) == [a] + Split(b, c)
  {
    var s := a + [c] + b;
    assert s[|a|] == c;
    assert IndexOf(s, c) == |a|;
    assert s[..|a|] == a;
    assert s[|a| + 1..] == b;
  }

  /** The parts of a joined list as a split on the separator's first
      character sees them: the first behind `p`, the others behind `t`. */
  function Prefixed(p: string, parts: seq<string>, t: string): (r: seq<string>)
    requires |parts| >= 1
    ensures |r| == |parts| && r[0] == p + parts[0]
    ensures forall i | 1 <= i < |parts| :: r[i] == t + parts[i]
  {
    [p + parts[0]] + seq(|parts| - 1, i requires 0 <= i < |parts| - 1 => t + parts[i + 1])
  }

  lemma PrefixedStep(p: string, parts: seq<string>, t: string)
    requires |parts| >= 2
    ensures Prefixed(p, parts, t) == [p + parts[0]] + Prefixed(t, parts[1..], t)
  {
  }

  /** Splitting a joined list on the first character of the separator gives
      the parts back, every part after the first carrying the rest of the
      separator in front (for `", "`, one leading space). */
  lemma {:induction false} SplitJoin(p: string, parts: seq<string>, c: char, t: string)
    requires |parts| >= 1 && c !in p && c !in t
    requires forall i | 0 <= i < |parts| :: c !in parts[i]
    ensures Split(p + Join(parts, [c] + t), c) == Prefixed(p, parts, t)
    decreases |parts|
  {
    if |parts| == 1 {
      SplitNoSeparator(p + parts[0], c);
    } else {
      SplitJoinStep(p, parts, c, t);
      SplitJoin(t, parts[1..], c, t);
      PrefixedStep(p, parts, t);
    }
  }

  lemma SplitJoinStep(p: string, parts: seq<string>, c: char, t: string)
    requires |parts| >= 2 && c !in p && c !in parts[0]
    ensures Split(p + Join(parts, [c] + t), c) == [p + parts[0]] + Split(t + Join(parts[1..], [c] + t), c)
  {
    var tail := Join(parts[1..], [c] + t);
    assert p + Join(parts, [c] + t) == (p + parts[0]) + [c] + (t + tail);
    SplitAtFirst(p + parts[0], t + tail, c);
  }

  /** Lexicographic order on code units, the stand-in for `localeCompare`. */
  predicate LexLe(a: string, b: string)
    decreases |a|
  {
    if a == [] then true
    else if b == [] then false
    else if a[0] != b[0] then a[0] < b[0]
    else LexLe(a[1..], b[1..])
  }

  lemma {:induction false} LexLeTotal(a: string, b: string)
    ensures LexLe(a, b) || LexLe(b, a)
    decreases |a|
  {
    if a != [] && b != [] && a[0] == b[0] {
      LexLeTotal(a[1..], b[1..]);
    }
  }

  lemma {:induction false} LexLeTransitive(a: string, b: string, c: string)
    requires LexLe(a, b) && LexLe(b, c)
    ensures LexLe(a, c)
    decreases |a|
  {
    if a != [] && b != [] && c != [] && a[0] == b[0] && b[0] == c[0] {
      LexLeTransitive(a[1..], b[1..], c[1..]);
    }
  }
}
