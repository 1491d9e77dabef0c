/** Python string and slicing semantics used by the analysers: `str.strip`,
    `str.split`, `str.find`, `in`, `str.replace`, `str.isdigit`, `str.startswith`,
    `str.endswith`, string `<`, `int()` of a digit string, `str(n)` and the
    clamping rules of `s[a:b]`. Strings are sequences of Unicode code points,
    as Python's are. */
module PyStr {

  datatype Option<+T> = None | Some(value: T) {
    function GetOr(default: T): T {
      match this
      case Some(v) => v
      case None => default
    }

    /** The value as a list of at most one element. */
    function ToSeq(): (r: seq<T>)
      ensures |r| <= 1
    {
      match this
      case Some(v) => [v]
      case None => []
    }
  }

  // ---------------------------------------------------------------------------
  // Sequences

  /** No element occurs twice. */
  predicate Distinct<T(==)>(s: seq<T>) {
    forall i, j :: 0 <= i < j < |s| ==> s[i] != s[j]
  }

  /** Appending an item not yet listed keeps the items distinct. */
  lemma DistinctSnoc<T>(s: seq<T>, x: T)
    requires Distinct(s) && x !in s
    ensures Distinct(s + [x])
  {
    forall a, b | 0 <= a < b < |s + [x]| ensures (s + [x])[a] != (s + [x])[b] {
      assert (s + [x])[a] == s[a];
    }
  }

  /** A duplicate-free sequence has as many elements as its set. */
  lemma {:induction false} DistinctCard<T>(a: seq<T>)
    requires Distinct(a)
    ensures |set x | x in a| == |a|
  {
    if a != [] {
      var init, x := a[..|a| - 1], a[|a| - 1];
      DistinctCard(init);
      assert a == init + [x];
      assert (set y | y in a) == (set y | y in init) + {x};
      forall k | 0 <= k < |init| ensures init[k] != x {
        assert init[k] == a[k];
      }
    }
  }

  /** `xs.count(x)`: how many times `x` occurs. */
  function Occurrences<T(==)>(xs: seq<T>, x: T): (r: nat)
    ensures r > 0 <==> x in xs
    ensures r <= |xs|
  {
    if xs == [] then 0
    else
      var init := xs[..|xs| - 1];
      assert xs == init + [xs[|xs| - 1]];
      Occurrences(init, x) + (if xs[|xs| - 1] == x then 1 else 0)
  }

  lemma {:induction false} OccurrencesConcat<T>(xs: seq<T>, ys: seq<T>, x: T)
    ensures Occurrences(xs + ys, x) == Occurrences(xs, x) + Occurrences(ys, x)
    decreases |ys|
  {
    if ys == [] {
      assert xs + ys == xs;
    } else {
      var init := ys[..|ys| - 1];
      assert (xs + ys)[..|xs + ys| - 1] == xs + init;
      OccurrencesConcat(xs, init, x);
    }
  }

  /** Python's normalisation of one slice bound against a length `n`. */
  function SliceBound(n: nat, i: int): (r: nat)
    ensures r <= n
    ensures 0 <= i <= n ==> r == i
    ensures i > n ==> r == n
    ensures i < 0 ==> r == if n + i < 0 then 0 else n + i
  {
    if i < 0 then (if n + i < 0 then 0 else n + i) else if i > n then n else i
  }

  /** Python's `s[a:b]`. */
  function PySlice<T>(s: seq<T>, a: int, b: int): (r: seq<T>)
    ensures |r| <= |s|
    ensures SliceBound(|s|, a) < SliceBound(|s|, b) ==> r == s[SliceBound(|s|, a)..SliceBound(|s|, b)]
    ensures SliceBound(|s|, a) >= SliceBound(|s|, b) ==> r == []
  {
    var i := SliceBound(|s|, a);
    var j := SliceBound(|s|, b);
    if i < j then s[i..j] else []
  }

  function Min(x: int, y: int): int { if x <= y then x else y }
  function Max(x: int, y: int): int { if x <= y then y else x }

  /** `s[:n]` is a prefix of `s`, of length `n` when there are enough elements. */
  lemma SlicePrefix<T>(s: seq<T>, n: int)
    ensures PySlice(s, 0, n) == s[..|PySlice(s, 0, n)|]
    ensures n >= 0 ==> |PySlice(s, 0, n)| == Min(n, |s|)
  {
  }

  lemma PyTakeNat<T>(s: seq<T>, n: nat)
    ensures PySlice(s, 0, n) == if n <= |s| then s[..n] else s
  {
  }

  function Reverse<T>(s: seq<T>): (r: seq<T>)
    ensures |r| == |s|
    ensures forall i :: 0 <= i < |s| ==> r[i] == s[|s| - 1 - i]
  {
    if s == [] then [] else Reverse(s[1..]) + [s[0]]
  }

  // ---------------------------------------------------------------------------
  // Characters

  /** Python's `str.isspace()` for a single code point. */
  predicate IsSpace(c: char) {
    || c == ' '
    || ('\t' <= c <= '\r')
    || ('\U{1C}' <= c <= '\U{1F}')
    || c == '\U{85}' || c == '\U{A0}' || c == '\U{1680}'
    || ('\U{2000}' <= c <= '\U{200A}')
    || c == '\U{2028}' || c == '\U{2029}' || c == '\U{202F}' || c == '\U{205F}' || c == '\U{3000}'
  }

  predicate IsDigit(c: char) {
    '0' <= c <= '9'
  }

  /** Python's `s.isdigit()` restricted to ASCII digits: non-empty and all digits. */
  predicate IsDigits(s: string) {
    |s| > 0 && forall i :: 0 <= i < |s| ==> IsDigit(s[i])
  }

  // ---------------------------------------------------------------------------
  // strip

  function LStrip(s: string): (r: string)
    ensures |r| <= |s| && r == s[|s| - |r|..]
    ensures r == [] || !IsSpace(r[0])
    ensures forall i :: 0 <= i < |s| - |r| ==> IsSpace(s[i])
  {
    if |s| > 0 && IsSpace(s[0]) then LStrip(s[1..]) else s
  }

  function RStrip(s: string): (r: string)
    ensures |r| <= |s| && r == s[..|r|]
    ensures r == [] || !IsSpace(r[|r| - 1])
    ensures forall i :: |r| <= i < |s| ==> IsSpace(s[i])
  {
    if |s| > 0 && IsSpace(s[|s| - 1]) then RStrip(s[..|s| - 1]) else s
  }

  /** Python's `s.strip()`: the longest infix with no white space at either end. */
  function Strip(s: string): (r: string)
    ensures r == [] || (!IsSpace(r[0]) && !IsSpace(r[|r| - 1]))
  {
    RStrip(LStrip(s))
  }

  /** Neither end of `s` is white space (so `Strip(s) == s`). */
  predicate Stripped(s: string) {
    s == [] || (!IsSpace(s[0]) && !IsSpace(s[|s| - 1]))
  }

  lemma StripStripped(s: string)
    requires Stripped(s)
    ensures Strip(s) == s
  {
  }

  lemma StripIsStripped(s: string)
    ensures Stripped(Strip(s))
  {
  }

  /** Strip ignores white space added around a stripped string. */
  lemma {:induction false} StripPadded(pre: string, s: string, post: string)
    requires forall i :: 0 <= i < |pre| ==> IsSpace(pre[i])
    requires forall i :: 0 <= i < |post| ==> IsSpace(post[i])
    requires Stripped(s)
    ensures Strip(pre + s + post) == s
  {
    if s == [] {
      assert pre + s + post == pre + post;
      assert LStrip(pre + post) == [];
    } else {
      LStripPadded(pre, s + post);
      assert LStrip(pre + s + post) == s + post by {
        assert pre + s + post == pre + (s + post);
      }
      RStripPadded(s, post);
    }
  }

  lemma {:induction false} LStripPadded(pre: string, t: string)
    requires forall i :: 0 <= i < |pre| ==> IsSpace(pre[i])
    requires t == [] || !IsSpace(t[0])
    ensures LStrip(pre + t) == t
  {
    if pre != [] {
      assert (pre + t)[1..] == pre[1..] + t;
      LStripPadded(pre[1..], t);
    } else {
      assert pre + t == t;
    }
  }

  lemma {:induction false} RStripPadded(s: string, post: string)
    requires forall i :: 0 <= i < |post| ==> IsSpace(post[i])
    requires s == [] || !IsSpace(s[|s| - 1])
    ensures RStrip(s + post) == s
  {
    if post != [] {
      var p := post[..|post| - 1];
      assert (s + post)[..|s + post| - 1] == s + p;
      RStripPadded(s, p);
    } else {
      assert s + post == s;
    }
  }

  // ---------------------------------------------------------------------------
  // find, in, startswith, endswith

  predicate StartsWith(s: string, prefix: string) {
    |prefix| <= |s| && s[..|prefix|] == prefix
  }

  predicate EndsWith(s: string, suffix: string) {
    |suffix| <= |s| && s[|s| - |suffix|..] == suffix
  }

  /** `pat` occurs in `s` starting at index `i`. */
  predicate OccursAt(s: string, pat: string, i: int) {
    0 <= i && i + |pat| <= |s| && s[i..i + |pat|] == pat
  }

  function FindFrom(s: string, pat: string, from: nat): (r: int)
    requires from <= |s|
    ensures r == -1 || (from <= r && OccursAt(s, pat, r))
    ensures r == -1 ==> forall i :: from <= i ==> !OccursAt(s, pat, i)
    ensures r >= 0 ==> forall i :: from <= i < r ==> !OccursAt(s, pat, i)
    decreases |s| - from
  {
    if from + |pat| > |s| then -1
    else if s[from..from + |pat|] == pat then from
    else if from == |s| then -1
    else FindFrom(s, pat, from + 1)
  }

  /** Python's `s.find(pat)`: the first index where `pat` occurs, or -1. */
  function Find(s: string, pat: string): (r: int)
    ensures r == -1 || OccursAt(s, pat, r)
    ensures r == -1 <==> forall i :: !OccursAt(s, pat, i)
    ensures r >= 0 ==> forall i :: i < r ==> !OccursAt(s, pat, i)
  {
    FindFrom(s, pat, 0)
  }

  /** Python's `pat in s`. */
  predicate Contains(s: string, pat: string) {
    Find(s, pat) >= 0
  }

  lemma ContainsAt(s: string, pat: string, i: int)
    requires OccursAt(s, pat, i)
    ensures Contains(s, pat)
  {
  }

  /** A pattern longer than the string never occurs in it. */
  lemma ShortNoContains(s: string, pat: string)
    requires |s| < |pat|
    ensures !Contains(s, pat)
  {
  }

  /** A slice of a slice is a slice of the whole. */
  lemma SliceOfSlice<T>(s: seq<T>, a: nat, b: nat, c: nat, d: nat)
    requires a <= b <= |s| && c <= d <= b - a
    ensures s[a..b][c..d] == s[a + c..a + d]
  {
    var t := s[a..b];
    forall k | 0 <= k < d - c
      ensures t[c..d][k] == s[a + c..a + d][k]
    {
      assert t[c..d][k] == t[c + k] == s[a + c + k];
    }
  }

  /** Dropping the first part of a concatenation leaves the rest. */
  lemma DropPrefix<T>(a: seq<T>, b: seq<T>)
    ensures (a + b)[|a|..] == b
  {
  }

  /** Moving the brackets of a concatenation of five pieces. */
  lemma Regroup<T>(a: seq<T>, b: seq<T>, c: seq<T>, d: seq<T>, e: seq<T>)
    ensures a + (b + c + d + e) == (a + b) + c + (d + e)
  {
  }

  /** Python's `c * n` for a one-character string `c`. */
  function Repeat(c: char, n: nat): (r: string)
    ensures |r| == n && forall i :: 0 <= i < n ==> r[i] == c
  {
    if n == 0 then [] else Repeat(c, n - 1) + [c]
  }

  /** A string that lacks one of the characters of `pat` has no occurrence of it. */
  lemma MissingChar(s: string, pat: string, k: nat)
    requires k < |pat| && pat[k] !in s
    ensures !Contains(s, pat)
  {
    forall i | 0 <= i && i + |pat| <= |s|
      ensures !OccursAt(s, pat, i)
    {
      assert s[i..i + |pat|][k] == s[i + k];
    }
  }

  /** An occurrence of `pat` in `a + [x] + b` must lie inside `a` or inside `b`
      when `x` is not a character of `pat`. */
  lemma NoStraddle(a: string, x: char, b: string, pat: string)
    requires x !in pat
    requires !Contains(a, pat) && !Contains(b, pat)
    ensures !Contains(a + [x] + b, pat)
  {
    var s := a + [x] + b;
    forall j | 0 <= j && j + |pat| <= |s|
      ensures !OccursAt(s, pat, j)
    {
      if j + |pat| <= |a| {
        assert s[j..j + |pat|] == a[j..j + |pat|];
        assert !OccursAt(a, pat, j);
      } else if j > |a| {
        assert s[j..j + |pat|] == b[j - |a| - 1..j - |a| - 1 + |pat|];
        assert !OccursAt(b, pat, j - |a| - 1);
      } else {
        assert s[j..j + |pat|][|a| - j] == x;
      }
    }
  }

  /** The first occurrence of `sep` in `p + sep + rest` is right after `p` when `p`
      has no occurrence of its own and does not end with a character of `sep`. */
  lemma FindAfter(p: string, sep: string, rest: string)
    requires |sep| > 0 && !Contains(p, sep)
    requires p == [] || p[|p| - 1] !in sep
    ensures Find(p + sep + rest, sep) == |p|
  {
    var s := p + sep + rest;
    assert s[|p|..|p| + |sep|] == sep;
    assert OccursAt(s, sep, |p|);
    forall j | 0 <= j < |p|
      ensures !OccursAt(s, sep, j)
    {
      if j + |sep| <= |p| {
        assert s[j..j + |sep|] == p[j..j + |sep|];
        assert !OccursAt(p, sep, j);
      } else {
        assert s[j..j + |sep|][|p| - 1 - j] == p[|p| - 1];
      }
    }
  }

  // ---------------------------------------------------------------------------
  // split

  /** Python's `s.split(sep)` for a non-empty separator. */
  function Split(s: string, sep: string): (r: seq<string>)
    requires |sep| > 0
    ensures |r| >= 1
    decreases |s|
  {
    var i := Find(s, sep);
    if i < 0 then [s] else [s[..i]] + Split(s[i + |sep|..], sep)
  }

  /** `sep.join(parts)`. */
  function Join(parts: seq<string>, sep: string): (r: string)
    decreases |parts|
  {
    if |parts| == 0 then "" else if |parts| == 1 then parts[0] else parts[0] + sep + Join(parts[1..], sep)
  }

  /** Joining three parts. */
  lemma JoinThree(a: string, b: string, c: string, sep: string)
    ensures Join([a, b, c], sep) == a + sep + b + sep + c
  {
    assert [a, b, c][1..] == [b, c] && [b, c][1..] == [c];
    assert Join([c], sep) == c;
    assert Join([b, c], sep) == b + sep + c;
    assert Join([a, b, c], sep) == a + sep + (b + sep + c);
  }

  /** Joining four parts. */
  lemma JoinFour(a: string, b: string, c: string, d: string, sep: string)
    ensures Join([a, b, c, d], sep) == a + sep + b + sep + c + sep + d
  {
    assert [a, b, c, d][1..] == [b, c, d];
    JoinThree(b, c, d, sep);
    assert Join([a, b, c, d], sep) == a + sep + (b + sep + c + sep + d);
  }

  /** Splitting and joining back with the same separator restores the string. */
  lemma {:induction false} JoinSplit(s: string, sep: string)
    requires |sep| > 0
    ensures Join(Split(s, sep), sep) == s
    decreases |s|
  {
    var i := Find(s, sep);
    if i >= 0 {
      JoinSplit(s[i + |sep|..], sep);
      var rest := Split(s[i + |sep|..], sep);
      assert Split(s, sep) == [s[..i]] + rest;
      assert ([s[..i]] + rest)[1..] == rest;
      assert s == s[..i] + sep + s[i + |sep|..];
    }
  }

  /** Splitting one separated piece off the front. */
  lemma SplitFront(p: string, sep: string, rest: string)
    requires |sep| > 0 && !Contains(p, sep)
    requires p == [] || p[|p| - 1] !in sep
    ensures Split(p + sep + rest, sep) == [p] + Split(rest, sep)
  {
    FindAfter(p, sep, rest);
    var s := p + sep + rest;
    assert s[..|p|] == p;
    assert s[|p| + |sep|..] == rest;
  }

  /** Joining pieces with a character that `pat` does not use creates no new occurrence. */
  lemma {:induction false} JoinNoContains(parts: seq<string>, c: char, pat: string)
    requires |pat| > 0 && c !in pat
    requires forall k :: 0 <= k < |parts| ==> !Contains(parts[k], pat)
    ensures !Contains(Join(parts, [c]), pat)
    decreases |parts|
  {
    if |parts| == 0 {
      ShortNoContains("", pat);
    } else if |parts| > 1 {
      JoinNoContains(parts[1..], c, pat);
      NoStraddle(parts[0], c, Join(parts[1..], [c]), pat);
    }
  }

  /** A string without the character `c` has no occurrence of `[c]`. */
  lemma NoCharNoContains(s: string, c: char)
    requires c !in s
    ensures !Contains(s, [c])
  {
    forall i | 0 <= i && i + 1 <= |s|
      ensures !OccursAt(s, [c], i)
    {
      assert s[i..i + 1] == [s[i]];
    }
  }

  /** Split on a one-character separator inverts Join when no part holds it. */
  lemma {:induction false} SplitJoin(parts: seq<string>, c: char)
    requires |parts| >= 1
    requires forall k :: 0 <= k < |parts| ==> c !in parts[k]
    ensures Split(Join(parts, [c]), [c]) == parts
    decreases |parts|
  {
    NoCharNoContains(parts[0], c);
    if |parts| > 1 {
      SplitFront(parts[0], [c], Join(parts[1..], [c]));
      SplitJoin(parts[1..], c);
    }
  }

  /** POSIX `os.path.join(a, b)`: an absolute `b` replaces `a`; otherwise a
      slash is put between them unless `a` is empty or already ends in one. */
  function PathJoin(a: string, b: string): (r: string)
    ensures StartsWith(b, "/") ==> r == b
    ensures !StartsWith(b, "/") ==> EndsWith(r, b) && StartsWith(r, a)
  {
    if StartsWith(b, "/") then b
    else if a == [] || EndsWith(a, "/") then a + b
    else a + "/" + b
  }

  /** Joining one directory with two relative names gives two paths, unless the names agree. */
  lemma PathJoinInjective(a: string, b1: string, b2: string)
    requires !StartsWith(b1, "/") && !StartsWith(b2, "/")
    requires PathJoin(a, b1) == PathJoin(a, b2)
    ensures b1 == b2
  {
    var d := if a == [] || EndsWith(a, "/") then a else a + "/";
    assert PathJoin(a, b1) == d + b1 && PathJoin(a, b2) == d + b2;
    assert b1 == (d + b1)[|d|..];
  }

  // ---------------------------------------------------------------------------
  // replace

  /** Python's `s.replace(target, repl)` for a non-empty `target`: occurrences are
      replaced left to right without overlapping. */
  function Replace(s: string, target: string, repl: string): (r: string)
    requires |target| > 0
    decreases |s|
  {
    if |s| < |target| then s
    else if s[..|target|] == target then repl + Replace(s[|target|..], target, repl)
    else [s[0]] + Replace(s[1..], target, repl)
  }

  /** A string with no occurrence of `target` is left unchanged. */
  lemma {:induction false} ReplaceAbsent(s: string, target: string, repl: string)
    requires |target| > 0 && !Contains(s, target)
    ensures Replace(s, target, repl) == s
    decreases |s|
  {
    if |s| >= |target| {
      assert !OccursAt(s, target, 0);
      assert !Contains(s[1..], target) by {
        if Contains(s[1..], target) {
          var i := Find(s[1..], target);
          assert s[1..][i..i + |target|] == s[i + 1..i + 1 + |target|];
          assert OccursAt(s, target, i + 1);
        }
      }
      ReplaceAbsent(s[1..], target, repl);
    }
  }

  /** An occurrence at the front is replaced and the scan goes on after it. */
  lemma ReplaceHit(target: string, rest: string, repl: string)
    requires |target| > 0
    ensures Replace(target + rest, target, repl) == repl + Replace(rest, target, repl)
  {
    var s := target + rest;
    assert s[..|target|] == target;
    DropPrefix(target, rest);
  }

  /** A first character that cannot start `target` is kept. */
  lemma ReplaceMiss(c: char, rest: string, target: string, repl: string)
    requires |target| > 0 && c != target[0]
    ensures Replace([c] + rest, target, repl) == [c] + Replace(rest, target, repl)
  {
    var s := [c] + rest;
    assert s[1..] == rest;
    if |s| >= |target| {
      assert s[..|target|][0] == c;
    } else {
      assert Replace(rest, target, repl) == rest;
    }
  }

  /** Removing a prefix marker: `(target + " " + v).replace(target, "")` is `" " + v`
      when `v` does not hold `target` and `target` does not start with a space. */
  lemma ReplaceMarker(target: string, v: string)
    requires |target| > 0 && target[0] != ' ' && !Contains(v, target)
    ensures Replace(target + " " + v, target, "") == " " + v
  {
    hide Replace;
    assert target + " " + v == target + ([' '] + v);
    ReplaceHit(target, [' '] + v, "");
    ReplaceMiss(' ', v, target, "");
    ReplaceAbsent(v, target, "");
  }

  // ---------------------------------------------------------------------------
  // Lexicographic order (Python's `<` on str)

  predicate LexLess(a: string, b: string)
    decreases |a|
  {
    if |a| == 0 then |b| > 0
    else |b| > 0 && (a[0] < b[0] || (a[0] == b[0] && LexLess(a[1..], b[1..])))
  }

  lemma {:induction false} LexIrreflexive(a: string)
    ensures !LexLess(a, a)
    decreases |a|
  {
    if |a| > 0 { LexIrreflexive(a[1..]); }
  }

  lemma {:induction false} LexAsymmetric(a: string, b: string)
    ensures !(LexLess(a, b) && LexLess(b, a))
    decreases |a|
  {
    if |a| > 0 && |b| > 0 && a[0] == b[0] { LexAsymmetric(a[1..], b[1..]); }
  }

  lemma {:induction false} LexTotal(a: string, b: string)
    requires a != b
    ensures LexLess(a, b) || LexLess(b, a)
    decreases |a|
  {
    if |a| > 0 && |b| > 0 && a[0] == b[0] {
      assert a == [a[0]] + a[1..] && b == [b[0]] + b[1..];
      LexTotal(a[1..], b[1..]);
    }
  }

  lemma {:induction false} LexTransitive(a: string, b: string, c: string)
    requires LexLess(a, b) && LexLess(b, c)
    ensures LexLess(a, c)
    decreases |a|
  {
    if |a| > 0 && a[0] == b[0] && b[0] == c[0] {
      LexTransitive(a[1..], b[1..], c[1..]);
    }
  }

  // ---------------------------------------------------------------------------
  // Decimal numbers

  function DigitValue(c: char): (r: nat)
    requires IsDigit(c)
    ensures r < 10
  {
    (c as int - '0' as int) as nat
  }

  function DigitChar(d: nat): (c: char)
    requires d < 10
    ensures IsDigit(c) && DigitValue(c) == d
  {
    ('0' as int + d) as char
  }

  /** Python's `int(s)` for a string of ASCII digits (leading zeros allowed). */
  function DigitsValue(s: string): nat
    requires forall i :: 0 <= i < |s| ==> IsDigit(s[i])
  {
    if |s| == 0 then 0 else 10 * DigitsValue(s[..|s| - 1]) + DigitValue(s[|s| - 1])
  }

  /** Python's `str(n)` for a natural number. */
  function NatToString(n: nat): (r: string)
    ensures IsDigits(r)
    ensures |r| == 1 || r[0] != '0'
  {
    if n < 10 then [DigitChar(n)] else NatToString(n / 10) + [DigitChar(n % 10)]
  }

  /** Reading back what `str(n)` printed gives `n`. */
  lemma {:induction false} NatToStringValue(n: nat)
    ensures DigitsValue(NatToString(n)) == n
  {
    if n >= 10 {
      NatToStringValue(n / 10);
      var s := NatToString(n);
      assert s[..|s| - 1] == NatToString(n / 10);
    }
  }

  /** The longest prefix of `s` made of ASCII digits. */
  function DigitRun(s: string): (r: string)
    ensures |r| <= |s| && r == s[..|r|]
    ensures forall i :: 0 <= i < |r| ==> IsDigit(r[i])
    ensures |r| == |s| || !IsDigit(s[|r|])
  {
    if |s| > 0 && IsDigit(s[0]) then [s[0]] + DigitRun(s[1..]) else []
  }

  lemma {:induction false} DigitRunOfDigits(d: string, rest: string)
    requires forall i :: 0 <= i < |d| ==> IsDigit(d[i])
    requires rest == [] || !IsDigit(rest[0])
    ensures DigitRun(d + rest) == d
  {
    if |d| > 0 {
      assert (d + rest)[1..] == d[1..] + rest;
      DigitRunOfDigits(d[1..], rest);
    } else {
      assert d + rest == rest;
    }
  }

  /** A run of digits followed by text that does not start with a digit splits
      only one way. */
  lemma DigitsThenRest(d1: string, t1: string, d2: string, t2: string)
    requires forall i :: 0 <= i < |d1| ==> IsDigit(d1[i])
    requires forall i :: 0 <= i < |d2| ==> IsDigit(d2[i])
    requires t1 == [] || !IsDigit(t1[0])
    requires t2 == [] || !IsDigit(t2[0])
    requires d1 + t1 == d2 + t2
    ensures d1 == d2 && t1 == t2
  {
    DigitRunOfDigits(d1, t1);
    DigitRunOfDigits(d2, t2);
    assert t1 == (d1 + t1)[|d1|..];
  }

  /** `n` written with at least `width` digits, padded with zeros (Python's `f"{n:0Nd}"`). */
  function ZeroPad(n: nat, width: nat): (r: string)
    ensures IsDigits(r)
    ensures |r| == if |NatToString(n)| < width then width else |NatToString(n)|
    ensures EndsWith(r, NatToString(n))
    ensures forall i :: 0 <= i < |r| - |NatToString(n)| ==> r[i] == '0'
  {
    var s := NatToString(n);
    if |s| < width then seq(width - |s|, _ => '0') + s else s
  }
  /** A run of zeros in front of digits does not change their value. */
  lemma {:induction false} LeadingZerosValue(z: string, s: string)
    requires forall i :: 0 <= i < |z| ==> z[i] == '0'
    requires forall i :: 0 <= i < |s| ==> IsDigit(s[i])
    ensures DigitsValue(z + s) == DigitsValue(s)
  {
    if |s| > 0 {
      var zs := z + s;
      assert zs[..|zs| - 1] == z + s[..|s| - 1];
      LeadingZerosValue(z, s[..|s| - 1]);
    } else if |z| > 0 {
      assert z + s == z;
      assert (z + s)[..|z| - 1] == z[..|z| - 1] + s;
      LeadingZerosValue(z[..|z| - 1], s);
    }
  }

  /** Reading back a zero-padded number gives the number. */
  lemma ZeroPadValue(n: nat, width: nat)
    ensures DigitsValue(ZeroPad(n, width)) == n
  {
    var s := NatToString(n);
    NatToStringValue(n);
    if |s| < width {
      LeadingZerosValue(seq(width - |s|, _ => '0'), s);
    }
  }
}
