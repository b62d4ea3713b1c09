/**
 * The JavaScript string primitives the application relies on, written as
 * functions over `seq<char>`: the `\s` character class, ASCII lower-casing,
 * `replace(/X+/g, c)`, `trim`, `split(' ')` / `join(' ')`, `startsWith`,
 * `substr`, `replace('#', '')` and the decimal rendering of a whole number.
 */
module JsString {

  /** ECMAScript WhiteSpace and LineTerminator code points: the `\s` class of a
      regular expression and the set `trim` removes. */
  predicate IsWhite(c: char) {
    var n := c as int;
    (0x09 <= n <= 0x0D) || n == 0x20 || n == 0xA0 || n == 0x1680 ||
    (0x2000 <= n <= 0x200A) || n == 0x2028 || n == 0x2029 || n == 0x202F ||
    n == 0x205F || n == 0x3000 || n == 0xFEFF
  }

  predicate NoWhite(s: string) {
    forall i :: 0 <= i < |s| ==> !IsWhite(s[i])
  }

  predicate IsAsciiUpper(c: char) { 'A' <= c <= 'Z' }

  /** `toLowerCase` on one character; only ASCII letters are folded. */
  function LowerChar(c: char): (l: char)
    ensures !IsAsciiUpper(l)
    ensures !IsAsciiUpper(c) ==> l == c
  {
    if IsAsciiUpper(c) then (c as int + 32) as char else c
  }

  function ToLowerCase(s: string): (r: string)
    ensures |r| == |s|
    ensures forall i :: 0 <= i < |s| ==> r[i] == LowerChar(s[i])
  {
    if s == [] then [] else [LowerChar(s[0])] + ToLowerCase(s[1..])
  }

  /** The characters of `s` that satisfy `p`, in order (a `replace(/[^…]/g, '')`). */
  function Filter(p: char -> bool, s: string): (r: string)
    ensures |r| <= |s|
    ensures forall i :: 0 <= i < |r| ==> p(r[i])
  {
    if s == [] then [] else (if p(s[0]) then [s[0]] else []) + Filter(p, s[1..])
  }

  lemma {:induction false} FilterAppend(p: char -> bool, a: string, b: string)
    ensures Filter(p, a + b) == Filter(p, a) + Filter(p, b)
  {
    if a != [] {
      var h := if p(a[0]) then [a[0]] else [];
      assert Filter(p, a + b) == h + Filter(p, a[1..] + b) by { AppendFront(a, b); }
      FilterAppend(p, a[1..], b);
      AppendAssoc(h, Filter(p, a[1..]), Filter(p, b));
    } else {
      assert a + b == b;
    }
  }

  /** Every character of `s` already satisfies `p`, so filtering keeps it all. */
  lemma {:induction false} FilterKeepsAll(p: char -> bool, s: string)
    requires forall i :: 0 <= i < |s| ==> p(s[i])
    ensures Filter(p, s) == s
  {
    if s != [] {
      FilterKeepsAll(p, s[1..]);
    }
  }

  /** Filtering by `q` after filtering by a weaker `p` is filtering by `q`. */
  lemma {:induction false} FilterFilter(p: char -> bool, q: char -> bool, s: string)
    requires forall c :: q(c) ==> p(c)
    ensures Filter(q, Filter(p, s)) == Filter(q, s)
  {
    if s != [] {
      FilterFilter(p, q, s[1..]);
      if p(s[0]) {
        assert Filter(p, s) == [s[0]] + Filter(p, s[1..]);
        FilterAppend(q, [s[0]], Filter(p, s[1..]));
        assert [s[0]][1..] == [];
        assert Filter(q, [s[0]]) == if q(s[0]) then [s[0]] else [];
      } else {
        assert Filter(p, s) == Filter(p, s[1..]);
      }
    }
  }

  /** The filter is empty exactly when no character satisfies `p`. */
  lemma {:induction false} FilterEmpty(p: char -> bool, s: string)
    ensures Filter(p, s) == [] <==> forall i :: 0 <= i < |s| ==> !p(s[i])
  {
    if s != [] {
      FilterEmpty(p, s[1..]);
      assert forall i :: 1 <= i < |s| ==> s[i] == s[1..][i - 1];
    }
  }

  /** The longest suffix of `s` that does not start with a `p` character. */
  function DropWhile(p: char -> bool, s: string): (r: string)
    ensures |r| <= |s| && r == s[|s| - |r|..]
    ensures r == [] || !p(r[0])
    ensures forall i :: 0 <= i < |s| - |r| ==> p(s[i])
  {
    if s != [] && p(s[0]) then DropWhile(p, s[1..]) else s
  }

  /** Dropping characters that `q` rejects does not change the `q`-filter. */
  lemma {:induction false} FilterDropWhile(p: char -> bool, q: char -> bool, s: string)
    requires forall c :: q(c) ==> !p(c)
    ensures Filter(q, DropWhile(p, s)) == Filter(q, s)
  {
    if s != [] && p(s[0]) {
      FilterDropWhile(p, q, s[1..]);
    }
  }

  /** `s.replace(/X+/g, rep)` for a one-character class X given by `inRun`:
      each maximal run of X characters becomes the single character `rep`. */
  function ReplaceRuns(s: string, inRun: char -> bool, rep: char): (r: string)
    ensures |r| <= |s|
    ensures forall i :: 0 <= i < |r| ==> r[i] == rep || !inRun(r[i])
    decreases |s|
  {
    if s == [] then []
    else if inRun(s[0]) then [rep] + ReplaceRuns(DropWhile(inRun, s[1..]), inRun, rep)
    else [s[0]] + ReplaceRuns(s[1..], inRun, rep)
  }

  /** What holds of every character of `s` holds of every character left after `DropWhile`. */
  lemma DropWhileKeeps(p: char -> bool, s: string, q: char -> bool)
    requires forall i :: 0 <= i < |s| ==> q(s[i])
    ensures forall i :: 0 <= i < |DropWhile(p, s)| ==> q(DropWhile(p, s)[i])
  {
    var t := DropWhile(p, s);
    forall i | 0 <= i < |t| ensures q(t[i]) {
      assert t[i] == s[|s| - |t| + i];
    }
  }

  /** Every character of the output is `rep` or a character of the input. */
  lemma {:induction false} ReplaceRunsFrom(s: string, inRun: char -> bool, rep: char, q: char -> bool)
    requires q(rep)
    requires forall i :: 0 <= i < |s| ==> q(s[i])
    ensures forall i :: 0 <= i < |ReplaceRuns(s, inRun, rep)| ==> q(ReplaceRuns(s, inRun, rep)[i])
    decreases |s|
  {
    if s != [] {
      if inRun(s[0]) {
        var t := DropWhile(inRun, s[1..]);
        DropWhileKeeps(inRun, s[1..], q);
        ReplaceRunsFrom(t, inRun, rep, q);
        assert ReplaceRuns(s, inRun, rep) == [rep] + ReplaceRuns(t, inRun, rep);
      } else {
        var rest := s[1..];
        assert forall i :: 0 <= i < |rest| ==> rest[i] == s[i + 1];
        ReplaceRunsFrom(rest, inRun, rep, q);
        assert ReplaceRuns(s, inRun, rep) == [s[0]] + ReplaceRuns(rest, inRun, rep);
      }
    }
  }

  lemma ReplaceRunsHead(s: string, inRun: char -> bool, rep: char)
    requires s != []
    ensures ReplaceRuns(s, inRun, rep) != []
    ensures ReplaceRuns(s, inRun, rep)[0] == if inRun(s[0]) then rep else s[0]
  {
  }

  /** A prefix with no class character is copied unchanged. */
  lemma {:induction false} ReplaceRunsOutsidePrefix(s: string, t: string, inRun: char -> bool, rep: char)
    requires forall i :: 0 <= i < |s| ==> !inRun(s[i])
    ensures ReplaceRuns(s + t, inRun, rep) == s + ReplaceRuns(t, inRun, rep)
  {
    if s == [] {
      assert s + t == t;
    } else {
      assert (s + t)[0] == s[0] && (s + t)[1..] == s[1..] + t;
      ReplaceRunsOutsidePrefix(s[1..], t, inRun, rep);
    }
  }

  /** A run of class characters in front of a non-class character is dropped whole. */
  lemma {:induction false} DropWhileRun(p: char -> bool, w: string, y: string)
    requires forall i :: 0 <= i < |w| ==> p(w[i])
    requires y == [] || !p(y[0])
    ensures DropWhile(p, w + y) == y
  {
    if w == [] {
      assert w + y == y;
    } else {
      assert (w + y)[0] == w[0] && (w + y)[1..] == w[1..] + y;
      DropWhileRun(p, w[1..], y);
    }
  }

  /** A maximal run of class characters after a class-free prefix becomes
      exactly one `rep`, and the replacement goes on after the run. */
  lemma ReplaceRunsRun(x: string, w: string, y: string, inRun: char -> bool, rep: char)
    requires forall i :: 0 <= i < |x| ==> !inRun(x[i])
    requires w != [] && forall i :: 0 <= i < |w| ==> inRun(w[i])
    requires y == [] || !inRun(y[0])
    ensures ReplaceRuns(x + w + y, inRun, rep) == x + [rep] + ReplaceRuns(y, inRun, rep)
  {
    var t := w + y;
    var r := ReplaceRuns(y, inRun, rep);
    AppendAssoc(x, w, y);
    ReplaceRunsOutsidePrefix(x, t, inRun, rep);
    ReplaceRunsRunHead(w, y, t, inRun, rep);
    AppendAssoc(x, [rep], r);
  }

  lemma ReplaceRunsRunHead(w: string, y: string, t: string, inRun: char -> bool, rep: char)
    requires w != [] && forall i :: 0 <= i < |w| ==> inRun(w[i])
    requires y == [] || !inRun(y[0])
    requires t == w + y
    ensures ReplaceRuns(t, inRun, rep) == [rep] + ReplaceRuns(y, inRun, rep)
  {
    assert t[0] == w[0] && t[1..] == w[1..] + y;
    DropWhileRun(inRun, w[1..], y);
  }

  /** No two characters of `p` stand side by side in `s`. */
  predicate NoAdjacent(s: string, p: char -> bool) {
    forall i :: 0 <= i < |s| - 1 ==> !(p(s[i]) && p(s[i + 1]))
  }

  /** When `rep` is itself in the class, the output never has two class
      characters side by side: `replace(/-+/g, '-')` leaves no `--`. */
  lemma {:induction false} ReplaceRunsNoAdjacent(s: string, inRun: char -> bool, rep: char)
    requires inRun(rep)
    ensures NoAdjacent(ReplaceRuns(s, inRun, rep), inRun)
    decreases |s|
  {
    if s != [] {
      if inRun(s[0]) {
        var t := DropWhile(inRun, s[1..]);
        ReplaceRunsNoAdjacent(t, inRun, rep);
        if t != [] { ReplaceRunsHead(t, inRun, rep); }
      } else {
        ReplaceRunsNoAdjacent(s[1..], inRun, rep);
        if s[1..] != [] { ReplaceRunsHead(s[1..], inRun, rep); }
        var r' := ReplaceRuns(s[1..], inRun, rep);
        assert ReplaceRuns(s, inRun, rep) == [s[0]] + r';
      }
    }
  }

  /** A string whose class characters are all `rep` and never adjacent is a
      fixed point of the replacement. */
  lemma {:induction false} ReplaceRunsIdentity(s: string, inRun: char -> bool, rep: char)
    requires forall i :: 0 <= i < |s| && inRun(s[i]) ==> s[i] == rep
    requires NoAdjacent(s, inRun)
    ensures ReplaceRuns(s, inRun, rep) == s
    decreases |s|
  {
    if s != [] {
      var rest := s[1..];
      assert forall i :: 0 <= i < |rest| ==> rest[i] == s[i + 1];
      ReplaceRunsIdentity(rest, inRun, rep);
      if inRun(s[0]) {
        assert rest == [] || !inRun(rest[0]);
        assert DropWhile(inRun, rest) == rest;
        assert ReplaceRuns(s, inRun, rep) == [rep] + rest;
      } else {
        assert ReplaceRuns(s, inRun, rep) == [s[0]] + rest;
      }
      assert s == [s[0]] + rest;
    }
  }

  /** The characters outside the class other than `rep` pass through in order. */
  lemma {:induction false} ReplaceRunsFilter(s: string, inRun: char -> bool, rep: char, q: char -> bool)
    requires forall c :: q(c) ==> !inRun(c)
    requires !q(rep)
    ensures Filter(q, ReplaceRuns(s, inRun, rep)) == Filter(q, s)
    decreases |s|
  {
    if s != [] {
      if inRun(s[0]) {
        var t := DropWhile(inRun, s[1..]);
        ReplaceRunsFilter(t, inRun, rep, q);
        FilterDropWhile(inRun, q, s[1..]);
        FilterAppend(q, [rep], ReplaceRuns(t, inRun, rep));
      } else {
        ReplaceRunsFilter(s[1..], inRun, rep, q);
        FilterAppend(q, [s[0]], ReplaceRuns(s[1..], inRun, rep));
      }
    }
  }

  function TrimStart(s: string): string {
    DropWhile(IsWhite, s)
  }

  function TrimEnd(s: string): (r: string)
    ensures |r| <= |s| && r == s[..|r|]
  {
    if s != [] && IsWhite(s[|s| - 1]) then TrimEnd(s[..|s| - 1]) else s
  }

  /** `String.prototype.trim`. */
  function Trim(s: string): string {
    TrimEnd(TrimStart(s))
  }

  lemma TrimNoWhite(s: string)
    requires NoWhite(s)
    ensures Trim(s) == s
  {
  }

  /** `s.startsWith(prefix)`. */
  predicate StartsWith(s: string, prefix: string) {
    |prefix| <= |s| && s[..|prefix|] == prefix
  }

  /** `s.split(sep)` for a one-character separator: never empty, and no part
      contains the separator. */
  function SplitOn(s: string, sep: char): (parts: seq<string>)
    ensures |parts| >= 1
    ensures forall k :: 0 <= k < |parts| ==> sep !in parts[k]
  {
    if s == [] then [[]]
    else if s[0] == sep then [[]] + SplitOn(s[1..], sep)
    else
      var rest := SplitOn(s[1..], sep);
      [[s[0]] + rest[0]] + rest[1..]
  }

  /** `parts.join(sep)`. */
  function JoinWith(parts: seq<string>, sep: char): string {
    if parts == [] then []
    else if |parts| == 1 then parts[0]
    else parts[0] + [sep] + JoinWith(parts[1..], sep)
  }

  lemma JoinSingle(parts: seq<string>, sep: char)
    ensures |parts| == 1 ==> JoinWith(parts, sep) == parts[0]
  {
  }

  lemma {:induction false} JoinSnoc(parts: seq<string>, p: string, sep: char)
    requires parts != []
    ensures JoinWith(parts + [p], sep) == JoinWith(parts, sep) + [sep] + p
  {
    if |parts| > 1 {
      assert (parts + [p])[1..] == parts[1..] + [p];
      JoinSnoc(parts[1..], p, sep);
    }
  }

  /** Joining what `split` produced gives the input back. */
  lemma {:induction false} JoinSplit(s: string, sep: char)
    ensures JoinWith(SplitOn(s, sep), sep) == s
  {
    if s != [] {
      JoinSplit(s[1..], sep);
      var rest := SplitOn(s[1..], sep);
      if s[0] != sep && |rest| > 1 {
        assert ([[s[0]] + rest[0]] + rest[1..])[1..] == rest[1..];
      }
    }
  }

  /** A separator-free part in front of a separator becomes its own part. */
  lemma {:induction false} SplitCons(p: string, s: string, sep: char)
    requires sep !in p
    ensures SplitOn(p + [sep] + s, sep) == [p] + SplitOn(s, sep)
  {
    if p != [] {
      assert (p + [sep] + s)[0] == p[0] && (p + [sep] + s)[1..] == p[1..] + [sep] + s;
      SplitCons(p[1..], s, sep);
      assert [p[0]] + p[1..] == p;
    } else {
      assert (p + [sep] + s)[1..] == s;
    }
  }

  lemma {:induction false} SplitNoSep(p: string, sep: char)
    requires sep !in p
    ensures SplitOn(p, sep) == [p]
  {
    if p != [] {
      SplitNoSep(p[1..], sep);
      assert [p[0]] + p[1..] == p;
    }
  }

  /** The words of each part, concatenated. */
  function SplitAll(parts: seq<string>, sep: char): seq<string> {
    if parts == [] then [] else SplitOn(parts[0], sep) + SplitAll(parts[1..], sep)
  }

  lemma {:induction false} SplitAllLength(parts: seq<string>, sep: char)
    ensures |SplitAll(parts, sep)| >= |parts|
  {
    if parts != [] {
      SplitAllLength(parts[1..], sep);
    }
  }

  lemma AppendFront<X>(x: seq<X>, y: seq<X>)
    requires x != []
    ensures (x + y)[0] == x[0] && (x + y)[1..] == x[1..] + y
  {
  }

  lemma AppendAssoc<X>(x: seq<X>, y: seq<X>, z: seq<X>)
    ensures x + (y + z) == (x + y) + z
  {
  }

  lemma TakeSnoc<X>(s: seq<X>, i: nat)
    requires i < |s|
    ensures s[..i + 1] == s[..i] + [s[i]]
  {
  }

  lemma TakeAll<X>(s: seq<X>)
    ensures s[..|s|] == s
  {
  }

  /** `split` of a string by its first character. */
  lemma SplitStep(c: char, s: string, sep: char)
    ensures SplitOn([c] + s, sep) ==
      if c == sep then [[]] + SplitOn(s, sep)
      else [[c] + SplitOn(s, sep)[0]] + SplitOn(s, sep)[1..]
  {
    AppendFront([c], s);
  }

  /** Putting one more character in front of both sides of a split equation. */
  lemma SplitStepBoth(c: char, tail: string, a1: string, b: string, sep: char)
    requires SplitOn(tail, sep) == SplitOn(a1, sep) + SplitOn(b, sep)
    ensures SplitOn([c] + tail, sep) == SplitOn([c] + a1, sep) + SplitOn(b, sep)
  {
    SplitStep(c, tail, sep);
    SplitStep(c, a1, sep);
    var ra := SplitOn(a1, sep);
    var rb := SplitOn(b, sep);
    if c == sep {
      AppendAssoc([[]], ra, rb);
    } else {
      AppendFront(ra, rb);
      AppendAssoc([[c] + ra[0]], ra[1..], rb);
    }
  }

  /** `split` of one part followed by a separator and the rest. */
  lemma {:induction false} SplitAppendSep(a: string, b: string, sep: char)
    ensures SplitOn(a + [sep] + b, sep) == SplitOn(a, sep) + SplitOn(b, sep)
  {
    if a == [] {
      assert a + [sep] + b == [sep] + b;
      SplitStep(sep, b, sep);
      assert SplitOn(a, sep) == [[]];
    } else {
      var tail := a[1..] + [sep] + b;
      assert a + [sep] + b == [a[0]] + tail;
      assert a == [a[0]] + a[1..];
      SplitAppendSep(a[1..], b, sep);
      SplitStepBoth(a[0], tail, a[1..], b, sep);
    }
  }

  /** Splitting a join splits each part: the parts are runs of whole words. */
  lemma {:induction false} SplitJoin(parts: seq<string>, sep: char)
    requires parts != []
    ensures SplitOn(JoinWith(parts, sep), sep) == SplitAll(parts, sep)
  {
    if |parts| == 1 {
      assert SplitAll(parts[1..], sep) == [];
    } else {
      SplitJoin(parts[1..], sep);
      SplitAppendSep(parts[0], JoinWith(parts[1..], sep), sep);
    }
  }

  /** `s.substr(start, length)` for non-negative arguments. */
  function Substr(s: string, start: nat, length: nat): (r: string)
    ensures |r| <= length
  {
    var b := if start < |s| then start else |s|;
    var e := if b + length < |s| then b + length else |s|;
    s[b..e]
  }

  /** `s.replace(c, '')` with a string pattern: only the first occurrence goes. */
  function RemoveFirst(s: string, c: char): (r: string)
    ensures c in s ==> |r| == |s| - 1
    ensures c !in s ==> r == s
  {
    if s == [] then []
    else if s[0] == c then s[1..]
    else [s[0]] + RemoveFirst(s[1..], c)
  }

  predicate IsDigit(c: char) { '0' <= c <= '9' }

  function DigitChar(d: nat): (c: char)
    requires d < 10
    ensures IsDigit(c)
  {
    ('0' as int + d) as char
  }

  function DigitValue(c: char): (d: nat)
    requires IsDigit(c)
    ensures d < 10
  {
    c as int - '0' as int
  }

  /** The decimal rendering of a whole number, as a template literal `${n}` gives it. */
  function Decimal(n: nat): (s: string)
    ensures s != []
    ensures forall i :: 0 <= i < |s| ==> IsDigit(s[i])
  {
    if n < 10 then [DigitChar(n)] else Decimal(n / 10) + [DigitChar(n % 10)]
  }

  /** The value of a string of decimal digits. */
  function DecimalValue(s: string): nat
    requires forall i :: 0 <= i < |s| ==> IsDigit(s[i])
  {
    if s == [] then 0 else 10 * DecimalValue(s[..|s| - 1]) + DigitValue(s[|s| - 1])
  }

  lemma {:induction false} DecimalRoundTrip(n: nat)
    ensures DecimalValue(Decimal(n)) == n
  {
    if n >= 10 {
      DecimalRoundTrip(n / 10);
      var s := Decimal(n);
      assert s[..|s| - 1] == Decimal(n / 10);
    }
  }

  lemma DecimalInjective(m: nat, n: nat)
    requires Decimal(m) == Decimal(n)
    ensures m == n
  {
    DecimalRoundTrip(m);
    DecimalRoundTrip(n);
  }
}
