/** The JavaScript string operations the gateway relies on, stated over `seq<char>`:
    `trim`, an edge strip for a character class, `indexOf`/`includes`, the
    first-occurrence `replace` with a string pattern, `split(c)[0]`, `join('\n')`,
    number-to-decimal and decimal-to-number conversion. */
module Strings {

  datatype Option<+T> = None | Some(value: T)

  // ---------------------------------------------------------------------------
  // Edge stripping

  /** The WhiteSpace and LineTerminator code points of ECMAScript: what
      `String.prototype.trim` removes from both ends. */
  predicate IsJsSpace(c: char) {
    c == '\t' || c == '\n' || c == '\U{000B}' || c == '\U{000C}' || c == '\r' || c == ' '
    || c == '\U{00A0}' || c == '\U{1680}' || ('\U{2000}' <= c <= '\U{200A}')
    || c == '\U{2028}' || c == '\U{2029}' || c == '\U{202F}' || c == '\U{205F}'
    || c == '\U{3000}' || c == '\U{FEFF}'
  }

  /** Removes the longest prefix whose characters all satisfy `drop`. */
  function StripStart(s: string, drop: char -> bool): (r: string)
    ensures |r| <= |s| && r == s[|s| - |r|..]
    ensures r == [] || !drop(r[0])
    ensures forall i :: 0 <= i < |s| - |r| ==> drop(s[i])
    decreases |s|
  {
    if s != [] && drop(s[0]) then
      var r := StripStart(s[1..], drop);
      assert s[1..][|s| - 1 - |r|..] == s[|s| - |r|..];
      assert forall i :: 1 <= i < |s| ==> s[1..][i - 1] == s[i];
      r
    else s
  }

  /** Removes the longest suffix whose characters all satisfy `drop`. */
  function StripEnd(s: string, drop: char -> bool): (r: string)
    ensures |r| <= |s| && r == s[..|r|]
    ensures r == [] || !drop(r[|r| - 1])
    ensures forall i :: |r| <= i < |s| ==> drop(s[i])
    decreases |s|
  {
    if s != [] && drop(s[|s| - 1]) then
      var r := StripEnd(s[..|s| - 1], drop);
      assert s[..|s| - 1][..|r|] == s[..|r|];
      r
    else s
  }

  /** Removes the maximal runs of `drop` characters at both ends. */
  function Strip(s: string, drop: char -> bool): (r: string)
    ensures |r| <= |s|
    ensures r == [] || (!drop(r[0]) && !drop(r[|r| - 1]))
  {
    StripEnd(StripStart(s, drop), drop)
  }

  /** Strip is determined by its shape: if `s[a..b]` is a piece of `s` with
      droppable characters outside it and none at its own ends, Strip returns
      exactly that piece. So only edge characters go; the interior is untouched. */
  lemma StripIsSlice(s: string, drop: char -> bool, a: nat, b: nat)
    requires a <= b <= |s|
    requires forall i :: 0 <= i < a ==> drop(s[i])
    requires forall i :: b <= i < |s| ==> drop(s[i])
    requires a < b ==> !drop(s[a]) && !drop(s[b - 1])
    ensures Strip(s, drop) == s[a..b]
  {
    if a < b {
      StripStartFrom(s, drop, a);
      StripEndOfSuffix(s, drop, a, b);
    } else {
      StripStartFrom(s, drop, |s|);
    }
  }

  /** The trailing run of droppable characters of `s[a..]` starts at `b`. */
  lemma {:induction false} StripEndOfSuffix(s: string, drop: char -> bool, a: nat, b: nat)
    requires a < b <= |s|
    requires forall i :: b <= i < |s| ==> drop(s[i])
    requires !drop(s[b - 1])
    ensures StripEnd(s[a..], drop) == s[a..b]
    decreases |s| - b
  {
    var t := s[a..];
    if b < |s| {
      var s' := s[..|s| - 1];
      assert t[|t| - 1] == s[|s| - 1];
      assert t[..|t| - 1] == s'[a..];
      forall i | b <= i < |s'| ensures drop(s'[i]) {
        assert s'[i] == s[i];
      }
      assert s'[b - 1] == s[b - 1];
      StripEndOfSuffix(s', drop, a, b);
      assert s'[a..b] == s[a..b];
    } else {
      assert t[|t| - 1] == s[b - 1];
      assert s[a..b] == t;
    }
  }

  /** The leading run of droppable characters ends at `a`. */
  lemma {:induction false} StripStartFrom(s: string, drop: char -> bool, a: nat)
    requires a <= |s|
    requires forall i :: 0 <= i < a ==> drop(s[i])
    requires a < |s| ==> !drop(s[a])
    ensures StripStart(s, drop) == s[a..]
    decreases a
  {
    if a > 0 {
      var t := s[1..];
      forall i | 0 <= i < a - 1 ensures drop(t[i]) {
        assert t[i] == s[i + 1];
      }
      assert a - 1 < |t| ==> t[a - 1] == s[a];
      StripStartFrom(t, drop, a - 1);
      assert t[a - 1..] == s[a..];
    }
  }

  /** A string with no droppable character at either end is left alone. */
  lemma StripKeeps(s: string, drop: char -> bool)
    requires s == [] || (!drop(s[0]) && !drop(s[|s| - 1]))
    ensures Strip(s, drop) == s
  {
    StripIsSlice(s, drop, 0, |s|);
  }

  /** Stripping twice is stripping once. */
  lemma StripIdempotent(s: string, drop: char -> bool)
    ensures Strip(Strip(s, drop), drop) == Strip(s, drop)
  {
    StripKeeps(Strip(s, drop), drop);
  }

  /** `String.prototype.trim`. */
  function JsTrim(s: string): (r: string)
    ensures r == [] || (!IsJsSpace(r[0]) && !IsJsSpace(r[|r| - 1]))
  {
    Strip(s, IsJsSpace)
  }

  // ---------------------------------------------------------------------------
  // Searching and replacing

  predicate OccursAt(s: string, pat: string, i: nat) {
    i + |pat| <= |s| && s[i..i + |pat|] == pat
  }

  /** `s.indexOf(pat, from)`: the leftmost occurrence at or after `from`. */
  function IndexOfFrom(s: string, pat: string, from: nat): (r: Option<nat>)
    ensures r.Some? ==> from <= r.value && OccursAt(s, pat, r.value)
    ensures r.Some? ==> forall j :: from <= j < r.value ==> !OccursAt(s, pat, j)
    ensures r.None? ==> forall j :: from <= j ==> !OccursAt(s, pat, j)
    decreases |s| - from
  {
    if from + |pat| > |s| then None
    else if OccursAt(s, pat, from) then Some(from)
    else IndexOfFrom(s, pat, from + 1)
  }

  /** `s.includes(pat)`. */
  predicate Contains(s: string, pat: string) {
    IndexOfFrom(s, pat, 0).Some?
  }

  /** `s.replace(pat, rep)` with a string pattern: only the first occurrence is
      replaced. (No replacement string used here contains `$`.) */
  function ReplaceFirst(s: string, pat: string, rep: string): (r: string)
    ensures !Contains(s, pat) ==> r == s
    ensures Contains(s, pat) ==>
      exists i: nat :: OccursAt(s, pat, i) && (forall j: nat :: j < i ==> !OccursAt(s, pat, j))
        && r == s[..i] + rep + s[i + |pat|..]
  {
    match IndexOfFrom(s, pat, 0)
    case None => s
    case Some(i) => s[..i] + rep + s[i + |pat|..]
  }

  /** A replacement never empties a string, nor fills an empty one, when the
      pattern and its replacement are both non-empty. */
  lemma ReplaceFirstEmptiness(s: string, pat: string, rep: string)
    requires pat != [] && rep != []
    ensures ReplaceFirst(s, pat, rep) == [] <==> s == []
  {
    if s == [] {
      assert !OccursAt(s, pat, 0);
    }
  }

  /** `s.split(c)[0]`: the text before the first `c`, or all of `s`. */
  function BeforeFirst(s: string, c: char): (r: string)
    ensures |r| <= |s| && r == s[..|r|]
    ensures c !in r
    ensures |r| < |s| ==> s[|r|] == c
  {
    if s == [] || s[0] == c then [] else [s[0]] + BeforeFirst(s[1..], c)
  }

  /** Without a separator, `split(c)[0]` is the whole string. */
  lemma {:induction false} BeforeFirstWithout(s: string, c: char)
    requires c !in s
    ensures BeforeFirst(s, c) == s
    decreases |s|
  {
    if s != [] {
      assert c !in s[1..];
      BeforeFirstWithout(s[1..], c);
    }
  }

  /** With a separator after `d`, `split(c)[0]` is `d`. */
  lemma {:induction false} BeforeFirstPrefix(d: string, c: char, rest: string)
    requires c !in d
    ensures BeforeFirst(d + [c] + rest, c) == d
    decreases |d|
  {
    if d != [] {
      assert (d + [c] + rest)[1..] == d[1..] + [c] + rest;
      BeforeFirstPrefix(d[1..], c, rest);
    } else {
      assert (d + [c] + rest)[0] == c;
    }
  }

  // ---------------------------------------------------------------------------
  // Joining

  /** `xs.join('\n')`. */
  function JoinLines(xs: seq<string>): string
    decreases |xs|
  {
    if |xs| == 0 then ""
    else if |xs| == 1 then xs[0]
    else JoinLines(xs[..|xs| - 1]) + "\n" + xs[|xs| - 1]
  }

  /** A join of non-empty values starts with the first character of the first
      value and ends with the last character of the last one. */
  lemma {:induction false} JoinLinesEdges(xs: seq<string>)
    requires AllNonEmpty(xs)
    ensures var j := JoinLines(xs);
      xs != [] ==> |j| > 0 && j[0] == xs[0][0] && j[|j| - 1] == xs[|xs| - 1][|xs[|xs| - 1]| - 1]
    decreases |xs|
  {
    if |xs| > 1 {
      var init := xs[..|xs| - 1];
      JoinLinesEdges(init);
      assert init[0] == xs[0];
    }
  }

  /** The accumulation idiom `(acc ? `${acc}\n` : '') + v`. */
  function Append(acc: string, v: string): string {
    (if acc != "" then acc + "\n" else "") + v
  }

  /** Folds Append over `vs`, starting from the empty string. */
  function AppendAll(vs: seq<string>): string
    decreases |vs|
  {
    if vs == [] then "" else Append(AppendAll(vs[..|vs| - 1]), vs[|vs| - 1])
  }

  predicate AllNonEmpty(vs: seq<string>) {
    forall i :: 0 <= i < |vs| ==> vs[i] != ""
  }

  /** Accumulating non-empty values is joining them; the join is empty only
      when there is nothing to join. */
  lemma {:induction false} AppendAllJoins(vs: seq<string>)
    requires AllNonEmpty(vs)
    ensures AppendAll(vs) == JoinLines(vs)
    ensures AppendAll(vs) == "" <==> vs == []
    decreases |vs|
  {
    if vs != [] {
      var p := vs[..|vs| - 1];
      assert AllNonEmpty(p) by {
        forall i | 0 <= i < |p| ensures p[i] != "" { assert p[i] == vs[i]; }
      }
      AppendAllJoins(p);
      assert vs[|vs| - 1] != "";
    }
  }

  /** Joining one more non-empty value after non-empty values. */
  lemma JoinLinesSnoc(vs: seq<string>, v: string)
    requires AllNonEmpty(vs) && v != ""
    ensures AllNonEmpty(vs + [v])
    ensures JoinLines(vs + [v]) == Append(JoinLines(vs), v)
  {
    var w := vs + [v];
    assert w[..|w| - 1] == vs;
    AppendAllJoins(vs);
  }

  /** The elements of `xs` that are not empty, in order (`filter(v => v)`). */
  function NonEmpty(xs: seq<string>): (r: seq<string>)
    ensures AllNonEmpty(r)
    ensures forall v :: v in r <==> v in xs && v != ""
    decreases |xs|
  {
    if xs == [] then []
    else NonEmpty(xs[..|xs| - 1]) + (if xs[|xs| - 1] != "" then [xs[|xs| - 1]] else [])
  }

  lemma NonEmptyOne(v: string)
    ensures NonEmpty([v]) == if v != "" then [v] else []
  {
    assert [v][..0] == [];
  }

  lemma {:induction false} NonEmptyConcat(xs: seq<string>, ys: seq<string>)
    ensures NonEmpty(xs + ys) == NonEmpty(xs) + NonEmpty(ys)
    decreases |ys|
  {
    if ys == [] {
      assert xs + ys == xs;
    } else {
      var ys' := ys[..|ys| - 1];
      assert (xs + ys)[..|xs + ys| - 1] == xs + ys';
      NonEmptyConcat(xs, ys');
    }
  }

  // ---------------------------------------------------------------------------
  // Mapping

  /** `xs.map(f)`. */
  function MapSeq<A, B>(xs: seq<A>, f: A -> B): (ys: seq<B>)
    ensures |ys| == |xs|
    ensures forall i :: 0 <= i < |xs| ==> ys[i] == f(xs[i])
    decreases |xs|
  {
    if xs == [] then [] else MapSeq(xs[..|xs| - 1], f) + [f(xs[|xs| - 1])]
  }

  lemma MapSeqSnoc<A, B>(xs: seq<A>, x: A, f: A -> B)
    ensures MapSeq(xs + [x], f) == MapSeq(xs, f) + [f(x)]
  {
    assert (xs + [x])[..|xs|] == xs;
  }

  lemma MapSeqOne<A, B>(x: A, f: A -> B)
    ensures MapSeq([x], f) == [f(x)]
  {
    assert [x][..0] == [];
  }

  lemma {:induction false} MapSeqConcat<A, B>(xs: seq<A>, ys: seq<A>, f: A -> B)
    ensures MapSeq(xs + ys, f) == MapSeq(xs, f) + MapSeq(ys, f)
    decreases |ys|
  {
    if ys == [] {
      assert xs + ys == xs;
    } else {
      var ys' := ys[..|ys| - 1];
      assert (xs + ys)[..|xs + ys| - 1] == xs + ys';
      assert (xs + ys)[|xs + ys| - 1] == ys[|ys| - 1];
      MapSeqConcat(xs, ys', f);
    }
  }

  // ---------------------------------------------------------------------------
  // Decimal numerals

  predicate IsDigit(c: char) {
    '0' <= c <= '9'
  }

  predicate AllDigits(s: string) {
    forall i :: 0 <= i < |s| ==> IsDigit(s[i])
  }

  function DigitChar(d: nat): (c: char)
    requires d < 10
    ensures IsDigit(c)
  {
    ('0' as int + d) as char
  }

  function DigitValue(c: char): (d: nat)
    requires IsDigit(c)
    ensures d < 10
  {
    (c as int - '0' as int) as nat
  }

  /** `n.toString()` for a non-negative integer. */
  function Decimal(n: nat): (r: string)
    ensures |r| >= 1
    decreases n
  {
    if n < 10 then [DigitChar(n)] else Decimal(n / 10) + [DigitChar(n % 10)]
  }

  /** `parseInt` of a string of decimal digits. */
  function DigitsValue(s: string): (v: nat)
    requires AllDigits(s)
    decreases |s|
  {
    if s == [] then 0 else DigitsValue(s[..|s| - 1]) * 10 + DigitValue(s[|s| - 1])
  }

  /** Reading back a number's decimal numeral gives the number. */
  lemma {:induction false} DecimalRoundTrip(n: nat)
    ensures AllDigits(Decimal(n)) && DigitsValue(Decimal(n)) == n
    decreases n
  {
    var r := Decimal(n);
    if n >= 10 {
      DecimalRoundTrip(n / 10);
      assert r == Decimal(n / 10) + [DigitChar(n % 10)];
      assert r[..|r| - 1] == Decimal(n / 10);
      assert DigitValue(DigitChar(n % 10)) == n % 10;
    } else {
      assert DigitValue(DigitChar(n)) == n;
    }
  }
}
