/** The parts of JavaScript's string library the assistant relies on:
    whitespace as `String.prototype.trim` and the `\s` class see it, `trim`,
    `split` with a string separator and its inverse `join`, ASCII case
    folding and the decimal rendering of a number in a template literal. */
module Strings {
  import opened Wrappers

  /** ECMAScript WhiteSpace and LineTerminator: what `trim()` removes and
      what `\s` matches. */
  predicate IsSpace(c: char) {
    || c == ' ' || c == '\t' || c == '\n' || c == '\r'
    || c == '\U{000B}' || c == '\U{000C}' || c == '\U{00A0}' || c == '\U{1680}'
    || ('\U{2000}' <= c <= '\U{200A}')
    || c == '\U{2028}' || c == '\U{2029}' || c == '\U{202F}' || c == '\U{205F}'
    || c == '\U{3000}' || c == '\U{FEFF}'
  }

  predicate AllSpace(s: string) {
    forall i :: 0 <= i < |s| ==> IsSpace(s[i])
  }

  /** Every character of `s` in `[a, b)` is whitespace. */
  predicate SpaceBetween(s: string, a: int, b: int) {
    forall i :: a <= i < b && 0 <= i < |s| ==> IsSpace(s[i])
  }

  /** No whitespace at either end: what `trim()` always returns. */
  predicate Trimmed(s: string) {
    s == [] || (!IsSpace(s[0]) && !IsSpace(s[|s| - 1]))
  }

  /** Text between two trimmed, non-empty ends is trimmed. */
  lemma TrimmedAround(a: string, m: string, b: string)
    requires Trimmed(a) && Trimmed(b) && a != []
    ensures Trimmed(a + b)
    ensures b != [] ==> Trimmed(a + m + b)
  {
    assert (a + b)[0] == a[0];
    assert (a + m + b)[0] == a[0];
    if b != [] {
      assert (a + b)[|a + b| - 1] == b[|b| - 1];
      assert (a + m + b)[|a + m + b| - 1] == b[|b| - 1];
    } else {
      assert a + b == a;
    }
  }

  /** `String.prototype.trim`: leading whitespace goes first, then
      trailing whitespace. */
  function Trim(s: string): (r: string)
    ensures Trimmed(r)
    ensures |r| <= |s|
    ensures r == [] <==> AllSpace(s)
    ensures Trimmed(s) ==> r == s
    decreases |s|
  {
    if s != [] && IsSpace(s[0]) then
      assert forall i :: 1 <= i < |s| ==> s[i] == s[1..][i - 1];
      Trim(s[1..])
    else if s != [] && IsSpace(s[|s| - 1]) then
      assert forall i :: 0 <= i < |s| - 1 ==> s[i] == s[..|s| - 1][i];
      Trim(s[..|s| - 1])
    else s
  }

  /** `Trim(s)` is the slice of `s` between its leading and its trailing
      whitespace. */
  lemma {:induction false} TrimSplit(s: string) returns (lo: nat, hi: nat)
    ensures lo <= hi <= |s| && Trim(s) == s[lo..hi]
    ensures SpaceBetween(s, 0, lo) && SpaceBetween(s, hi, |s|)
    decreases |s|
  {
    if s != [] && IsSpace(s[0]) {
      var l, h := TrimSplit(s[1..]);
      lo, hi := l + 1, h + 1;
      SliceOfSuffix(s, 1, l, h);
      SpaceAfterHead(s, l, h);
    } else if s != [] && IsSpace(s[|s| - 1]) {
      lo, hi := TrimSplit(s[..|s| - 1]);
      SliceOfPrefix(s, |s| - 1, lo, hi);
      SpaceBeforeLast(s, lo, hi);
    } else {
      lo, hi := 0, |s|;
    }
  }

  /** Whitespace around `[l, h)` in the tail of `s`, after a leading
      whitespace character, is whitespace around `[l + 1, h + 1)` in `s`. */
  lemma SpaceAfterHead(s: string, l: nat, h: nat)
    requires s != [] && IsSpace(s[0]) && l <= h <= |s| - 1
    requires SpaceBetween(s[1..], 0, l) && SpaceBetween(s[1..], h, |s| - 1)
    ensures SpaceBetween(s, 0, l + 1) && SpaceBetween(s, h + 1, |s|)
  {
    forall i | 0 < i < |s| ensures s[i] == s[1..][i - 1] { }
  }

  /** Whitespace around `[l, h)` in `s` without a trailing whitespace
      character is whitespace around `[l, h)` in `s`. */
  lemma SpaceBeforeLast(s: string, l: nat, h: nat)
    requires s != [] && IsSpace(s[|s| - 1]) && l <= h <= |s| - 1
    requires SpaceBetween(s[..|s| - 1], 0, l) && SpaceBetween(s[..|s| - 1], h, |s| - 1)
    ensures SpaceBetween(s, 0, l) && SpaceBetween(s, h, |s|)
  {
    forall i | 0 <= i < |s| - 1 ensures s[i] == s[..|s| - 1][i] { }
  }

  /** A non-empty slice with whitespace outside it and non-space characters
      at its ends is what `trim` returns. */
  lemma CoreUnique(x: string, lo: nat, hi: nat)
    requires lo < hi <= |x|
    requires !IsSpace(x[lo]) && !IsSpace(x[hi - 1])
    requires SpaceBetween(x, 0, lo) && SpaceBetween(x, hi, |x|)
    ensures Trim(x) == x[lo..hi]
  {
    var l, h := TrimSplit(x);
    assert Trim(x) != [] by { assert !IsSpace(x[lo]); }
    assert l <= lo && lo <= l;
    assert h <= hi && hi <= h;
  }

  /** Trimming ignores whitespace added at either end. */
  lemma TrimIgnoresOuterSpace(w: string, s: string, v: string)
    requires AllSpace(w) && AllSpace(v)
    ensures Trim(w + s + v) == Trim(s)
  {
    var x := w + s + v;
    var lo, hi := TrimSplit(s);
    SpaceAround(w, s, v, lo, hi);
    if lo < hi {
      assert x[|w| + lo..|w| + hi] == s[lo..hi];
      CoreUnique(x, |w| + lo, |w| + hi);
    }
  }

  /** Trimming a suffix ignores where it starts inside a whitespace run. */
  lemma TrimSkipsSpace(s: string, e: nat, m: nat)
    requires e <= m <= |s| && SpaceBetween(s, e, m)
    ensures Trim(s[e..]) == Trim(s[m..])
  {
    var w, v := s[e..m], s[m..];
    assert AllSpace(w) by {
      forall i | 0 <= i < |w| ensures IsSpace(w[i]) { assert w[i] == s[e + i]; }
    }
    assert w + v + [] == s[e..];
    TrimIgnoresOuterSpace(w, v, []);
  }

  lemma SpaceAround(w: string, s: string, v: string, lo: nat, hi: nat)
    requires AllSpace(w) && AllSpace(v) && lo <= hi <= |s|
    requires SpaceBetween(s, 0, lo) && SpaceBetween(s, hi, |s|)
    ensures SpaceBetween(w + s + v, 0, |w| + lo)
    ensures SpaceBetween(w + s + v, |w| + hi, |w| + |s| + |v|)
    ensures lo == hi ==> AllSpace(w + s + v)
  {
    var x := w + s + v;
    forall i | 0 <= i < |x| && (i < |w| + lo || |w| + hi <= i) ensures IsSpace(x[i]) {
      if i < |w| { assert x[i] == w[i]; }
      else if i < |w| + |s| { assert x[i] == s[i - |w|]; }
      else { assert x[i] == v[i - |w| - |s|]; }
    }
  }

  /** `s` begins with `p`. */
  predicate StartsWith(s: string, p: string) {
    |p| <= |s| && s[..|p|] == p
  }

  /** One differing character rules a prefix out. */
  lemma DiffersAt(s: string, p: string, i: nat)
    requires i < |p| && i < |s| && s[i] != p[i]
    ensures !StartsWith(s, p)
  {
    if |p| <= |s| {
      assert s[..|p|][i] != p[i];
    }
  }

  lemma StartsWithAt(s: string, p: string, i: nat)
    requires StartsWith(s, p) && i < |p|
    ensures s[i] == p[i]
  {
    assert s[..|p|][i] == s[i];
  }

  predicate EndsWith(s: string, p: string) {
    |p| <= |s| && s[|s| - |p|..] == p
  }

  /** `sep` occurs in `s` starting at index `i`. */
  predicate OccursAt(s: string, sep: string, i: int) {
    0 <= i && i + |sep| <= |s| && s[i..i + |sep|] == sep
  }

  /** The first occurrence of `sep` in `s` at or after `from`
      (`String.prototype.indexOf`). */
  function IndexFrom(s: string, sep: string, from: nat): (r: Option<nat>)
    requires from <= |s|
    ensures r.Some? ==> from <= r.value && OccursAt(s, sep, r.value)
    ensures forall i :: from <= i && (r.None? || i < r.value) ==> !OccursAt(s, sep, i)
    decreases |s| - from
  {
    if OccursAt(s, sep, from) then Some(from)
    else if from == |s| then None
    else IndexFrom(s, sep, from + 1)
  }

  /** `s.split(sep)` for a non-empty string separator: the pieces between
      the occurrences of `sep`, found left to right without overlap. */
  function Split(s: string, sep: string): (parts: seq<string>)
    requires sep != []
    ensures |parts| >= 1
    decreases |s|
  {
    match IndexFrom(s, sep, 0)
    case None => [s]
    case Some(i) => [s[..i]] + Split(s[i + |sep|..], sep)
  }

  /** `parts.join(sep)`. */
  function Join(parts: seq<string>, sep: string): string {
    if parts == [] then []
    else if |parts| == 1 then parts[0]
    else parts[0] + sep + Join(parts[1..], sep)
  }

  /** Splitting loses nothing: joining the pieces back gives the input. */
  lemma {:induction false} SplitJoin(s: string, sep: string)
    requires sep != []
    ensures Join(Split(s, sep), sep) == s
    decreases |s|
  {
    var k := IndexFrom(s, sep, 0);
    if k.Some? {
      var i := k.value;
      var rest := s[i + |sep|..];
      var tail := Split(rest, sep);
      calc {
        Join(Split(s, sep), sep);
        Join([s[..i]] + tail, sep);
        { JoinCons(s[..i], tail, sep); }
        s[..i] + sep + Join(tail, sep);
        { SplitJoin(rest, sep); }
        s[..i] + sep + rest;
        { assert OccursAt(s, sep, i); Reassemble(s, i, |sep|); }
        s;
      }
    }
  }

  lemma SliceOfSuffix<T>(s: seq<T>, a: nat, l: nat, h: nat)
    requires a <= |s| && l <= h <= |s| - a
    ensures s[a..][l..h] == s[a + l..a + h]
  {
  }

  lemma SliceOfPrefix<T>(s: seq<T>, n: nat, l: nat, h: nat)
    requires l <= h <= n <= |s|
    ensures s[..n][l..h] == s[l..h]
  {
  }

  lemma AppendAssoc<T>(a: seq<T>, b: seq<T>, c: seq<T>)
    ensures a + b + c == a + (b + c)
  {
  }

  lemma Reassemble(s: string, i: nat, n: nat)
    requires i + n <= |s|
    ensures s[..i] + s[i..i + n] + s[i + n..] == s
  {
  }

  lemma JoinCons(head: string, tail: seq<string>, sep: string)
    requires tail != []
    ensures Join([head] + tail, sep) == head + sep + Join(tail, sep)
  {
    assert ([head] + tail)[1..] == tail;
  }

  /** No piece of a split contains the separator. */
  lemma {:induction false} SplitPiecesFree(s: string, sep: string)
    requires sep != []
    ensures forall p, j :: p in Split(s, sep) ==> !OccursAt(p, sep, j)
    decreases |s|
  {
    match IndexFrom(s, sep, 0)
    case None =>
    case Some(i) =>
      var rest := s[i + |sep|..];
      SplitPiecesFree(rest, sep);
      forall j | OccursAt(s[..i], sep, j) ensures false {
        assert s[..i][j..j + |sep|] == s[j..j + |sep|];
        assert OccursAt(s, sep, j);
      }
  }

  /** The lines of a text, as `text.split('\n')` gives them. */
  function Lines(text: string): seq<string> {
    Split(text, "\n")
  }

  /** `lines.filter(l => l.trim())`: the lines that are not blank, in order. */
  function NonBlank(lines: seq<string>): (r: seq<string>)
    ensures |r| <= |lines|
    ensures forall l :: l in r <==> l in lines && !AllSpace(l)
  {
    if lines == [] then []
    else
      var init := lines[..|lines| - 1];
      var last := lines[|lines| - 1];
      assert lines == init + [last];
      if AllSpace(last) then NonBlank(init) else NonBlank(init) + [last]
  }

  /** Filtering a concatenation filters each part: the kept lines keep
      their order and their repetitions. */
  lemma {:induction false} NonBlankAppend(a: seq<string>, b: seq<string>)
    ensures NonBlank(a + b) == NonBlank(a) + NonBlank(b)
    decreases |b|
  {
    if b == [] {
      assert a + b == a;
    } else {
      var init := b[..|b| - 1];
      assert (a + b)[..|a + b| - 1] == a + init;
      assert (a + b)[|a + b| - 1] == b[|b| - 1];
      NonBlankAppend(a, init);
    }
  }

  /** A single line is kept exactly when it is not blank. */
  lemma NonBlankSingle(l: string)
    ensures NonBlank([l]) == if AllSpace(l) then [] else [l]
  {
    assert [l][..0] == [];
  }

  /** Case folding of the ASCII and Latin-1 letters (the accented letters
      of Spanish among them): an upper-case letter maps to its lower-case
      form, every other character to itself. */
  function Lower(c: char): char {
    if 'A' <= c <= 'Z' || ('\U{00C0}' <= c <= '\U{00DE}' && c != '\U{00D7}') then (c as int + 32) as char else c
  }

  function LowerAll(s: string): (r: string)
    ensures |r| == |s| && forall i :: 0 <= i < |s| ==> r[i] == Lower(s[i])
  {
    seq(|s|, i requires 0 <= i < |s| => Lower(s[i]))
  }

  /** `a` and `b` are the same text up to ASCII case. */
  predicate SameIgnoringCase(a: string, b: string) {
    |a| == |b| && forall i :: 0 <= i < |a| ==> Lower(a[i]) == Lower(b[i])
  }

  function DigitChar(d: nat): (c: char)
    requires d < 10
    ensures '0' <= c <= '9'
  {
    ('0' as int + d) as char
  }

  function DigitValue(c: char): nat
    requires '0' <= c <= '9'
  {
    c as int - '0' as int
  }

  /** A natural number as `${n}` renders it. */
  function Decimal(n: nat): (r: string)
    ensures r != []
    ensures forall i :: 0 <= i < |r| ==> '0' <= r[i] <= '9'
    ensures |r| > 1 ==> r[0] != '0'
  {
    if n < 10 then [DigitChar(n)] else Decimal(n / 10) + [DigitChar(n % 10)]
  }

  /** Reading decimal digits back. */
  function DecimalValue(s: string): nat
    requires forall i :: 0 <= i < |s| ==> '0' <= s[i] <= '9'
  {
    if s == [] then 0 else 10 * DecimalValue(s[..|s| - 1]) + DigitValue(s[|s| - 1])
  }

  /** The rendering is exact: the digits read back as the number. */
  lemma {:induction false} DecimalRoundTrip(n: nat)
    ensures DecimalValue(Decimal(n)) == n
  {
    if n >= 10 {
      DecimalRoundTrip(n / 10);
      var r := Decimal(n);
      assert r[..|r| - 1] == Decimal(n / 10);
    }
  }
}
