/**
 * The string primitives the parsing layer relies on, as JavaScript defines them:
 * the white space of `\s` and `String.prototype.trim`, the character classes
 * `\w`, `\d` and `[\w.-]`, `indexOf`, `split` with a literal separator,
 * `parseInt`/`parseFloat` of a digit run, and decimal rendering of an index.
 */
module Text {
  import opened Wrappers

  /** The white space of `\s` and `trim`: WhiteSpace and LineTerminator of ECMAScript. */
  predicate IsSpace(c: char) {
    c == '\t' || c == '\n' || c == '\U{000B}' || c == '\U{000C}' || c == '\r' || c == ' '
    || c == '\U{00A0}' || c == '\U{1680}' || ('\U{2000}' <= c <= '\U{200A}')
    || c == '\U{2028}' || c == '\U{2029}' || c == '\U{202F}' || c == '\U{205F}'
    || c == '\U{3000}' || c == '\U{FEFF}'
  }

  /** `\w` */
  predicate IsWordChar(c: char) {
    'a' <= c <= 'z' || 'A' <= c <= 'Z' || '0' <= c <= '9' || c == '_'
  }

  /** `\d` (ASCII digits only, as in JavaScript) */
  predicate IsDigit(c: char) {
    '0' <= c <= '9'
  }

  /** `[\w.-]`, the characters a ticker symbol is made of */
  predicate IsTickerChar(c: char) {
    IsWordChar(c) || c == '.' || c == '-'
  }

  datatype CharClass = Space | Word | Digit | TickerSymbol

  predicate InClass(c: char, k: CharClass) {
    match k
    case Space => IsSpace(c)
    case Word => IsWordChar(c)
    case Digit => IsDigit(c)
    case TickerSymbol => IsTickerChar(c)
  }

  predicate AllIn(s: string, k: CharClass) {
    forall i :: 0 <= i < |s| ==> InClass(s[i], k)
  }

  predicate AllSpace(s: string) {
    forall i :: 0 <= i < |s| ==> IsSpace(s[i])
  }

  /** End of the longest run of class `k` starting at `i` (a greedy `k*`). */
  function RunEnd(s: string, i: nat, k: CharClass): (j: nat)
    requires i <= |s|
    ensures i <= j <= |s|
    ensures forall m :: i <= m < j ==> InClass(s[m], k)
    ensures j == |s| || !InClass(s[j], k)
    decreases |s| - i
  {
    if i < |s| && InClass(s[i], k) then RunEnd(s, i + 1, k) else i
  }

  /** A run of class `k` over `s[i..j]` that stops at `j` ends at `j`. */
  lemma RunEndAt(s: string, i: nat, j: nat, k: CharClass)
    requires i <= j <= |s|
    requires forall m :: i <= m < j ==> InClass(s[m], k)
    requires j == |s| || !InClass(s[j], k)
    ensures RunEnd(s, i, k) == j
  {
  }

  /** The text of a run is made of its class. */
  lemma RunSlice(s: string, i: nat, k: CharClass)
    requires i <= |s|
    ensures AllIn(s[i..RunEnd(s, i, k)], k)
  {
    var j := RunEnd(s, i, k);
    assert forall m :: 0 <= m < j - i ==> s[i..j][m] == s[i + m];
  }

  lemma AllSpaceConcat(a: string, b: string)
    requires AllSpace(a) && AllSpace(b)
    ensures AllSpace(a + b)
  {
  }

  /** `s` without its leading white space */
  function TrimStart(s: string): (r: string)
    ensures |r| <= |s| && r == s[|s| - |r|..]
    ensures AllSpace(s[..|s| - |r|])
    ensures r == [] || !IsSpace(r[0])
  {
    var j := RunEnd(s, 0, Space);
    assert s[..j] == s[..|s| - |s[j..]|];
    s[j..]
  }

  /** `s` without its trailing white space */
  function TrimEnd(s: string): (r: string)
    ensures |r| <= |s| && r == s[..|r|]
    ensures AllSpace(s[|r|..])
    ensures r == [] || !IsSpace(r[|r| - 1])
    decreases |s|
  {
    if s != [] && IsSpace(s[|s| - 1]) then
      var r := TrimEnd(s[..|s| - 1]);
      assert s[|r|..] == s[..|s| - 1][|r|..] + [s[|s| - 1]];
      r
    else
      s
  }

  /** Trailing white space after a visible character is exactly what TrimEnd removes. */
  lemma {:induction false} TrimEndOfSpaced(x: string, w: string)
    requires x == [] || !IsSpace(x[|x| - 1])
    requires AllSpace(w)
    ensures TrimEnd(x + w) == x
    decreases |w|
  {
    if w == [] {
      assert x + w == x;
    } else {
      assert (x + w)[..|x + w| - 1] == x + w[..|w| - 1];
      TrimEndOfSpaced(x, w[..|w| - 1]);
    }
  }

  /** JavaScript's `String.prototype.trim` */
  function Trim(s: string): (r: string)
    ensures |r| <= |s|
    ensures r == [] || (!IsSpace(r[0]) && !IsSpace(r[|r| - 1]))
  {
    var t := TrimStart(s);
    var r := TrimEnd(t);
    assert r != [] ==> r[0] == t[0];
    r
  }

  /** Trimming leaves nothing exactly when the text is all white space. */
  lemma TrimEmptyIff(s: string)
    ensures Trim(s) == [] <==> AllSpace(s)
  {
    var t := TrimStart(s);
    var r := TrimEnd(t);
    assert s == s[..|s| - |t|] + t;
    if r == [] {
      assert t == t[|r|..];
      AllSpaceConcat(s[..|s| - |t|], t);
    }
  }

  /** A string that neither starts nor ends with white space is its own trim. */
  lemma TrimUnchanged(s: string)
    requires s == [] || (!IsSpace(s[0]) && !IsSpace(s[|s| - 1]))
    ensures Trim(s) == s
  {
    assert RunEnd(s, 0, Space) == 0;
    assert s[0..] == s;
  }

  lemma TrimIdempotent(s: string)
    ensures Trim(Trim(s)) == Trim(s)
  {
    TrimUnchanged(Trim(s));
  }

  /** Leading white space does not change the trim. */
  lemma TrimAfterSpace(w: string, x: string)
    requires AllSpace(w)
    ensures Trim(w + x) == Trim(x)
  {
    var s := w + x;
    var j := RunEnd(s, 0, Space);
    var jx := RunEnd(x, 0, Space);
    RunEndShift(w, x, 0, Space);
    RunEndOverRun(w + x, 0, |w|, Space);
    assert TrimStart(s) == s[j..] == x[jx..] == TrimStart(x);
  }

  /** Trailing white space does not change the trim. */
  lemma TrimBeforeSpace(x: string, w: string)
    requires AllSpace(w)
    ensures Trim(x + w) == Trim(x)
    decreases |w|
  {
    if w == [] {
      assert x + w == x;
    } else {
      var s := x + w;
      var w' := w[..|w| - 1];
      assert s == (x + w') + [w[|w| - 1]];
      var t := TrimStart(s);
      var t' := TrimStart(x + w');
      TrimStartOfSpaceEnded(x + w', w[|w| - 1]);
      TrimBeforeSpace(x, w');
    }
  }

  lemma TrimStartOfSpaceEnded(s: string, c: char)
    requires IsSpace(c)
    ensures TrimEnd(TrimStart(s + [c])) == TrimEnd(TrimStart(s))
  {
    var t := TrimStart(s + [c]);
    var u := TrimStart(s);
    RunEndAppend(s, c);
    if AllSpace(s) {
      assert RunEnd(s, 0, Space) == |s|;
      assert u == [];
      assert t == [] || t == [c];
    } else {
      assert t == u + [c];
      assert t[..|t| - 1] == u;
    }
  }

  lemma RunEndAppend(s: string, c: char)
    requires IsSpace(c)
    ensures RunEnd(s, 0, Space) < |s| ==> RunEnd(s + [c], 0, Space) == RunEnd(s, 0, Space)
    ensures RunEnd(s, 0, Space) == |s| ==> RunEnd(s + [c], 0, Space) == |s| + 1
  {
    var j := RunEnd(s, 0, Space);
    RunEndPrefix(s, [c], 0, Space);
    if j == |s| {
      RunEndOverRun(s + [c], 0, |s| + 1, Space);
    }
  }

  /** A run in `a + b` that starts inside `a` and ends inside `a` is the run in `a`. */
  lemma RunEndPrefix(a: string, b: string, i: nat, k: CharClass)
    requires i <= |a|
    ensures RunEnd(a, i, k) < |a| ==> RunEnd(a + b, i, k) == RunEnd(a, i, k)
    ensures RunEnd(a, i, k) == |a| ==> RunEnd(a + b, i, k) == RunEnd(a + b, |a|, k)
    decreases |a| - i
  {
    if i < |a| && InClass(a[i], k) {
      RunEndPrefix(a, b, i + 1, k);
    }
  }

  /** Scanning a run in `w + x` from inside `x` is scanning it in `x`. */
  lemma RunEndShift(w: string, x: string, i: nat, k: CharClass)
    requires i <= |x|
    ensures RunEnd(w + x, |w| + i, k) == |w| + RunEnd(x, i, k)
    decreases |x| - i
  {
    if i < |x| && InClass(x[i], k) {
      RunEndShift(w, x, i + 1, k);
    }
  }

  /** A run that covers `s[i..m]` continues from `m`. */
  lemma RunEndOverRun(s: string, i: nat, m: nat, k: CharClass)
    requires i <= m <= |s|
    requires forall p :: i <= p < m ==> InClass(s[p], k)
    ensures RunEnd(s, i, k) == RunEnd(s, m, k)
    decreases m - i
  {
    if i < m {
      RunEndOverRun(s, i + 1, m, k);
    }
  }

  lemma TickerCharNotSpace(c: char)
    requires IsTickerChar(c)
    ensures !IsSpace(c)
  {
  }

  /** A run of ticker characters is its own trim. */
  lemma TrimTickerRun(s: string)
    requires AllIn(s, TickerSymbol)
    ensures Trim(s) == s
  {
    if s != [] {
      TickerCharNotSpace(s[0]);
      TickerCharNotSpace(s[|s| - 1]);
    }
    TrimUnchanged(s);
  }

  /** A string without white space is its own trim. */
  lemma TrimNoSpace(s: string)
    requires forall i :: 0 <= i < |s| ==> !IsSpace(s[i])
    ensures Trim(s) == s
  {
    TrimUnchanged(s);
  }

  // ---------------------------------------------------------------------------
  // Literal search: `indexOf`, `includes`, `split`

  predicate HasAt(s: string, p: nat, lit: string) {
    p + |lit| <= |s| && s[p..p + |lit|] == lit
  }

  predicate Contains(s: string, lit: string) {
    exists p :: 0 <= p <= |s| && HasAt(s, p, lit)
  }

  /** `s.indexOf(lit, from)` for `from <= |s|`, with -1 as None */
  function IndexOfFrom(s: string, lit: string, from: nat): (r: Option<nat>)
    requires from <= |s|
    ensures r.Some? ==> from <= r.value <= |s| && HasAt(s, r.value, lit)
    ensures r.Some? ==> forall q :: from <= q < r.value ==> !HasAt(s, q, lit)
    ensures r.None? ==> forall q :: from <= q <= |s| ==> !HasAt(s, q, lit)
    decreases |s| - from
  {
    if HasAt(s, from, lit) then Some(from)
    else if from == |s| then None
    else IndexOfFrom(s, lit, from + 1)
  }

  function IndexOf(s: string, lit: string): (r: Option<nat>)
    ensures r.Some? <==> Contains(s, lit)
    ensures r.Some? ==> HasAt(s, r.value, lit) && forall q :: 0 <= q < r.value ==> !HasAt(s, q, lit)
  {
    IndexOfFrom(s, lit, 0)
  }

  /** An occurrence inside a slice is an occurrence in the whole string. */
  lemma HasAtSlice(s: string, a: nat, b: nat, q: nat, lit: string)
    requires a <= b <= |s|
    requires HasAt(s[a..b], q, lit)
    ensures HasAt(s, a + q, lit)
  {
    forall i | 0 <= i < |lit|
      ensures s[a + q + i] == lit[i]
    {
      assert s[a..b][q..q + |lit|][i] == lit[i];
    }
    assert s[a + q..a + q + |lit|] == lit;
  }

  /** The pieces of a split glued back together with the separator. */
  function Join(parts: seq<string>, sep: string): string
    requires |parts| >= 1
  {
    if |parts| == 1 then parts[0] else parts[0] + sep + Join(parts[1..], sep)
  }

  /** The last piece of a split is a suffix of the text. */
  lemma {:induction false} JoinEndsWithLast(parts: seq<string>, sep: string)
    requires |parts| >= 1
    ensures var j, last := Join(parts, sep), parts[|parts| - 1];
      |last| <= |j| && j[|j| - |last|..] == last
    decreases |parts|
  {
    if |parts| > 1 {
      JoinEndsWithLast(parts[1..], sep);
      var j := Join(parts[1..], sep);
      assert Join(parts, sep) == parts[0] + sep + j;
      assert parts[1..][|parts| - 2] == parts[|parts| - 1];
    }
  }

  /** No occurrence of `lit` starts in `s[a..b]`, so the slice does not contain it. */
  lemma NoOccurrenceInSlice(s: string, a: nat, b: nat, lit: string)
    requires a <= b <= |s| && |lit| > 0
    requires forall q :: a <= q < b ==> !HasAt(s, q, lit)
    ensures !Contains(s[a..b], lit)
  {
    forall q | 0 <= q <= b - a && HasAt(s[a..b], q, lit)
      ensures false
    {
      HasAtSlice(s, a, b, q, lit);
    }
  }

  function SplitFrom(s: string, sep: string, from: nat): (parts: seq<string>)
    requires |sep| > 0 && from <= |s|
    ensures |parts| >= 1
    ensures Join(parts, sep) == s[from..]
    ensures forall i :: 0 <= i < |parts| ==> !Contains(parts[i], sep)
    ensures |parts| == 1 <==> IndexOfFrom(s, sep, from).None?
    decreases |s| - from
  {
    match IndexOfFrom(s, sep, from)
    case None =>
      NoOccurrenceInSlice(s, from, |s|, sep);
      assert s[from..] == s[from..|s|];
      [s[from..]]
    case Some(p) =>
      var rest := SplitFrom(s, sep, p + |sep|);
      NoOccurrenceInSlice(s, from, p, sep);
      SplitStep(s, sep, from, p, rest);
      [s[from..p]] + rest
  }

  lemma SplitStep(s: string, sep: string, from: nat, p: nat, rest: seq<string>)
    requires from <= p && p + |sep| <= |s| && HasAt(s, p, sep)
    requires |rest| >= 1 && Join(rest, sep) == s[p + |sep|..]
    requires forall i :: 0 <= i < |rest| ==> !Contains(rest[i], sep)
    requires !Contains(s[from..p], sep)
    ensures Join([s[from..p]] + rest, sep) == s[from..]
    ensures forall i :: 0 <= i < |rest| + 1 ==> !Contains(([s[from..p]] + rest)[i], sep)
  {
    var parts := [s[from..p]] + rest;
    assert parts[1..] == rest;
    assert Join(parts, sep) == s[from..] by {
      SliceAround(s, from, p, p + |sep|);
    }
    assert forall i :: 1 <= i < |rest| + 1 ==> parts[i] == rest[i - 1];
  }

  lemma SliceAround(s: string, a: nat, b: nat, c: nat)
    requires a <= b <= c <= |s|
    ensures s[a..] == s[a..b] + s[b..c] + s[c..]
  {
  }

  /** `s.split(sep)` for a non-empty literal separator */
  function Split(s: string, sep: string): (parts: seq<string>)
    requires |sep| > 0
    ensures |parts| >= 1
    ensures Join(parts, sep) == s
    ensures forall i :: 0 <= i < |parts| ==> !Contains(parts[i], sep)
    ensures |parts| == 1 <==> !Contains(s, sep)
  {
    SplitFrom(s, sep, 0)
  }

  // ---------------------------------------------------------------------------
  // Digit runs: `parseInt(ds, 10)`, `parseFloat(whole + "." + fraction)`, and
  // the decimal rendering of an index inside a template literal

  function DigitValue(c: char): nat
    requires IsDigit(c)
  {
    c as int - '0' as int
  }

  function DigitChar(d: nat): (c: char)
    requires d < 10
    ensures IsDigit(c) && DigitValue(c) == d
  {
    ('0' as int + d) as char
  }

  /** The value of a run of decimal digits */
  function DecimalValue(ds: string): nat
    requires AllIn(ds, Digit)
    decreases |ds|
  {
    if ds == [] then 0 else DecimalValue(ds[..|ds| - 1]) * 10 + DigitValue(ds[|ds| - 1])
  }

  function Pow10(k: nat): (r: nat)
    ensures r >= 1
  {
    if k == 0 then 1 else 10 * Pow10(k - 1)
  }

  /** The value of `whole.fraction` as a real number (an empty fraction is allowed) */
  function DecimalReal(whole: string, fraction: string): (r: real)
    requires AllIn(whole, Digit) && AllIn(fraction, Digit)
    ensures r >= DecimalValue(whole) as real
  {
    DecimalValue(whole) as real + DecimalValue(fraction) as real / Pow10(|fraction|) as real
  }

  /** `${n}` for a natural number */
  function NatToString(n: nat): (s: string)
    ensures |s| >= 1 && AllIn(s, Digit)
    decreases n
  {
    if n < 10 then [DigitChar(n)] else NatToString(n / 10) + [DigitChar(n % 10)]
  }

  /** Reading back the rendering of `n` gives `n`. */
  lemma {:induction false} DecimalValueOfNatToString(n: nat)
    ensures DecimalValue(NatToString(n)) == n
    decreases n
  {
    if n >= 10 {
      var s := NatToString(n);
      DecimalValueOfNatToString(n / 10);
      assert s[..|s| - 1] == NatToString(n / 10);
    }
  }

  /** Distinct numbers render as distinct strings. */
  lemma NatToStringInjective(m: nat, n: nat)
    requires NatToString(m) == NatToString(n)
    ensures m == n
  {
    DecimalValueOfNatToString(m);
    DecimalValueOfNatToString(n);
  }

  /** Appending one element after a concatenation */
  lemma AppendOne<T>(a: seq<T>, b: seq<T>, x: T)
    ensures a + (b + [x]) == (a + b) + [x]
  {
  }
}
