/**
 * The two regular-expression shapes the field extractors use, written as
 * explicit scanners.
 *
 * `LABEL\s*(.*?)STOP` with the `s` flag: the match starts at the first
 * occurrence of LABEL; `\s*` greedily takes the white space after it, up to
 * `w`, and the lazy group ends at the first position at or after `w` where
 * STOP matches. When STOP matches nowhere at or after `w`, backtracking gives
 * white space back to the lazy group, which then captures the empty string if
 * STOP matches inside the skipped white space. A later occurrence of LABEL
 * cannot do better, because its STOP would have to lie even further right.
 *
 * `LABEL\s*(\d+)` and `LABEL\s*(\d+\.?\d*)`: an occurrence of LABEL not
 * followed by a digit (after white space) is skipped and the next one tried.
 */
module Patterns {
  import opened Wrappers
  import opened Text

  /** The alternatives that end a lazy capture */
  datatype Stop =
    | LineEnd           // \n
    | RationaleEnd      // \n(?:- ConfidenceScore|- AllocationPercentage|\s*$)
    | InsightEnd        // \n(?:- \(Optional\) SourceDetails|\s*$)
    | SourceDetailsEnd  // (?:\n---END OF RESPONSE---|\s*$)

  const EndOfResponse := "\n---END OF RESPONSE---"

  /** `stop` matches at position `j` of `s` (a lookahead: it consumes nothing) */
  predicate StopAt(s: string, j: nat, stop: Stop) {
    match stop
    case LineEnd => j < |s| && s[j] == '\n'
    case RationaleEnd =>
      j < |s| && s[j] == '\n'
      && (HasAt(s, j + 1, "- ConfidenceScore") || HasAt(s, j + 1, "- AllocationPercentage") || AllSpace(s[j + 1..]))
    case InsightEnd =>
      j < |s| && s[j] == '\n' && (HasAt(s, j + 1, "- (Optional) SourceDetails") || AllSpace(s[j + 1..]))
    case SourceDetailsEnd =>
      j <= |s| && (HasAt(s, j, EndOfResponse) || AllSpace(s[j..]))
  }

  /** The first position at or after `from` where `stop` matches */
  function FirstStop(s: string, from: nat, stop: Stop): (r: Option<nat>)
    requires from <= |s|
    ensures r.Some? ==> from <= r.value <= |s| && StopAt(s, r.value, stop)
    ensures r.Some? ==> forall j :: from <= j < r.value ==> !StopAt(s, j, stop)
    ensures r.None? ==> forall j :: from <= j <= |s| ==> !StopAt(s, j, stop)
    decreases |s| - from
  {
    if StopAt(s, from, stop) then Some(from)
    else if from == |s| then None
    else FirstStop(s, from + 1, stop)
  }

  /** A capture after `.trim()` */
  function TrimmedOption(o: Option<string>): (r: Option<string>)
    ensures r.Some? ==> o.Some? && r.value == Trim(o.value)
    ensures r.Some? ==> r.value == [] || (!IsSpace(r.value[0]) && !IsSpace(r.value[|r.value| - 1]))
  {
    match o
    case None => None
    case Some(v) => Some(Trim(v))
  }

  /** A capture that is present and not empty, as JavaScript's truthiness of a string */
  predicate NonEmpty(o: Option<string>) {
    o.Some? && o.value != []
  }

  /** The group of `LABEL\s*(.*?)STOP` (with the `s` flag), untrimmed */
  function LabelledCapture(s: string, tag: string, stop: Stop): (r: Option<string>)
    ensures r.Some? ==> Contains(s, tag)
    ensures r.Some? && r.value != [] ==> !IsSpace(r.value[0])
  {
    match IndexOf(s, tag)
    case None => None
    case Some(p) => CaptureFrom(s, p + |tag|, stop)
  }

  /** `\s*(.*?)STOP` matched from `q`, just after the label */
  function CaptureFrom(s: string, q: nat, stop: Stop): (r: Option<string>)
    requires q <= |s|
    ensures r.Some? && r.value != [] ==> !IsSpace(r.value[0])
  {
    var w := RunEnd(s, q, Space);
    match FirstStop(s, w, stop)
    case Some(j) => Some(s[w..j])
    case None => if FirstStop(s, q, stop).Some? then Some([]) else None
  }

  /** The digits of `\d+` and, when a fraction is allowed, those of `\.?\d*` */
  datatype Numeral = Numeral(whole: string, fraction: string)

  /** The groups of `LABEL\s*(\d+)` (or `LABEL\s*(\d+\.?\d*)` when `fractional`) at or after `from` */
  function NumeralAfter(s: string, tag: string, from: nat, fractional: bool): (r: Option<Numeral>)
    requires |tag| > 0 && from <= |s|
    ensures r.Some? ==> r.value.whole != [] && AllIn(r.value.whole, Digit) && AllIn(r.value.fraction, Digit)
    ensures r.Some? && !fractional ==> r.value.fraction == []
    ensures r.Some? ==> Contains(s, tag)
    decreases |s| - from
  {
    match IndexOfFrom(s, tag, from)
    case None => None
    case Some(p) =>
      var w := RunEnd(s, p + |tag|, Space);
      var d := RunEnd(s, w, Digit);
      if d == w then
        NumeralAfter(s, tag, p + 1, fractional)
      else if fractional && d < |s| && s[d] == '.' then
        Some(Numeral(s[w..d], s[d + 1..RunEnd(s, d + 1, Digit)]))
      else
        Some(Numeral(s[w..d], []))
  }

  /** `p` is the first occurrence of `tag` in `s`. */
  predicate FirstOccurrence(s: string, tag: string, p: nat) {
    HasAt(s, p, tag) && forall q :: 0 <= q < p ==> !HasAt(s, q, tag)
  }

  lemma IndexOfFirst(s: string, tag: string, p: nat)
    requires FirstOccurrence(s, tag, p)
    ensures IndexOf(s, tag) == Some(p)
    ensures IndexOfFrom(s, tag, 0) == Some(p)
  {
    assert Contains(s, tag);
  }

  /**
   * When the field is laid out as LABEL, white space, a value that starts with
   * a visible character and contains no STOP, then STOP, the capture is the value.
   */
  lemma LabelledCaptureOfField(s: string, tag: string, stop: Stop, p: nat, a: nat, b: nat)
    requires FirstOccurrence(s, tag, p)
    requires p + |tag| <= a < b <= |s|
    requires forall m :: p + |tag| <= m < a ==> IsSpace(s[m])
    requires !IsSpace(s[a])
    requires forall j :: a <= j < b ==> !StopAt(s, j, stop)
    requires StopAt(s, b, stop)
    ensures LabelledCapture(s, tag, stop) == Some(s[a..b])
  {
    assert FirstStop(s, a, stop) == Some(b) by {
      FirstStopIs(s, a, b, stop);
    }
    assert RunEnd(s, p + |tag|, Space) == a by {
      RunEndAt(s, p + |tag|, a, Space);
    }
    CaptureFromAt(s, p + |tag|, stop, a, b);
    IndexOfFirst(s, tag, p);
    CaptureAfter(s, tag, stop, p);
  }

  /** With the label first at `p`, the capture is the one matched just after it. */
  lemma CaptureAfter(s: string, tag: string, stop: Stop, p: nat)
    requires IndexOf(s, tag) == Some(p)
    ensures p + |tag| <= |s| && LabelledCapture(s, tag, stop) == CaptureFrom(s, p + |tag|, stop)
  {
  }

  /** The unfolding of `CaptureFrom` once the white-space run and the stop after it are known */
  lemma CaptureFromAt(s: string, q: nat, stop: Stop, a: nat, b: nat)
    requires q <= |s| && RunEnd(s, q, Space) == a
    requires a <= b <= |s| && FirstStop(s, a, stop) == Some(b)
    ensures CaptureFrom(s, q, stop) == Some(s[a..b])
  {
  }

  /**
   * `LABEL\s*(\d+)` on a field laid out as LABEL, white space, digits, then a
   * non-digit or the end; with a fraction allowed, the digits must not be
   * followed by a `.`.
   */
  lemma NumeralOfField(s: string, tag: string, p: nat, a: nat, d: nat, fractional: bool)
    requires |tag| > 0 && FirstOccurrence(s, tag, p)
    requires p + |tag| <= a < d <= |s|
    requires forall m :: p + |tag| <= m < a ==> IsSpace(s[m])
    requires forall m :: a <= m < d ==> IsDigit(s[m])
    requires d == |s| || !IsDigit(s[d])
    requires fractional ==> d == |s| || s[d] != '.'
    ensures NumeralAfter(s, tag, 0, fractional) == Some(Numeral(s[a..d], []))
  {
    IndexOfFirst(s, tag, p);
    RunEndAt(s, p + |tag|, a, Space);
    RunEndAt(s, a, d, Digit);
    NumeralAt(s, tag, 0, p, a, d, fractional);
  }

  /** `LABEL\s*(\d+\.?\d*)` on a field laid out as LABEL, white space, digits, `.`, digits, then a non-digit or the end */
  lemma FractionOfField(s: string, tag: string, p: nat, a: nat, d: nat, e: nat)
    requires |tag| > 0 && FirstOccurrence(s, tag, p)
    requires p + |tag| <= a < d < e <= |s|
    requires forall m :: p + |tag| <= m < a ==> IsSpace(s[m])
    requires forall m :: a <= m < d ==> IsDigit(s[m])
    requires s[d] == '.'
    requires forall m :: d + 1 <= m < e ==> IsDigit(s[m])
    requires e == |s| || !IsDigit(s[e])
    ensures NumeralAfter(s, tag, 0, true) == Some(Numeral(s[a..d], s[d + 1..e]))
  {
    IndexOfFirst(s, tag, p);
    RunEndAt(s, p + |tag|, a, Space);
    RunEndAt(s, a, d, Digit);
    RunEndAt(s, d + 1, e, Digit);
    FractionAt(s, tag, 0, p, a, d, e);
  }

  /** The unfolding of `NumeralAfter` once the match and both runs are known */
  lemma NumeralAt(s: string, tag: string, from: nat, p: nat, a: nat, d: nat, fractional: bool)
    requires |tag| > 0 && from <= |s|
    requires IndexOfFrom(s, tag, from) == Some(p)
    requires RunEnd(s, p + |tag|, Space) == a
    requires RunEnd(s, a, Digit) == d && a < d
    requires fractional ==> d == |s| || s[d] != '.'
    ensures NumeralAfter(s, tag, from, fractional) == Some(Numeral(s[a..d], []))
  {
  }

  /** The unfolding of `NumeralAfter` once the match, the digits, the dot and the fraction's digits are known */
  lemma FractionAt(s: string, tag: string, from: nat, p: nat, a: nat, d: nat, e: nat)
    requires |tag| > 0 && from <= |s|
    requires IndexOfFrom(s, tag, from) == Some(p)
    requires RunEnd(s, p + |tag|, Space) == a
    requires RunEnd(s, a, Digit) == d && a < d < |s| && s[d] == '.'
    requires RunEnd(s, d + 1, Digit) == e
    ensures NumeralAfter(s, tag, from, true) == Some(Numeral(s[a..d], s[d + 1..e]))
  {
  }

  /** The first stop at or after `from` is the one at `j` when none lies between. */
  lemma {:induction false} FirstStopIs(s: string, from: nat, j: nat, stop: Stop)
    requires from <= j <= |s|
    requires forall m :: from <= m < j ==> !StopAt(s, m, stop)
    requires StopAt(s, j, stop)
    ensures FirstStop(s, from, stop) == Some(j)
    decreases j - from
  {
    if from < j {
      FirstStopIs(s, from + 1, j, stop);
    }
  }
}
