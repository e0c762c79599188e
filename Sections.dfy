/**
 * The section splitter shared by the portfolio parser and the stock analysis
 * page: `text.split(/SECTION: (\w+)/s)`. Splitting on a regular expression
 * with one capture group yields the text before the first marker, then for
 * each marker its captured name followed by the text up to the next marker.
 */
module Sections {
  import opened Wrappers
  import opened Text

  const Marker := "SECTION: "

  /** `SECTION: ` followed by at least one word character starts at `p`. */
  predicate MarkerAt(s: string, p: nat) {
    HasAt(s, p, Marker) && p + |Marker| < |s| && IsWordChar(s[p + |Marker|])
  }

  /** The leftmost match of `SECTION: \w` at or after `from` */
  function FindMarker(s: string, from: nat): (r: Option<nat>)
    requires from <= |s|
    ensures r.Some? ==> from <= r.value && MarkerAt(s, r.value)
    ensures r.Some? ==> forall q :: from <= q < r.value ==> !MarkerAt(s, q)
    ensures r.None? ==> forall q :: from <= q <= |s| ==> !MarkerAt(s, q)
    decreases |s| - from
  {
    if MarkerAt(s, from) then Some(from)
    else if from == |s| then None
    else FindMarker(s, from + 1)
  }

  /** Glues split pieces back together: text, `SECTION: `, name, text, ... */
  function Rejoin(parts: seq<string>): string
    requires |parts| % 2 == 1
  {
    if |parts| == 1 then parts[0] else parts[0] + Marker + parts[1] + Rejoin(parts[2..])
  }

  /** A marker inside a slice is a marker in the whole string. */
  lemma MarkerAtSlice(s: string, a: nat, b: nat, q: nat)
    requires a <= b <= |s| && MarkerAt(s[a..b], q)
    ensures MarkerAt(s, a + q)
  {
    HasAtSlice(s, a, b, q, Marker);
    assert s[a..b][q + |Marker|] == s[a + q + |Marker|];
  }

  lemma NoMarkerInSlice(s: string, a: nat, b: nat)
    requires a <= b <= |s|
    requires forall q :: a <= q < b ==> !MarkerAt(s, q)
    ensures forall q :: 0 <= q ==> !MarkerAt(s[a..b], q)
  {
    forall q | 0 <= q && MarkerAt(s[a..b], q)
      ensures false
    {
      MarkerAtSlice(s, a, b, q);
    }
  }

  /** The pieces `split(/SECTION: (\w+)/)` produces from `s[from..]` */
  function SplitSectionsFrom(s: string, from: nat): (parts: seq<string>)
    requires from <= |s|
    ensures |parts| % 2 == 1
    ensures Rejoin(parts) == s[from..]
    ensures |parts[0]| <= |s| - from && parts[0] == s[from..from + |parts[0]|]
    ensures forall k :: 0 <= k < |parts| / 2 ==> parts[2 * k + 1] != [] && AllIn(parts[2 * k + 1], Word)
    ensures forall k :: 0 <= k < |parts| / 2 ==> parts[2 * k + 2] == [] || !IsWordChar(parts[2 * k + 2][0])
    ensures forall k, q :: 0 <= k <= |parts| / 2 && 0 <= q ==> !MarkerAt(parts[2 * k], q)
    ensures forall k, q :: 0 <= k < |parts| / 2 && 0 <= q < |parts[2 * k]| ==> !MarkerAt(parts[2 * k] + Marker, q)
    ensures forall k :: 0 <= k < |parts| / 2 - 1 ==> parts[2 * k + 2] != []
    decreases |s| - from
  {
    match FindMarker(s, from)
    case None =>
      NoMarkerInSlice(s, from, |s|);
      assert s[from..] == s[from..|s|];
      [s[from..]]
    case Some(p) =>
      var e := RunEnd(s, p + |Marker|, Word);
      var rest := SplitSectionsFrom(s, e);
      NoMarkerInSlice(s, from, p);
      SplitSectionsStep(s, from, p, e, rest);
      StepLeftmost(s, from, p, e, rest);
      [s[from..p], s[p + |Marker|..e]] + rest
  }

  /**
   * The split is the leftmost, greedy one: no marker starts inside a text
   * piece, even one whose name would reach into the marker after it, and
   * since a name takes every word character it can, a marker never follows
   * a name directly, so every body but the last is non-empty.
   */
  lemma StepLeftmost(s: string, from: nat, p: nat, e: nat, rest: seq<string>)
    requires from <= p && MarkerAt(s, p) && e == RunEnd(s, p + |Marker|, Word)
    requires forall q :: from <= q < p ==> !MarkerAt(s, q)
    requires |rest| % 2 == 1 && Rejoin(rest) == s[e..]
    requires forall k, q :: 0 <= k < |rest| / 2 && 0 <= q < |rest[2 * k]| ==> !MarkerAt(rest[2 * k] + Marker, q)
    requires forall k :: 0 <= k < |rest| / 2 - 1 ==> rest[2 * k + 2] != []
    ensures var parts := [s[from..p], s[p + |Marker|..e]] + rest;
      && (forall k, q :: 0 <= k < |parts| / 2 && 0 <= q < |parts[2 * k]| ==> !MarkerAt(parts[2 * k] + Marker, q))
      && (forall k :: 0 <= k < |parts| / 2 - 1 ==> parts[2 * k + 2] != [])
  {
    var parts := [s[from..p], s[p + |Marker|..e]] + rest;
    OddPlusTwo(|rest|);
    assert s[from..p] + Marker == s[from..p + |Marker|];
    forall q | 0 <= q < p - from
      ensures !MarkerAt(s[from..p] + Marker, q)
    {
      if MarkerAt(s[from..p + |Marker|], q) {
        MarkerAtSlice(s, from, p + |Marker|, q);
      }
    }
    if |rest| > 1 {
      BodyBeforeMarker(s, e, rest);
    }
    forall k, q | 0 <= k < |parts| / 2 && 0 <= q < |parts[2 * k]|
      ensures !MarkerAt(parts[2 * k] + Marker, q)
    {
      if k > 0 {
        assert parts[2 * k] == rest[2 * (k - 1)];
      }
    }
    forall k | 0 <= k < |parts| / 2 - 1
      ensures parts[2 * k + 2] != []
    {
      if k > 0 {
        assert parts[2 * k + 2] == rest[2 * (k - 1) + 2];
      }
    }
  }

  /** After a name's run of word characters the next piece is not empty when a marker follows. */
  lemma BodyBeforeMarker(s: string, e: nat, rest: seq<string>)
    requires e <= |s| && (e == |s| || !IsWordChar(s[e]))
    requires |rest| % 2 == 1 && |rest| > 1 && Rejoin(rest) == s[e..]
    ensures rest[0] != []
  {
    var tail := Rejoin(rest);
    assert tail == rest[0] + Marker + rest[1] + Rejoin(rest[2..]);
    assert tail[|rest[0]|] == 'S';
    assert s[e + |rest[0]|] == 'S';
  }

  lemma SplitSectionsStep(s: string, from: nat, p: nat, e: nat, rest: seq<string>)
    requires from <= p && MarkerAt(s, p) && e == RunEnd(s, p + |Marker|, Word)
    requires forall q :: 0 <= q ==> !MarkerAt(s[from..p], q)
    requires |rest| % 2 == 1 && Rejoin(rest) == s[e..]
    requires |rest[0]| <= |s| - e && rest[0] == s[e..e + |rest[0]|]
    requires forall k :: 0 <= k < |rest| / 2 ==> rest[2 * k + 1] != [] && AllIn(rest[2 * k + 1], Word)
    requires forall k :: 0 <= k < |rest| / 2 ==> rest[2 * k + 2] == [] || !IsWordChar(rest[2 * k + 2][0])
    requires forall k, q :: 0 <= k <= |rest| / 2 && 0 <= q ==> !MarkerAt(rest[2 * k], q)
    ensures var parts := [s[from..p], s[p + |Marker|..e]] + rest;
      && |parts| % 2 == 1
      && Rejoin(parts) == s[from..]
      && |parts[0]| <= |s| - from && parts[0] == s[from..from + |parts[0]|]
      && (forall k :: 0 <= k < |parts| / 2 ==> parts[2 * k + 1] != [] && AllIn(parts[2 * k + 1], Word))
      && (forall k :: 0 <= k < |parts| / 2 ==> parts[2 * k + 2] == [] || !IsWordChar(parts[2 * k + 2][0]))
      && (forall k, q :: 0 <= k <= |parts| / 2 && 0 <= q ==> !MarkerAt(parts[2 * k], q))
  {
    var parts := [s[from..p], s[p + |Marker|..e]] + rest;
    assert parts[2..] == rest;
    OddPlusTwo(|rest|);
    RejoinFront(s, from, p, e, rest);
    assert rest[0] != [] ==> rest[0][0] == s[e];
    StepPieces(parts, s[p + |Marker|..e], rest);
    forall k, q | 0 <= k <= |parts| / 2 && 0 <= q
      ensures !MarkerAt(parts[2 * k], q)
    {
      if k > 0 {
        assert parts[2 * k] == rest[2 * (k - 1)];
      }
    }
  }

  lemma RejoinFront(s: string, from: nat, p: nat, e: nat, rest: seq<string>)
    requires from <= p && p + |Marker| <= e <= |s| && HasAt(s, p, Marker)
    requires |rest| % 2 == 1 && Rejoin(rest) == s[e..]
    ensures Rejoin([s[from..p], s[p + |Marker|..e]] + rest) == s[from..]
  {
    RejoinTwo(s[from..p], s[p + |Marker|..e], rest);
    SliceWithMarker(s, from, p, e);
  }

  lemma RejoinTwo(a: string, name: string, rest: seq<string>)
    requires |rest| % 2 == 1
    ensures |[a, name] + rest| % 2 == 1
    ensures Rejoin([a, name] + rest) == a + Marker + name + Rejoin(rest)
  {
    OddPlusTwo(|rest|);
    assert ([a, name] + rest)[2..] == rest;
  }

  lemma SliceWithMarker(s: string, from: nat, p: nat, e: nat)
    requires from <= p && p + |Marker| <= e <= |s| && HasAt(s, p, Marker)
    ensures s[from..p] + Marker + s[p + |Marker|..e] + s[e..] == s[from..]
  {
    Regroup(s[from..p], Marker, s[p + |Marker|..e], s[e..]);
    assert s[p..e] == s[p..p + |Marker|] + s[p + |Marker|..e];
    SliceAround(s, from, p, e);
  }

  lemma OddPlusTwo(n: nat)
    requires n % 2 == 1
    ensures (n + 2) % 2 == 1 && (n + 2) / 2 == n / 2 + 1
  {
  }

  lemma Regroup(a: string, b: string, c: string, d: string)
    ensures a + b + c + d == a + (b + c) + d
  {
  }

  /** The names and the bodies after them keep their shape when one more section goes in front. */
  lemma StepPieces(parts: seq<string>, name: string, rest: seq<string>)
    requires |parts| == |rest| + 2 && parts[1] == name && parts[2..] == rest && |rest| % 2 == 1
    requires name != [] && AllIn(name, Word)
    requires rest[0] == [] || !IsWordChar(rest[0][0])
    requires forall k :: 0 <= k < |rest| / 2 ==> rest[2 * k + 1] != [] && AllIn(rest[2 * k + 1], Word)
    requires forall k :: 0 <= k < |rest| / 2 ==> rest[2 * k + 2] == [] || !IsWordChar(rest[2 * k + 2][0])
    ensures forall k :: 0 <= k < |parts| / 2 ==> parts[2 * k + 1] != [] && AllIn(parts[2 * k + 1], Word)
    ensures forall k :: 0 <= k < |parts| / 2 ==> parts[2 * k + 2] == [] || !IsWordChar(parts[2 * k + 2][0])
  {
    forall k | 0 <= k < |parts| / 2
      ensures parts[2 * k + 1] != [] && AllIn(parts[2 * k + 1], Word)
      ensures parts[2 * k + 2] == [] || !IsWordChar(parts[2 * k + 2][0])
    {
      if k > 0 {
        assert parts[2 * k + 1] == rest[2 * (k - 1) + 1];
        assert parts[2 * k + 2] == rest[2 * (k - 1) + 2];
      }
    }
  }

  /** `s.split(/SECTION: (\w+)/s)` */
  function SplitSections(s: string): (parts: seq<string>)
    ensures |parts| % 2 == 1
    ensures Rejoin(parts) == s
    ensures forall k :: 0 <= k < |parts| / 2 ==> parts[2 * k + 1] != [] && AllIn(parts[2 * k + 1], Word)
    ensures forall k :: 0 <= k < |parts| / 2 ==> parts[2 * k + 2] == [] || !IsWordChar(parts[2 * k + 2][0])
    ensures forall k, q :: 0 <= k <= |parts| / 2 && 0 <= q ==> !MarkerAt(parts[2 * k], q)
    ensures forall k, q :: 0 <= k < |parts| / 2 && 0 <= q < |parts[2 * k]| ==> !MarkerAt(parts[2 * k] + Marker, q)
    ensures forall k :: 0 <= k < |parts| / 2 - 1 ==> parts[2 * k + 2] != []
  {
    SplitSectionsFrom(s, 0)
  }

  // ---------------------------------------------------------------------------
  // The pieces as the page and the parser loop over them:
  // `for (let i = 1; i < parts.length; i += 2)` visits `parts[i]`, `parts[i + 1]`

  datatype Section = Section(name: string, body: string)

  /** The (name, content) pairs of a split, as split, skipping the text before the first marker */
  function RawSections(parts: seq<string>): (secs: seq<Section>)
    requires |parts| % 2 == 1
    ensures |secs| == |parts| / 2
  {
    seq(|parts| / 2, k requires 0 <= k < |parts| / 2 => Section(parts[2 * k + 1], parts[2 * k + 2]))
  }

  /** The pair the loop visits at `i == 2 * n + 1` */
  lemma RawSectionAt(parts: seq<string>, n: nat)
    requires |parts| % 2 == 1 && 2 * n + 1 < |parts|
    ensures 2 * n + 2 < |parts| && n < |RawSections(parts)|
    ensures RawSections(parts)[n] == Section(parts[2 * n + 1], parts[2 * n + 2])
  {
    HalfIndex(|parts|, n);
  }

  lemma HalfIndex(len: nat, n: nat)
    requires len % 2 == 1 && 2 * n + 1 < len
    ensures 2 * n + 2 < len && n < len / 2
  {
  }
}
