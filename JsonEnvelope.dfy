/**
 * `extractJsonFromString`: isolates the JSON payload of a model answer. The
 * answer is trimmed; when it is wrapped whole in a code fence (optionally
 * tagged `json`) the fenced content is taken, otherwise everything before the
 * earliest `{` or `[` is dropped.
 */
module JsonEnvelope {
  import opened Wrappers
  import opened Text

  const Fence := "```"
  const JsonTag := "json"

  /**
   * The group of `/^```(?:json)?\s*\n?(.*?)\n?\s*```$/s` on trimmed text `t`:
   * both fences must be present without overlapping; the greedy tag is
   * skipped, and the group is what lies between the white space after the tag
   * and the white space before the closing fence.
   */
  function FenceCapture(t: string): (r: Option<string>)
    ensures r.Some? <==> |t| >= 2 * |Fence| && HasAt(t, 0, Fence) && HasAt(t, |t| - |Fence|, Fence)
    ensures r.Some? ==>
      var j := if HasAt(t, |Fence|, JsonTag) then |Fence| + |JsonTag| else |Fence|;
      j <= |t| - |Fence| && r.value == Trim(t[j..|t| - |Fence|])
    ensures r.Some? ==> |r.value| <= |t|
  {
    if |t| >= 2 * |Fence| && HasAt(t, 0, Fence) && HasAt(t, |t| - |Fence|, Fence) then
      var j := if HasAt(t, |Fence|, JsonTag) then |Fence| + |JsonTag| else |Fence|;
      TagBeforeClosingFence(t);
      var u := t[..|t| - |Fence|];
      assert t[j..|t| - |Fence|] == u[j..];
      Some(InnerCapture(u, j))
    else
      None
  }

  /**
   * The lazy group between `\s*` from `j` and the `\s*` before the end of
   * `u`: from the end of the white space run to the start of the trailing
   * white space, or nothing when they meet.
   */
  function InnerCapture(u: string, j: nat): (r: string)
    requires j <= |u|
    ensures r == Trim(u[j..])
  {
    var k := RunEnd(u, j, Space);
    var m := |TrimEnd(u)|;
    InnerTrim(u, j, k, m);
    if k < m then u[k..m] else []
  }

  /** The optional tag ends before the closing fence. */
  lemma TagBeforeClosingFence(t: string)
    requires |t| >= 2 * |Fence| && HasAt(t, 0, Fence) && HasAt(t, |t| - |Fence|, Fence)
    ensures HasAt(t, |Fence|, JsonTag) ==> |Fence| + |JsonTag| <= |t| - |Fence|
  {
    var n := |t| - |Fence|;
    assert t[n] == t[n..n + 3][0] == '`';
    if HasAt(t, |Fence|, JsonTag) && n < 7 {
      assert false;
    }
  }

  /**
   * The white space run from `j` ends at `k` and the trailing white space of
   * `u` starts at `m`: trimming `u[j..]` leaves `u[k..m]`, or nothing.
   */
  lemma InnerTrim(u: string, j: nat, k: nat, m: nat)
    requires j <= k <= |u|
    requires forall i :: j <= i < k ==> IsSpace(u[i])
    requires k == |u| || !IsSpace(u[k])
    requires m <= |u| && AllSpace(u[m..])
    requires m == 0 || !IsSpace(u[m - 1])
    ensures Trim(u[j..]) == if k < m then u[k..m] else []
  {
    assert AllSpace(u[j..k]) by {
      forall i | 0 <= i < k - j ensures IsSpace(u[j..k][i]) {
        assert u[j..k][i] == u[j + i];
      }
    }
    if k < m {
      assert u[j..] == u[j..k] + (u[k..m] + u[m..]);
      TrimAfterSpace(u[j..k], u[k..m] + u[m..]);
      TrimBeforeSpace(u[k..m], u[m..]);
      TrimUnchanged(u[k..m]);
    } else {
      AllSpaceFrom(u, j, k, m);
      TrimEmptyIff(u[j..]);
    }
  }

  /** White space over `[j, k)` and from `m` on, with `m <= k`, is white space from `j` on. */
  lemma AllSpaceFrom(u: string, j: nat, k: nat, m: nat)
    requires j <= k <= |u| && m <= k
    requires AllSpace(u[j..k]) && AllSpace(u[m..])
    ensures AllSpace(u[j..])
  {
    forall i | 0 <= i < |u| - j ensures IsSpace(u[j..][i]) {
      if j + i < k {
        assert u[j..][i] == u[j..k][i];
      } else {
        assert u[j..][i] == u[m..][j + i - m];
      }
    }
  }

  predicate IsJsonStart(c: char) {
    c == '{' || c == '['
  }

  /** `Math.min` of the first `{` and the first `[` that are present */
  function FirstJsonStart(t: string): (r: Option<nat>)
    ensures r.Some? ==> r.value < |t| && IsJsonStart(t[r.value])
    ensures r.Some? ==> forall i :: 0 <= i < r.value ==> !IsJsonStart(t[i])
    ensures r.None? ==> forall i :: 0 <= i < |t| ==> !IsJsonStart(t[i])
  {
    var brace := IndexOf(t, "{");
    var bracket := IndexOf(t, "[");
    assert forall i :: 0 <= i < |t| && t[i] == '{' ==> HasAt(t, i, "{") by {
      forall i | 0 <= i < |t| && t[i] == '{' ensures HasAt(t, i, "{") {
        assert t[i..i + 1] == "{";
      }
    }
    assert forall i :: 0 <= i < |t| && t[i] == '[' ==> HasAt(t, i, "[") by {
      forall i | 0 <= i < |t| && t[i] == '[' ensures HasAt(t, i, "[") {
        assert t[i..i + 1] == "[";
      }
    }
    if brace.Some? && bracket.Some? then
      Some(if brace.value < bracket.value then brace.value else bracket.value)
    else if brace.Some? then brace
    else if bracket.Some? then bracket
    else None
  }

  /** The else branch: the suffix from the earliest `{` or `[`, or the text itself when there is neither */
  function JsonSuffix(t: string): (r: string)
    ensures |r| <= |t| && r == t[|t| - |r|..]
    ensures forall i :: 0 <= i < |t| - |r| ==> !IsJsonStart(t[i])
    ensures r == t || (r != [] && IsJsonStart(r[0]))
  {
    match FirstJsonStart(t)
    case Some(i) => t[i..]
    case None => t
  }

  /** `extractJsonFromString(text)` */
  function ExtractJson(text: string): (r: string)
    ensures |r| <= |text|
    ensures r == [] || (!IsSpace(r[0]) && !IsSpace(r[|r| - 1]))
  {
    var t := Trim(text);
    var fence := FenceCapture(t);
    if fence.Some? && fence.value != [] then
      Trim(fence.value)
    else
      SuffixUnpadded(t);
      JsonSuffix(t)
  }

  /** The payload of unpadded text is unpadded: it ends where the text ends and opens with a bracket. */
  lemma SuffixUnpadded(t: string)
    requires t == [] || (!IsSpace(t[0]) && !IsSpace(t[|t| - 1]))
    ensures var r := JsonSuffix(t); r == [] || (!IsSpace(r[0]) && !IsSpace(r[|r| - 1]))
  {
    var r := JsonSuffix(t);
    if r != [] {
      assert r[|r| - 1] == t[|t| - 1];
      if r != t {
        assert r[0] == '{' || r[0] == '[';
      }
    }
  }

  /** A fence capture is taken as the payload */
  predicate Fenced(text: string) {
    var fence := FenceCapture(Trim(text));
    fence.Some? && fence.value != []
  }

  // ---------------------------------------------------------------------------
  // Properties

  /**
   * A whole-answer fence yields its content: "```json", white space, a value
   * that starts and ends with a visible character, white space, "```".
   */
  lemma FencedContent(w1: string, v: string, w2: string)
    requires AllSpace(w1) && AllSpace(w2)
    requires v != [] && !IsSpace(v[0]) && !IsSpace(v[|v| - 1])
    ensures ExtractJson(Fence + JsonTag + w1 + v + w2 + Fence) == v
  {
    var t := Fence + JsonTag + w1 + v + w2 + Fence;
    var x := w1 + (v + w2);
    assert t[..3] == Fence && t[3..7] == JsonTag && t[|t| - 3..] == Fence
           && t[|Fence| + |JsonTag|..|t| - |Fence|] == x by {
      assert t == (Fence + JsonTag) + (x + Fence);
      MiddleOf(Fence + JsonTag, x, Fence);
    }
    FencedTrimmed(t);
    PaddedTrim(w1, v, w2);
    TaggedCapture(t);
    TrimUnchanged(v);
  }

  /**
   * An untagged fence yields its content too: "```", white space, a value that
   * starts and ends with a visible character and does not open with "json",
   * white space, "```".
   */
  lemma FencedPlainContent(w1: string, v: string, w2: string)
    requires AllSpace(w1) && AllSpace(w2)
    requires v != [] && !IsSpace(v[0]) && !IsSpace(v[|v| - 1])
    requires w1 != [] || !HasAt(v, 0, JsonTag)
    ensures ExtractJson(Fence + w1 + v + w2 + Fence) == v
  {
    var t := Fence + w1 + v + w2 + Fence;
    var x := w1 + (v + w2);
    assert t == Fence + (x + Fence);
    MiddleOf(Fence, x, Fence);
    assert t[..3] == Fence && t[|t| - 3..] == Fence;
    FencedTrimmed(t);
    PlainFenceUntagged(w1, v, w2);
    PaddedTrim(w1, v, w2);
    assert t[|Fence|..|t| - |Fence|] == x;
    UntaggedCapture(t);
  }

  /** White space around a value without outer white space is what trimming removes. */
  lemma PaddedTrim(w1: string, v: string, w2: string)
    requires AllSpace(w1) && AllSpace(w2)
    requires v == [] || (!IsSpace(v[0]) && !IsSpace(v[|v| - 1]))
    ensures Trim(w1 + (v + w2)) == v
  {
    TrimAfterSpace(w1, v + w2);
    TrimBeforeSpace(v, w2);
    TrimUnchanged(v);
  }

  lemma TaggedCapture(t: string)
    requires |t| >= 2 * |Fence| + |JsonTag| && t[..3] == Fence && t[3..7] == JsonTag && t[|t| - 3..] == Fence
    ensures FenceCapture(t) == Some(Trim(t[|Fence| + |JsonTag|..|t| - |Fence|]))
  {
    assert HasAt(t, 0, Fence) && HasAt(t, |Fence|, JsonTag) && HasAt(t, |t| - |Fence|, Fence);
  }

  lemma UntaggedCapture(t: string)
    requires |t| >= 2 * |Fence| && t[..3] == Fence && t[|t| - 3..] == Fence
    requires !HasAt(t, |Fence|, JsonTag)
    ensures FenceCapture(t) == Some(Trim(t[|Fence|..|t| - |Fence|]))
  {
    assert HasAt(t, 0, Fence) && HasAt(t, |t| - |Fence|, Fence);
  }

  /** Blank space or a value not opening with "json" after the first fence is no tag. */
  lemma PlainFenceUntagged(w1: string, v: string, w2: string)
    requires AllSpace(w1) && AllSpace(w2) && v != []
    requires w1 != [] || !HasAt(v, 0, JsonTag)
    ensures !HasAt(Fence + w1 + v + w2 + Fence, |Fence|, JsonTag)
  {
    var t := Fence + w1 + v + w2 + Fence;
    if w1 != [] {
      assert t[3] == w1[0] && IsSpace(t[3]);
      assert |t| >= 7 ==> t[3..7][0] == t[3];
    } else if |v| >= 4 {
      assert t[3..7] == v[0..4] by {
        assert forall i :: 0 <= i < 4 ==> t[3..7][i] == v[0..4][i];
      }
    } else {
      var c := t[3 + |v|];
      assert c == (w2 + Fence)[0];
      assert IsSpace(c) || c == '`';
      assert |t| >= 7 ==> t[3..7][|v|] == c;
    }
  }

  lemma FencedTrimmed(t: string)
    requires |t| >= |Fence| && t[..3] == Fence && t[|t| - 3..] == Fence
    ensures Trim(t) == t
  {
    assert t[0] == t[..3][0] == '`';
    assert t[|t| - 1] == t[|t| - 3..][2] == '`';
    TrimUnchanged(t);
  }

  lemma MiddleOf(p: string, v: string, r: string)
    ensures (p + (v + r))[|p|..|p| + |v|] == v
  {
  }

  /** The fenced `[{"a":1}]` answer gives `[{"a":1}]`. */
  lemma FencedArrayExample()
    ensures ExtractJson("```json\n[{\"a\":1}]\n```") == "[{\"a\":1}]"
  {
    assert "```json\n[{\"a\":1}]\n```" == Fence + JsonTag + "\n" + "[{\"a\":1}]" + "\n" + Fence;
    FencedContent("\n", "[{\"a\":1}]", "\n");
  }

  /** Without a fence the payload is the trimmed text from its earliest `{` or `[`. */
  lemma UnfencedIsSuffix(text: string)
    requires !Fenced(text)
    ensures var t, r := Trim(text), ExtractJson(text);
      r == t[|t| - |r|..]
      && (forall i :: 0 <= i < |t| - |r| ==> !IsJsonStart(t[i]))
      && (r == t || (r != [] && IsJsonStart(r[0])))
  {
  }

  /** Without a fence, `{` or `[` the trimmed text comes back unchanged. */
  lemma NoBraceUnchanged(text: string)
    requires !Fenced(text)
    requires forall i :: 0 <= i < |text| ==> !IsJsonStart(text[i])
    ensures ExtractJson(text) == Trim(text)
  {
    var u := TrimStart(text);
    var t := Trim(text);
    assert t == TrimEnd(u);
    var a := |text| - |u|;
    forall i | 0 <= i < |t|
      ensures !IsJsonStart(t[i])
    {
      assert t[i] == u[i] == text[a + i];
    }
  }

  /** Text that starts with `{` or `[` and ends in a visible character is its own payload. */
  lemma StartsWithJson(r: string)
    requires r != [] && IsJsonStart(r[0]) && !IsSpace(r[|r| - 1])
    ensures ExtractJson(r) == r
  {
    TrimUnchanged(r);
    assert !HasAt(r, 0, Fence) by {
      assert r[0] != Fence[0];
      if |r| >= 3 {
        assert r[..3][0] == r[0];
      }
    }
    assert FirstJsonStart(r) == Some(0);
  }

  /** On unfenced input extraction is idempotent. */
  lemma UnfencedIdempotent(text: string)
    requires !Fenced(text)
    ensures ExtractJson(ExtractJson(text)) == ExtractJson(text)
  {
    var t := Trim(text);
    var r := ExtractJson(text);
    assert r == JsonSuffix(t);
    if r == t {
      TrimIdempotent(text);
    } else {
      assert r[|r| - 1] == t[|t| - 1];
      StartsWithJson(r);
    }
  }
}
