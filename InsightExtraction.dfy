/**
 * The key-insight extractor of `parseGeminiResponse`: the body of a
 * `KeyInsights` section is split on `- Insight:`, the text before the first
 * marker is discarded, and each chunk yields an insight (the text up to the
 * first line break that is followed by `- (Optional) SourceDetails` or only by
 * white space) and optional source details. A chunk is kept only when its
 * insight text is non-empty.
 */
module InsightExtraction {
  import opened Wrappers
  import opened Text
  import opened Patterns

  datatype KeyInsight = KeyInsight(insight: string, sourceDetails: Option<string>)

  const InsightMarker := "- Insight:"
  const SourceDetailsLabel := "(Optional) SourceDetails:"
  const SourceDetailsLine := "- (Optional) SourceDetails"

  /** `/(.*?)\n(?:- \(Optional\) SourceDetails|\s*$)/s`, then trimmed */
  function InsightTextOf(chunk: string): (r: Option<string>)
    ensures r.Some? <==> exists j :: 0 <= j <= |chunk| && StopAt(chunk, j, InsightEnd)
    ensures r.Some? ==> |r.value| < |chunk|
    ensures forall j :: 0 <= j <= |chunk| && StopAt(chunk, j, InsightEnd)
                        && (forall m :: 0 <= m < j ==> !StopAt(chunk, m, InsightEnd))
                        ==> r == Some(Trim(chunk[..j]))
  {
    match FirstStop(chunk, 0, InsightEnd)
    case Some(j) => Some(Trim(chunk[..j]))
    case None => None
  }

  /** `/\(Optional\) SourceDetails:\s*(.*?)(?:\n---END OF RESPONSE---|\s*$)/s`, then trimmed */
  function SourceDetailsOf(chunk: string): (r: Option<string>)
    ensures r.Some? ==> Contains(chunk, SourceDetailsLabel)
    ensures r.Some? ==> r.value == [] || (!IsSpace(r.value[0]) && !IsSpace(r.value[|r.value| - 1]))
  {
    TrimmedOption(LabelledCapture(chunk, SourceDetailsLabel, SourceDetailsEnd))
  }

  /** The insight a chunk yields, or None when its text is missing or empty */
  function ExtractInsight(chunk: string): (r: Option<KeyInsight>)
    ensures r.Some? <==> NonEmpty(InsightTextOf(chunk))
    ensures r.Some? ==> r.value.insight != [] && r.value.sourceDetails == SourceDetailsOf(chunk)
  {
    var text := InsightTextOf(chunk);
    if NonEmpty(text) then Some(KeyInsight(text.value, SourceDetailsOf(chunk))) else None
  }

  /** The insights the chunks yield, in order of appearance */
  function KeptInsights(chunks: seq<string>): (r: seq<KeyInsight>)
    ensures |r| <= |chunks|
    ensures forall i :: 0 <= i < |r| ==> r[i].insight != []
  {
    if chunks == [] then []
    else
      var init := KeptInsights(chunks[..|chunks| - 1]);
      match ExtractInsight(chunks[|chunks| - 1])
      case None => init
      case Some(k) => init + [k]
  }

  /** The chunks of a section body: the pieces after each `- Insight:` */
  function InsightChunks(body: string): (chunks: seq<string>)
    ensures forall i :: 0 <= i < |chunks| ==> !Contains(chunks[i], InsightMarker)
    ensures exists pre :: !Contains(pre, InsightMarker) && Join([pre] + chunks, InsightMarker) == body
  {
    var parts := Split(body, InsightMarker);
    assert [parts[0]] + parts[1..] == parts;
    parts[1..]
  }

  /** `insightsText.forEach(…)`: extracts each chunk and pushes the non-empty insights */
  method PushInsights(insights: seq<KeyInsight>, chunks: seq<string>) returns (r: seq<KeyInsight>)
    ensures r == insights + KeptInsights(chunks)
  {
    r := insights;
    var i := 0;
    while i < |chunks|
      invariant 0 <= i <= |chunks|
      invariant r == insights + KeptInsights(chunks[..i])
    {
      var insight := ExtractInsight(chunks[i]);
      KeptInsightsStep(chunks, i);
      if insight.Some? {
        AppendOne(insights, KeptInsights(chunks[..i]), insight.value);
        r := r + [insight.value];
      }
      i := i + 1;
    }
    assert chunks[..i] == chunks;
  }

  /** One more chunk adds its insight, if it yields one. */
  lemma KeptInsightsStep(chunks: seq<string>, i: nat)
    requires i < |chunks|
    ensures ExtractInsight(chunks[i]).None? ==> KeptInsights(chunks[..i + 1]) == KeptInsights(chunks[..i])
    ensures ExtractInsight(chunks[i]).Some? ==> KeptInsights(chunks[..i + 1]) == KeptInsights(chunks[..i]) + [ExtractInsight(chunks[i]).value]
  {
    assert chunks[..i + 1][..i] == chunks[..i];
  }

  // ---------------------------------------------------------------------------
  // Properties

  /** Extraction distributes over concatenation: chunks keep their order of appearance. */
  lemma {:induction false} KeptInsightsAppend(a: seq<string>, b: seq<string>)
    ensures KeptInsights(a + b) == KeptInsights(a) + KeptInsights(b)
    decreases |b|
  {
    if b == [] {
      assert a + b == a;
    } else {
      var b' := b[..|b| - 1];
      assert (a + b)[..|a + b| - 1] == a + b';
      KeptInsightsAppend(a, b');
    }
  }

  /** Source details are present exactly when the chunk contains the `(Optional) SourceDetails:` label. */
  lemma SourceDetailsIffLabel(chunk: string)
    ensures SourceDetailsOf(chunk).Some? <==> Contains(chunk, SourceDetailsLabel)
  {
    if Contains(chunk, SourceDetailsLabel) {
      var p := IndexOf(chunk, SourceDetailsLabel).value;
      var w := RunEnd(chunk, p + |SourceDetailsLabel|, Space);
      assert StopAt(chunk, |chunk|, SourceDetailsEnd) by {
        assert chunk[|chunk|..] == [];
      }
      assert FirstStop(chunk, w, SourceDetailsEnd).Some?;
    }
  }

  /** A chunk without a line break never yields an insight. */
  lemma ChunkWithoutLineBreakDropped(chunk: string)
    requires forall i :: 0 <= i < |chunk| ==> chunk[i] != '\n'
    ensures ExtractInsight(chunk) == None
    ensures KeptInsights([chunk]) == []
  {
    assert [chunk][..0] == [];
  }

  /**
   * An insight line followed by a `- (Optional) SourceDetails` line: the
   * insight is the trimmed first line, whatever comes after.
   */
  lemma InsightBeforeSourceDetails(t: string, rest: string)
    requires forall i :: 0 <= i < |t| ==> t[i] != '\n'
    ensures InsightTextOf(t + "\n" + SourceDetailsLine + rest) == Some(Trim(t))
  {
    var s := t + "\n" + SourceDetailsLine + rest;
    assert s[|t| + 1..|t| + 1 + |SourceDetailsLine|] == SourceDetailsLine;
    assert StopAt(s, |t|, InsightEnd);
    FirstStopIs(s, 0, |t|, InsightEnd);
    assert s[..|t|] == t;
  }

  /**
   * Source details laid out as the first label, white space, a value that
   * starts with a visible character and the `---END OF RESPONSE---` line: the
   * details are the trimmed value and stop before that line.
   */
  lemma SourceDetailsBeforeEndOfResponse(s: string, p: nat, a: nat, b: nat)
    requires FirstOccurrence(s, SourceDetailsLabel, p)
    requires p + |SourceDetailsLabel| <= a < b <= |s|
    requires forall m :: p + |SourceDetailsLabel| <= m < a ==> IsSpace(s[m])
    requires !IsSpace(s[a])
    requires forall j :: a <= j < b ==> !StopAt(s, j, SourceDetailsEnd)
    requires HasAt(s, b, EndOfResponse)
    ensures SourceDetailsOf(s) == Some(Trim(s[a..b]))
  {
    LabelledCaptureOfField(s, SourceDetailsLabel, SourceDetailsEnd, p, a, b);
  }

  /**
   * A chunk that ends in a visible character and has no
   * `- (Optional) SourceDetails` line yields no insight: no line break in it
   * is followed only by white space.
   */
  lemma ChunkEndingVisibleWithoutSourceDetailsDropped(chunk: string)
    requires chunk == [] || !IsSpace(chunk[|chunk| - 1])
    requires !Contains(chunk, SourceDetailsLine)
    ensures ExtractInsight(chunk) == None
  {
    NoInsightEnd(chunk);
  }

  lemma NoInsightEnd(chunk: string)
    requires chunk == [] || !IsSpace(chunk[|chunk| - 1])
    requires !Contains(chunk, SourceDetailsLine)
    ensures forall j :: 0 <= j <= |chunk| ==> !StopAt(chunk, j, InsightEnd)
  {
    forall j | 0 <= j <= |chunk|
      ensures !StopAt(chunk, j, InsightEnd)
    {
      if j < |chunk| && chunk[j] == '\n' {
        assert !HasAt(chunk, j + 1, SourceDetailsLine);
        assert j + 1 < |chunk|;
        assert chunk[j + 1..][|chunk| - j - 2] == chunk[|chunk| - 1];
      }
    }
  }

  /**
   * Section content is trimmed before it is split, so its last chunk ends in a
   * visible character: the last insight of a section is dropped unless a
   * `- (Optional) SourceDetails` line follows it.
   */
  lemma LastInsightOfSectionDropped(content: string)
    requires var chunks := InsightChunks(Trim(content));
      |chunks| > 0 && !Contains(chunks[|chunks| - 1], SourceDetailsLine)
    ensures var chunks := InsightChunks(Trim(content));
      KeptInsights(chunks) == KeptInsights(chunks[..|chunks| - 1])
  {
    var t := Trim(content);
    var parts := Split(t, InsightMarker);
    var chunks := InsightChunks(t);
    var last := chunks[|chunks| - 1];
    assert last == parts[|parts| - 1];
    JoinEndsWithLast(parts, InsightMarker);
    if last != [] {
      assert last[|last| - 1] == t[|t| - 1];
    }
    ChunkEndingVisibleWithoutSourceDetailsDropped(last);
  }
}
