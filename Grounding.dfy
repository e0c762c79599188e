/**
 * The grounding filter each fetcher applies to the search metadata of a
 * response: a chunk becomes a source only when it has a web part whose uri
 * and title are both present and non-empty.
 */
module Grounding {
  import opened Wrappers

  datatype Web = Web(uri: Option<string>, title: Option<string>)
  datatype GroundingChunk = GroundingChunk(web: Option<Web>)
  datatype GroundingSource = GroundingSource(uri: string, title: string)

  /** `chunk.web && chunk.web.uri && chunk.web.title` */
  predicate Qualifies(chunk: GroundingChunk) {
    && chunk.web.Some?
    && chunk.web.value.uri.Some? && chunk.web.value.uri.value != []
    && chunk.web.value.title.Some? && chunk.web.value.title.value != []
  }

  function SourceOf(chunk: GroundingChunk): GroundingSource
    requires Qualifies(chunk)
  {
    GroundingSource(chunk.web.value.uri.value, chunk.web.value.title.value)
  }

  /** The sources the qualifying chunks give, in order */
  function SourcesOf(chunks: seq<GroundingChunk>): (r: seq<GroundingSource>)
    ensures |r| <= |chunks|
  {
    if chunks == [] then []
    else
      var init := SourcesOf(chunks[..|chunks| - 1]);
      var last := chunks[|chunks| - 1];
      if Qualifies(last) then init + [SourceOf(last)] else init
  }

  /** The sources of a response, whose metadata may lack the chunk list */
  function GroundingSources(chunks: Option<seq<GroundingChunk>>): (r: seq<GroundingSource>)
    ensures chunks.None? ==> r == []
    ensures chunks.Some? ==> |r| <= |chunks.value|
    ensures forall k :: 0 <= k < |r| ==> r[k].uri != [] && r[k].title != []
  {
    if chunks.Some? then SourcesNonEmpty(chunks.value); SourcesOf(chunks.value) else []
  }

  /** `if (groundingMeta?.groundingChunks) { groundingMeta.groundingChunks.forEach(…) }` */
  method CollectSources(chunks: Option<seq<GroundingChunk>>) returns (sources: seq<GroundingSource>)
    ensures chunks.None? ==> sources == []
    ensures sources == GroundingSources(chunks)
  {
    sources := [];
    if chunks.Some? {
      var cs := chunks.value;
      var i := 0;
      while i < |cs|
        invariant 0 <= i <= |cs|
        invariant sources == SourcesOf(cs[..i])
      {
        assert cs[..i + 1][..i] == cs[..i];
        var chunk := cs[i];
        if chunk.web.Some? && chunk.web.value.uri.Some? && chunk.web.value.uri.value != []
           && chunk.web.value.title.Some? && chunk.web.value.title.value != [] {
          sources := sources + [GroundingSource(chunk.web.value.uri.value, chunk.web.value.title.value)];
        }
        i := i + 1;
      }
      assert cs[..i] == cs;
    }
  }

  // ---------------------------------------------------------------------------
  // Properties

  /** Filtering distributes over concatenation. */
  lemma {:induction false} SourcesOfAppend(a: seq<GroundingChunk>, b: seq<GroundingChunk>)
    ensures SourcesOf(a + b) == SourcesOf(a) + SourcesOf(b)
    decreases |b|
  {
    if b == [] {
      assert a + b == a;
    } else {
      var b' := b[..|b| - 1];
      assert (a + b)[..|a + b| - 1] == a + b';
      SourcesOfAppend(a, b');
    }
  }

  /** Every source has a non-empty uri and title. */
  lemma {:induction false} SourcesNonEmpty(chunks: seq<GroundingChunk>)
    ensures forall i :: 0 <= i < |SourcesOf(chunks)| ==> SourcesOf(chunks)[i].uri != [] && SourcesOf(chunks)[i].title != []
  {
    if chunks != [] {
      SourcesNonEmpty(chunks[..|chunks| - 1]);
    }
  }

  /** A source is produced exactly for the chunks that qualify. */
  lemma {:induction false} SourcesMembership(chunks: seq<GroundingChunk>, s: GroundingSource)
    ensures s in SourcesOf(chunks) <==> exists i :: 0 <= i < |chunks| && Qualifies(chunks[i]) && SourceOf(chunks[i]) == s
  {
    if chunks != [] {
      var init := chunks[..|chunks| - 1];
      SourcesMembership(init, s);
      if exists i :: 0 <= i < |init| && Qualifies(init[i]) && SourceOf(init[i]) == s {
        var i :| 0 <= i < |init| && Qualifies(init[i]) && SourceOf(init[i]) == s;
        assert chunks[i] == init[i];
      }
      if exists i :: 0 <= i < |chunks| && Qualifies(chunks[i]) && SourceOf(chunks[i]) == s {
        var i :| 0 <= i < |chunks| && Qualifies(chunks[i]) && SourceOf(chunks[i]) == s;
        if i < |init| {
          assert init[i] == chunks[i];
        }
      }
    }
  }

  /** When every chunk qualifies, every chunk gives its source, in order. */
  lemma {:induction false} AllQualifying(chunks: seq<GroundingChunk>)
    requires forall i :: 0 <= i < |chunks| ==> Qualifies(chunks[i])
    ensures |SourcesOf(chunks)| == |chunks|
    ensures forall i :: 0 <= i < |chunks| ==> SourcesOf(chunks)[i] == SourceOf(chunks[i])
  {
    if chunks != [] {
      AllQualifying(chunks[..|chunks| - 1]);
    }
  }

  /** A chunk without a web part, or with an empty uri or title, contributes nothing. */
  lemma UnqualifiedDropped(a: seq<GroundingChunk>, c: GroundingChunk, b: seq<GroundingChunk>)
    requires !Qualifies(c)
    ensures SourcesOf(a + [c] + b) == SourcesOf(a + b)
  {
    SourcesOfAppend(a + [c], b);
    SourcesOfAppend(a, b);
    assert (a + [c])[..|a + [c]| - 1] == a;
  }
}
