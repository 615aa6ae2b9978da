/** The bounded preview of a webhook payload, built while the JSON encoder still produces text. */
module PayloadPreview {
  import opened Text

  /** What the encoder yields for a payload: its pieces in order, and whether it then fails with
      a type error instead of finishing. `fallback` is the payload's plain string form. */
  datatype Encoding = Encoding(chunks: seq<string>, fails: bool, fallback: string)

  predicate NoEmptyChunk(encoding: Encoding) {
    forall i | 0 <= i < |encoding.chunks| :: encoding.chunks[i] != ""
  }

  datatype Payload = Plain(text: string) | Json(encoding: Encoding)

  datatype Preview = Preview(text: string, truncated: bool)

  function Truncated(raw: string, maxChars: nat): string {
    if |raw| <= maxChars then raw
    else if maxChars <= 3 then raw[..maxChars]
    else raw[..maxChars - 3] + "..."
  }

  /** What the preview of a complete text should be. */
  function PreviewOf(raw: string, maxChars: nat): Preview {
    Preview(Truncated(raw, maxChars), |raw| > maxChars)
  }

  /** A preview fits the limit, loses nothing unless flagged, and when flagged and wide enough is
      the beginning of the text with its last three characters replaced by dots. */
  lemma PreviewMeaning(raw: string, maxChars: nat)
    ensures var p := PreviewOf(raw, maxChars);
            && |p.text| == (if p.truncated then maxChars else |raw|) <= maxChars
            && (!p.truncated <==> |raw| <= maxChars)
            && (!p.truncated ==> p.text == raw)
            && (forall i :: 0 <= i < |p.text| ==>
                  p.text[i] == raw[i] || (p.truncated && maxChars > 3 && i >= maxChars - 3 && p.text[i] == '.'))
  {
  }

  /** One character beyond the limit is all that a preview depends on. */
  lemma OneMoreThanLimitDecides(a: string, b: string, maxChars: nat)
    requires |a| > maxChars && |b| > maxChars && a[..maxChars + 1] == b[..maxChars + 1]
    ensures PreviewOf(a, maxChars) == PreviewOf(b, maxChars)
  {
    assert forall k | 0 <= k <= maxChars :: a[..k] == a[..maxChars + 1][..k] && b[..k] == b[..maxChars + 1][..k];
  }

  /** And it depends on that one: two texts alike up to the limit can have different previews. */
  lemma LimitAloneDoesNotDecide(a: string, maxChars: nat)
    requires |a| == maxChars
    ensures exists b ::
              b[..|b|] == b && |b| > maxChars && b[..maxChars] == a && PreviewOf(a, maxChars) != PreviewOf(b, maxChars)
  {
    var b := a + ".";
    assert b[..|b|] == b && b[..maxChars] == a;
  }

  /** The text of the first `n` pieces begins the text of them all. */
  lemma JoinGrows(chunks: seq<string>, n: nat)
    requires n <= |chunks|
    ensures Join(chunks[..n]) <= Join(chunks)
  {
    JoinSplit(chunks[..n], chunks[n..]);
    assert chunks[..n] + chunks[n..] == chunks;
  }

  lemma JoinNext(chunks: seq<string>, n: nat)
    requires n < |chunks|
    ensures Join(chunks[..n + 1]) == Join(chunks[..n]) + chunks[n]
  {
    JoinSplit(chunks[..n], [chunks[n]]);
    JoinOne(chunks[n]);
    assert chunks[..n + 1] == chunks[..n] + [chunks[n]];
  }

  lemma PiecesAddLength(chunks: seq<string>, n: nat)
    requires n < |chunks| && chunks[n] != ""
    ensures |Join(chunks[..n])| < |Join(chunks)|
  {
    JoinNext(chunks, n);
    JoinGrows(chunks, n + 1);
  }

  /** Collect pieces until one character more than the limit is held. */
  method Collect(encoding: Encoding, maxChars: nat) returns (parts: seq<string>, truncated: bool, failed: bool)
    ensures Join(parts) <= Join(encoding.chunks) && |Join(parts)| <= maxChars + 1
    ensures Join(parts) == Join(encoding.chunks) || |Join(parts)| == maxChars + 1
    ensures truncated ==> |Join(parts)| == maxChars + 1
    ensures failed <==> encoding.fails && !truncated
    ensures |Join(encoding.chunks)| > maxChars + 1 ==> truncated
    ensures NoEmptyChunk(encoding) && |Join(encoding.chunks)| <= maxChars + 1 ==> !truncated
  {
    var chunks := encoding.chunks;
    parts, truncated := [], false;
    var currentLen, i := 0, 0;
    while i < |chunks|
      invariant 0 <= i <= |chunks|
      invariant parts == chunks[..i]
      invariant currentLen == |Join(parts)| <= maxChars + 1
      invariant !truncated
    {
      JoinNext(chunks, i);
      JoinGrows(chunks, i);
      JoinGrows(chunks, i + 1);
      var remaining := maxChars + 1 - currentLen;
      if remaining <= 0 {
        truncated := true;
        if chunks[i] != "" {
          PiecesAddLength(chunks, i);
        }
        break;
      }
      if |chunks[i]| <= remaining {
        parts := parts + [chunks[i]];
        currentLen := currentLen + |chunks[i]|;
        i := i + 1;
        continue;
      }
      JoinSplit(parts, [chunks[i][..remaining]]);
      JoinOne(chunks[i][..remaining]);
      parts := parts + [chunks[i][..remaining]];
      truncated := true;
      break;
    }
    if !truncated {
      assert chunks[..|chunks|] == chunks;
    }
    failed := encoding.fails && !truncated;
  }

  /** The streamed preview is the preview of the whole text, however the encoder cuts it. An
      encoder that fails is noticed only if it fails before the limit is passed. */
  method PayloadPreviewWithLimit(value: Payload, maxChars: nat) returns (r: Preview)
    ensures value.Plain? ==> r == PreviewOf(value.text, maxChars)
    ensures value.Json? && !value.encoding.fails ==> r == PreviewOf(Join(value.encoding.chunks), maxChars)
    ensures value.Json? && value.encoding.fails && NoEmptyChunk(value.encoding) ==>
              r == PreviewOf(if |Join(value.encoding.chunks)| > maxChars + 1 then Join(value.encoding.chunks)
                             else value.encoding.fallback, maxChars)
    ensures |r.text| <= maxChars
  {
    if value.Plain? {
      return Preview(Truncated(value.text, maxChars), |value.text| > maxChars);
    }
    var parts, truncated, failed := Collect(value.encoding, maxChars);
    if failed {
      var raw := value.encoding.fallback;
      return Preview(Truncated(raw, maxChars), |raw| > maxChars);
    }
    var raw := Join(parts);
    if |raw| > maxChars {
      OneMoreThanLimitDecides(raw, Join(value.encoding.chunks), maxChars);
      truncated := true;
    }
    if !truncated {
      return Preview(raw, false);
    }
    return Preview(Truncated(raw, maxChars), true);
  }
}
