// The bounded capture of a child's output: the tail of everything written, and how much was dropped.
module ProcessOutput {
  import opened CodeUnits
  import opened Sequences

  datatype Capture = Capture(text: Text, truncatedChars: nat)

  // The limit is never less than one.
  type Limit = n: int | n >= 1 witness 1

  function AppendBounded(capture: Capture, chunk: Text, maxChars: Limit): Capture {
    var nextText := capture.text + chunk;
    if |nextText| <= maxChars then Capture(nextText, capture.truncatedChars)
    else Capture(nextText[|nextText| - maxChars..], capture.truncatedChars + |nextText| - maxChars)
  }

  // The capture is what is left of the whole output when only its last maxChars code units are kept.
  predicate Captures(capture: Capture, output: Text, maxChars: Limit) {
    && |capture.text| <= maxChars
    && capture.truncatedChars + |capture.text| == |output|
    && output[capture.truncatedChars..] == capture.text
    && (capture.truncatedChars > 0 ==> |capture.text| == maxChars)
  }

  lemma AppendKeepsTail(capture: Capture, output: Text, chunk: Text, maxChars: Limit)
    requires Captures(capture, output, maxChars)
    ensures Captures(AppendBounded(capture, chunk, maxChars), output + chunk, maxChars)
  {
    assert (output + chunk)[capture.truncatedChars..] == capture.text + chunk;
  }

  function AppendAll(capture: Capture, chunks: seq<Text>, maxChars: Limit): Capture
    decreases |chunks|
  {
    if chunks == [] then capture else AppendAll(AppendBounded(capture, chunks[0], maxChars), chunks[1..], maxChars)
  }

  // However the output is cut into chunks, the capture ends with the same tail and the same count.
  lemma {:induction false} CaptureIgnoresChunking(capture: Capture, output: Text, chunks: seq<Text>, maxChars: Limit)
    requires Captures(capture, output, maxChars)
    ensures Captures(AppendAll(capture, chunks, maxChars), output + Flatten(chunks), maxChars)
    decreases |chunks|
  {
    if chunks == [] {
      assert output + [] == output;
    } else {
      AppendKeepsTail(capture, output, chunks[0], maxChars);
      CaptureIgnoresChunking(AppendBounded(capture, chunks[0], maxChars), output + chunks[0], chunks[1..], maxChars);
      assert output + chunks[0] + Flatten(chunks[1..]) == output + Flatten(chunks);
    }
  }

  lemma CaptureIsUnique(a: Capture, b: Capture, output: Text, maxChars: Limit)
    requires Captures(a, output, maxChars) && Captures(b, output, maxChars)
    ensures a == b
  {
  }
}
