/** The classification client `classifyEmail`, reduced to what it does with
    the remote reply: the call itself is an oracle whose answer is a
    parameter, and only the shape of the returned record, its metadata and
    the single failure message are modelled. */
module Classifier {
  import opened Wrappers

  /** `ClassificationResult.metadata`. */
  datatype Metadata = Metadata(processingTimeMs: int, tokensCount: real)

  /** `ClassificationResult`: the four fields the response schema requires,
      plus the metadata the client adds. */
  datatype ClassificationResult = ClassificationResult(
    isSpam: bool,
    confidence: real,
    explanation: string,
    topFeatures: seq<string>,
    metadata: Metadata)

  /** A reply of the remote model that parsed and carries the four fields the
      response schema asks for. */
  datatype Reply = Reply(isSpam: bool, confidence: real, explanation: string, topFeatures: seq<string>)

  /** What the awaited classifier call gives its caller: a value, or a
      thrown error carrying `message` (empty when the error has none). */
  datatype Outcome = Ok(result: ClassificationResult) | Fail(message: string)

  /** The one message every failure of the client is reported with. */
  const FailureMessage := "Failed to classify content. Please check API connectivity."

  /** `Math.round`: the nearest integer, halves rounded up. */
  function Round(x: real): (n: int)
    ensures n as real - 0.5 <= x < n as real + 0.5
  {
    (x + 0.5).Floor
  }

  /** `classifyEmail(rawText, cleanedText)`. `reply` is the parsed answer of
      the remote model, `None` when the call or the parse throws;
      `elapsedMs` is the measured duration of the call. */
  function ClassifyEmail(rawText: string, reply: Option<Reply>, elapsedMs: real): (o: Outcome)
    ensures o.Fail? <==> reply.None?
    ensures o.Fail? ==> o.message == FailureMessage
    ensures o.Ok? ==> (o.result.isSpam == reply.value.isSpam
                       && o.result.confidence == reply.value.confidence
                       && o.result.explanation == reply.value.explanation
                       && o.result.topFeatures == reply.value.topFeatures)
    ensures o.Ok? ==> o.result.metadata.tokensCount * 4.0 == |rawText| as real
    ensures o.Ok? ==> (o.result.metadata.processingTimeMs as real - 0.5 <= elapsedMs
                       && elapsedMs < o.result.metadata.processingTimeMs as real + 0.5)
  {
    match reply
    case None => Fail(FailureMessage)
    case Some(data) =>
      Ok(ClassificationResult(data.isSpam, data.confidence, data.explanation, data.topFeatures,
                              Metadata(Round(elapsedMs), |rawText| as real / 4.0)))
  }

  /** Rounding is exact on whole numbers and determined by the half-open
      window around its result. */
  lemma RoundUnique(x: real, n: int)
    requires n as real - 0.5 <= x < n as real + 0.5
    ensures Round(x) == n
  {
  }
}
