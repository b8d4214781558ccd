/** The learned models the engine consults: sentence embedding, sentiment
    classification, paraphrasing and summarising. They
    are deterministic pure functions here; their internals are not part of
    this model. */
module Models {

  /** One classification: the predicted category (upper case for the usual
      sentiment model) and its confidence. */
  datatype Sentiment = Sentiment(category: string, score: real)

  datatype Oracles = Oracles(
    embed: string -> seq<real>,
    cosine: (seq<real>, seq<real>) -> real,
    classify: string -> Sentiment,
    paraphrase: (nat, string) -> seq<string>,
    summarize: (string, int, int) -> string
  )

  /** The ranges the real models keep to: cosine similarity lies in
      [-1, 1] and classification confidence in [0, 1]. */
  ghost predicate Calibrated(o: Oracles) {
    (forall a, b :: -1.0 <= o.cosine(a, b) <= 1.0)
    && (forall t :: 0.0 <= o.classify(t).score <= 1.0)
  }
}
