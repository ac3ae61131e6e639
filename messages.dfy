/**
  Values shared by the HTTP retriever data source: an Option type and the
  localizable messages that the data source attaches to its events, kept as
  tagged values (the message key plus its parameters) instead of rendered text.
 */
module Messages {

  datatype Option<+T> = None | Some(value: T)

  /** The localizable messages the data source builds or passes on. */
  datatype Message =
      /** "event.http.response": the server answered with a status other than 200. */
    | HttpResponse(url: string, code: int)
      /** The message the data source framework derives from a caught exception. */
    | ExceptionMessage(reason: string)
      /** "event.httpRetriever.retrievalError": retrieval failed with an exception that
          carries no localizable message of its own. */
    | RetrievalError(url: string, reason: string)
      /** A message produced by the value or time extraction (pattern, number or date
          parsing); its key and parameters belong to the extraction utilities. */
    | ExtractionMessage(key: string, args: seq<string>)
}
