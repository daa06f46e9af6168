/** Optional values and results with an error, as the Python code uses `None` and exceptions. */
module Wrappers {

  /** A value that may be absent: Python's `None` or a present value. */
  datatype Option<+T> = None | Some(value: T)

  /** Why an operation raised instead of returning. */
  datatype Error =
    | NoVectorStore   // `self.vectorstore` is still `None` when it is used
    | NoRetriever     // `self.retriever` is still `None` when `get` runs

  /** The outcome of an operation that may raise. */
  datatype Result<+T> = Ok(value: T) | Err(error: Error)
}
