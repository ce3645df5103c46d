/** The embedding boundary (`embedTexts`): the two task hints the callers pass,
    and the vectors it returns, which nothing in the pipeline inspects. */
module Embedder {

  /** The `task` argument of `embedTexts`. */
  datatype Task = RetrievalQuery | RetrievalPassage

  /** The wire name of a task hint, the string `embedTexts` receives. */
  function TaskName(t: Task): string {
    match t
    case RetrievalQuery => "retrieval.query"
    case RetrievalPassage => "retrieval.passage"
  }

  /** An embedding vector. Its components are carried, never read. */
  datatype Vector = Vector(components: seq<real>)
}
