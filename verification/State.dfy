// Execution state: the shared context, node outcomes and checkpoints.
module State {
  import opened Wrappers

  // A JSON value: strings are told apart because outcome labels are stored as strings; every
  // other value is represented by its serialized text.
  datatype Json = JString(s: string) | JOther(text: string)

  type Context = map<string, Json>

  datatype Outcome =
    | Success(data: Option<Json>, preferred: Option<string>, suggested: Option<seq<string>>,
              updates: Option<Context>, notes: Option<string>)
    | PartialSuccess(data: Option<Json>, preferred: Option<string>, suggested: Option<seq<string>>,
                     updates: Option<Context>, notes: Option<string>)
    | Failure(error: string, retryable: bool, notes: Option<string>)
    | Retry(reason: string, notes: Option<string>)
    | Skip(reason: string, notes: Option<string>)
  {
    predicate IsSuccess() {
      Success? || PartialSuccess?
    }

    function PreferredLabel(): Option<string> {
      if IsSuccess() then preferred else None
    }

    function SuggestedNextIds(): Option<seq<string>> {
      if IsSuccess() then suggested else None
    }

    predicate Suggests(id: string) {
      SuggestedNextIds().Some? && id in SuggestedNextIds().value
    }
  }

  datatype Checkpoint = Checkpoint(
    pipelineName: string, currentNode: string, visitedNodes: seq<string>,
    contextSnapshot: Context, nodeOutcomes: map<string, Outcome>)

  // Append unless already present.
  function MarkVisited(visited: seq<string>, id: string): seq<string> {
    if id in visited then visited else visited + [id]
  }
}
