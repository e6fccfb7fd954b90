/** The shape of the `repository` object returned by the GraphQL query of
    lib/github.js. Every nullable selection is an `Option`. Counts are natural
    numbers and `committedDate` is taken already parsed, in milliseconds since
    the epoch. The elements of the `nodes` lists are never `null` here. */
module GitHubData {
  import opened Wrappers

  /** The `object(expression: "HEAD:README.md") { ... on Blob { text } }` selection. */
  datatype Blob = Blob(text: Option<string>)

  datatype LicenseInfo = LicenseInfo(name: Option<string>)

  datatype CommitNode = CommitNode(committedDate: int)

  datatype History = History(nodes: Option<seq<CommitNode>>)

  /** `target { ... on Commit { history(first: 10) { ... } } }`: a target that is
      not a commit carries no history. */
  datatype Target = Target(history: Option<History>)

  datatype BranchRef = BranchRef(target: Option<Target>)

  datatype WorkflowNode = WorkflowNode(name: string, state: string)

  datatype WorkflowConnection = WorkflowConnection(nodes: Option<seq<WorkflowNode>>)

  datatype Repository = Repository(
    name: Option<string>,
    description: Option<string>,
    stargazerCount: nat,
    forkCount: nat,
    licenseInfo: Option<LicenseInfo>,
    defaultBranchRef: Option<BranchRef>,
    readme: Option<Blob>,
    workflows: Option<WorkflowConnection>)

  /** `history(first: 10)` and `workflows(first: 5)`. */
  const CommitHistoryLimit: nat := 10
  const WorkflowLimit: nat := 5

  /** `defaultBranchRef?.target?.history?.nodes || []`. */
  function CommitNodes(r: Repository): (nodes: seq<CommitNode>)
    ensures nodes != [] ==>
      && r.defaultBranchRef.Some? && r.defaultBranchRef.value.target.Some?
      && r.defaultBranchRef.value.target.value.history.Some?
      && r.defaultBranchRef.value.target.value.history.value.nodes == Some(nodes)
    ensures r.defaultBranchRef.Some? && r.defaultBranchRef.value.target.Some?
            && r.defaultBranchRef.value.target.value.history.Some?
            && r.defaultBranchRef.value.target.value.history.value.nodes.Some?
            ==> nodes == r.defaultBranchRef.value.target.value.history.value.nodes.value
  {
    if r.defaultBranchRef.Some?
       && r.defaultBranchRef.value.target.Some?
       && r.defaultBranchRef.value.target.value.history.Some?
       && r.defaultBranchRef.value.target.value.history.value.nodes.Some?
    then r.defaultBranchRef.value.target.value.history.value.nodes.value
    else []
  }

  /** `workflows?.nodes || []`. */
  function WorkflowNodes(r: Repository): (nodes: seq<WorkflowNode>)
    ensures nodes != [] ==> r.workflows.Some? && r.workflows.value.nodes == Some(nodes)
    ensures r.workflows.Some? && r.workflows.value.nodes.Some? ==> nodes == r.workflows.value.nodes.value
  {
    if r.workflows.Some? && r.workflows.value.nodes.Some?
    then r.workflows.value.nodes.value
    else []
  }

  /** What the query can return: no more commits and workflows than it asks for. */
  predicate WithinQueryLimits(r: Repository)
  {
    |CommitNodes(r)| <= CommitHistoryLimit && |WorkflowNodes(r)| <= WorkflowLimit
  }
}
