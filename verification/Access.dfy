/** The access contract: a policy answers for current authority only, and an
    action runs only after the policy has allowed it. */
module Access {
  import opened Wrappers

  datatype Operation = Read | Source | Admit | Cancel | Events | Artifact | Publish

  datatype Resource = Resource(domain: string, repository: string, revision: Option<string>)

  datatype Request = Request(principal: string, operation: Operation, resource: Resource)

  datatype Denied = Denied

  /** What a policy allows at one moment. */
  type Policy = set<Request>

  function Check(policy: Policy, request: Request): Result<(), Denied> {
    if request in policy then Ok(()) else Err(Denied)
  }

  /** `enforce`: the action's value, or a denial without running the action. */
  function Enforce<T>(policy: Policy, request: Request, action: () -> T): (r: Result<T, Denied>)
    ensures r.Ok? <==> request in policy
    ensures r.Ok? ==> r.value == action()
  {
    match Check(policy, request)
    case Err(denied) => Err(denied)
    case Ok(_) => Ok(action())
  }
}
