/** The deployment webhook (`deploy`): its authorization guard, the
    decision to migrate, and which external commands run before the
    response. The commands themselves, their output and the environment
    are parameters: `token` is the `DEPLOY_TOKEN` environment variable,
    `diff` the output of `git diff --name-only origin/main`, and `failure`
    the first command that fails and how. */
module Deploy {
  import opened Request
  import opened Text

  /** The external commands, in the order the webhook runs them. */
  datatype Step = Fetch | DiffNames | Pull | Install | Migrate | Reload

  /** A command exits non-zero (`CalledProcessError`), or raises anything
      else (a missing program, say). */
  datatype Fault = NonZeroExit | Raised

  datatype Response = Unauthorized | CommandFailed | DeploymentFailed | Deployed

  /** HTTP status of each response. */
  function Status(r: Response): (code: nat)
    ensures code == 200 <==> r == Deployed
    ensures code == 403 <==> r == Unauthorized
    ensures code == 500 <==> r == CommandFailed || r == DeploymentFailed
  {
    match r
    case Unauthorized => 403
    case CommandFailed => 500
    case DeploymentFailed => 500
    case Deployed => 200
  }

  /** The header value a caller must send; an unset token reads as "". */
  function ExpectedHeader(token: Option<string>): string {
    "Bearer " + GetOr(token, "")
  }

  /** A missing `Authorization` header reads as "" and must equal the
      expected value exactly. */
  predicate Authorized(header: Option<string>, token: Option<string>) {
    GetOr(header, "") == ExpectedHeader(token)
  }

  /** Migrations run only when the changed-file list mentions
      `migrations/`. */
  function Plan(diff: string): (steps: seq<Step>)
    ensures |steps| >= 5
    ensures steps[..4] == [Fetch, DiffNames, Pull, Install] && steps[|steps| - 1] == Reload
    ensures Migrate in steps <==> Occurs("migrations/", diff)
    ensures forall i, j :: 0 <= i < j < |steps| ==> steps[i] != steps[j]
  {
    [Fetch, DiffNames, Pull, Install]
    + (if Contains(diff, "migrations/") then [Migrate] else [])
    + [Reload]
  }

  datatype Outcome = Outcome(response: Response, ran: seq<Step>)

  function FaultResponse(f: Fault): Response {
    match f
    case NonZeroExit => CommandFailed
    case Raised => DeploymentFailed
  }

  /** Run the planned commands in order, stopping after the first one that
      fails. */
  function Run(plan: seq<Step>, failure: Option<(Step, Fault)>): (o: Outcome)
    ensures |o.ran| <= |plan| && o.ran == plan[..|o.ran|]
    ensures failure.Some? && failure.value.0 in plan ==>
      && o.response == FaultResponse(failure.value.1)
      && |o.ran| > 0 && o.ran[|o.ran| - 1] == failure.value.0
      && failure.value.0 !in o.ran[..|o.ran| - 1]
    ensures (failure.None? || failure.value.0 !in plan) ==> o == Outcome(Deployed, plan)
  {
    if plan == [] then Outcome(Deployed, [])
    else if failure.Some? && failure.value.0 == plan[0] then
      Outcome(FaultResponse(failure.value.1), [plan[0]])
    else
      var rest := Run(plan[1..], failure);
      assert [plan[0]] + rest.ran == plan[..1 + |rest.ran|];
      Outcome(rest.response, [plan[0]] + rest.ran)
  }

  function RunDeploy(header: Option<string>, token: Option<string>, diff: string,
                     failure: Option<(Step, Fault)>): (o: Outcome)
    ensures !Authorized(header, token) ==> o == Outcome(Unauthorized, [])
    ensures Authorized(header, token) ==>
      && o.response != Unauthorized
      && 0 < |o.ran| <= |Plan(diff)| && o.ran == Plan(diff)[..|o.ran|] && o.ran[0] == Fetch
    ensures o.response == Deployed <==>
      Authorized(header, token) && (failure.None? || failure.value.0 !in Plan(diff))
    ensures o.response == Deployed ==> o.ran == Plan(diff)
    ensures Migrate in o.ran ==> Occurs("migrations/", diff)
  {
    if !Authorized(header, token) then Outcome(Unauthorized, [])
    else Run(Plan(diff), failure)
  }

  /** A caller without the right header causes no command to run. */
  lemma RejectedCallerRunsNothing(header: Option<string>, token: Option<string>, diff: string,
                                  failure: Option<(Step, Fault)>)
    requires header.None? || header.value != ExpectedHeader(token)
    ensures RunDeploy(header, token, diff, failure).ran == []
    ensures Status(RunDeploy(header, token, diff, failure).response) == 403
  {
  }

  /** With `DEPLOY_TOKEN` unset the expected header is "Bearer ", so a
      request carrying exactly that header is accepted. */
  lemma UnsetTokenAcceptsBareBearer(diff: string)
    ensures Authorized(Some("Bearer "), None)
    ensures RunDeploy(Some("Bearer "), None, diff, None) == Outcome(Deployed, Plan(diff))
  {
  }
}
