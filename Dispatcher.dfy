/**
 * The HTTP-triggered dispatcher (PRReviewFunction.cs): it turns a
 * pull-request webhook payload into one container-group submission named
 * after the pull request, or into a 400 result.
 *
 * The payload arrives already deserialized, the environment is a map, and
 * the backend calls are outcome values; `Uri.UnescapeDataString` is the
 * parameter `unescape`, handed on to the URL parser.
 */
module Dispatcher {
  import opened Wrappers
  import opened Runtime
  import opened Text
  import opened RepoUrl

  /** C#'s `int`. */
  newtype Int32 = x: int | -0x8000_0000 <= x < 0x8000_0000

  // ---------------------------------------------------------------------
  // The deserialized webhook payload
  // ---------------------------------------------------------------------

  datatype Repository = Repository(name: Option<string>, remoteUrl: Option<string>)

  /** A missing `pullRequestId` deserializes to `int`'s default, 0. */
  datatype Resource = Resource(title: Option<string>, pullRequestId: Int32, repository: Option<Repository>)

  datatype PullRequestPayload = PullRequestPayload(resource: Option<Resource>)

  /**
   * The result of deserializing the request body: the deserializer threw
   * (malformed JSON), or it produced a payload that may be null.
   */
  datatype Body = Malformed(message: string) | Deserialized(payload: Option<PullRequestPayload>)

  /** The pull-request details the handler reads, every missing field defaulted. */
  datatype PullRequestEvent = PullRequestEvent(title: string, id: Int32, repoName: string, repoUrl: string)

  /** `new Resource()`: every field at its default. */
  const DefaultResource := Resource(None, 0, None)

  /** Reads the pull-request details, replacing a null resource, repository or string by its default. */
  function EventOf(payload: Option<PullRequestPayload>): (e: PullRequestEvent)
    ensures payload.None? || payload.value.resource.None? ==> e == PullRequestEvent("", 0, "", "")
    ensures payload.Some? && payload.value.resource.Some? ==>
      var r := payload.value.resource.value;
      e.id == r.pullRequestId &&
      (r.title.Some? ==> e.title == r.title.value) && (r.title.None? ==> e.title == "") &&
      (r.repository.None? ==> e.repoName == "" && e.repoUrl == "") &&
      (r.repository.Some? ==>
        (r.repository.value.name.Some? ==> e.repoName == r.repository.value.name.value) &&
        (r.repository.value.name.None? ==> e.repoName == "") &&
        (r.repository.value.remoteUrl.Some? ==> e.repoUrl == r.repository.value.remoteUrl.value) &&
        (r.repository.value.remoteUrl.None? ==> e.repoUrl == ""))
  {
    var resource := if payload.Some? then payload.value.resource.GetOr(DefaultResource) else DefaultResource;
    var repository := resource.repository.GetOr(Repository(None, None));
    PullRequestEvent(resource.title.GetOr(""), resource.pullRequestId,
                     repository.name.GetOr(""), repository.remoteUrl.GetOr(""))
  }

  // ---------------------------------------------------------------------
  // Required environment variables
  // ---------------------------------------------------------------------

  /** The variables that must be set and non-empty before any backend call. */
  const RequiredVariables: seq<string> :=
    ["AZURE_PAT", "AZURE_SUBSCRIPTION_ID", "ACR_NAME", "ACR_USERNAME", "ACR_PASSWORD",
     "RESOURCE_GROUP", "AZURE_OPENAI_API_KEY"]

  /** The names among `names`, in their order, that are unset or empty in `env`. */
  function Missing(env: Environment, names: seq<string>): seq<string>
    decreases |names|
  {
    if names == [] then []
    else
      var last := names[|names| - 1];
      Missing(env, names[..|names| - 1]) + (if IsNullOrEmpty(GetVariable(env, last)) then [last] else [])
  }

  /** A name is reported missing exactly when it is required and unset or empty. */
  lemma {:induction false} MissingExactly(env: Environment, names: seq<string>)
    ensures forall x :: x in Missing(env, names) <==> x in names && IsNullOrEmpty(GetVariable(env, x))
    decreases |names|
  {
    if names != [] {
      var init := names[..|names| - 1];
      MissingExactly(env, init);
      assert names == init + [names[|names| - 1]];
    }
  }

  /** Missing names keep the order of the required list: the check distributes over concatenation. */
  lemma {:induction false} MissingAppend(env: Environment, a: seq<string>, b: seq<string>)
    ensures Missing(env, a + b) == Missing(env, a) + Missing(env, b)
    decreases |b|
  {
    if b == [] {
      assert a + b == a;
    } else {
      var init := b[..|b| - 1];
      MissingAppend(env, a, init);
      assert (a + b)[..|a + b| - 1] == a + init;
    }
  }

  /** Every name of `names` is set to a non-empty value in `env`. */
  predicate AllSet(env: Environment, names: seq<string>) {
    forall i :: 0 <= i < |names| ==> !IsNullOrEmpty(GetVariable(env, names[i]))
  }

  /** Nothing is reported missing exactly when every name is set and non-empty. */
  lemma NoneMissingIffAllSet(env: Environment, names: seq<string>)
    ensures Missing(env, names) == [] <==> AllSet(env, names)
  {
    MissingExactly(env, names);
    if Missing(env, names) != [] {
      var x := Missing(env, names)[0];
      assert x in Missing(env, names);
    }
  }

  /** Collects every required variable that is unset or empty, without stopping at the first. */
  method CollectMissing(env: Environment, names: seq<string>) returns (missing: seq<string>)
    ensures missing == Missing(env, names)
  {
    missing := [];
    for i := 0 to |names|
      invariant missing == Missing(env, names[..i])
    {
      assert names[..i + 1][..i] == names[..i];
      if IsNullOrEmpty(GetVariable(env, names[i])) {
        missing := missing + [names[i]];
      }
    }
    assert names[..|names|] == names;
  }

  // ---------------------------------------------------------------------
  // The container-group descriptor
  // ---------------------------------------------------------------------

  datatype EnvironmentVariable = EnvironmentVariable(name: string, value: Option<string>)

  datatype RestartPolicy = Always | OnFailure | Never

  datatype RegistryCredential = RegistryCredential(server: string, username: Option<string>, password: Option<string>)

  datatype ContainerDefinition = ContainerDefinition(name: string, image: string, environment: seq<EnvironmentVariable>)

  datatype ContainerGroupData = ContainerGroupData(
    containers: seq<ContainerDefinition>,
    restartPolicy: RestartPolicy,
    registryCredentials: seq<RegistryCredential>)

  /** What is handed to the backend's create-or-update call. */
  datatype Submission = Submission(groupName: string, data: ContainerGroupData)

  /** The prefix of every container group this system creates. */
  const GroupPrefix := "pr-agent-"

  const ContainerName := "pr-agent-container"

  /** The container group of one pull request: the prefix, then the id in decimal. */
  function GroupName(id: Int32): string {
    GroupPrefix + IntToDecimal(id as int)
  }

  /** Group names carry the prefix, and distinct pull requests get distinct groups. */
  lemma GroupNameInjective(a: Int32, b: Int32)
    ensures StartsWith(GroupName(a), GroupPrefix)
    ensures GroupName(a) == GroupName(b) <==> a == b
  {
    if GroupName(a) == GroupName(b) {
      assert IntToDecimal(a as int) == GroupName(a)[|GroupPrefix|..];
      assert IntToDecimal(b as int) == GroupName(b)[|GroupPrefix|..];
      IntToDecimalInjective(a as int, b as int);
    }
  }

  function RegistryServer(acrName: string): string {
    acrName + ".azurecr.io"
  }

  function ImageReference(acrName: string): string {
    acrName + ".azurecr.io/azure-pr-agent"
  }

  /** The image is pulled from the very registry the credential is for. */
  lemma ImageOnRegistry(acrName: string)
    ensures ImageReference(acrName) == RegistryServer(acrName) + "/azure-pr-agent"
    ensures StartsWith(ImageReference(acrName), RegistryServer(acrName))
  {
  }

  /** The names of the container's environment, in order. */
  const EnvironmentNames: seq<string> :=
    ["AZURE_PAT", "AZURE_ORG", "AZURE_PROJECT", "AZURE_REPO", "AZURE_PR_ID",
     "AZURE_OPENAI_API_KEY", "AZURE_OPENAI_API_INSTANCE_NAME", "AZURE_OPENAI_API_DEPLOYMENT_NAME",
     "AZURE_OPENAI_API_VERSION", "INSTRUCTION_SOURCE", "CREATE_NEW_PR"]

  /** The names derived from the pull request rather than copied from the environment. */
  const EventDerivedNames: set<string> := {"AZURE_ORG", "AZURE_PROJECT", "AZURE_REPO", "AZURE_PR_ID"}

  /** The container's environment. */
  function EnvironmentList(env: Environment, loc: RepoLocation, repoName: string, prId: string): seq<EnvironmentVariable> {
    [ EnvironmentVariable("AZURE_PAT", GetVariable(env, "AZURE_PAT")),
      EnvironmentVariable("AZURE_ORG", Some(loc.org)),
      EnvironmentVariable("AZURE_PROJECT", Some(loc.project)),
      EnvironmentVariable("AZURE_REPO", Some(repoName)),
      EnvironmentVariable("AZURE_PR_ID", Some(prId)),
      EnvironmentVariable("AZURE_OPENAI_API_KEY", GetVariable(env, "AZURE_OPENAI_API_KEY")),
      EnvironmentVariable("AZURE_OPENAI_API_INSTANCE_NAME", GetVariable(env, "AZURE_OPENAI_API_INSTANCE_NAME")),
      EnvironmentVariable("AZURE_OPENAI_API_DEPLOYMENT_NAME", GetVariable(env, "AZURE_OPENAI_API_DEPLOYMENT_NAME")),
      EnvironmentVariable("AZURE_OPENAI_API_VERSION", GetVariable(env, "AZURE_OPENAI_API_VERSION")),
      EnvironmentVariable("INSTRUCTION_SOURCE", GetVariable(env, "INSTRUCTION_SOURCE")),
      EnvironmentVariable("CREATE_NEW_PR", Some(GetVariable(env, "CREATE_NEW_PR").GetOr("false"))) ]
  }

  /**
   * The container's environment has eleven distinct names in a fixed order;
   * the pull-request values come from the event, CREATE_NEW_PR defaults to
   * "false" only when unset, and every other value is copied verbatim.
   */
  lemma EnvironmentListShape(env: Environment, loc: RepoLocation, repoName: string, prId: string)
    ensures var vars := EnvironmentList(env, loc, repoName, prId);
      |vars| == 11 &&
      (forall i :: 0 <= i < 11 ==> vars[i].name == EnvironmentNames[i]) &&
      (forall i, j :: 0 <= i < j < 11 ==> vars[i].name != vars[j].name) &&
      vars[1].value == Some(loc.org) && vars[2].value == Some(loc.project) &&
      vars[3].value == Some(repoName) && vars[4].value == Some(prId) &&
      ("CREATE_NEW_PR" in env ==> vars[10].value == Some(env["CREATE_NEW_PR"])) &&
      ("CREATE_NEW_PR" !in env ==> vars[10].value == Some("false")) &&
      (forall i :: 0 <= i < 10 && vars[i].name !in EventDerivedNames ==>
        vars[i].value == GetVariable(env, vars[i].name))
  {
  }

  /** The descriptor of the one container group a dispatch submits. */
  function GroupData(env: Environment, loc: RepoLocation, repoName: string, prId: string): ContainerGroupData {
    var acrName := Interpolate(GetVariable(env, "ACR_NAME"));
    ContainerGroupData(
      [ContainerDefinition(ContainerName, ImageReference(acrName), EnvironmentList(env, loc, repoName, prId))],
      Never,
      [RegistryCredential(RegistryServer(acrName), GetVariable(env, "ACR_USERNAME"), GetVariable(env, "ACR_PASSWORD"))])
  }

  /**
   * Once the required variables are all set, the descriptor pulls its one
   * image from the configured registry with the configured credential, never
   * restarts, and passes every required secret it carries as a non-empty value.
   */
  lemma GroupDataComplete(env: Environment, loc: RepoLocation, repoName: string, prId: string)
    requires AllSet(env, RequiredVariables)
    ensures "ACR_NAME" in env && "ACR_USERNAME" in env && "ACR_PASSWORD" in env
    ensures var data := GroupData(env, loc, repoName, prId);
      var acrName := env["ACR_NAME"];
      data.restartPolicy == Never &&
      |data.containers| == 1 &&
      data.containers[0].image == RegistryServer(acrName) + "/azure-pr-agent" &&
      data.containers[0].environment == EnvironmentList(env, loc, repoName, prId) &&
      data.registryCredentials ==
        [RegistryCredential(RegistryServer(acrName), Some(env["ACR_USERNAME"]), Some(env["ACR_PASSWORD"]))] &&
      acrName != "" && env["ACR_USERNAME"] != "" && env["ACR_PASSWORD"] != ""
  {
    assert RequiredVariables[2] == "ACR_NAME";
    assert RequiredVariables[3] == "ACR_USERNAME";
    assert RequiredVariables[4] == "ACR_PASSWORD";
  }

  /** Every required variable the container receives arrives with a non-empty value. */
  lemma RequiredSecretsSet(env: Environment, loc: RepoLocation, repoName: string, prId: string)
    requires AllSet(env, RequiredVariables)
    ensures var vars := EnvironmentList(env, loc, repoName, prId);
      forall i, j :: 0 <= i < |vars| && 0 <= j < |RequiredVariables| && vars[i].name == RequiredVariables[j] ==>
        !IsNullOrEmpty(vars[i].value)
  {
    EnvironmentListShape(env, loc, repoName, prId);
  }

  // ---------------------------------------------------------------------
  // The handler
  // ---------------------------------------------------------------------

  /**
   * The handler's answer. `AcceptedResult(location, value)` is given the
   * message as its location and a null value.
   */
  datatype ActionResult = Accepted(location: string) | BadRequest(message: string)

  const MissingPrefix := "Missing required environment variables: "
  const ErrorPrefix := "Error occurred: "
  const AcceptedPrefix := "Container instance started for PR #"

  /**
   * One invocation of the HTTP trigger. `lookup` is how the credential,
   * default-subscription and resource-group calls end, `create` how the
   * create-or-update call ends; `submitted` is what was handed to that call,
   * if it was made.
   */
  method Dispatch(body: Body, env: Environment, unescape: string -> string, lookup: CallOutcome, create: CallOutcome)
    returns (result: ActionResult, submitted: Option<Submission>)
    ensures body.Malformed? ==> result == BadRequest(ErrorPrefix + body.message) && submitted == None
    ensures body.Deserialized? ==>
      var e := EventOf(body.payload);
      var missing := Missing(env, RequiredVariables);
      if missing != [] then
        result == BadRequest(MissingPrefix + Join(missing, ", ")) && submitted == None
      else if lookup.Threw? then
        result == BadRequest(ErrorPrefix + lookup.message) && submitted == None
      else
        var prId := IntToDecimal(e.id as int);
        submitted == Some(Submission(GroupName(e.id), GroupData(env, ParseRepoUrl(e.repoUrl, unescape), e.repoName, prId))) &&
        result == if create.Completed? then Accepted(AcceptedPrefix + prId) else BadRequest(ErrorPrefix + create.message)
    ensures submitted.Some? ==> AllSet(env, RequiredVariables)
    ensures result.Accepted? <==> submitted.Some? && create.Completed?
  {
    if body.Malformed? {
      return BadRequest(ErrorPrefix + body.message), None;
    }
    var e := EventOf(body.payload);
    var prId := IntToDecimal(e.id as int);
    var loc := ParseRepoUrl(e.repoUrl, unescape);

    var missing := CollectMissing(env, RequiredVariables);
    if |missing| > 0 {
      return BadRequest(MissingPrefix + Join(missing, ", ")), None;
    }
    NoneMissingIffAllSet(env, RequiredVariables);

    if lookup.Threw? {
      return BadRequest(ErrorPrefix + lookup.message), None;
    }
    var data := GroupData(env, loc, e.repoName, prId);
    submitted := Some(Submission(GroupName(e.id), data));
    match create
    case Completed =>
      result := Accepted(AcceptedPrefix + prId);
    case Threw(message) =>
      result := BadRequest(ErrorPrefix + message);
  }
}
