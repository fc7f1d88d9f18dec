# PR review agent: dispatcher and reaper

This project models the decision logic of two Azure Functions that run a
containerized pull-request review agent, and proves properties of it in
Dafny.

- The **dispatcher** (`PRReviewFunction.cs`) runs on an HTTP webhook from
  Azure DevOps. It reads the pull request from the payload and defaults
  every missing field. It extracts the organization and project from the
  repository URL. It checks the required environment variables, reporting
  all missing ones at once. It then submits one Azure Container Instances
  group named `pr-agent-<id>`, with an 11-entry environment, the image from
  the configured registry, that registry's credential and restart policy
  Never. It answers 202 Accepted, or 400 with a message.
- The **reaper** (`ContainerCleanup.cs`) runs on a timer. It gives up when
  the subscription or resource group is not configured. It lists the
  container groups and skips every group whose name does not start with `pr-agent-`.
  It deletes an owned group only when every container reports a state
  whose lower-cased text contains `terminated`, `succeeded` or `failed`.
  A failure on one group does not stop the sweep.

Modules:

| file | module | models |
|---|---|---|
| Wrappers.dfy | `Wrappers` | `Option`, standing for C#'s nullable references |
| Runtime.dfy | `Runtime` | the environment as a map; `string.IsNullOrEmpty`; the outcome of an awaited backend call |
| Text.dfy | `Text` | the .NET string operations used: `Split(char)`, `string.Join`, ordinal `Contains`, `StartsWith` compared character by character, ASCII `ToLower`, `int.ToString()` |
| RepoUrl.dfy | `RepoUrl` | `ParseRepoUrl` |
| Dispatcher.dfy | `Dispatcher` | the body of the HTTP trigger |
| Reaper.dfy | `Reaper` | the body of the timer trigger |
| Lifecycle.dfy | `Lifecycle` | how the dispatcher's names meet the reaper's filter |

Design choices:

- The backend is plain data. The dispatcher's lookup and create calls and
  the reaper's delete are `CallOutcome` values (`Completed` or
  `Threw(message)`). The reaper's fetch of a group's details is a
  `Reaper.Fetch` value (`FetchThrew(message)` or `Fetched(containers)`). The groups a listing returns are
  a sequence of `ListedGroup` records. Each record holds a name, how
  fetching its details ends, and how deleting it would end.
- `Uri.UnescapeDataString` is the parameter `unescape`. The worked example
  needs only that it leaves text without `%` unchanged.
- `ParseRepoUrl` catches every exception and returns `("", "")`. The model
  writes out each index check that would have thrown.
- The loops of the source stay loops. `Dispatcher.CollectMissing` is the
  `foreach` that gathers missing variables. `Reaper.ShouldDelete` is the
  flag-and-`break` scan of a group's containers. `Reaper.Sweep` is the pass
  over the listed groups. Each is proved against a function or predicate,
  and the lemmas state what that function promises.
- The source has no object whose fields change between calls. Its
  collections are local and are built once, so the model has no classes.
  The environment-variable and credential collection initializers are
  sequence values.
- `AcceptedResult(location, value)` is called with the success message as
  its *location* and a null value. `Dispatcher.Accepted(location)` keeps
  that slot.

For a URL that contains `dev.azure.com` but splits into fewer than
six segments, the code returns `("", "")`. It does not fall back to the
host-name rule (`RepoUrl.ParseRepoUrl`,
PRReviewFunction.cs:168-178 and :195).

## Model

| member | source | states |
|---|---|---|
| `Dispatcher.EventOf` | PRReviewFunction.cs:40-47 | A null payload or resource gives title, repository name and URL `""` and id 0. Otherwise each present field is copied, and each null string or null repository becomes `""`. |
| `RepoUrl.ParseRepoUrl` | PRReviewFunction.cs:161-196 | The empty URL gives `("", "")`. A URL containing `dev.azure.com` gives its unescaped segments 3 and 4 when it has at least six `/`-segments. With fewer it gives `("", "")`, without trying the host-name rule. |
| `RepoUrl.HostBasedShape` | PRReviewFunction.cs:178-195 | Any other non-empty URL gives `("", "")` with three or fewer segments. With four or more, the organization is segment 2 up to its first `.`, or all of it when it has none. The project is segment 3, not unescaped, and holds no `/`. |
| `RepoUrl.NoSlashIsUnknown` | PRReviewFunction.cs:165-195 | Every URL without `/` gives `("", "")`: the empty one at once, one with `dev.azure.com` because it has fewer than six segments, and any other one because the `parts[2]` index throws and is caught. |
| `RepoUrl.HostedUrl` | PRReviewFunction.cs:168-176 | Parsing `https://dev.azure.com/<org>/<project>/_git/<repo>` gives back `(unescape(org), unescape(project))` for all `/`-free segments. |
| `RepoUrl.HostedExample` | PRReviewFunction.cs:168-176 | `https://dev.azure.com/myorg/myproject/_git/myrepo` gives `("myorg", "myproject")`. |
| `RepoUrl.HostBasedUrl` | PRReviewFunction.cs:178-187 | Parsing `https://<org>.<domain>/<project>/_git/<repo>` without the hosted marker gives back `(org, project)`. |
| `RepoUrl.HostBasedExample` | PRReviewFunction.cs:178-187 | `https://myorg.visualstudio.com/myproject/_git/myrepo` gives `("myorg", "myproject")` by the host-name rule. |
| `Runtime.GetVariable` | PRReviewFunction.cs:67 | `Environment.GetEnvironmentVariable`: the value when the name is set, null otherwise. |
| `Runtime.IsNullOrEmpty` | PRReviewFunction.cs:67 | `string.IsNullOrEmpty`: the value is null or `""`. |
| `Runtime.Interpolate` | PRReviewFunction.cs:95 | A possibly null string inside an interpolated string: null prints as `""`. |
| `Text.StartsWith` | ContainerCleanup.cs:46 | The prefix is no longer than the string and equals its first characters. |
| `Text.Split` | PRReviewFunction.cs:170-182 | `String.Split(char)` with empty segments kept: the segments between separators, always at least one. |
| `Text.Join` | PRReviewFunction.cs:74 | `string.Join(sep, parts)`: the parts in order with `sep` between neighbours, `""` for no parts. |
| `Text.Contains` | PRReviewFunction.cs:168 | Ordinal `String.Contains(string)`, also used on the lowered state at ContainerCleanup.cs:65-67: the substring occurs somewhere in the string. |
| `Text.Lower` | ContainerCleanup.cs:63 | `ToLower()` on ASCII: same length, each capital mapped to its small letter, no capital left. |
| `Text.IntToDecimal` | PRReviewFunction.cs:44 | `int.ToString()`: `-` before the digits of a negative number, the plain digits otherwise. |
| `Text.SplitSegments` | PRReviewFunction.cs:170-182 | `Split` gives one more segment than separators. No segment holds the separator. The first segment is the input up to the first separator, or all of it when there is none. |
| `Text.JoinSplit` | PRReviewFunction.cs:170 | Joining the segments of `Split` with the separator rebuilds the input. |
| `Text.SplitJoin` | PRReviewFunction.cs:170 | `Split` of a join of separator-free parts gives those parts back. |
| `Text.ContainsIffOccurs` | PRReviewFunction.cs:168 | `Contains` holds exactly when the substring occurs at some position. |
| `Text.IntToDecimalInjective` | PRReviewFunction.cs:44 | Distinct ids print as distinct decimal strings. |
| `Text.DecimalRoundTrip` | PRReviewFunction.cs:44 | Reading back the decimal digits of a natural number gives the number. |
| `Text.IntRoundTrip` | PRReviewFunction.cs:44 | Parsing the printed form of any id, sign included, gives the id back. |
| `Text.LowerFixedPoints` | ContainerCleanup.cs:63 | Lower-casing leaves a string unchanged exactly when it holds no ASCII capital. |
| `Dispatcher.Missing` | PRReviewFunction.cs:64-69 | The names, in list order, whose variable is unset or empty. |
| `Dispatcher.GroupName` | PRReviewFunction.cs:140 | The group name `pr-agent-` followed by the pull-request id in decimal. |
| `Dispatcher.EnvironmentList` | PRReviewFunction.cs:104-117 | The 11 environment entries of the container, in source order, from the event, the parsed location and the process environment. |
| `Dispatcher.GroupData` | PRReviewFunction.cs:93-137 | The group descriptor: one container `pr-agent-container` with the registry image and the environment list, restart policy Never, one registry credential. |
| `Dispatcher.CollectMissing` | PRReviewFunction.cs:64-69 | The loop collects exactly `Missing(env, names)`, the names that are unset or empty, in list order. |
| `Dispatcher.MissingExactly` | PRReviewFunction.cs:57-69 | A name is reported missing iff it is in the required list and unset or empty. |
| `Dispatcher.MissingAppend` | PRReviewFunction.cs:64-69 | The missing list of a concatenation is the concatenation of the missing lists, so order is kept. |
| `Dispatcher.AllSet` | PRReviewFunction.cs:71 | Every listed variable is set and non-empty, the condition under which the check passes. |
| `Dispatcher.NoneMissingIffAllSet` | PRReviewFunction.cs:71-75 | The missing list is empty exactly when every required variable is set and non-empty. |
| `Dispatcher.GroupNameInjective` | PRReviewFunction.cs:140 | `pr-agent-<id>` starts with `pr-agent-`. Two ids give the same name iff they are equal. |
| `Dispatcher.RegistryServer` | PRReviewFunction.cs:131 | The registry server `<acr>.azurecr.io`. |
| `Dispatcher.ImageReference` | PRReviewFunction.cs:95 | The image `<acr>.azurecr.io/azure-pr-agent`. |
| `Dispatcher.ImageOnRegistry` | PRReviewFunction.cs:95-131 | The image `<ACR_NAME>.azurecr.io/azure-pr-agent` is the registry server followed by `/azure-pr-agent`. |
| `Dispatcher.EnvironmentListShape` | PRReviewFunction.cs:104-117 | The container gets 11 distinct names in fixed order. `AZURE_ORG`, `AZURE_PROJECT`, `AZURE_REPO` and `AZURE_PR_ID` come from the pull request. `CREATE_NEW_PR` is the configured value when set, even `""`, and `"false"` only when unset. Every other value is copied verbatim. |
| `Dispatcher.GroupDataComplete` | PRReviewFunction.cs:93-137 | With all required variables set, the group has one container with the registry's image and the 11-entry environment. It never restarts. Its one credential pairs the registry server with the non-empty `ACR_USERNAME` and `ACR_PASSWORD`. |
| `Dispatcher.RequiredSecretsSet` | PRReviewFunction.cs:104-117 | Once the check passes, every required variable in the container's environment has a non-empty value. |
| `Dispatcher.Dispatch` | PRReviewFunction.cs:36-158 | A malformed body gives 400 `Error occurred: <message>`. Missing variables give 400 listing exactly them, joined by `, `, with no submission. A failed lookup gives 400 with no submission. Otherwise exactly one `pr-agent-<id>` group with that descriptor is submitted. The result is 202 for `PR #<id>` iff the call completes, else 400. A submission implies every required variable is set. |
| `Reaper.LoweredState` | ContainerCleanup.cs:63 | `CurrentState?.State?.ToLower()`: null when the current state or its text is null, the lowered text otherwise. |
| `Reaper.IsTerminalText` | ContainerCleanup.cs:65-67 | The lowered state contains `terminated`, `succeeded` or `failed`. |
| `Reaper.HasFinished` | ContainerCleanup.cs:57-71 | A container has an instance view and a state whose lowered text contains `terminated`, `succeeded` or `failed`. |
| `Reaper.AllFinished` | ContainerCleanup.cs:54-71 | Every container of the group has finished. |
| `Reaper.Owned` | ContainerCleanup.cs:46 | The group name starts with `pr-agent-`. |
| `Reaper.Reapable` | ContainerCleanup.cs:46-77 | The group is owned, its details were fetched and all its containers finished: the condition under which `DeleteAsync` runs. |
| `Reaper.Dispose` | ContainerCleanup.cs:44-88 | One group's outcome: skipped when not owned, a caught fetch failure, kept while active, or the delete attempt and how it ended. |
| `Reaper.DeleteAttempts` | ContainerCleanup.cs:74-79 | The names, in listing order, of the groups whose deletion is attempted. |
| `Reaper.ShouldDelete` | ContainerCleanup.cs:51-72 | The flag-and-break loop returns true iff every container has an instance view and a state whose lower-cased text contains `terminated`, `succeeded` or `failed`. |
| `Reaper.MissingDataIsActive` | ContainerCleanup.cs:56-71 | A container with no instance view, no current state or no state text makes its group non-terminal. |
| `Reaper.EmptyGroupIsTerminal` | ContainerCleanup.cs:51-74 | A group with no containers is terminal, since nothing clears the flag. |
| `Reaper.LowercaseStateClassifiedAsIs` | ContainerCleanup.cs:63-67 | A state without capitals is finished exactly when it contains `terminated`, `succeeded` or `failed` as reported. |
| `Reaper.CapitalizedStateFinished` | ContainerCleanup.cs:63-67 | The state `Terminated` counts as finished, because matching is done after lower-casing. |
| `Reaper.SucceededFinished` | ContainerCleanup.cs:63-67 | The state `succeeded` counts as finished. |
| `Reaper.RunningNotFinished` | ContainerCleanup.cs:63-71 | The state `running` does not count as finished. |
| `Reaper.ClassifierExamples` | ContainerCleanup.cs:51-72 | `[Terminated, succeeded]` is terminal. `[Terminated, running]` and `[Terminated, <no instance view>]` are not. |
| `Reaper.Sweep` | ContainerCleanup.cs:27-95 | A missing subscription or resource group ends the sweep with nothing listed or deleted. So does a failed lookup. Otherwise each group's disposition is `Dispose` of that group alone, and the delete attempts are exactly `DeleteAttempts(groups)`, in order. |
| `Reaper.UnownedUntouched` | ContainerCleanup.cs:46-47 | A group without the `pr-agent-` prefix is never fetched and never deleted. |
| `Reaper.DisposeMatchesReapable` | ContainerCleanup.cs:46-88 | A group's outcome is a deletion, completed or failed, exactly when the group is reapable, so the recorded outcomes agree with the attempted deletions. It is a failed deletion exactly when the group is reapable and the delete call threw. |
| `Reaper.AttemptsAreReapable` | ContainerCleanup.cs:46-79 | A name is attempted iff some listed group of that name is owned, was fetched and is terminal. |
| `Reaper.AttemptsAppend` | ContainerCleanup.cs:42-89 | The attempts over a concatenation are the attempts over each part, so a failure on one group does not change the groups after it. |
| `Reaper.AttemptsDistinct` | ContainerCleanup.cs:74-79 | With distinct listed names, no name is attempted twice, so each reapable group gets exactly one delete attempt. |
| `Lifecycle.DispatchedGroupsAreReaped` | PRReviewFunction.cs:140 | Every group name the dispatcher submits passes the reaper's `pr-agent-` filter (ContainerCleanup.cs:46). Such a group is reapable once all its containers have finished. |

## Left out

- Azure SDK and ARM calls. This covers the credential, `ArmClient`, the default subscription, the resource-group lookup, `CreateOrUpdateAsync`, `GetAsync` and `DeleteAsync`. Each becomes an outcome value the caller supplies, because they are network calls into code not modelled here. Every exception the dispatcher's lookup steps can raise is folded into one `lookup` outcome.
- An exception raised by the group enumeration itself, after some groups were processed, is not modelled. The listing is a finished sequence.
- HTTP request handling and JSON stream deserialization. The body is already `Malformed(message)` or a possibly-null `PullRequestPayload`.
- Logging, `async`/`await` and the timer schedule `0 0 */6 * * *`. They are runtime plumbing with no decision in them.
- The container's CPU (1.0) and memory (4.0 GB), `AzureLocation.EastUS` and the Linux OS type. These are fixed floating-point and SDK values.
- How the backend treats a create-or-update for a name that already exists. This code does not decide it.
- `Uri.UnescapeDataString` is the function parameter `unescape`. Percent-decoding is not modelled.
- `Text.Lower`: lower-cases ASCII letters only, because culture-sensitive `ToLower` is not modelled.
- `Reaper.Owned`: tests the `pr-agent-` prefix character by character. The source's `StartsWith(string)` compares with the current culture, which can skip ignorable characters such as U+00AD; that is not modelled. Azure group names hold only lowercase letters, digits and `-`, where the two comparisons agree.
- `Text.IntToDecimal`: uses `-` as the negative sign, so the current culture's `NumberFormatInfo` is not modelled.
- A null group name, which would make `StartsWith` throw inside the per-group `try`, is not modelled. Group names are strings.
