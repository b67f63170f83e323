# PHP Censor build triggering, pipeline and status core in Dafny

This project models the decision logic at the centre of PHP Censor, a self-hosted
continuous-integration server, and proves properties about it. The model covers:

- **Build fan-out and de-duplication** (`WebhookController::createBuild`). A webhook
  delivery for a commit becomes zero or more build-creation requests: one per
  environment mapped to the branch, a named environment, or a single environment-less
  build. A request is suppressed when a build for that environment already exists for
  the commit and the tag brings nothing new. The build store is modelled as a sequence
  of rows with auto-increment ids, so repeated deliveries can be reasoned about.
- **The webhook normalisers** for Bitbucket (push, pull request, legacy POST service),
  GitHub (push, pull request), GitLab and Gogs (push, label-driven pull requests). They
  turn a decoded payload into `createBuild` calls and aggregate the per-commit results
  into `ok`/`failed`. `handleAction` turns a handler's array into the JSON response.
- **The build pipeline** (`Builder::execute`). The core stages setup, test and deploy
  stop at the first failure. The outcome stages success/fixed or failure/broken follow,
  chosen from the verdict and the previous build's status, and then the complete stage.
  Plugin stages are an oracle `Stage -> Passed | NotPassed | Fault`; `execute`
  produces an event log of saves, status post-backs, stages run and directory removal.
  Also modelled: the error-trend update, the path normalisation of `setupBuild` and
  `getConfig`.
- **Two plugins.** PHP CS Fixer: argument assembly, version detection and gating,
  config-file selection, diff-report processing and the warning threshold. Phing: the
  option setters and the command line.
- **The public status endpoints**: badge status, colour and URL; coverage; the latest
  builds; the ccmenu feed; the public page.
- **User administration** rules, the **dashboard** widget columns and the
  **default branch** per repository type.

PHP semantics that matter are modelled explicitly in module `Php`:
- truthiness (`""` and `"0"` are falsy);
- `isset` (present and not null);
- the `(int)` cast of a leading decimal integer (exponent forms and saturation at the integer limits are left out, see below);
- ordered arrays whose assignment keeps a key's position;
- `implode`, `rtrim`, `array_merge` and `array_unique`.

Under `declare(strict_types=1)`, a `TypeError` is an `Error`, not an `Exception`, so
`catch (Exception)` does not stop it. Such errors are modelled as a `Crashed` result.

Files: `wrappers.dfy` (Option), `php.dfy`, `fanout.dfy` (createBuild and the store),
`webhooks.dfy`, `gogs.dfy`, `builder.dfy`, `phpcsfixer.dfy`, `phing.dfy`,
`buildstatus.dfy`, `users.dfy`, `dashboard.dfy`, `branch.dfy`.

## Model

| member | source | states |
|---|---|---|
| FanOut.CreateBuild | src/Controller/WebhookController.php:104-283 | Not-found iff the project is archived. Ignored as not-default-branch iff the default-branch-only filter rejects the branch. `ok` iff at least one request. An all-duplicates answer lists at least one duplicate. The single-build and "duplicate of" answers occur only without environments, the fan-out answers only with them. Every request carries the incoming tag and passes the dedup test. |
| FanOut.FanOutPerEnvironment | src/Controller/WebhookController.php:197-253 | With environments and no usable name: one request per mapped environment not yet built for the commit or with a new tag, each on the project's default branch. The others are reported by the id of their prior build. No mapped environment gives "Branch not assigned to any environment". |
| FanOut.NamedEnvironment | src/Controller/WebhookController.php:145-195 | A truthy name that resolves: one request for that environment on the default branch, or, when it is already built and the tag is not new, the id of the first prior build with that environment. |
| FanOut.NoEnvironments | src/Controller/WebhookController.php:255-281 | Zero environments: one environment-less request on the triggering branch, unless an environment-less prior build exists and the tag is not new; then a duplicate of the first such build. |
| FanOut.NewTagAlwaysBuilds | src/Controller/WebhookController.php:148-151 | A truthy tag that no prior build carries defeats de-duplication on all three paths. |
| FanOut.ConsideredBuiltOrRequested | src/Controller/WebhookController.php:119-130 | Every environment the decision looks at is either built already for the commit or requested now. |
| FanOut.AllConsideredBuiltIgnored | src/Controller/WebhookController.php:187-195 | With no tag and every considered environment built, nothing is created. |
| FanOut.IndexOfDistinct | src/Controller/WebhookController.php:124-130 | The id-keyed maps built from stored rows with distinct ids hold every row, in order. |
| FanOut.FirstWith | src/Controller/WebhookController.php:171 | `array_search` over the environment map: some iff a prior build has that environment, and then the id of such a build. |
| FanOut.EnvIdsForBranch | src/Controller/WebhookController.php:197 | An id is returned iff some environment with that id has the branch in its branch list. |
| FanOut.FindByName | src/Controller/WebhookController.php:146 | An environment of the project with the given name; none iff no environment has that name. |
| FanOut.CreateBuildAsWritten | src/Controller/WebhookController.php:140-147 | As written: with environments and no name, the call ends in an uncaught error. Every other call returns what `CreateBuild` returns. |
| FanOut.MissingNameCrashesAsWritten | src/Controller/WebhookController.php:146 | For a project whose only environment serves the pushed branch, the as-written call crashes where one build for that environment is intended. |
| FanOut.Persist | src/Controller/WebhookController.php:153-169 | The requested builds are stored after the existing rows, the k-th with id `next + k` and its request's environment and tag; the next id advances by their number. |
| FanOut.PersistKeepsValid | src/Controller/WebhookController.php:153-169 | Storing builds keeps ids distinct and below the next id. |
| FanOut.SubmitKeepsValid | src/Controller/WebhookController.php:104-283 | One delivery keeps the store valid. |
| FanOut.RowsFor | src/Controller/WebhookController.php:120 | The rows of a commit are exactly the stored builds of that commit, never more rows than stored builds. |
| FanOut.BuiltStaysBuilt | src/Controller/WebhookController.php:119-130 | Storing more builds never unbuilds an environment for the commit. |
| FanOut.RequestedBecomesBuilt | src/Controller/WebhookController.php:119-130 | Every stored request makes its environment built for the commit. |
| FanOut.FirstDeliveryBuildsConsidered | src/Controller/WebhookController.php:119-130 | After an untagged delivery, every environment it looked at is built for the commit. |
| FanOut.RedeliveryCreatesNothing | src/Controller/WebhookController.php:119-130 | Delivering the same untagged event twice creates nothing the second time. |
| FanOut.RedeliveryNamesFirstBuild | src/Controller/WebhookController.php:273-280 | Without environments, the second untagged delivery is reported as a duplicate of exactly the build the first created. |
| Webhooks.ExtractEmail | src/Controller/WebhookController.php:481-486 | Without a `>`, the input is returned unchanged. With one, the result is the text strictly between the first `<` before the first `>` and that `>`. With no `<` before it, the result is everything between the first character and the first `>`, so the first character is lost. |
| Webhooks.NameAddrGivesAddress | src/Controller/WebhookController.php:566-570 | `Name <address>rest` gives back exactly the address, for any name without brackets and any address without `>`. |
| Webhooks.MissingOpenBracketDropsFirst | src/Controller/WebhookController.php:485 | A `>` with no `<` before it drops the first character, since `false + 1` is 1. |
| Webhooks.ExtractEmailUnguarded | src/Controller/WebhookController.php:668-670 | The unguarded extraction fails exactly when the raw author has no `>`; otherwise it agrees with the guarded one. |
| Webhooks.RunBatch | src/Controller/WebhookController.php:476-504 | The batch aborts iff some step is an uncaught error. Status is ok iff the project is not archived and some live step builds. The results keys are unique and are exactly the keys the live steps write. |
| Webhooks.RunBatchKeepsValid | src/Controller/WebhookController.php:476-504 | A batch of `createBuild` calls keeps the store valid. |
| Webhooks.UniformSkipResult | src/Controller/WebhookController.php:554-561 | When every live step writing a key writes the same skip result, that result is what the results array holds under the key. |
| Webhooks.BitbucketCommitRequest | src/Controller/WebhookController.php:474-505 | One build per change with a `new` side, on its branch. Ok iff the project is not archived and such a change exists. The results keys are the hashes of those changes. |
| Webhooks.BitbucketPushFacts | src/Controller/WebhookController.php:474-505 | The push steps never abort. Some build iff some change has a `new` side. The keys written are exactly those changes' hashes. |
| Webhooks.ServiceStepsFacts | src/Controller/WebhookController.php:662-688 | The service steps abort iff some raw author lacks `>`. Otherwise some build iff there are commits. |
| Webhooks.BitbucketService | src/Controller/WebhookController.php:662-688 | Crashes iff some raw author lacks `>`. Otherwise ok iff the project is not archived and there are commits. |
| Webhooks.BitbucketPullSteps | src/Controller/WebhookController.php:554-592 | Only commits whose id starts with the source hash are built, on the destination branch. Every other commit is answered "not branch head". |
| Webhooks.BitbucketPullFacts | src/Controller/WebhookController.php:554-592 | The pull-request steps never abort. Some build iff some commit id starts with the source hash. |
| Webhooks.BitbucketPullRequest | src/Controller/WebhookController.php:517-596 | An unsupported trigger is ignored. Missing credentials, then a non-2xx commit list, raise. Otherwise the head-prefixed commits are built. |
| Webhooks.GithubPushJob | src/Controller/WebhookController.php:749-766 | A tag push builds the tag on the base branch, credited to the pusher. A branch push builds the branch, untagged, credited to the committer. |
| Webhooks.GithubTagPush | src/Controller/WebhookController.php:759-762 | `refs/tags/<name>` from `refs/heads/<branch>` builds tag `name` on `branch`. |
| Webhooks.GithubBranchPush | src/Controller/WebhookController.php:763-766 | `refs/heads/<branch>` builds `branch`, untagged. |
| Webhooks.GithubCommitRequest | src/Controller/WebhookController.php:740-788 | The all-zero `after` is ignored first. No head commit is unusable. A non-distinct head commit is recorded as ignored with status failed. Otherwise the head commit is built. |
| Webhooks.GithubPullSteps | src/Controller/WebhookController.php:845-852 | A commit is built iff its id equals the head sha exactly, on the base branch. |
| Webhooks.GithubPullFacts | src/Controller/WebhookController.php:845-852 | The pull-request steps never abort. Some build iff the head commit is listed. |
| Webhooks.GithubPullRequest | src/Controller/WebhookController.php:800-882 | An unsupported action is ignored. A non-2xx commit list raises. Otherwise the exact head commit is built. |
| Webhooks.GithubPullSkipsOthers | src/Controller/WebhookController.php:848-851 | Every fetched commit other than the head reads "not branch head" in the results, even when listed twice. |
| Webhooks.Gitlab | src/Controller/WebhookController.php:893-952 | An open or reopened merge request builds its last commit on the source branch. Otherwise a push builds only its last commit. An empty push gives no build and status failed. No commits array is unusable. |
| Webhooks.GitlabAsWritten | src/Controller/WebhookController.php:924-949 | As written: crashes iff the payload is not an open merge request and its commits array is empty; every non-empty push agrees with `Gitlab`. |
| Webhooks.GitlabEmptyPushCrashes | src/Controller/WebhookController.php:930 | The empty push crashes as written, where `failed` with no build is intended. |
| Webhooks.PushSteps | src/Controller/WebhookController.php:1007-1024 | One untagged build per pushed commit, in order, on the pushed branch. The keys written are exactly the commit ids. |
| Webhooks.GogsCommitRequest | src/Controller/WebhookController.php:1001-1030 | Every commit of the push is built on the pushed branch. No commits array is unusable. |
| Webhooks.HandleAction | src/Controller/WebhookController.php:68-83 | A set `responseCode` becomes the status code and is removed from the content, with every other key kept. Otherwise the code is 200 and the content is unchanged. An exception gives 500 with status failed and its message. |
| Webhooks.NullResponseCodeStays | src/Controller/WebhookController.php:73 | A null `responseCode` is not set: it stays in the content and the code stays 200. |
| GogsLabels.EnvNames | src/Controller/WebhookController.php:1066-1072 | A name is asked for iff it is the rest of some label starting with `env:`. |
| GogsLabels.Targets | src/Controller/WebhookController.php:1065 | Labels count only for an active action on an open pull request. |
| GogsLabels.Without | src/Controller/WebhookController.php:1091 | `array_diff` with one branch: no occurrence of it remains, and every other branch is kept. |
| GogsLabels.WithoutTwice | src/Controller/WebhookController.php:1091 | Removing a branch twice is removing it once. |
| GogsLabels.Relabel | src/Controller/WebhookController.php:1079-1096 | A named environment gains the head branch when it lacks it. An unnamed one loses it when it has it. Saved iff changed. |
| GogsLabels.RelabelAll | src/Controller/WebhookController.php:1075-1097 | Every environment is relabelled in order; the saved ids are exactly those whose list changed. |
| GogsLabels.GogsPullRequest | src/Controller/WebhookController.php:1042-1126 | An unknown action or state is ignored. Otherwise the environments are updated and each changed one, plus the base-branch environments on a merged close, gets one build. |
| GogsLabels.HeadBranchFollowsLabels | src/Controller/WebhookController.php:1065-1097 | After an accepted event, the head branch is in an environment's list iff a counting `env:` label names it; other branches are untouched. |
| GogsLabels.RebuildsChangedOnce | src/Controller/WebhookController.php:1099-1120 | The rebuilt environments are exactly the changed ones plus, on a merged close, those serving the base branch, each once. |
| GogsLabels.OpenedLabelAddsBranch | src/Controller/WebhookController.php:1065-1087 | An opened pull request labelled `env:<name>` adds the head branch to that environment and rebuilds it. |
| Builder.RunCore | src/Builder.php:192-198 | The stages run are a prefix of setup, test, deploy. Success iff every stage passed, and then all ran. On failure the last stage run did not pass and every earlier one did. |
| Builder.CoreFor | src/Builder.php:187-211 | No core stage runs when setup did not end normally. Otherwise the core loop runs, and success iff setup ended normally and every core stage passed. |
| Builder.StagesFor | src/Builder.php:171-251 | The stages end with complete. When setup failed, no core stage runs: only the failure stage, broken when it did not throw and the previous build was successful or pending, then complete. With a normal setup, the stages begin with exactly the core loop's stages. |
| Builder.StagesForOnce | src/Builder.php:171-251 | Every stage runs at most once: each core stage, each outcome stage and complete. No core stage runs after the core loop has ended. |
| Builder.StagesForOutcome | src/Builder.php:180-185 | Success stage iff the build succeeded, failure stage iff not. Fixed iff success, the success stage did not throw and the previous status was failed. Broken iff failure, the failure stage did not throw and the previous status was success or pending. |
| Builder.OutcomeStages | src/Builder.php:213-233 | Outcome stages follow the verdict; a fault in the first ends the block. |
| Builder.Execute | src/Builder.php:171-270 | Running is saved and posted back first. The last event saves the final status, success iff setup ended normally and every core stage passed. The final status is posted back. The directory is removed iff the setting is truthy or missing. The stages run are `StagesFor`. |
| Builder.VerdictIgnoresLaterStages | src/Builder.php:213-251 | Two oracles that agree on the core stages give the same final status, whatever the outcome and complete stages do. |
| Builder.LogAround | src/Builder.php:173-176 | The log around the stages starts with save and post-back of running and ends with the final save. |
| Builder.ErrorTrend | src/Builder.php:272-293 | The total is the current count. The previous total becomes the second trend row's count only when that row's build exists and is neither pending nor running; otherwise it is kept. |
| Builder.ErrorTrendReadsSecondRowOnly | src/Builder.php:282-292 | Trends that agree on the second row give the same totals. |
| Builder.WithTrailingSlash | src/Builder.php:400-403 | The result ends with `/`, the character before it is neither `/` nor `\`, and the part before the final `/` is a prefix of the input. Everything of the input past that prefix is a slash or backslash, so only trailing slashes are trimmed. |
| Builder.WithTrailingSlashIdempotent | src/Builder.php:422-425 | Normalising a normalised path changes nothing. |
| Builder.SetupPaths | src/Builder.php:389-425 | Verbose stays on only while the setting is truthy. A non-empty ignore list is taken. A non-empty binary path is interpolated and normalised. The priority path changes only to a value in the allowed list. The directory is the setting or the build path, interpolated and normalised. |
| Builder.PriorityPathFallsBackToLocal | src/Builder.php:406-413 | From the initial fields, a priority path outside the allowed list leaves `local`. |
| Builder.GetConfig | src/Builder.php:147-157 | No key gives the whole config. A set key gives its value. A missing or null key gives null. |
| Builder.GetConfigAfterAssign | src/Builder.php:147-157 | In a config array with a non-null value assigned under a key, that key reads the value back and other keys read as before. |
| PhpCsFixer.ArgumentFlags | src/Plugin/PhpCsFixer.php:64-89 | The constructor's pieces come in the fixed order user args, verbose, diff, rules, config, dry-run, and each comes from a truthy option with that option's value. |
| PhpCsFixer.CollectAll | src/Plugin/PhpCsFixer.php:64-89 | Every truthy option contributes its piece. |
| PhpCsFixer.Configure | src/Plugin/PhpCsFixer.php:60-97 | The flags are the constructor's pieces. Config and errors are set iff their options are truthy. reportErrors iff errors and its option is truthy. allowedWarnings is set iff errors: 0 when the option is not set, else its `(int)`. |
| PhpCsFixer.ConfigureDetermined | src/Plugin/PhpCsFixer.php:64-89 | Any ordered list of pieces that agree with the options and include every truthy option's piece is the one built. |
| PhpCsFixer.SupportsUdiff | src/Plugin/PhpCsFixer.php:122-123 | True iff 2.8.0 ≤ version < 3.0.0, that is major 2 and minor at least 8. |
| PhpCsFixer.ParseVersion | src/Plugin/PhpCsFixer.php:115-119 | None iff no `\d+\.\d+\.\d+` occurs anywhere. |
| PhpCsFixer.ParseVersionOfBanner | src/Plugin/PhpCsFixer.php:115-119 | A banner with no digits before the version and a non-digit after it gives back exactly that version. |
| PhpCsFixer.FirstFrom | src/Plugin/PhpCsFixer.php:115 | The leftmost position that matches: it matches and none before it does; none iff no position matches. |
| PhpCsFixer.FirstFromSkips | src/Plugin/PhpCsFixer.php:115 | A matching position with no match before it is the one found. |
| PhpCsFixer.MatchAtVersion | src/Plugin/PhpCsFixer.php:115 | The rendering `x.y.z` of a version, followed by a non-digit or the end, matches there as that version. |
| PhpCsFixer.ParseVersionLeftmost | src/Plugin/PhpCsFixer.php:115-119 | The version found is the one matched at the leftmost matching position. |
| PhpCsFixer.ConfigCandidates | src/Plugin/PhpCsFixer.php:130-135 | Exactly two candidate names are tried. Which two is a definition, not a contract: `.php-cs-fixer.php`, `.php-cs-fixer.dist.php` from 3.0.0 on, and `.php_cs`, `.php_cs.dist` before. |
| PhpCsFixer.FirstPresent | src/Plugin/PhpCsFixer.php:136-142 | The first candidate present under the build path, with none before it present; none when none is. |
| PhpCsFixer.FoundConfig | src/Plugin/PhpCsFixer.php:130-142 | Nothing is looked up when a config is configured. Otherwise a name is found iff a candidate is present, and it is the first present candidate. |
| PhpCsFixer.AddedFlags | src/Plugin/PhpCsFixer.php:136-157 | A found config is added first as `./<name>`. The JSON report flags are added iff errors, udiff iff errors and supported. The pieces are in rank order, and nothing else is added. |
| PhpCsFixer.AddedFlagsDetermined | src/Plugin/PhpCsFixer.php:136-157 | Any rank-ordered list holding exactly the found config and the asked-for report flags is the appended list. |
| PhpCsFixer.Execute | src/Plugin/PhpCsFixer.php:106-175 | Fails iff no version is found. An unreadable report is an error iff errors are on. The directory is kept when given, else `.` without a config. A config is looked up only when none is configured. Success drops iff warnings exceed the allowed count and that count is not -1. The appended pieces are exactly `AddedFlags` of the found configuration file, the errors option and udiff support. |
| PhpCsFixer.RenderAppend | src/Plugin/PhpCsFixer.php:64-89 | Rendering two lists of pieces in a row gives the two renderings concatenated. |
| PhpCsFixer.Arguments | src/Plugin/PhpCsFixer.php:158-159 | The argument string is the constructor's rendering followed by the rendering of the pieces `execute` appended. |
| PhpCsFixer.LeadingUnchanged | src/Plugin/PhpCsFixer.php:228-236 | The count of leading unchanged lines of a chunk: all before it unchanged, the next one not. |
| PhpCsFixer.ScanChunk | src/Plugin/PhpCsFixer.php:207-237 | The reported line is the chunk start plus the leading unchanged lines, none when the start is 0. The diff has one `+`, `-` or space-prefixed line per line. |
| PhpCsFixer.ScanFile | src/Plugin/PhpCsFixer.php:197-251 | One warning and one error per chunk of the file. |
| PhpCsFixer.ProcessReport | src/Plugin/PhpCsFixer.php:186-265 | Warnings equal the total number of chunks. Errors are reported iff reporting is on. |
| PhpCsFixer.ErrorCount | src/Plugin/PhpCsFixer.php:239-261 | Reported errors are one per chunk plus one per file with applied fixers. |
| Phing.SetTargets | src/Plugin/Phing.php:108-115 | A string becomes the only target; a list is stored as given; nothing else changes. |
| Phing.SetProperties | src/Plugin/Phing.php:184-191 | A string becomes the list holding it under key 0; a list is stored as given; nothing else changes. |
| Phing.Construct | src/Plugin/Phing.php:22-59 | Defaults `build.xml` and target `build`. Fails iff the build file is missing under the directory, or the property file is missing under the directory plus `/`. A given string target becomes the only target, and a given list is kept. A given string property becomes the list holding it under key 0, and a given list is kept. |
| Phing.BuildFilePath | src/Plugin/Phing.php:144-147 | The directory followed by the build file. |
| Phing.WithBaseDir | src/Plugin/Phing.php:166-168 | `project.basedir` is added as the directory only when not set, and is never overridden. Every other key reads as before. |
| Phing.CommandParts | src/Plugin/Phing.php:71-81 | The executable with the build file, the property file only when truthy, then properties, logger, targets and `2>&1`. |
| Phing.Command | src/Plugin/Phing.php:67-83 | The command opens with the executable, ` -f ` and the build file path, and closes with `2>&1`. |
| Phing.CommandShape | src/Plugin/Phing.php:71-83 | The command is those pieces joined by single spaces, spelled out: the property file only when truthy, then properties, logger and targets. |
| Phing.TargetsString | src/Plugin/Phing.php:98-101 | No targets give the empty string and one target gives its text. How the string splits back into its targets is stated by `Phing.TargetsStringSplits`. |
| Phing.TargetsStringSplits | src/Plugin/Phing.php:98-101 | When no target holds a space, splitting the targets string at spaces gives back every target's text, in order. |
| Phing.PropertiesString | src/Plugin/Phing.php:160-177 | The rendering is never empty: it always opens with `-D`, because `project.basedir` is always present. |
| Phing.PropertiesStringSplits | src/Plugin/Phing.php:160-177 | When no rendered property holds a space, splitting the properties string at spaces gives back every `-D<name>="<value>"`, the base directory included, in array order. |
| Phing.DefaultPropertiesAreBaseDir | src/Plugin/Phing.php:160-177 | With no properties the rendering is exactly `-Dproject.basedir="<directory>"`. |
| Phing.DefaultTargets | src/Plugin/Phing.php:22-23 | The default plugin runs target `build` from `<directory>build.xml`. |
| BuildStatus.Status | src/Controller/BuildStatusController.php:45-62 | Failed iff the latest finished build is not successful. Error iff the lookup threw. Passing otherwise. Never anything else. |
| BuildStatus.Color | src/Controller/BuildStatusController.php:245 | Green iff passing, else red. |
| BuildStatus.Image | src/Controller/BuildStatusController.php:220-258 | Always a badge, never the redirect, since the status is never null. The badge URL carries label, status, colour and style, defaulting to `build` and `flat`. |
| BuildStatus.FailedBadge | src/Controller/BuildStatusController.php:245-252 | A failing build with no optional parameters gives the plain red `failed` badge URL. |
| BuildStatus.Suffix | src/Controller/BuildStatusController.php:254-258 | Empty iff no optional parameter is truthy. |
| BuildStatus.SuffixSkipsFalsy | src/Controller/BuildStatusController.php:255 | A falsy parameter contributes nothing, wherever it stands. |
| BuildStatus.CoverageType | src/Controller/BuildStatusController.php:76-78 | A type outside classes, methods and lines becomes lines; the others are kept. |
| BuildStatus.Coverage | src/Controller/BuildStatusController.php:73-102 | Non-zero only when the meta for the normalised type is present, and then it is that value. A set value is returned. Otherwise the result is 0: no build, no meta, a missing or null value, or an exception. |
| BuildStatus.CoverageImage | src/Controller/BuildStatusController.php:162-192 | The coverage badge shows the coverage followed by `%25`, always green. |
| BuildStatus.LatestBuilds | src/Controller/BuildStatusController.php:128-143 | At most 10 builds of the project and branch, strictly descending by id. Any matching build left out is older than the tenth returned. |
| BuildStatus.Admit | src/Controller/BuildStatusController.php:128-143 | One scanned row: at most 10 kept, descending, only old rows or the new one; whatever falls off is older than the tenth kept, and the tenth never gets older. |
| BuildStatus.InsertDesc | src/Controller/BuildStatusController.php:135 | Insertion into a descending list keeps it descending, with the old rows plus the new one. |
| BuildStatus.View | src/Controller/BuildStatusController.php:289-309 | Not-found iff the project is missing or not public. Otherwise the requested branch, or the default branch, with its latest builds; the newest is shown as latest iff there is one. |
| BuildStatus.ViewAsWritten | src/Controller/BuildStatusController.php:291-296 | As written: crashes iff the project is missing, before the not-found check; otherwise agrees with `View`. |
| BuildStatus.MissingProjectCrashesView | src/Controller/BuildStatusController.php:292-295 | A missing project crashes as written where not-found is intended. |
| BuildStatus.FeedBranches | src/Controller/BuildStatusController.php:331-335 | The built branches, or exactly the default branch when there are none. |
| BuildStatus.FeedElements | src/Controller/BuildStatusController.php:337-345 | At most one element per branch, each non-empty, and one per branch when every branch has attributes. |
| BuildStatus.Positions | src/Controller/BuildStatusController.php:337-345 | Each position indexes a branch whose attribute list is non-empty. |
| BuildStatus.PositionsAscending | src/Controller/BuildStatusController.php:337-345 | The positions are strictly ascending, which is branch order. |
| BuildStatus.PositionsCover | src/Controller/BuildStatusController.php:337-345 | Every branch with a non-empty attribute list is among the positions. |
| BuildStatus.FeedElementsFollowPositions | src/Controller/BuildStatusController.php:337-345 | There are as many elements as positions, and the k-th element is the attribute list at the k-th position. Together with the lemmas above, the elements are exactly the non-empty attribute lists, in branch order. |
| BuildStatus.CcXml | src/Controller/BuildStatusController.php:320-351 | An empty `Projects` feed for a missing or non-public project. An exception from the branch lookup or from any branch's attribute lookup gives an empty lower-case `projects` feed. Otherwise the feed holds the covered branches' elements. |
| Users.UserForm | src/Controller/UserController.php:289-345 | Email and name are required. The password is required iff the form is the add form. The admin checkbox is present iff the viewer is an admin. |
| Users.Add | src/Controller/UserController.php:172-216 | Forbidden iff the viewer is not an admin. Created iff admin and a valid POST, with the admin flag from the checkbox. |
| Users.Edit | src/Controller/UserController.php:230-276 | Forbidden iff a non-admin edits anyone but themselves, decided before existence. Otherwise not-found iff the user is missing. The admin flag changes only for an admin editor. The form posts to `user/edit/<id>` with the password optional. |
| Users.EditFormPrefersSubmitted | src/Controller/UserController.php:248-249 | The edit form's values are the stored user data with every submitted parameter taking precedence. |
| Users.NonAdminKeepsAdminFlag | src/Controller/UserController.php:264-268 | Whatever a non-admin submits, the admin flag is kept. |
| Users.AdminSetsAdminFlag | src/Controller/UserController.php:266-268 | An admin's accepted edit sets the flag from the checkbox. |
| Users.NonAdminMissingUserIsForbidden | src/Controller/UserController.php:237-243 | A non-admin gets forbidden both for a missing user and for another user's id. |
| Users.Delete | src/Controller/UserController.php:357-373 | Forbidden iff not admin. Not-found iff admin and the user is missing. Deleted otherwise. |
| Users.Language | src/Controller/UserController.php:77-80 | A falsy language becomes null; a truthy one is kept. |
| Users.PerPage | src/Controller/UserController.php:82-85 | The `(int)` of the page size, null when it is 0. |
| Users.Profile | src/Controller/UserController.php:72-87 | The update passes name, email and password as given, with language and page size normalised. |
| Users.PerPageChoices | src/Controller/UserController.php:82-85 | A chosen page size comes back as that number. The empty choice and null mean the default. |
| Php.Merge | src/Controller/UserController.php:248 | `array_merge` on string keys: the second array wins on shared keys, and other keys come from the first. |
| Dashboard.Place | src/Controller/HomeController.php:41-46 | Each widget is in exactly one column, under its own name, with its parameters unchanged. It is on the right iff `side` is exactly `right`. The columns hold nothing else. |
| Dashboard.Index | src/Controller/HomeController.php:27-46 | The configured widgets are placed, or the defaults when none are configured. |
| Dashboard.DefaultLayout | src/Controller/HomeController.php:32-39 | By default, all projects is on the left and last builds on the right. |
| Dashboard.LeftUnlessExactlyRight | src/Controller/HomeController.php:42-44 | Any side but the exact string `right`, including a missing or null one, keeps a widget left. |
| Branch.DefaultBranchName | src/Helper/Branch.php:15-26 | `default` iff Mercurial or Bitbucket Mercurial. `trunk` iff Subversion. `master` for every other type. Always one of these three. |

## Left out

- HTTP, `json_decode`, `file_get_contents`, `$_SERVER`, the Guzzle client, the badge image cache and XML rendering. Decoded payloads and HTTP status codes are inputs; payload fields a handler reads are assumed present and well typed.
- `WebhookController::git`, `hg`, `svn`, `fetchProject` and `bitbucketSvrPullRequest`: thin request wrappers and a handler that reads no head filter, outside the modelled core.
- The provider trigger tables (`GithubBuild::$pullrequestTriggersToSources` and the Bitbucket ones), `Plugin::AVAILABLE_PRIORITY_PATHS`, variable interpolation and the set of files present are not part of this model; they are inputs.
- `Project::getEnvironmentsNamesByBranch` is not part of this model; it is modelled as the environments whose branch list holds the branch, in configuration order.
- The build-creation service, the plugin executor and the loggers: a created build is a request or a stored row; plugin stages are an oracle; log lines are not modelled.
- The version number, working-copy creation and interpolation setup of `setupBuild`: only whether setup ended normally, without a working copy, or with an exception is modelled.
- PHP CS Fixer: finding the binary, running the commands and `storeMeta`; the report is an already decoded list of files with parsed diff chunks.
- Phing: `propertiesToString` also stores the base directory in the plugin's properties; the model returns the rendered properties without that side effect. PHP's folding of numeric string keys into integers is not modelled.
- Form validation, CSRF, rendering and the user service's writes. Whether the signed-in user and the looked-up user are the same object is an input to `Users.Edit`.
- Users.Edit: the stored user data and the request are merged with string keys only; `array_merge`'s renumbering of integer keys is not modelled.
- BuildStatus.Coverage: a fractional coverage figure is not modelled, since floats are left out.
- BuildStatus.Image: the project lookup is assumed to succeed; the missing-project case behaves as in `view` and is modelled only there.
- The ccmenu per-branch attributes (`BuildStatusService::toArray`) are an input.
- Dashboard.Place: the configuration is an ordered array with unique keys, as every PHP array is; a non-array configuration value is not modelled.
- Branch.DefaultBranchName: project types are an enumeration of the repository types; the string values of the type constants are not part of this model.
- Php.IntCast: a string is read only up to its leading optional sign and decimal digits. PHP 7.1 and later also read an exponent, so `(int)"1e3"` is 1000 there and 1 here. PHP also saturates at `PHP_INT_MAX` and `PHP_INT_MIN`, which the model's unbounded integers do not. Both paths go through PHP's float conversion, and floats are left out.
- Users.PerPage: inherits the `(int)` gaps of `Php.IntCast`, so a page size such as `"1e3"` or one beyond the 64-bit range is read differently.
- PhpCsFixer.Configure: inherits the `(int)` gaps of `Php.IntCast` for `allowed_warnings`.
- Builder.ErrorTrend: inherits the `(int)` gaps of `Php.IntCast` for the trend row's `build_id` and `count` (src/Builder.php:283, 290). The difference shows only if the store returns such a string there.
- GogsLabels.Relabel: environment names and branch names are compared exactly. The source's `in_array` (src/Controller/WebhookController.php:1079, 1080, 1089) compares loosely, so two numeric strings such as `1.1` and `1.10` count as equal there and not here. PHP's numeric-string comparison is not modelled. `array_diff` (line 1091) compares exactly, as the model does.
- GogsLabels.RelabelAll: inherits the exact comparison of `GogsLabels.Relabel`, so it can differ only for numeric-looking branch or environment names.
- GogsLabels.GogsPullRequest: inherits the exact comparison of `GogsLabels.Relabel`, so it can differ only for numeric-looking branch or environment names.
- GogsLabels.HeadBranchFollowsLabels: is stated for exact membership; with loose `in_array`, a numeric-looking head branch can already count as present when a numerically equal name is listed.
- GogsLabels.RebuildsChangedOnce: inherits the exact comparison of `GogsLabels.Relabel`, so it can differ only for numeric-looking branch or environment names.

## Findings

| source | as written | input that shows it | evidently intended | confidence | as-written member | corrected member |
|---|---|---|---|---|---|---|
| src/Controller/WebhookController.php:146 | The environment store is asked for the environment name before the truthiness check. Its `string` parameter refuses null under strict typing, raising a `TypeError` that `catch (Exception)` does not stop. | A project with environment `production` serving `master`, and a GitHub push to `master`; every provider handler passes no name. | No name means no named lookup: fan out to the environments mapped to the branch. | not executed | FanOut.CreateBuildAsWritten | FanOut.CreateBuild |
| src/Controller/WebhookController.php:930 | An empty `commits` array makes `end()` return false. The missing commit id then reaches `createBuild`'s `string` parameter, an uncaught `TypeError`. | A GitLab push event with `commits: []` (e.g. a branch deletion). | No build and status `failed`, as the other push handlers answer an empty push. | not executed | Webhooks.GitlabAsWritten | Webhooks.Gitlab |
| src/Controller/BuildStatusController.php:292 | The default branch is read from the project before the `empty($project)` check on the next statement, so a missing project is a method call on null. | `GET /build-status/view/999` for a project id that does not exist. | The not-found response of line 295. | not executed | BuildStatus.ViewAsWritten | BuildStatus.View |
