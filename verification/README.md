# framework-pipeline scaffolder, modelled in Dafny

The scaffolder creates a new microservice inside a repository of services.
It asks for a service name and screens it. It then takes the next port
from the `LAST_PORT` counter in the pipeline's `.env` file and runs a
fixed sequence of filesystem steps:

1. It makes the service folder and its `src` folder.
2. It writes `src/app.ts` from a template and commits the counter.
3. It derives the service's `.env` and `Dockerfile` from the pipeline's.
4. It writes or copies `package.json` and `tsconfig.json`.
5. It writes eight source files (`<name>.controller.ts` … `<name>.router.ts`).
6. The services variant also appends a stanza to the gateway's `app.ts`
   and adds the name to the registry `servers.json`.
7. It runs `npm install`.

Any thrown error is reported and the prompt starts again. Nothing done
so far is undone.

There are two variants of the orchestrator, and both are modelled:

- **services** (`services/pipeline/src/app.ts`) reads the port from the
  `.env` file on disk. It writes `package.json` from the manifest
  template and registers the service with the gateway.
- **pipeline** (`pipeline/src/app.ts`) takes the port from the `LAST_PORT`
  value the process loaded when it started. It copies `package.json` and
  does not touch the gateway.

The templates of `pipeline/src/util/boilerplate.ts` are modelled as pure
text functions.

## Modules

| file | module | what it holds |
|---|---|---|
| `wrappers.dfy` | `Wrappers` | `Option` and `Result` |
| `text.dfy` | `Text` | JavaScript white space (`\s`), ASCII letters and digits, ASCII case mapping, `trimStart`, one-character `split` and `join`, substring occurrence |
| `decimal.dfy` | `Decimal` | the `Port` value (a number or `NaN`), decimal printing, `parseInt` |
| `keymatch.dfy` | `KeyMatch` | the regular expressions `KEY\s*=\s*\d+` and `KEY\s*\d+`: leftmost matching and non-global `replace` |
| `names.dfy` | `Names` | `validateService` and `getServiceInPascalCase` |
| `envfile.dfy` | `EnvFile` | `getNewPort`, `updateLastPort`, `createEnvForNewService`, `createDockerFileForNewService` |
| `templates.dfy` | `Templates` | the app, router, interface and model templates, `getBoilerplate`, the `package.json` manifest |
| `filesystem.dfy` | `FileSystem` | an abstract tree of files and directories with the `fs` calls and `addServer` |
| `plan.dfy` | `Plan` | a scaffold as a list of steps; running them in order stops at the first failure |
| `scaffold.dfy` | `Scaffold` | the two `app` orchestrators and what a run leaves behind |

### The world

Paths are lists of segments relative to the folder that holds the
services:

- a service lives at `[name]`;
- the pipeline lives at `["pipeline"]`;
- the gateway lives at `["gateway"]`.

A `World` holds three things:

- a map from file path to text;
- a set of directories;
- the registry list of `servers.json`, which is `None` when it cannot be
  loaded.

One call of `app` is one `Attempt`. It returns the new world and an
`Outcome`, which is one of `Quit`, `Reserved`, `Created` or `Failed(reason)`.

## Model

| member | source | states |
|---|---|---|
| Names.ValidateService | services/pipeline/src/app.ts:23-35 | The empty name is refused as "required". A name with a character outside letters, digits and `-` is refused as a symbol error. Every other name is accepted, lower-cased, with the same length. Exactly its capital letters change, each into the same letter in lower case. |
| Names.ValidateIdempotent | services/pipeline/src/app.ts:23-35 | Validating an accepted name again gives the same name back. |
| Names.ValidateKeepsLowerCase | pipeline/src/app.ts:20-32 | A name with no capitals is accepted unchanged exactly when it matches `^[A-Za-z0-9-]+$`. |
| Names.Lower | services/pipeline/src/app.ts:34 | The lower-cased name has the same length, no capitals, and each character is the input character lower-cased. |
| Names.ValidateExample | services/pipeline/src/app.ts:23-35 | `Order-Service` is accepted as `order-service`. |
| Names.Capitalize | pipeline/src/util/boilerplate.ts:4-6 | A segment keeps every character but the first, and the first is upper-cased. |
| Names.PascalCase | pipeline/src/util/boilerplate.ts:1-9 | The only way it fails is the empty-segment error; when and what it yields are stated by `PascalCaseDefinedIff` and `PascalCaseIsScan`. |
| Names.PascalCaseIsScan | pipeline/src/util/boilerplate.ts:1-9 | The split-capitalise-join result equals one left-to-right pass that drops each hyphen and upper-cases the character after it and the first character. |
| Names.PascalCaseDefinedIff | pipeline/src/util/boilerplate.ts:1-9 | The PascalCase identifier exists exactly when no hyphen-separated segment is empty. A leading, trailing or doubled hyphen makes `item[0]` undefined and the call throw. |
| Names.PascalCaseShape | pipeline/src/util/boilerplate.ts:1-9 | The identifier has no hyphen. It is as long as the name less its hyphens. It starts with the name's first letter upper-cased. |
| Names.PascalCaseIdempotent | pipeline/src/util/boilerplate.ts:1-9 | PascalCasing an identifier it produced gives the identifier back. |
| Names.PascalCaseExample | pipeline/src/util/boilerplate.ts:1-9 | `order-service` becomes `OrderService`. |
| Text.ToLowerChar | services/pipeline/src/app.ts:34 | The result is never a capital, and it differs from the input exactly for capitals. A capital becomes the lower-case letter at the same place in the alphabet. |
| Text.ToUpperChar | pipeline/src/util/boilerplate.ts:4 | The result is never a lower-case letter, and it differs from the input exactly for lower-case letters. A lower-case letter becomes the capital at the same place in the alphabet. |
| Text.CaseRoundTrip | services/pipeline/src/app.ts:34 | Upper-casing a lower-cased capital gives the capital back, and the other way round. |
| Text.TrimStart | services/pipeline/src/app.ts:141 | The result is a suffix of the text; everything removed is white space; the result does not start with white space. |
| Text.TrimStartIs | services/pipeline/src/app.ts:141 | Those three properties determine `trimStart` completely. |
| Text.Split | services/pipeline/src/app.ts:100 | A text splits into one more piece than it has separators. |
| Text.SplitPiecesFree | services/pipeline/src/app.ts:100 | No piece of a `split` holds the separator. |
| Text.JoinSplit | services/pipeline/src/app.ts:100-111 | Joining the pieces of a `split` with the same separator restores the text. |
| Text.SplitJoin | services/pipeline/src/app.ts:100-111 | Splitting a join of separator-free pieces gives the pieces back. |
| Decimal.Next | services/pipeline/src/app.ts:148 | `NaN + 1` is `NaN`; a number goes up by one. |
| Decimal.NatToDecimal | services/pipeline/src/app.ts:83 | A port is printed as a non-empty run of digits with no leading zero. |
| Decimal.DecimalRoundTrip | services/pipeline/src/app.ts:83 | The printed digits of `n` read back as `n`. |
| Decimal.PortText | services/pipeline/src/app.ts:83 | `NaN` prints as `NaN`, and a non-negative number prints as digits. |
| Decimal.ParseIntOfPortText | services/pipeline/src/app.ts:144-146 | `parseInt` reads back every non-negative port the tool writes. |
| Decimal.ParseIntOfDigits | services/pipeline/src/app.ts:144-146 | A non-empty run of digits parses to its decimal value. |
| Decimal.ParseInt | services/pipeline/src/app.ts:144-146 | A text without any decimal digit parses to `NaN`. |
| Decimal.ParseIntOfSignedDigits | services/pipeline/src/app.ts:144-146 | Leading white space is skipped, one `-` or `+` sign is applied, and reading stops where the digits stop, so the value is the signed decimal value of the digits. A lone `0` followed by `x` or `X` is excluded because it starts a hexadecimal number. |
| Decimal.ParseEnv | pipeline/src/app.ts:164 | An unset `process.env.LAST_PORT` parses to `NaN`. A set value that is a run of digits parses to its decimal value. |
| KeyMatch.MatchAt | services/pipeline/src/app.ts:82 | A match at a position consists of the key, the separator and a maximal run of digits. |
| KeyMatch.FirstMatch | services/pipeline/src/app.ts:81-84 | The first match at or after a position, with no match before it. Without a match, no later position matches. |
| KeyMatch.Leftmost | services/pipeline/src/app.ts:81-84 | The leftmost match of the expression, or none anywhere. |
| KeyMatch.LeftmostIs | services/pipeline/src/app.ts:81-84 | The leftmost match is unique. |
| KeyMatch.ReplaceFirst | services/pipeline/src/app.ts:81-84 | A non-global `replace` leaves text without a match as it is. Otherwise it splices the replacement in place of the leftmost match. |
| KeyMatch.ReplaceKeepsContext | services/pipeline/src/app.ts:81-84 | The text before and after the leftmost match is kept and the replacement sits between them. |
| KeyMatch.AssignmentIsLeftmost | services/pipeline/src/app.ts:81-84 | After `LAST_PORT = D` is written over the leftmost match, the leftmost match of the result is exactly that assignment. |
| EnvFile.FirstCounterLine | services/pipeline/src/app.ts:139-142 | It returns the first line that starts with `LAST_PORT` after leading white space is trimmed. No line before it qualifies. Without one, no line qualifies. |
| EnvFile.FirstCounterLineIs | services/pipeline/src/app.ts:140-142 | `find` returns the earliest qualifying line. |
| EnvFile.CounterDigits | services/pipeline/src/app.ts:143-146 | The captured group is a non-empty run of digits. There is none exactly when the line has no match of `LAST_PORT\s*=\s*(\d+)`. |
| EnvFile.GetNewPort | services/pipeline/src/app.ts:136-149 | A numeric new port is at least 1. Without a counter line the new port is `NaN` and no error is raised. A first counter line with no match, such as `LAST_PORT: 5`, also gives `NaN`. |
| EnvFile.GetNewPortReads | services/pipeline/src/app.ts:136-149 | When the first counter line captures the digits `D`, the new port is the decimal value of `D` plus one. |
| EnvFile.UpdateLastPort | services/pipeline/src/app.ts:77-86 | A file without a match is written back unchanged. Otherwise the text before the leftmost match is kept, then `LAST_PORT = <port>`, then the text after the match. |
| EnvFile.UpdateLastPortEdits | services/pipeline/src/app.ts:77-86 | Without a match the file is unchanged. Otherwise the leftmost `LAST_PORT\s*=\s*\d+` becomes `LAST_PORT = <port>` and every other character is kept. |
| EnvFile.CounterShapeKept | services/pipeline/src/app.ts:77-86 | When the leftmost `LAST_PORT` assignment of the file lies on its first counter line, it still does after a commit. |
| EnvFile.CounterRoundTrip | services/pipeline/src/app.ts:77-86 | When the leftmost `LAST_PORT` assignment of the file lies on its first counter line, after committing `n`, `getNewPort` reads `n + 1`. |
| EnvFile.SingleCounterLine | services/pipeline/src/app.ts:77-86 | A `.env` that is the single line `LAST_PORT = n` meets the round trip's condition. It hands out `n + 1`, and a commit rewrites the whole line. |
| EnvFile.CounterScenario | services/pipeline/src/app.ts:136-149 | From `LAST_PORT = 4000` the new port is 4001, and the committed file reads `LAST_PORT = 4001`. |
| EnvFile.AllocateStep | services/pipeline/src/app.ts:208-225 | With the counter on its counter line, one read-and-commit advances the next port by exactly one and keeps the counter there. |
| EnvFile.CounterAdvancesByOnePerCommit | services/pipeline/src/app.ts:208-225 | From a file whose counter is on its counter line and reads `p + 1`, after `k` allocations the next port is `p + k + 1`, so no port is handed out twice. |
| EnvFile.CommentedCounterRepeats | services/pipeline/src/app.ts:81-84 | For `#LAST_PORT = a` followed by `LAST_PORT = b`, the counter is not on its counter line. Every allocation reads `b + 1` and rewrites only the comment, so `b + 1` is handed out again. |
| EnvFile.ServerLineFacts | services/pipeline/src/app.ts:105 | The new `SERVER` line starts with `SERVER`, not with `LAST_PORT`, and is not empty. |
| EnvFile.RewriteEnvLine | services/pipeline/src/app.ts:102-107 | A line is dropped exactly when it starts with `LAST_PORT`. A `SERVER` line becomes `SERVER = http://localhost:<port>\r`. Any other line is kept. |
| EnvFile.KeptLine | services/pipeline/src/app.ts:101-109 | A line yields at most one line: a non-empty line that does not start with `LAST_PORT`, being the server line or the line itself. |
| EnvFile.RewriteEnvLines | services/pipeline/src/app.ts:100-109 | The output has no more lines than the input. No output line is empty or starts with `LAST_PORT`. Each output line is the new server line or a non-`SERVER` input line. |
| EnvFile.RewriteEnvLinesAppend | services/pipeline/src/app.ts:101-109 | The line rewrite distributes over concatenation. |
| EnvFile.RewriteOneLine | services/pipeline/src/app.ts:102-109 | Empty lines and `LAST_PORT` lines vanish, `SERVER` lines are replaced, and other lines stay. |
| EnvFile.CreateEnv | services/pipeline/src/app.ts:88-112 | No line of the new `.env` starts with `LAST_PORT`, and every line that starts with `SERVER` is the new server line. |
| EnvFile.CreateEnvLines | services/pipeline/src/app.ts:96-111 | The new `.env` consists of exactly the kept lines of the `PORT`-rewritten text, and is empty when none is kept. |
| EnvFile.PortRewriteEditsOneLine | services/pipeline/src/app.ts:96-111 | The `PORT` rewrite changes only the line that holds the leftmost match. |
| EnvFile.PortRewriteLost | services/pipeline/src/app.ts:96-111 | When the leftmost `PORT\s*=\s*\d+` lies inside a `LAST_PORT` line, the rewrite is dropped with that line. The new `.env` is then the same as with no rewrite at all. |
| EnvFile.CreateDockerfile | services/pipeline/src/app.ts:120-134 | A Dockerfile without a match is copied unchanged. Otherwise the text before the leftmost `EXPOSE\s*\d+` is kept, then `EXPOSE <port>`, then the text after the match. |
| EnvFile.DockerfileEdits | services/pipeline/src/app.ts:120-134 | Without an `EXPOSE` match the Dockerfile is copied as is. Otherwise the leftmost `EXPOSE\s*\d+` becomes `EXPOSE <port>` and every other character is kept. |
| EnvFile.DockerfileEditsOneLine | services/pipeline/src/app.ts:120-134 | Only the line with the directive changes. A line that is exactly the directive becomes `EXPOSE <port>`. |
| Templates.AppTemplate | pipeline/src/util/boilerplate.ts:11-35 | The app file renders exactly when the name is well hyphenated; otherwise it fails with the empty-segment error. |
| Templates.RouterTemplate | pipeline/src/util/boilerplate.ts:37-47 | The router file renders exactly when the name is well hyphenated; otherwise it fails with the empty-segment error. |
| Templates.InterfaceTemplate | pipeline/src/util/boilerplate.ts:49-56 | The interface file renders exactly when the name is well hyphenated; otherwise it fails with the empty-segment error. |
| Templates.ModelTemplate | pipeline/src/util/boilerplate.ts:58-69 | The model file renders exactly when the name is well hyphenated; otherwise it fails with the empty-segment error. |
| Templates.GetBoilerplate | services/pipeline/src/app.ts:61-67 | Every suffix other than router, interface and model gets empty text. Only those three can fail, and only for a name PascalCase rejects. |
| Templates.TemplatesDefinedIff | pipeline/src/util/boilerplate.ts:11-69 | Each of the four templates throws exactly when `getServiceInPascalCase` throws on the name, and with the same error. |
| Templates.RouterWiring | pipeline/src/util/boilerplate.ts:21-45 | The app file imports and mounts under `/<name>` the router that the router file declares and exports by the same identifier. |
| Templates.ModelWiring | pipeline/src/util/boilerplate.ts:53-63 | The interface file declares `<Pascal>ModelInterface`. The model file imports that interface from `./<name>.interface` and builds its schema over it. |
| Templates.AppAroundListenLine | pipeline/src/util/boilerplate.ts:13-34 | The app text is the joined lines before the listen line, the listen line, and the joined lines after it. Only the listen line takes the port. |
| Templates.AppTemplatePort | pipeline/src/util/boilerplate.ts:11-35 | Two app files for one name are equal exactly when their ports print the same. |
| Templates.PackageManifest | pipeline/src/util/boilerplate.ts:71-102 | The manifest's `name` field is the argument. |
| Templates.ManifestOnlyNameVaries | pipeline/src/util/boilerplate.ts:71-102 | Every field but `name` is fixed. Two manifests are equal exactly when their names are. |
| FileSystem.MakeFolder | services/pipeline/src/app.ts:43-50 | It fails with "already exists" exactly when the path exists. It succeeds exactly when the path is absent and its parent is a directory, and then it only adds the directory. |
| FileSystem.ReadFile | services/pipeline/src/app.ts:79 | The read succeeds exactly when a file is there and yields its text. Otherwise the error is a missing file or a directory. |
| FileSystem.WriteFile | services/pipeline/src/app.ts:85 | The write succeeds exactly when the path is not a directory and its parent is one. It removes nothing and leaves directories and the registry alone. |
| FileSystem.AppendFile | services/pipeline/src/app.ts:158 | The append succeeds under the same conditions as a write and removes nothing. |
| FileSystem.AddServer | services/pipeline/src/app.ts:161-167 | It succeeds exactly when the registry loads. The list then gains the name at its end and nothing else changes. |
| FileSystem.AddServerCounts | services/pipeline/src/app.ts:161-167 | No duplicate check: the count of the added name rises by one, even when it was already listed, and every other count stays. |
| FileSystem.MakeFolderTwice | services/pipeline/src/app.ts:43-50 | A second `makeFolder` of the same path is refused. |
| FileSystem.ReadAfterWrite | services/pipeline/src/app.ts:85 | A written file reads back as written, and other paths read as before. |
| FileSystem.ReadAfterAppend | services/pipeline/src/app.ts:158 | An appended file reads as its old text, or the empty text, followed by the addition. |
| Plan.Apply | services/pipeline/src/app.ts:211-241 | A successful step removes nothing. Only registering changes the registry. A folder step succeeds exactly when `makeFolder` does. |
| Plan.ApplyFrame | services/pipeline/src/app.ts:211-241 | A step leaves alone every file it does not target. |
| Plan.Run | services/pipeline/src/app.ts:170-258 | A run removes nothing. Once a step fails, later steps do nothing. |
| Plan.RunAppend | services/pipeline/src/app.ts:170-258 | Running two lists one after the other is the same as running their concatenation. |
| Plan.PrefixSucceeded | services/pipeline/src/app.ts:170-258 | When a whole run succeeds, so does every prefix of it. |
| Plan.FailurePoint | services/pipeline/src/app.ts:255-258 | A failed run stopped at some step `k`. The world is exactly what the steps before `k` made it, and the reported failure is step `k`'s error: nothing is rolled back. |
| Plan.WriteRun | services/pipeline/src/app.ts:218-222 | After a successful write, its text was built and the file holds it. |
| Plan.DeriveRun | services/pipeline/src/app.ts:125-133 | After a successful derive, the source existed and the target holds the source's edited text. |
| Plan.StepFrame | services/pipeline/src/app.ts:211-241 | A step leaves any file it does not target as it was. |
| Plan.TwoDerives | services/pipeline/src/app.ts:226-227 | Two consecutive derives each leave their target holding the edit of their source, given that the first target is neither read nor overwritten by the second. |
| Plan.RunFrame | services/pipeline/src/app.ts:211-241 | A run leaves alone every file that none of its steps targets. |
| Plan.AppendThenRegister | services/pipeline/src/app.ts:238-241 | After `addGateway` then `addServer`, the gateway file is its old text plus the stanza, and the registry has the name appended. |
| Plan.WritesRun | services/pipeline/src/app.ts:69-75 | After a successful run of writes to distinct paths, each path holds its own text. |
| Plan.RunKeepsRegistry | services/pipeline/src/app.ts:211-235 | Steps that register nothing leave the registry as it was. |
| Plan.ChangeNeedsPrefix | services/pipeline/src/app.ts:170-258 | When a file changes, every step before the first step that targets it succeeded. |
| Plan.RegistryChangeNeedsPrefix | services/pipeline/src/app.ts:170-258 | When the registry changes, every step before the first registering step succeeded. |
| Plan.LastTouch | services/pipeline/src/app.ts:170-258 | In a successful run, a file holds what its last writer left in it. |
| Scaffold.Admit | services/pipeline/src/app.ts:182-186 | `:q` quits, and exactly `pipeline` is refused, both compared with the text as typed. Every other input is validated, and the admitted name is the validated one. |
| Scaffold.Finish | services/pipeline/src/app.ts:243-258 | The attempt succeeds exactly when every step succeeded and `npm install` did. Any other ending is a failure, and the world is left as the steps made it. |
| Scaffold.ServicesApp | services/pipeline/src/app.ts:169-260 | A rejected input changes nothing and reports why. Success needs an admitted name and a readable pipeline `.env`. |
| Scaffold.SnapshotPort | pipeline/src/app.ts:164-165 | An unset `LAST_PORT` gives port `NaN`. A start-up value that is a run of digits gives its decimal value plus one. |
| Scaffold.PipelineApp | pipeline/src/app.ts:127-209 | A rejected input changes nothing and reports why. |
| Scaffold.FoldersRun | services/pipeline/src/app.ts:211-214 | After the two `makeFolder` calls succeed, both folders exist and the service folder was absent before. When they fail, files and registry are unchanged. When the service exists, the run stops right there with "already exists". |
| Scaffold.FoldersFrame | services/pipeline/src/app.ts:211-214 | Making the folders changes no file. |
| Scaffold.ExistingServiceStopsFirst | services/pipeline/src/app.ts:211 | When the service exists, the run fails on its first step and the world is untouched. |
| Scaffold.ServicesExistingService | services/pipeline/src/app.ts:208-211 | For an existing service the services variant changes nothing. When the `.env` is readable, it reports "already exists". |
| Scaffold.PipelineExistingService | pipeline/src/app.ts:164-168 | For an existing service the pipeline variant changes nothing and reports "already exists". |
| Scaffold.CapitalisedPipeline | services/pipeline/src/app.ts:184-186 | `Pipeline` passes the reserved-name check, is lower-cased to `pipeline`, and fails on the existing pipeline folder without changing anything. |
| Scaffold.ChangesNeedFolders | services/pipeline/src/app.ts:211-241 | When any file or the registry changes, both service folders were created. |
| Scaffold.ServicesWritesFollowFolders | services/pipeline/src/app.ts:208-241 | In the services variant, any change to a file or the registry implies an admitted name whose two folders now exist. |
| Scaffold.PipelineWritesFollowFolders | pipeline/src/app.ts:164-190 | In the pipeline variant, any change to a file implies an admitted name whose two folders now exist. |
| Scaffold.CounterOnlyCommitted | services/pipeline/src/app.ts:211-225 | The counter file is either untouched or holds the old text with the port committed. |
| Scaffold.ServicesCounter | services/pipeline/src/app.ts:208-225 | The services variant leaves the counter untouched or commits the port it read from that same file. |
| Scaffold.PipelineCounter | pipeline/src/app.ts:164-182 | The pipeline variant leaves the counter untouched or commits the port from the start-up value, whatever the file holds. |
| Scaffold.ServicesRetryTakesNextPort | services/pipeline/src/app.ts:208-258 | When the counter file's leftmost `LAST_PORT` assignment lies on its first counter line, once the services variant has committed the counter, the next attempt reads the next port, even when this attempt failed later. |
| Scaffold.PipelineRetryReusesPort | pipeline/src/app.ts:164-207 | After the pipeline variant commits port `n + 1`, a retry in the same process commits `n + 1` again, so the counter no longer advances. |
| Scaffold.PrologueOutputs | services/pipeline/src/app.ts:211-225 | After folders, `app.ts` and the commit, the folders are new. `app.ts` holds the app template and the counter holds the committed text. |
| Scaffold.DerivedOutputs | services/pipeline/src/app.ts:226-227 | The service's `.env` is the derived env of the committed counter file. Its `Dockerfile` is the pipeline's with the port rewritten. |
| Scaffold.EarlyOutputs | services/pipeline/src/app.ts:211-227 | After the first five steps: the folders exist; `app.ts` holds the template; the counter is committed; `.env` is derived from the committed file; `Dockerfile` is derived from the pipeline's. |
| Scaffold.FinishedOutputs | services/pipeline/src/app.ts:211-241 | Those early files survive the later steps of a successful run. |
| Scaffold.SuffixesDistinct | services/pipeline/src/app.ts:197-206 | The eight suffixes are pairwise different. |
| Scaffold.CreatesDistinct | services/pipeline/src/app.ts:69-75 | Distinct suffixes give distinct file paths. |
| Scaffold.CreatesRun | services/pipeline/src/app.ts:69-75 | After `createFiles`, each `<name><suffix>` file holds its boilerplate. |
| Scaffold.CopiesRun | services/pipeline/src/app.ts:52-59 | After `copyFiles` of distinct names, each file in the service folder equals the pipeline's file of that name. |
| Scaffold.CopyListsFit | services/pipeline/src/app.ts:195 | Both copy lists are duplicate-free, and neither overwrites `.env` or `Dockerfile`. The services list leaves the written `package.json` alone. |
| Scaffold.BoilerplateSurvives | services/pipeline/src/app.ts:235-241 | The created files survive steps that do not target them. |
| Scaffold.PipelineCreated | pipeline/src/app.ts:164-193 | A successful pipeline-variant run leaves the early files, copies of `package.json` and `tsconfig.json`, and the eight boilerplate files. The files are wired together. |
| Scaffold.AnnounceRun | services/pipeline/src/app.ts:151-167 | After `addGateway` and `addServer`, the gateway's `app.ts` ends with the stanza and the registry ends with the name. |
| Scaffold.GatewayKept | services/pipeline/src/app.ts:226-235 | Nothing before `addGateway` touches the gateway's `app.ts`. |
| Scaffold.PackageWritten | services/pipeline/src/app.ts:114-118 | The service's `package.json` holds the rendered manifest. |
| Scaffold.TsconfigCopied | services/pipeline/src/app.ts:232 | The service's `tsconfig.json` equals the pipeline's at the end of the run. |
| Scaffold.FinishedNames | services/pipeline/src/app.ts:211-214 | A run that gets past the folders names a new service: neither `pipeline` nor `gateway`, and absent before. |
| Scaffold.ServicesFinishedFiles | services/pipeline/src/app.ts:208-235 | A successful services-variant plan leaves the early files, the manifest, the copied `tsconfig.json` and the eight boilerplate files. |
| Scaffold.ServicesFinishedAnnounce | services/pipeline/src/app.ts:238-241 | A successful services-variant plan appends the stanza to the gateway and the name to the registry. |
| Scaffold.RouterWritten | services/pipeline/src/app.ts:61-75 | The router file holds the router template. |
| Scaffold.InterfaceWritten | services/pipeline/src/app.ts:61-75 | The interface file holds the interface template. |
| Scaffold.ModelWritten | services/pipeline/src/app.ts:61-75 | The model file holds the model template. |
| Scaffold.ServiceWired | pipeline/src/util/boilerplate.ts:21-63 | The files on disk are wired together. The app imports and mounts the router the router file declares and exports. The model imports the interface the interface file declares and builds its schema over it. |
| Scaffold.ServicesCreated | services/pipeline/src/app.ts:169-244 | A successful services-variant run leaves: the early files with the port read from `.env`; `package.json` rendered from the name as typed; a copied `tsconfig.json`; the eight boilerplate files; the gateway stanza appended; the name appended to the registry; the files wired together. |
| Scaffold.PlanWritesOnly | services/pipeline/src/app.ts:211-235 | A plan changes no file outside its targets (`app.ts`, the counter, `.env`, `Dockerfile`, `package.json`, `tsconfig.json`, the eight created files), unless the variant's own steps target it. |
| Scaffold.ServicesWritesOnly | services/pipeline/src/app.ts:169-260 | Whatever the outcome, the services variant changes no file but the admitted service's targets and the gateway's `app.ts`. |
| Scaffold.PipelineWritesOnly | pipeline/src/app.ts:127-209 | Whatever the outcome, the pipeline variant changes no file but the admitted service's targets. |
| Scaffold.PipelineKeepsRegistry | pipeline/src/app.ts:127-209 | The pipeline variant never changes the registry. |

## How the code differs from its design notes

The model follows the code in each of these cases.

- **The `PORT` rewrite can be lost.** `createEnvForNewService` rewrites the
  first `PORT\s*=\s*\d+` in the whole file. When `LAST_PORT = …` comes
  first, that match lies inside the `LAST_PORT` line, which is then
  dropped. The new `.env` keeps the pipeline's own `PORT`
  (`EnvFile.PortRewriteLost`).
- **Duplicate registrations are accepted.** The design says duplicates are
  rejected, but `addServer` pushes without a check
  (`FileSystem.AddServerCounts`).
- **Rendering can fail.** The templates are said never to fail, but
  PascalCase throws on an empty segment: a name such as `-a`, `a-` or
  `a--b` passes validation and then fails at `app.ts`, after both folders
  exist (`Names.PascalCaseDefinedIff`, `Templates.TemplatesDefinedIff`).
- **Only the exact text `pipeline` is reserved.** `Pipeline` passes that
  check and fails later on the existing folder
  (`Scaffold.CapitalisedPipeline`).
- **The pipeline variant can reuse a port.** In the services variant the
  counter advances once per commit, provided the file's leftmost
  `LAST_PORT` assignment sits on its first line starting with `LAST_PORT`
  (`EnvFile.CounterAdvancesByOnePerCommit`). The pipeline variant reads
  `LAST_PORT` once per process, so a retry after a failure commits the
  same port again (`Scaffold.PipelineRetryReusesPort`).
- **The services variant can reuse a port too.** `getNewPort` reads the
  first line that starts with `LAST_PORT` after trimming. `updateLastPort`
  rewrites the first `LAST_PORT\s*=\s*\d+` anywhere in the file. When an
  earlier line holds such an assignment, for example the comment
  `#LAST_PORT = 1` above `LAST_PORT = 2`, every run reads 3 and rewrites
  only the comment. Port 3 is handed out each time, although the design
  says ports are never reused (`EnvFile.CommentedCounterRepeats`).
- **A failed `npm install` is a failure.** It is caught like every other
  error and the prompt restarts. The scaffold stays on disk
  (`Scaffold.Finish`).

## Left out

- Prompting, coloured logging and `process.exit` are left out. A prompt
  answer is the `input` parameter, and `exitApp` is the `Quit` and
  `Reserved` outcomes.
- The `app()` call in the `catch` block loops forever. One attempt is
  modelled. The retry lemmas chain two attempts on the world the first
  one left.
- `npm install` is a boolean parameter, `installs`: it runs a process.
- The gateway stanza is a parameter, `gateway`: `gatewayBoilerplate` is
  not part of this model.
- `JSON.stringify` is a parameter, `render`. `servers.json` is kept as a
  list: text serialisation is not modelled.
- `addServer` resolves the registry path from the gateway path. The model
  has one registry per world, and a failed dynamic `import` is a `None`
  registry.
- Paths use a fixed layout relative to the services folder:
  `process.cwd()`, `__dirname`, `path.resolve` and Windows separators are
  not modelled.
- The services variant imports `./util/boilerplate` from its own folder.
  It is assumed to be the same as `pipeline/src/util/boilerplate.ts`.
- `toLocaleLowerCase` is modelled as the locale-independent ASCII
  mapping. Names are restricted to ASCII letters, digits and `-` before
  lower-casing, so no other character reaches it. What the model does not
  cover is the locale: under a Turkish or Azeri locale `I` becomes the
  dotless `ı`, in any position of the name. `toUpperCase` needs no locale
  and only ever sees those ASCII characters.
- `parseInt` is modelled on unbounded integers: double precision and
  `Infinity` for very long digit runs are not modelled.
- Concurrency between two runs of the tool is left out: each attempt runs
  alone.
- `Templates.PackageManifest`: states only the `name` field. The other
  fields are fixed, which `Templates.ManifestOnlyNameVaries` states.
- `Names.PascalCase`: its own contract states only which error it fails
  with. When it succeeds and what it yields are stated by
  `Names.PascalCaseDefinedIff` and `Names.PascalCaseIsScan`.
- `Scaffold.ServicesApp`, `Scaffold.PipelineApp`: their own contracts
  state only the rejected-input cases. What a run writes is stated by the
  `Created`, `WritesOnly`, `Counter` and `ExistingService` lemmas.
