# gix split engine — a Dafny model

gix is a command-line tool that turns staged Git changes into commits. It reads the staged diff,
cuts it into hunks, groups hunks whose embeddings are similar, asks a language model for one
commit message per group, and then commits the groups one after another between a
`git stash push` and a `git stash pop`. Two snapshots of this engine live side by side in the
repository, the current one (`internal/git`, `split`) and an older one (`git`, `semantics`), and
both are modelled. Around the engine, the model also covers:

- the update check's version comparison, UUID format, guards and cache logic (`checkpoint`);
- the provider and key choice (`config`, `provider`);
- the OpenAI client's key guards and reply-line cleanup (`openai`).

How the model is laid out:

- `results.dfy`, `diff.dfy` and `strings.dfy` hold the shared values. These are `Option`,
  `Result` and the `Hunk` record. They also hold the parts of Go's `strings`, `bufio` and `fmt`
  the core relies on: `HasPrefix`, `TrimPrefix`, `TrimSpace`, `Fields`, `Split`, `Join`,
  `ScanLines` and decimal `%d`.
- `hunks.dfy` is the current parser, and `legacy_hunks.dfy` the older one. Each is a loop method
  proved equal to a fold over the input lines. That fold is then proved equal to a hunk-by-hunk
  description of the result.
- `grouping.dfy` is the greedy partition loop both `ClusterHunks` versions share. It is an
  array-of-flags method proved against a function, and that function is proved to be a
  partition.
- `clustering.dfy`, `split_cluster.dfy` and `semantics_cluster.dfy` are the two `ClusterHunks`
  versions and their patch joiners.
  - The embedding service, the message generator and the floating-point cosine are parameters.
  - Each method returns the calls it made.
- `git_steps.dfy`, `split_apply.dfy` and `semantics_apply.dfy` are the two `ApplyGroups`
  versions.
  - Each external command is a `Command` value.
  - Whether a command succeeds is a parameter that sees the commands issued before it.
  - Each method returns the exact command trace, deferred calls included.
- `checkpoint.dfy`, `config.dfy`, `registry.dfy` and `openai_client.dfy` cover the remaining
  files.
  - Environment, file system, clock, randomness and HTTP exchanges are parameters.
  - Each method returns the effects it asks for.

## Model

| member | source | states |
|---|---|---|
| Strings.FieldsOfJoin | internal/git/hunk.go:96 | Splitting words joined by single spaces into fields gives back the words. |
| Strings.ScanJoinedLines | internal/git/hunk.go:33-56 | Reading lines back from text written one line per line feed gives the same lines. |
| Strings.ScanLinesHaveNoNewlines | internal/git/hunk.go:55-56 | No line read by the scanner holds a line feed. |
| Strings.JoinSplit | openai/client.go:174 | Joining the pieces of a split with the separator gives back the text, so splitting loses no character. |
| Hunks.DiffLinePath | internal/git/hunk.go:95-102 | For a path with no white space, `parseFilePath` of git's `diff --git a/P b/P` line is `P`. |
| Hunks.Scanner.Flush | internal/git/hunk.go:41-53 | `flush` appends the pending hunk only when it has both a header and lines, then forgets it. |
| Hunks.Scanner.Step | internal/git/hunk.go:58-83 | One turn of the `switch`: a `diff --git ` line flushes and starts a file, a metadata line joins the header block, a `@@ ` line flushes and opens a hunk, other lines join an open hunk. |
| Hunks.ParseHunksFromDiff | internal/git/hunk.go:32-93 | The loop returns the fold of those turns over the scanned lines, followed by a final flush; empty input gives no hunks. |
| Hunks.FlushTwice | internal/git/hunk.go:41-53 | Flushing twice is the same as flushing once. |
| Hunks.ParseIsHunksFrom | internal/git/hunk.go:55-86 | Each `@@ ` line opens one hunk that runs to the next `diff --git ` or `@@ ` line. The hunk carries the path and header block of the file it is in, plus the metadata lines seen inside it. |
| Hunks.ParseFilePath | internal/git/hunk.go:95-102 | The path read from a `diff --git` line holds no white space. The same function stands for the older snapshot's `parseFilePath` (git/hunk.go:78-90), which strips `b/` the same way. |
| Hunks.ParseTags | internal/git/hunk.go:46-48 | Hunk `k` has the `k`-th `@@ ` line as its header and the path of the last `diff --git ` line before it as its path. There are exactly as many hunks as `@@ ` lines. |
| Hunks.ParseBodies | internal/git/hunk.go:45 | Every body is a file header block, then the hunk's own header line, then content lines, joined by line feeds. |
| LegacyHunks.MatchesHunkHeader | git/hunk.go:18 | A line matching the header expression starts with `@@`. |
| LegacyHunks.HeaderRegex | git/hunk.go:18 | A line matches `^@@\s+[-+0-9,]+\s+[-+0-9,]+\s+@@` exactly when it splits into that shape. |
| LegacyHunks.OneLineHeader | git/hunk.go:18 | `@@ -1 +1 @@` matches the header expression. |
| LegacyHunks.ParseHunks | git/hunk.go:29-69 | The loop returns the fold of its turns over the scanned lines, followed by the final append. |
| LegacyHunks.ParseIsHunksFrom | git/hunk.go:35-69 | The same result described hunk by hunk. Each header line opens a hunk that records lines up to the next `diff --git` line or header line. The hunk takes the path in force when it is appended. |
| LegacyHunks.ParseHeaders | git/hunk.go:44-56 | The hunks' headers are, in order, exactly the input lines that match the header expression. |
| LegacyHunks.TwoFilesOnePath | git/hunk.go:38-56 | In a diff of two files with one hunk each, both hunks get the second file's path. |
| LegacyHunks.FixedParseTags | git/hunk.go:38-69 | With the pending hunk appended at a `diff --git` line, every hunk is tagged with the path of the last `diff --git` line before its header. |
| LegacyHunks.TwoFilesOwnPaths | git/hunk.go:38-56 | With that correction, the two-file diff tags each hunk with its own file. |
| Grouping.Partition | split/cluster.go:39-60 | The seed-and-absorb loop returns the groups of the greedy partition function. |
| Grouping.Absorb | split/cluster.go:49-57 | The inner loop marks and collects exactly the unused later indices that join the seed. |
| Grouping.AbsorbMembers | split/cluster.go:49-57 | A seed absorbs an index exactly when that index is later, unused and similar to the seed. |
| Grouping.GreedyPartition | split/cluster.go:39-60 | Every hunk index appears in exactly one group, and no other index appears. |
| Grouping.GreedyMembers | split/cluster.go:42-57 | Group `k` holds its seed, plus the later indices similar to the seed that no earlier group took. |
| Grouping.GreedyOrder | split/cluster.go:42-60 | Groups are non-empty and ascending, and their seeds come in ascending order. |
| Grouping.GreedyFirstSeed | split/cluster.go:42-47 | With at least one hunk, the first group is seeded by hunk 0. |
| Grouping.FirstSeedTakesAll | split/cluster.go:42-57 | When seed 0 absorbs every other hunk, every pair the pass compares has seed 0. |
| Grouping.GreedyBounded | split/cluster.go:42-60 | Every index in a group is an index of a hunk. |
| Clustering.ZeroNorm | split/cluster.go:87-95 | A vector of zeros has squared norm zero. |
| Clustering.Unnamed | split/cluster.go:39-60 | The message-less groups hold the hunks at the partition's indices, in order. |
| Clustering.DescribedAll | split/cluster.go:62-71 | When every message request succeeds, each group gets its own message and one request per group is made, in order. |
| Clustering.DescribedUpTo | split/cluster.go:62-67 | The first failing request ends the loop with that group's 1-based number and cause, and no later request is made. |
| SplitCluster.EmbeddingTexts | split/cluster.go:25-28 | Text `i` is hunk `i`'s path, header and body, separated by line feeds. |
| SplitCluster.Patch | split/cluster.go:74-81 | The patch is empty exactly when there are no hunks, and it has at least two characters per hunk. |
| SplitCluster.JoinPatch | split/cluster.go:74-81 | The builder loop returns `Patch` of the hunks. |
| SplitCluster.PatchAppend | split/cluster.go:74-81 | The patch of concatenated hunk lists is the concatenation of their patches. |
| SplitCluster.PatchIsJoin | split/cluster.go:74-81 | A non-empty group's patch is its bodies joined by blank lines, plus a closing blank line. |
| SplitCluster.Similarity | split/cluster.go:83-98 | The similarity is 0 for vectors of different or zero length and for a zero-norm vector. Any other non-zero value is the cosine. |
| SplitCluster.ZeroEmbeddingJoinsNothing | split/cluster.go:53 | A hunk with an all-zero embedding is similar to no hunk, in either direction. |
| SplitCluster.ZeroEmbeddingAlone | split/cluster.go:42-57 | A hunk with an all-zero embedding forms a group of its own. |
| SplitCluster.Describe | split/cluster.go:62-71 | The message loop meets `DescribedBy`: one request per group in order, stopping at the first failure. |
| SplitCluster.ClusterHunks | split/cluster.go:20-72 | Covers every path of the function. No hunks means no groups and no calls. An embedding error or count mismatch ends it after the single embedding call. Otherwise the greedy groups are described in order. |
| SemanticsCluster.EmbeddingTexts | semantics/cluster.go:22-25 | Text `i` is hunk `i`'s header and body, separated by a line feed. |
| SemanticsCluster.JoinGroupPatch | semantics/cluster.go:74-82 | The builder loop returns `GroupPatch` of the hunks. |
| SemanticsCluster.GroupPatchAppend | semantics/cluster.go:74-82 | The group patch of concatenated hunk lists is the concatenation of their patches. |
| SemanticsCluster.SectionNamesFile | semantics/cluster.go:77 | Each hunk's section opens with a `diff --git` line that the current parser reads back as the hunk's path. |
| SemanticsCluster.Similarity | semantics/cluster.go:84-96 | The similarity uses the first vector's length. It is 0 when either norm is 0, and any other non-zero value is the cosine. |
| SemanticsCluster.EmptyEmbeddingJoinsNothing | semantics/cluster.go:50 | A hunk with an empty embedding is similar to no hunk. |
| SemanticsCluster.Describe | semantics/cluster.go:62-71 | The message loop meets `DescribedBy`, as in the current snapshot. |
| SemanticsCluster.ClusterHunks | semantics/cluster.go:17-72 | No hunks means no groups and no calls. An embedding error ends it after one call. Otherwise the greedy groups are described in order. The function requires `InRange` of the embeddings, which holds exactly when the greedy pass reads no vector out of range. |
| SemanticsCluster.NondecreasingInRange | semantics/cluster.go:37-50 | Enough embeddings, each at least as long as the ones before it, are always in range. |
| SemanticsCluster.FirstSeedInRange | semantics/cluster.go:37-55 | When the first hunk absorbs every other hunk, the embeddings are in range whatever the lengths of the others. |
| SemanticsCluster.MixedLengthsInRange | semantics/cluster.go:37-55 | Embeddings `[1]`, `[1, 0]`, `[1]`, where the first absorbs both others, are in range although their lengths do not grow. |
| SemanticsCluster.GroupPatch | semantics/cluster.go:74-82 | The patch is empty exactly when there are no hunks, and it has at least two characters per hunk. |
| SplitApply.ApplyGroups | split/apply.go:11-69 | No groups gives `NoGroups` and no commands. Otherwise the error and the whole command trace equal `Outcome`. |
| SplitApply.CommitGroup | split/apply.go:34-60 | One group's reset, write, apply and commit. It stops at the first failure, and it counts the removals registered for the deferred cleanup. |
| SplitApply.RunStep | split/apply.go:37-59 | One step either extends the successful trace or fails at exactly that step. |
| SplitApply.FailsAt | split/apply.go:27-59 | A failure at step `s` of group `i` returns that step and the 1-based group. The removals registered so far run, newest first, then the deferred stash pop. |
| SplitApply.Completes | split/apply.go:62-68 | When every command succeeds, the stash is popped once after the loop, then every patch file is removed. No error is returned. |
| SplitApply.StashFailureAlone | split/apply.go:16-25 | The stash error happens exactly when the stash push fails, and then nothing else runs. |
| SplitApply.SucceedsIff | split/apply.go:34-68 | There is no error exactly when every command of the script succeeds. The trace is then the script, one pop and the removals. |
| SplitApply.PopsOnce | split/apply.go:27-32 | `git stash pop` runs exactly once whenever the push succeeded, on both the failing and the finishing path. |
| SplitApply.DeferredPops | split/apply.go:28-32 | The deferred closure pops only when `success` is still false. |
| SplitApply.ScriptHasNoPop | split/apply.go:16-60 | No command of the main script is a stash pop. |
| SplitApply.PatchNamesDistinct | split/apply.go:42 | Different groups write different patch file names. |
| SplitApply.CommitsInOrder | split/apply.go:34-60 | Group `k`'s four commands occupy positions `4k+1` to `4k+4` of the script. |
| SplitApply.FailurePosition | split/apply.go:34-59 | An error naming a step and group `k` happens at the script's first failing command. The trace is the script up to it, then the deferred commands. |
| SplitApply.StopsAtFirstFailure | split/apply.go:34-59 | After an error, every command before the failing one succeeded, the failing one failed, and only deferred commands follow. |
| SplitApply.PopIgnored | split/apply.go:64-66 | The result does not depend on whether the final stash pop succeeds. |
| SemanticsApply.ApplyGroups | semantics/apply.go:10-53 | No groups gives `NoGroups` and no commands. Otherwise the error and the whole command trace equal `Outcome`. |
| SemanticsApply.CommitGroup | semantics/apply.go:24-50 | One group's reset, write, apply and commit, stopping at the first failure. |
| SemanticsApply.RunStep | semantics/apply.go:27-49 | One step either extends the successful trace or fails at exactly that step. |
| SemanticsApply.FailsAt | semantics/apply.go:19-49 | A failure returns the failing step, and the deferred pop follows it. |
| SemanticsApply.Completes | semantics/apply.go:19-52 | When every command succeeds there is no error, and the deferred pop runs after the loop. |
| SemanticsApply.StashFailureAlone | semantics/apply.go:16-18 | The stash error happens exactly when the push fails, and then nothing else runs. |
| SemanticsApply.SucceedsIff | semantics/apply.go:24-52 | There is no error exactly when every command succeeds. The trace is then the script and one pop. |
| SemanticsApply.PopsOnce | semantics/apply.go:19-22 | The stash is popped exactly once whenever the push succeeded. |
| SemanticsApply.ScriptHasNoPop | semantics/apply.go:16-50 | No command of the main script is a stash pop. |
| SemanticsApply.PatchNamesDistinct | semantics/apply.go:32 | Different groups write different patch file names. |
| SemanticsApply.CommitsInOrder | semantics/apply.go:24-50 | Group `k`'s four commands occupy positions `4k+1` to `4k+4` of the script. |
| SemanticsApply.StopsAtFirstFailure | semantics/apply.go:24-49 | After an error, the trace is the script up to the first failing command, then the pop. That command's position gives the failing step. |
| SemanticsApply.ErrorsCarryNoOrdinal | semantics/apply.go:27-29 | A reset failing in the first group and one failing in the second return the same error. |
| Checkpoint.IsNewer | checkpoint/check.go:197-213 | The loop returns `Newer`. It is false for equal versions without `v`, and otherwise decided at the first differing component. |
| Checkpoint.LexIrreflexive | checkpoint/check.go:206-212 | No version triple is newer than itself. |
| Checkpoint.LexAsymmetric | checkpoint/check.go:206-212 | Of two triples, at most one is newer than the other. |
| Checkpoint.LexTransitive | checkpoint/check.go:206-212 | The component comparison is transitive. |
| Checkpoint.LexTotal | checkpoint/check.go:206-212 | Of two different triples, one is newer. |
| Checkpoint.Newer | checkpoint/check.go:197-213 | A version is newer only when its parsed triple differs from the running one's. |
| Checkpoint.NewerAsymmetric | checkpoint/check.go:197-213 | A version is not newer than itself, and of two versions at most one is newer. |
| Checkpoint.SameVersionNotNewer | checkpoint/check.go:198-202 | Versions equal up to a leading `v` are never newer than each other. |
| Checkpoint.NewerTransitive | checkpoint/check.go:197-213 | `isNewer` is transitive. |
| Checkpoint.ScanFields | checkpoint/check.go:215-219 | Scanning gives exactly the requested number of fields, all 0 when the text does not start with a digit. |
| Checkpoint.ParseSemver | checkpoint/check.go:215-219 | The result is a triple, `0.0.0` when the text does not start with a digit. |
| Checkpoint.ParseSemverOfSemver | checkpoint/check.go:215-219 | Parsing the decimal `major.minor.patch` text of a triple gives the triple back. |
| Checkpoint.ParseSemverInvalid | checkpoint/check.go:215-219 | Text that does not start with a digit parses as `0.0.0`. |
| Checkpoint.NewerOfSemvers | checkpoint/check.go:197-219 | For well-formed versions, with or without `v`, `isNewer` is exactly the component order. |
| Checkpoint.Stamp | checkpoint/check.go:149-150 | Byte 6 gets version nibble 4 and byte 8 gets variant bits `10`. Their low bits and every other byte are kept. |
| Checkpoint.GenerateUUID | checkpoint/check.go:143-154 | A failed read gives "". Otherwise the result is the stamped bytes in the 8-4-4-4-12 format. |
| Checkpoint.FormatUUID | checkpoint/check.go:152-153 | Sixteen bytes format to 36 characters. |
| Checkpoint.UUIDShape | checkpoint/check.go:152-153 | The result has 36 characters, hyphens at 8, 13, 18 and 23, and lower-case hexadecimal digits elsewhere. |
| Checkpoint.UUIDVersion | checkpoint/check.go:149-153 | Character 14 is `4`, and character 19 is one of `8`, `9`, `a`, `b`. |
| Checkpoint.FormatUUIDInjective | checkpoint/check.go:152-153 | Different byte strings format to different texts. |
| Checkpoint.CacheLifetime | checkpoint/check.go:53-56 | A zero cache duration means 48 hours, and any other duration is kept. |
| Checkpoint.Check | checkpoint/check.go:43-73 | The disable variable or an unreleased version (`dev`, `ci`, empty) gives nothing and no effect. Otherwise the cache is read first with the effective lifetime; a hit is returned with `outdated` recomputed; a miss reads the signature and fetches; a fetch error writes nothing; a fetched release is returned and written to the cache last. Every response returned has `outdated` equal to `isNewer` of its version over the running one. |
| Config.ResolveProvider | config/config.go:84-89 | The provider is the configured one when it is set, and `openai` otherwise; it is never empty. |
| Config.APIKey | config/config.go:92-99 | The `gemini` provider gets the Gemini key, and every other provider name the OpenAI key. |
| Config.GeminiKeyChosen | config/config.go:92-99 | When the two keys differ, the Gemini key is chosen exactly when the provider is `gemini`. |
| Config.OpenAIKeyOtherwise | config/config.go:92-99 | Every other provider name, the empty one included, gets the OpenAI key. |
| Config.APIKeyDependsOnResolved | config/config.go:92-99 | The key depends only on the resolved provider and the two stored keys. |
| Config.DefaultIsOpenAI | config/config.go:84-99 | An unset provider behaves exactly like `openai`. |
| Registry.New | provider/registry.go:11-20 | The result is a provider exactly for `openai` and `gemini`, with the key passed unchanged and the kind named. Any other name is an unknown-provider error carrying that name. |
| Registry.UnknownNames | provider/registry.go:12-19 | Matching is exact: `""`, `OpenAI` and `Gemini` are unknown. |
| Registry.ConfiguredProvider | provider/registry.go:11-20 | The configured provider is built exactly when the stored name is unset, `openai` or `gemini`, and each provider gets its own key. |
| OpenAIClient.CleanReply | openai/client.go:173-182 | The loop returns `Kept` of the lines of the trimmed reply. |
| OpenAIClient.Clean | openai/client.go:178 | The cleaned line is no longer than the line and has no white space at either end. |
| OpenAIClient.Kept | openai/client.go:176-182 | There are no more kept lines than lines, and every kept line is non-empty and starts with no code fence. |
| OpenAIClient.KeptAppend | openai/client.go:176-182 | Cleaning keeps the order of the lines. |
| OpenAIClient.KeptOne | openai/client.go:177-181 | A line is kept, cleaned, exactly when its cleaned form is non-empty and does not start with a code fence. |
| OpenAIClient.KeptElements | openai/client.go:176-182 | Every kept element is the cleaned form of some reply line. It is non-empty, starts with no fence, holds no line feed and has no surrounding white space. |
| OpenAIClient.CleanedHasNoNewline | openai/client.go:178 | Cleaning a line adds no line feed. |
| OpenAIClient.ReplyLines | openai/client.go:174 | The pieces of the trimmed reply hold no line feed. |
| OpenAIClient.GenerateCommitMessage | openai/client.go:35-53 | An empty key gives the missing-key error and no request. Otherwise exactly one request is made, with the fixed system message and the prompt followed by the diff, and its reply is returned. |
| OpenAIClient.GroupDiffIntoCommits | openai/client.go:94-185 | An empty key gives an error and no request. Otherwise exactly one request is made, and the result is its error or the kept lines of its reply. |

## Left out

- Running `git diff --cached` (internal/git/hunk.go:19-29, git/hunk.go:20-27): the diff is
  given as text.
- `bufio.Scanner` errors and its 64 KiB token limit: lines are read from the whole text, and no
  line is too long.
- Cosine similarity on `float32`/`float64` values, including `math.Sqrt` and the division: it
  is a parameter, constrained by the guards the source writes before computing it.
  `Similarity` returns 0 on the source's guard cases, with the norms computed over exact reals.
- The embedding and message services (`GetEmbeddings`, `GenerateCommitMessage` of the
  providers and of the OpenAI client) are parameters.
  - The providers' HTTP and JSON code is not part of this model (provider/openai.go,
    provider/gemini.go, openai/embed.go).
- The OpenAI client's request encoding, HTTP status handling, JSON decoding and the "no
  response" case are folded into one chat parameter that returns the first choice's text or an
  error.
- OpenAIClient.GroupDiffIntoCommits: the grouping instructions (openai/client.go:99-135) are a
  parameter, not the literal text.
- SemanticsApply.ApplyGroups: the patch text is a parameter. semantics/apply.go:31 calls
  `JoinGroupPatch`, but the package defines only the unexported `joinGroupPatch`
  (semantics/cluster.go:74), so the call resolves to nothing that can be modelled.
- Progress messages printed by both `ApplyGroups`, `os.Stderr`/`os.Stdout` wiring, and the
  warning printed when the final pop fails are not modelled.
- The temporary directory and the patch files' permissions are not modelled: only the file
  name and contents are.
- Error texts of the `fmt.Errorf` wrappers are not modelled: errors are datatype values that
  carry the step, the group number and the cause.
- SemanticsCluster.ClusterHunks: with two hunks or more, requires at least as many embeddings
  as hunks, and requires each pair the greedy pass compares to have a seed vector no longer
  than the other vector (`InRange`). The source checks neither, and indexes `b[i]` for every
  `i` of `a`, so exactly the excluded inputs make it panic, and a panic is not modelled.
- Checkpoint.ParseSemver models `fmt.Sscanf("%d.%d.%d")` for unsigned decimal fields only.
  Signs, leading white space and integer overflow are not modelled. Fields after the first one
  that fails to scan are 0, as in the source.
- Checkpoint.Check: reading and writing the cache file, the signature file, the environment
  variable and the clock are parameters of a `World` value.
  - The effects are returned as a list.
  - `fetchLatestRelease`'s HTTP request is the `latest` parameter of that `World` value
    (checkpoint/check.go:80-118).
  - `readCache`'s expiry test and `writeCache`'s JSON encoding are not modelled
    (checkpoint/check.go:156-195).
  - `readOrCreateSignature` is not modelled (checkpoint/check.go:120-141).
  - Durations are unbounded integers of nanoseconds, not `int64`.
- Checkpoint.GenerateUUID: `crypto/rand` is a parameter that gives 16 bytes or fails.
- Config `Save`, `Load` and the configuration directory (config/config.go:20-81): these are
  file I/O.
- The command-line layer (`cmd/`), the spinner and the printing helpers are outside the engine.
- Registry.New: the provider values carry only their key. Their HTTP clients are not part of
  this model.

## Findings

| source | as written | input that shows it | evidently intended | confidence | as-written member | corrected member |
|---|---|---|---|---|---|---|
| git/hunk.go:38-56 | A `diff --git` line changes `currentFile` without first appending the pending hunk. The hunk is appended only at the next header line or at the end, so it is tagged with the path of the file that follows. | `diff --git a/x.go b/x.go`, `@@ -1 +1 @@`, `diff --git a/y.go b/y.go`, `@@ -1 +1 @@`: both hunks get path `y.go`. | Each hunk is tagged with the file it belongs to, as the current parser does by flushing at every `diff --git ` line (internal/git/hunk.go:59-61). | high, not executed | LegacyHunks.TwoFilesOnePath | LegacyHunks.FixedParseTags |
