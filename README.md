# clamavmirror update pipeline in Dafny

`clamavmirror.py` keeps a local mirror of the ClamAV signature databases. A run does the following:

1. It resolves the mirror hostname to a list of addresses, with up to five lookups.
2. It fetches the TXT record that announces the current version of each signature family, with up to four lookups.
3. It splits the record on `:`. That gives the versions of `main`, `daily`, `safebrowsing` and `bytecode`.
4. It takes the families in that order. For each family except `main`, it first backfills the incremental diffs `<family>-<n>.cdiff` that the mirror directory lacks. Then it fetches the full file `<family>.cvd` when the local copy is missing or older.
5. Finally it publishes the record as `dns.txt`, unless the file already has the same MD5 digest.

Every download goes through `download_sig`. It tries the mirrors in order. A diff is accepted once its body is read. A full file must pass `sigtool` verification and report the expected version. Each artifact is retried for at most five passes, with a fast stop on HTTP 404. Accepted files are staged in the work directory and moved into the mirror directory by `copy_sig`.

What the model contains:

- **State.** The two directories are maps from file name to content. They form a `State` together with the request log and a script of mirror responses. Request number `i` of a run receives response `i` of the script.
- **Outside world.** The DNS answers, what `sigtool -i` prints for a file's content, whether `sigtool` accepts it, and the MD5 digest are oracles, collected in `Env`.
- **Exceptions.** A Python exception that escapes `main` is a `Crash`: `IndexError`, `ValueError`, or a missing staged file. `Pipeline.ProcessExit` gives the status the process then exits with. IndexError and ValueError are uncaught and give 1. The missing staged file is a `FileNotFoundError` from `shutil.move`, which is an `IOError`. The handler around `main` catches it (clamavmirror.py:440-442), reports another running instance and exits with 254.

The modules are:

| module | contents |
|---|---|
| Text | `str.split(':')`, `str.split()`, `rstrip`, `int()` and `'%d'`, with their round trips |
| Paths | the artifact names |
| Manifest | the record parse |
| Integrity | the `Version:` line of `sigtool` output |
| Resolver | `get_addrs` and `get_record` |
| Transfer | `chunk_read` |
| Pipeline | every step of the pipeline as a function of the state |
| Fetching, Retrying, Backfill, SigUpdate, Runs | the properties of those steps |
| MirrorSync | `class Mirror` (see below) |

`class Mirror` holds the directories and the request log as fields. Its methods follow the loops and early exits of the Python functions. Each method is proved to end in exactly the state and result that its Pipeline function gives, so every property proved of the functions holds of the methods.

`download_sig` and the retry loop take the test of a response as a parameter, `judge`. Every caller in the program passes `Judger(env, version)`, the test `download_sig` applies. The generic lemmas hold for any test.

The model follows the code where the code and the description of the program differ:

- **The backfill range starts at the local version itself.** `range(int(localver), int(remotever) + 1)` includes it (clamavmirror.py:379). With local 3 and remote 6, diffs 3, 4, 5 and 6 are requested if missing, not only 4, 5 and 6 (`Backfill.NoDiffsFetchesWholeRange`, `Backfill.BackfillNoDiffsPresent`).
- **Some exceptions escape `main`.** They are:
  - the IndexError of a record with fewer than eight fields;
  - the IndexError of a `Version:` line with a single word;
  - the ValueError of a version that is not an integer;
  - the missing-file error of `copy_sig`.

  The model ends such a run as `Crashed`. The last one does not give the interpreter's status 1: the lock handler turns it into exit status 254 (`Runs.LockExitNeedsEmptyVersion`).
- **An empty remote version.** A record with an empty version field can make `update_sig` call `download_sig` with `''`. That argument is falsy, so `download_sig` fetches `<family>.cdiff` and accepts it unverified. `copy_sig` then moves `<family>.cvd`. The model keeps this behaviour, which has two outcomes:
  - when no `<family>.cvd` is staged, the move raises the missing-file error (`Retrying.EmptyVersionDeploysMissingFile`);
  - when a `<family>.cvd` is left staged, for instance by an earlier download that failed verification, that unverified file is moved into the mirror directory (`Retrying.EmptyVersionDeploysStaleFile`).
- **A 404 does not skip the remaining mirrors.** `download_sig` goes on to the next mirror after any HTTP error (clamavmirror.py:241-244). The retry loop looks only at the code of the pass's last response. A 404 followed by a refusal without a code stops the loop, and a 404 followed by a 500 retries (`Retrying.NotFoundStopsIffLastCode` and the two lemmas after it).

## Model

| member | source | states |
|---|---|---|
| Text.Split | clamavmirror.py:366 | `record.split(':')` gives at least one field, and no field contains the separator |
| Text.JoinSplit | clamavmirror.py:366 | joining the fields of a split with the separator gives back the original string |
| Text.SplitJoin | clamavmirror.py:366 | splitting separator-free fields joined by the separator gives back exactly those fields |
| Text.SkipSpace | clamavmirror.py:198 | the result is the suffix after the leading whitespace, and it does not start with whitespace |
| Text.Word | clamavmirror.py:198 | the result is the longest whitespace-free prefix, and it is non-empty when the input does not start with whitespace |
| Text.Words | clamavmirror.py:198 | every word of `line.split()` is non-empty and contains no whitespace |
| Text.WordsJoin | clamavmirror.py:198 | splitting non-empty, whitespace-free words joined by single spaces gives back exactly those words, in order |
| Text.WordsCover | clamavmirror.py:198 | the words, concatenated in order, are the line's non-whitespace characters in order: nothing is dropped or reordered |
| Text.WordsSplitAtSpace | clamavmirror.py:198 | a whitespace character always ends a word: the words of `a + c + b` are those of `a` followed by those of `b` |
| Text.RStrip | clamavmirror.py:198 | the result is the prefix before the trailing whitespace, and it does not end with whitespace |
| Text.RStripWord | clamavmirror.py:198 | `rstrip()` leaves every word of `split()` unchanged |
| Text.ParseInt | clamavmirror.py:309 | `int()` of a `str`: surrounding whitespace of `int()`'s own set (space, `\t`, `\n`, `\v`, `\f`, `\r`), an optional sign and decimal digits, otherwise ValueError (None); its properties are stated by `BlankIsNotANumber`, `ParseIntSkipsSpace`, `ParseIntRejectsSeparator` and `ParseIntToString` |
| Text.BlankIsNotANumber | clamavmirror.py:309 | `int()` of the empty string, or of a string of `int()` whitespace only, raises ValueError |
| Text.ParseIntSkipsSpace | clamavmirror.py:309 | a leading whitespace character of `int()`'s set does not change the value or the error |
| Text.ParseIntRejectsSeparator | clamavmirror.py:309 | a string starting with one of `\x1c`-`\x1f`, which `split()` and `rstrip()` treat as whitespace, is not a number for `int()`, whatever follows |
| Text.NatToString | clamavmirror.py:380 | `'%d'` of a natural number is a non-empty string of decimal digits with no leading zero |
| Text.IntToString | clamavmirror.py:380 | `'%d'` of an integer is non-empty, with no whitespace at either end |
| Text.NatToStringValue | clamavmirror.py:380 | the digits `'%d'` writes denote the number |
| Text.ParseIntToString | clamavmirror.py:379-380 | `int('%d' % n) == n` for every integer n |
| Text.IntToStringInjective | clamavmirror.py:380 | different numbers are written differently |
| Text.Eof | clamavmirror.py:128-133 | the body ends before the first empty read; every earlier read is non-empty |
| Paths.KindsNeverCollide | clamavmirror.py:221-225 | a `.cvd` name, a `.cdiff` name and `dns.txt` are pairwise different, whatever the signature names |
| Paths.ArtifactNameInjective | clamavmirror.py:294-299 | different signatures of the same kind have different file names |
| Paths.DiffIdInjective | clamavmirror.py:380 | `'%s-%d' % (family, n)` names different diffs for different n |
| Manifest.ParseRecord | clamavmirror.py:366-372 | the parse succeeds iff the record has at least eight fields, otherwise raises IndexError; no version contains `:` |
| Manifest.ParseJoinedRecord | clamavmirror.py:366-372 | for a record built from fields, the versions are fields 1, 2, 6 and 7, and fewer than eight fields give IndexError |
| Integrity.FindVersionLine | clamavmirror.py:192-200 | the line found is the first starting with `Version:` before the first empty line (end of output); None iff there is none |
| Integrity.VersionOfOutput | clamavmirror.py:197-198 | the version is the second word of that line; absent iff there is no such line; IndexError iff the line has fewer than two words |
| Integrity.LocalVersion | clamavmirror.py:187-203 | absent iff the `.cvd` file is missing or has no `Version:` line; a present version is non-empty; the only error is IndexError |
| Resolver.FirstAnswer | clamavmirror.py:254-263 | the first non-empty answer and the number of lookups made, with every earlier answer empty; exhausted iff every lookup in range is empty |
| Resolver.GetAddrs | clamavmirror.py:251-269 | the loop returns the first non-empty address list within five lookups, or gives up after all five |
| Resolver.GetRecord | clamavmirror.py:272-288 | the loop returns the first non-empty record within four lookups, or gives up after all four |
| Transfer.Body | clamavmirror.py:124-137 | the content of a served body: the reads before the first empty one, concatenated; `ChunkRead` is proved to write exactly it |
| Transfer.ChunkRead | clamavmirror.py:124-137 | the staged file holds the reads before the first empty read, concatenated, and the count is its length |
| Pipeline.Judge | clamavmirror.py:232-240 | the test of one response: a served diff passes; a served full file passes iff sigtool verifies it and reports the expected version, and a one-word `Version:` line aborts; properties in `Fetching.PassIsServed`, `FetchStagesAcceptedFile`, `StaleVersionRejected` |
| Pipeline.NextCode | clamavmirror.py:229-243 | the `code` local after a response: its status when served, the HTTP error's code, otherwise unchanged; properties in `Fetching.FetchOutcome` and `PassIsServed` |
| Pipeline.FetchFrom | clamavmirror.py:214-248 | `download_sig`: the mirrors tried in turn until one passes or aborts; stated by `Fetching.FetchOutcome`, `FetchRequests`, `FetchWithin`, `FetchWorkFrame`, `FetchKeepsMirror` |
| Pipeline.Deploy | clamavmirror.py:291-301 | `copy_sig`: the staged file moves into the mirror directory, or FileNotFound when it is not staged; stated by `Retrying.RetryMirror` and `MirrorSync.Mirror.CopySig` |
| Pipeline.RetryFrom | clamavmirror.py:311-346 | the five-pass loop shared by `update_sig` (lines 311-325) and `update_diff` (lines 332-346); stated by the `Retrying` lemmas |
| Pipeline.UpdateDiffSpec | clamavmirror.py:330-346 | `update_diff`: the loop for a diff; stated by `Retrying.RetryRaisesOnlyIndexError`, `UnreachableMirrorsUseAllPasses`, `Runs.RetryConfined` |
| Pipeline.FullUpdate | clamavmirror.py:311-325 | the loop of `update_sig` for the remote version; stated by `SigUpdate.RetryErrors` and `UpdateSigDeploysRemoteVersion` |
| Pipeline.UpdateSigSpec | clamavmirror.py:304-327 | `update_sig`; stated by the `SigUpdate` lemmas |
| Pipeline.BackfillFrom | clamavmirror.py:379-384 | the `range` loop over diff numbers; stated by `Backfill.BackfillIsMissingInOrder` and `BackfillNeverRaises` |
| Pipeline.BackfillSpec | clamavmirror.py:376-384 | the diff part of a family's turn; stated by `Backfill.BackfillFetchesMissingRange`, `BackfillWithoutLocalIsNoop`, `BackfillRejectsNonNumericVersion`, `BackfillSpecErrors` |
| Pipeline.FamilyStep | clamavmirror.py:374-385 | one family's turn of `main`'s loop; stated by `Runs.FamilyStepConfined` and `FamilyStepErrors` |
| Pipeline.FamiliesFrom | clamavmirror.py:373-385 | `main`'s loop over the families in order; stated by `Runs.FamiliesConfined` and `FamiliesErrors` |
| Pipeline.FileMd5 | clamavmirror.py:85-100 | `get_file_md5`: the digest of the file, `''` when it is missing; stated by `Runs.PublishWritesIffChanged` |
| Pipeline.Publish | clamavmirror.py:349-359 | `create_dns_file`; stated by `Runs.PublishWritesIffChanged`, `PublishLeavesRecord`, `PublishIdempotent` |
| Pipeline.RunSpec | clamavmirror.py:362-387 | `main`; stated by the `Runs` lemmas from `NoAddressExits` on |
| Pipeline.ProcessExit | clamavmirror.py:435-442 | the exit status of the process: `main`'s own status (line 387), 254 for the IOError of a missing staged file, 1 for other exceptions; stated by `Runs.LockExitNeedsEmptyVersion` |
| Pipeline.NeedsFull | clamavmirror.py:309 | a full update is needed when there is no local version, and otherwise iff both versions are integers with local < remote; non-integers raise ValueError |
| Fetching.FirstSettled | clamavmirror.py:218-244 | the first response from a given one on that the test does not reject, with every earlier one rejected |
| Fetching.Asked | clamavmirror.py:218-244 | the number of mirrors asked is at most the number of mirrors, and at least one when there is one |
| Fetching.FetchRequests | clamavmirror.py:218-228 | `download_sig` asks the mirrors in list order, one request each, up to and including the first that settles |
| Fetching.FetchKeepsMirror | clamavmirror.py:214-248 | `download_sig` leaves the mirror directory and the response script unchanged |
| Fetching.FetchWithin | clamavmirror.py:218-228 | request number i of the call goes to mirror number i of the list, for the artifact's path, so each mirror is asked at most once and in order; at most as many requests as mirrors, at least one when there is a mirror |
| Fetching.FetchLength | clamavmirror.py:218-228 | one call makes between one and `|ips|` requests, none without a mirror |
| Fetching.FetchWorkFrame | clamavmirror.py:222-231 | the work directory changes at most in the artifact's staged file |
| Fetching.FetchOutcome | clamavmirror.py:214-248 | the result equals the closed form: downloaded at the first accepted response, an exception at the first aborting one, otherwise not downloaded; the code is the last one seen |
| Fetching.PassIsServed | clamavmirror.py:229-240 | an accepted response was served, and the returned code is its status; an accepted full file verifies and reports the expected version |
| Fetching.FetchStagesAcceptedFile | clamavmirror.py:232-240 | after a download the artifact is staged; a full file in the stage verifies and reports the expected version |
| Fetching.FetchStopsAtPass | clamavmirror.py:228-240 | a download stops at its last request, at most `|ips|` after the start, whose response passed; a served one is staged under the artifact's name with exactly that body |
| Fetching.FetchRaisesOnlyIndexError | clamavmirror.py:232-235 | `download_sig` raises only the IndexError of a one-word `Version:` line, and only for a full file |
| Fetching.StaleVersionRejected | clamavmirror.py:235 | a verified full file that reports another version is rejected, and the next mirror is tried |
| Fetching.FailoverToThirdMirror | clamavmirror.py:218-248 | with two rejections and then an acceptance, exactly three requests are made in order, and the code is the third response's status |
| Retrying.RetryRequests | clamavmirror.py:311-325 | the loop asks only the given mirrors for the artifact, leaves the response script alone, and makes at most `|ips|` requests per pass left |
| Retrying.RetryStep | clamavmirror.py:311-325 | a pass either goes on to the next one from the state `download_sig` left, or ends the loop with that state's log and a count of that pass |
| Retrying.PassSizes | clamavmirror.py:311-325 | the number of mirrors each pass asks, in pass order: at most all of them, and at least one when there is a mirror; the list has at least one entry and at most one per pass left, however the loop ends, so `download_sig` is called at most five times |
| Retrying.RetryRounds | clamavmirror.py:311-325 | the requests of the loop are its passes in order, pass number i asking the first `PassSizes[i]` mirrors in list order, one request each: at most one request per mirror per pass |
| Retrying.PassSizesCount | clamavmirror.py:311-325 | for a loop that returns normally, `PassSizes` has one entry per `download_sig` call, matching the reported pass count |
| Retrying.RetryCount | clamavmirror.py:311 | the reported pass count lies between the first pass and the fifth |
| Retrying.RetryCalls | clamavmirror.py:311-325 | the number of passes is the number of `download_sig` calls: between passes and passes × mirrors requests |
| Retrying.RetryMirror | clamavmirror.py:314-316 | the mirror directory changes only by deploying the artifact, exactly when the loop reports a deployment |
| Retrying.RetryDeploysLast | clamavmirror.py:312-316 | for any test, a deploying loop deploys after its last request, whose response passed; a served one is deployed with exactly its body |
| Retrying.RetryDeploysAccepted | clamavmirror.py:312-316 | what the loop deploys is the body of the response to its last request, which was served and accepted; a deployed full file verifies and reports the expected version |
| Retrying.RetryRaisesOnlyIndexError | clamavmirror.py:332-346 | when the request and the deployment are of the same kind, the only exception is the IndexError of a full file, so `update_diff` never raises |
| Retrying.EmptyVersionDeploysMissingFile | clamavmirror.py:312-316 | with an empty remote version and no `.cvd` staged, a download stages the `.cdiff`, so deploying the `.cvd` raises a missing-file error |
| Retrying.EmptyVersionDeploysStaleFile | clamavmirror.py:312-316 | with an empty remote version and a `.cvd` already staged, a download of the `.cdiff` (lines 220-225) makes the first pass deploy that stale `.cvd` unverified, and nothing else in the mirror directory changes |
| Retrying.FetchPastScript | clamavmirror.py:241-244 | when every mirror is unreachable, `download_sig` asks each once and returns not downloaded with the code it was given |
| Retrying.UnreachableMirrorsUseAllPasses | clamavmirror.py:332-346 | with every mirror unreachable, all five passes run, each asking every mirror, and nothing is deployed |
| Retrying.NotFoundStopsAfterOnePass | clamavmirror.py:319-321 | when every mirror answers 404, the loop stops after one pass of exactly one request per mirror, and deploys nothing |
| Retrying.NotFoundStopsIffLastCode | clamavmirror.py:311-325 | when the test rejects every response of a pass, the pass asks every mirror once, in order; before the fifth pass the loop then stops without deploying iff the pass's last code is 404, and otherwise goes on to the next pass |
| Retrying.NotFoundThenUnreachableStops | clamavmirror.py:319-321 | a 404 from the first mirror and a refusal without a code from the second stop the loop after one pass of two requests |
| Retrying.NotFoundThenServerErrorRetries | clamavmirror.py:319-325 | a 404 from the first mirror and a 500 from the second make the loop go on to a second pass |
| Backfill.MissingNumbers | clamavmirror.py:379-384 | n is listed iff local ≤ n ≤ remote and diff n is absent from the mirror directory; the list is strictly ascending |
| Backfill.DiffNamesDistinct | clamavmirror.py:380-382 | different diff numbers of a family give different file names |
| Backfill.UpdateDiffKeepsMissing | clamavmirror.py:383-384 | fetching one diff does not change which higher-numbered diffs are missing |
| Backfill.BackfillIsMissingInOrder | clamavmirror.py:379-384 | the backfill loop equals `update_diff` of exactly the diffs missing at its start, in ascending order |
| Backfill.NoDiffsFetchesWholeRange | clamavmirror.py:379 | when none of the range's diffs is in the mirror directory, whatever other files it holds, every number from the local version to the remote one is missing, in increasing order, the local version's own number first |
| Backfill.BackfillNoDiffsPresent | clamavmirror.py:376-384 | with integer versions and none of the range's diffs present, the backfill is `update_diff` of every number from the local version to the remote one, both inclusive, in increasing order |
| Backfill.BackfillAllPresentIsNoop | clamavmirror.py:376-384 | with integer versions and every diff of the range present, the backfill makes no request and changes nothing |
| Backfill.BackfillNeverRaises | clamavmirror.py:379-384 | the diff loop itself never raises |
| Backfill.BackfillWithoutLocalIsNoop | clamavmirror.py:376-378 | without a local version no diff is requested and nothing changes |
| Backfill.BackfillFetchesMissingRange | clamavmirror.py:376-384 | with integer versions, the backfill is `update_diff` of the missing diffs from the local version to the remote one, inclusive |
| Backfill.BackfillRejectsNonNumericVersion | clamavmirror.py:379 | a version that is not an integer raises ValueError before any request |
| Backfill.BackfillSpecErrors | clamavmirror.py:376-384 | a family's backfill raises only IndexError or ValueError |
| Backfill.BackfillNumericNeverRaises | clamavmirror.py:376-384 | once both versions parse as integers, the backfill raises nothing |
| SigUpdate.UpdateSigRunsIffNeeded | clamavmirror.py:307-327 | the retry loop runs exactly when a full update is needed; otherwise the state, including the request log, is unchanged |
| SigUpdate.MissingFileIsFetched | clamavmirror.py:309 | a family whose `.cvd` is missing is always fetched |
| SigUpdate.UpToDateIsUntouched | clamavmirror.py:309 | a local version no older than the remote one means no request and no change |
| SigUpdate.OutdatedIsFetched | clamavmirror.py:309 | an older local version means the retry loop runs |
| SigUpdate.RetryErrors | clamavmirror.py:311-325 | the loop raises only the IndexError of a full file or a missing staged artifact |
| SigUpdate.UpdateSigErrors | clamavmirror.py:304-327 | `update_sig` raises only ValueError, IndexError, or (only with an empty remote version) the missing-file error |
| SigUpdate.UpdateSigMirror | clamavmirror.py:304-327 | `update_sig` changes the mirror directory at most in the family's `.cvd` |
| SigUpdate.UpdateSigDeploysRemoteVersion | clamavmirror.py:312-316 | after a deployment the `.cvd` verifies and its local version is the remote version |
| SigUpdate.AtRemoteVersionIsUntouched | clamavmirror.py:309 | a family already at the numeric remote version is left alone |
| SigUpdate.UpdateSigSettles | clamavmirror.py:304-327 | once `update_sig` has deployed, running it again with the same record makes no request and changes nothing |
| Runs.PublishWritesIffChanged | clamavmirror.py:349-359 | `dns.txt` is written iff it is missing or differs from the record; a missing file hashes to `''`, which no digest equals |
| Runs.PublishLeavesRecord | clamavmirror.py:349-359 | afterwards `dns.txt` holds the record and nothing else has changed |
| Runs.PublishIdempotent | clamavmirror.py:349-359 | a second publication of the same record writes nothing and changes nothing |
| Runs.RetryConfined | clamavmirror.py:330-346 | a retry loop asks only the given mirrors, removes no file, and writes no file, new or not, but its artifact |
| Runs.BackfillConfined | clamavmirror.py:379-384 | the diff loop only adds diffs: no file already present is rewritten |
| Runs.BackfillSpecConfined | clamavmirror.py:376-384 | the same holds for a family's whole backfill |
| Runs.UpdateSigConfined | clamavmirror.py:304-327 | `update_sig` asks only the given mirrors and rewrites at most the family's `.cvd` |
| Runs.FamilyStepConfined | clamavmirror.py:374-385 | one family's turn rewrites at most that family's `.cvd` and adds only that file or diffs |
| Runs.FamiliesConfined | clamavmirror.py:373-385 | the family loop rewrites at most the full files of the families it visits |
| Runs.FamilyUpToDate | clamavmirror.py:374-385 | a family whose local version is not older than the remote one, with every diff from the local version on present (no diffs for `main`), is left unchanged, with no request and no exception |
| Runs.FamilyStepErrors | clamavmirror.py:374-385 | a family's turn raises IndexError, ValueError, or, only when its remote version is empty, the missing-file error for its `.cvd` |
| Runs.FamiliesErrors | clamavmirror.py:373-385 | the family loop raises the missing-file error only for a visited family whose remote version is empty |
| Runs.NoAddressExits | clamavmirror.py:264-268 | if five address lookups are all empty, the run exits with status 2 and changes nothing |
| Runs.NoRecordExits | clamavmirror.py:285-287 | if some address lookup succeeds but four TXT lookups are all empty, the run exits with status 3 and changes nothing |
| Runs.ShortRecordCrashes | clamavmirror.py:366-372 | a record with fewer than eight fields raises IndexError before any download, and nothing changes |
| Runs.CompletedRunPublishesRecord | clamavmirror.py:386-387 | a run that exits with 0 leaves `dns.txt` holding the fetched record |
| Runs.RunConfined | clamavmirror.py:362-387 | a run asks only the resolved mirrors and removes no file. It rewrites at most the four full files and `dns.txt`, and adds only those or diffs |
| Runs.LockExitNeedsEmptyVersion | clamavmirror.py:362-387 | the process, with the lock handler of lines 436-442 around `main`, exits with 0, 1, 2, 3 or 254, and, among the exceptions the model raises, 254 only when the record parsed and some family's version field is empty (a failing `chmod` or a connection error would also give 254; see Left out) |
| Runs.UnfinishedRunKeepsDnsFile | clamavmirror.py:373-386 | a run that does not exit with 0 leaves `dns.txt` (present or absent) as it was |
| MirrorSync.Mirror.DownloadSig | clamavmirror.py:214-248 | the loop over the mirrors ends in the state and result of `FetchFrom` |
| MirrorSync.Mirror.CopySig | clamavmirror.py:291-301 | moves the staged artifact into the mirror directory, or raises when it is not staged |
| MirrorSync.Mirror.Retry | clamavmirror.py:311-325 | the pass loop ends in the state and result of `RetryFrom` |
| MirrorSync.Mirror.UpdateDiff | clamavmirror.py:330-346 | `update_diff` ends in the state and result of `UpdateDiffSpec` |
| MirrorSync.Mirror.UpdateSig | clamavmirror.py:304-327 | `update_sig` ends in the state and result of `UpdateSigSpec` |
| MirrorSync.Mirror.Backfill | clamavmirror.py:376-384 | the diff part of a family's turn ends in the state and result of `BackfillSpec` |
| MirrorSync.Mirror.BackfillRange | clamavmirror.py:379-384 | the `range` loop ends in the state and result of `BackfillFrom` |
| MirrorSync.Mirror.CreateDnsFile | clamavmirror.py:349-359 | `create_dns_file` ends in the state and result of `Publish` |
| MirrorSync.Mirror.Run | clamavmirror.py:362-387 | `main` ends in the state and outcome of `RunSpec` |

## Left out

- DNS queries (`get_ip_addresses`, `get_txt_record`): dnspython is outside the model. Their answers are the `addrAnswers` and `txtAnswers` oracles, with NXDOMAIN and a missing TXT string already given as the empty answer. Other dnspython exceptions, such as NoAnswer, Timeout or NoNameservers (clamavmirror.py:171-175, 180-184), are not caught there: they would end the run with status 1. The model has no such outcome.
- `urlopen`, the `Host` header and URL formatting beyond the path: network calls. Each request gets the next entry of one response script shared by all mirrors, not a separate sequence per mirror. This is as general, since a run's requests are made one after another. Only URLError-shaped failures are modelled, the ones `download_sig` catches and fails over from (clamavmirror.py:240-243). Other exceptions from `urlopen`, the response or the body reads are not caught there and would end the run: BadStatusLine gives status 1. RemoteDisconnected and a read timeout are OSErrors, so the lock handler turns them into 254. The failover lemmas cover only the modelled failures.
- Reading the `Content-Length` header in `chunk_read`: a missing or malformed header would raise there. The model takes the header to be well formed and does not use its value.
- A transport error in the middle of reading a body: not modelled. A served response's reads all succeed.
- `sigtool`: it is a subprocess. `verify_sigfile` is the `verify` oracle, and the output of `sigtool -i` is the `sigtool` oracle on the file's content. Only the parse of that output is modelled.
- The MD5 algorithm: it is an uninterpreted `md5` oracle. The publication lemmas require it to be injective and never `''` (`HashOk`). The difference between hashing file bytes and hashing the encoded record is not modelled.
- `chmod`, `chown`, and the `pwd`/`grp` lookups in `deploy_signature`: OS side effects, not modelled; only the move is. The `chown` and lookup failures are swallowed (clamavmirror.py:155-160). A failure of `os.chmod` (line 153) is not: its OSError, an IOError, would reach the lock handler and end the run with status 254. The model cannot raise it, so `Runs.LockExitNeedsEmptyVersion` speaks only of the exceptions the model has.
- `time.sleep`, `chunk_report`, `info`/`error` output, option parsing, and the `fcntl` single-instance lock: timing, terminal output, and cross-process concurrency. The lock is taken to be free. The exit status 254 of its IOError handler is modelled, for the IOError `main` itself can raise (`ProcessExit`).
- `str.split()` and `rstrip()`: whitespace is the ASCII whitespace characters, including the separators `\x1c`-`\x1f`. `int()` skips only space, `\t`, `\n`, `\v`, `\f` and `\r` (`Text.IsIntSpace`). Python also treats non-ASCII whitespace such as `\x85`, `\xa0` and `\u2000` as whitespace in all three. That is not modelled, nor are the underscores and non-ASCII digits that `int()` accepts.
- The iteration order of the `versions` dict: it is taken to be the insertion order main, daily, safebrowsing, bytecode, as in Python 3.7 and later.
- Exceptions raised by the file system, such as a missing directory or an I/O error: the directories are total maps, so only the missing staged file of `copy_sig` is modelled.
