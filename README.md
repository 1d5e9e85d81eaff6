# WorkTools operator scripts, modelled in Dafny

This project models the decision logic of four operator scripts from the WorkTools repository, with the AWS CLI, boto3 and the filesystem replaced by in-memory inputs or state:

- **Bucket cleanup** (`scripts/python/aws/s3/destroy_bucket_contents.py`, module `BucketCleanup`).
  - The provider is the class `Bucket`. Its fields are the live-object listing, the version listing, the versioning flag, a delete-marker counter, whether the bucket exists, and the log of delete requests it has received.
  - `delete_objects`, `delete_versions` and `destroy_bucket_if_empty` are methods. Each walks a snapshot of the listing taken when it starts, and each is proved against a function on the abstract `BucketState`: `ObjectsPhase`, `VersionsPhase` and `DestroyPhase`. `Run` composes the three phases.
  - The workflow's properties are lemmas about `Run`: dry-run safety, selection, the ordering that lets the version phase remove the delete markers the object phase created, bucket destruction, and idempotence.
- **Delete-marker removal** (`scripts/python/aws/s3/remove_delete_markers.py`, module `DeleteMarkers`).
  - Covers prefix normalisation, the textual `true`→`True` rewrite, the directory-key filter, and the removal loop.
  - The removal loop is modelled as written: a live run stops at the first marker with a `NameError`. It is also modelled as intended.
- **Text search** (`scripts/python/search_for_string.py`, module `StringSearch`).
  - Covers argument squeezing, the extension filter, case-sensitive and case-insensitive substring matching, and the result map.
  - Modelled as written (the duplicate guard tests the dictionary's keys) and as intended (one entry per path).
- **Batch submission** (`docker/data-processing-template/submit_jobs.py`, module `BatchJobs`).
  - `job_parameters` is a function.
  - `latest_job_definition` is a dictionary-filling loop followed by a `max` by value.

`Wrappers` (Option, Result), `Seqs` (duplicate-freedom, removal, counting) and `Strings` are shared helpers. `Strings` models the few Python `str` operations the scripts use: `endswith`, `in`, ASCII `lower`, `rstrip`, `readlines` and `str(int)`.

Modelling choices:
- The live listing is a duplicate-free sequence rather than a set. This gives the script's loops a definite listing order.
- A delete marker created during a run gets the version id `NewMarker(n)`, numbered from a counter. This keeps version records distinct, which the invariant `Consistent` states.
- A missing bucket makes the first listing of each phase fail (`Failure(NoSuchBucket)`). The run stops there, as the script's uncaught exception would.
- In dry-run mode `destroy_bucket_if_empty` first reports that bucket deletion is skipped (`DryrunSkipsBucketDeletion`, `destroy_bucket_contents.py:164-165`). For a non-empty bucket no further line follows and the status is 1: the "NOT empty" line is printed only outside a dry run (`destroy_bucket_contents.py:179-181`).

## Model

| member | source | states |
|---|---|---|
| BucketCleanup.ParseObjectsFile | scripts/python/aws/s3/destroy_bucket_contents.py:75-84 | a selector exists exactly when the path is given and names an existing regular file; it then has one entry per line of the file, each the line with trailing whitespace removed |
| BucketCleanup.ParseObjectsFileRoundTrip | scripts/python/aws/s3/destroy_bucket_contents.py:80-82 | a file written as one key per line gives back exactly those keys, in order, when no key holds a newline or ends in whitespace |
| BucketCleanup.SelectedKeysMembers | scripts/python/aws/s3/destroy_bucket_contents.py:106-120 | the object phase picks exactly the listed keys the selector accepts: every key when the selector is missing or empty, otherwise exact members |
| BucketCleanup.UnselectedKeysMembers | scripts/python/aws/s3/destroy_bucket_contents.py:106-120 | the keys the object phase leaves are exactly the listed keys the selector rejects |
| BucketCleanup.SelectedVersionsMembers | scripts/python/aws/s3/destroy_bucket_contents.py:142-145 | the version phase picks exactly the records whose key the selector accepts |
| BucketCleanup.UnselectedVersionsMembers | scripts/python/aws/s3/destroy_bucket_contents.py:142-145 | the records the version phase leaves are exactly those whose key the selector rejects |
| BucketCleanup.RecordsOfMembers | scripts/python/aws/s3/destroy_bucket_contents.py:142-143 | the records of a key are exactly the listed records carrying that key |
| BucketCleanup.Bucket.DeleteObject | scripts/python/aws/s3/destroy_bucket_contents.py:113 | the key leaves the live listing; a versioned bucket gains a fresh delete marker for it; the request is logged; listings stay duplicate-free |
| BucketCleanup.Bucket.DeleteVersion | scripts/python/aws/s3/destroy_bucket_contents.py:150 | that one record leaves the version listing and the request is logged; listings stay duplicate-free |
| BucketCleanup.Bucket.Delete | scripts/python/aws/s3/destroy_bucket_contents.py:177 | the bucket no longer exists and the request is logged; nothing else changes |
| BucketCleanup.Bucket.IsEmpty | scripts/python/aws/s3/destroy_bucket_contents.py:153-157 | fails on a missing bucket; otherwise true exactly when there is no live object, whatever version records remain |
| BucketCleanup.DeleteObjects | scripts/python/aws/s3/destroy_bucket_contents.py:87-120 | fails on a missing bucket and changes nothing; otherwise the bucket ends in `ObjectsPhase` of its start state: in a dry run unchanged, else every selected listed key deleted in listing order; with verbose output, one report line per selected key, carrying the dry-run flag |
| BucketCleanup.DeleteVersions | scripts/python/aws/s3/destroy_bucket_contents.py:124-150 | as `DeleteObjects`, for every record of the version listing taken when the phase starts, delete markers included |
| BucketCleanup.DestroyBucketIfEmpty | scripts/python/aws/s3/destroy_bucket_contents.py:160-182 | status 0 exactly when there is no live object, 1 otherwise; the bucket is deleted exactly when it has no live object and this is not a dry run; the printed lines per case |
| BucketCleanup.DestroyBucketContents | scripts/python/aws/s3/destroy_bucket_contents.py:36-72 | the selector is resolved once; object phase, then version phase, then, only with `--destroy-bucket`, the bucket phase; the bucket ends in `Run` of its start state; a dry run leaves the state exactly as it was; the printed lines |
| BucketCleanup.DryRunChangesNothing | scripts/python/aws/s3/destroy_bucket_contents.py:58-72 | a dry run changes no state and logs no request, whatever the selector and `--destroy-bucket` |
| BucketCleanup.SelectedKeyCleared | scripts/python/aws/s3/destroy_bucket_contents.py:68-69 | after a live run a selected key has no live object and no version record left, including the delete markers the object phase itself created |
| BucketCleanup.UnselectedKeyUntouched | scripts/python/aws/s3/destroy_bucket_contents.py:106-145 | after a live run a key the selector rejects keeps its live object (or its absence) and exactly its version records |
| BucketCleanup.UnselectedKeyNotRequested | scripts/python/aws/s3/destroy_bucket_contents.py:106-150 | a live run only appends to the request log, and none of its requests names a key the selector rejects |
| BucketCleanup.AllKeysRunEmptiesBucket | scripts/python/aws/s3/destroy_bucket_contents.py:58-72 | with no objects file (or an empty one), a live run with `--destroy-bucket` leaves no live object, no version record and no bucket |
| BucketCleanup.BucketDeletedIffAllLiveSelected | scripts/python/aws/s3/destroy_bucket_contents.py:153-177 | a live run with `--destroy-bucket` deletes the bucket exactly when every live key was selected, whatever version records remain |
| BucketCleanup.RunIsIdempotent | scripts/python/aws/s3/destroy_bucket_contents.py:114-150 | running the same live cleanup again after a first run changes nothing and issues no request |
| Strings.RStrip | scripts/python/aws/s3/destroy_bucket_contents.py:82 | the result is a prefix of the line, does not end in whitespace, and only whitespace was removed |
| Strings.ReadLines | scripts/python/aws/s3/destroy_bucket_contents.py:82 | the lines concatenate back to the text; each is non-empty with a newline at most at its end; all but the last end in a newline |
| Strings.ReadLinesOfConcat | scripts/python/aws/s3/destroy_bucket_contents.py:82 | reading back a text made of newline-terminated lines gives exactly those lines |
| DeleteMarkers.Prefixes | scripts/python/aws/s3/remove_delete_markers.py:71 | a list of prefixes is used as given; any other value, such as the tuple click supplies, becomes a one-element list |
| DeleteMarkers.SinglePrefixListedOnce | scripts/python/aws/s3/remove_delete_markers.py:27 | a value that is not a list is listed exactly once, under the text it renders to |
| DeleteMarkers.ReplaceTrue | scripts/python/aws/s3/remove_delete_markers.py:79 | the rewrite preserves length |
| DeleteMarkers.ReplaceTrueChars | scripts/python/aws/s3/remove_delete_markers.py:79 | the rewrite only ever turns a `t` into a `T` |
| DeleteMarkers.ReplaceTrueLeavesNoTrue | scripts/python/aws/s3/remove_delete_markers.py:79 | after the rewrite no `true` remains anywhere in the text |
| DeleteMarkers.FindObjectsWithDeleteMarkers | scripts/python/aws/s3/remove_delete_markers.py:52-90 | one listing per prefix, in prefix order; from each, the rewritten records whose key does not end in `/`, in listing order |
| DeleteMarkers.KeptMembers | scripts/python/aws/s3/remove_delete_markers.py:85-88 | a record is kept exactly when it is the rewrite of a listed record whose key does not end in `/` |
| DeleteMarkers.KeptAppend | scripts/python/aws/s3/remove_delete_markers.py:85-88 | filtering preserves listing order across any split of the listing |
| DeleteMarkers.FoundAppend | scripts/python/aws/s3/remove_delete_markers.py:72-88 | the result over several prefixes is the concatenation of the results per prefix, in prefix order |
| DeleteMarkers.RemoveDeleteMarkers | scripts/python/aws/s3/remove_delete_markers.py:12-49 | as written: a dry run returns an empty output list; a live run with at least one marker fails with `NameError` on `cmd_str` at the first marker; verbose output is one notice per marker reached, flagged as dry run or not |
| DeleteMarkers.LiveRemovalFails | scripts/python/aws/s3/remove_delete_markers.py:43-46 | a live run over at least one marker fails with `NameError` on `cmd_str`; a dry run always succeeds with an empty output list |
| DeleteMarkers.RewriteCorruptsKeys | scripts/python/aws/s3/remove_delete_markers.py:79 | a marker listed on key `untrue` is found as one on `unTrue`; the listed record itself is not found |
| DeleteMarkers.FindObjectsWithDeleteMarkersIntended | scripts/python/aws/s3/remove_delete_markers.py:70-90 | corrected scan: the listed records whose key does not end in `/`, exactly as listed, in prefix and listing order |
| DeleteMarkers.KeptIntendedMembers | scripts/python/aws/s3/remove_delete_markers.py:85-88 | the corrected filter keeps exactly the listed records whose key does not end in `/` |
| DeleteMarkers.FoundIntendedMembers | scripts/python/aws/s3/remove_delete_markers.py:72-88 | the corrected scan finds exactly the records of some prefix's listing whose key does not end in `/` |
| DeleteMarkers.IntendedCommandsTargetListedMarkers | scripts/python/aws/s3/remove_delete_markers.py:44 | every corrected delete command names the bucket and a listed marker of a file key, with its key and version id verbatim |
| DeleteMarkers.RemoveDeleteMarkersIntended | scripts/python/aws/s3/remove_delete_markers.py:26-49 | corrected removal: no command in a dry run; otherwise one delete command per found marker, in order, and one collected output per command; one notice per marker when verbose |
| StringSearch.Squeeze | scripts/python/search_for_string.py:38-41 | a single string becomes a one-element sequence; an iterable is used as given |
| StringSearch.CaseSensitiveImpliesInsensitive | scripts/python/search_for_string.py:55-62 | a case-sensitive match is also a case-insensitive match |
| Strings.Contains | scripts/python/search_for_string.py:62 | the substring test holds exactly when the needle occurs at some position |
| Strings.Lower | scripts/python/search_for_string.py:59-60 | lowering preserves length and lowers each character |
| StringSearch.AppendMatches | scripts/python/search_for_string.py:54-63 | one line, as written: the list of each matching search string grows by the path once per occurrence of that string among the search strings, unless the path is itself a key; keys never change |
| StringSearch.ScanFile | scripts/python/search_for_string.py:53-63 | one file, as written: each list grows by the path once per matching line and per occurrence of the string, unless the path is a key |
| StringSearch.GetFilepathsContainingString | scripts/python/search_for_string.py:11-65 | as written: one key per distinct search string; each list is `Hits`, the walk-order appends above over the files with a wanted extension |
| StringSearch.HitsAppend | scripts/python/search_for_string.py:45-63 | lists only grow: walking more files appends to each list |
| StringSearch.LineHitsPositive | scripts/python/search_for_string.py:53-63 | a file adds to the list of `s` exactly when `s` is a search string and some line matches it |
| StringSearch.HitsMembers | scripts/python/search_for_string.py:45-63 | a path is listed for `s` exactly when `s` is a search string, the path is not one, it has a wanted extension and some walked file with that path has a line matching `s` |
| StringSearch.DuplicatePathCounterexample | scripts/python/search_for_string.py:62-63 | with the default case-insensitive search, one file `a.py` whose lines are `word` and `Word` (each read with its newline) is listed twice for `word` |
| StringSearch.FirstHitsNoDup | scripts/python/search_for_string.py:62-63 | corrected: no list holds a path twice |
| StringSearch.FirstHitsMembers | scripts/python/search_for_string.py:45-63 | corrected: a path is listed for `s` exactly when it has a wanted extension and some walked file with that path has a line matching `s` |
| StringSearch.AppendFirstMatches | scripts/python/search_for_string.py:54-63 | one line, corrected guard: the list of each matching string gains the path unless it already holds it |
| StringSearch.ScanFileDeduped | scripts/python/search_for_string.py:53-63 | one file, corrected guard: each list gains the path once if some line matches, and only if it does not already hold it |
| StringSearch.GetFilepathsContainingStringDeduped | scripts/python/search_for_string.py:11-65 | corrected search: one key per distinct search string; each list is `FirstHits`, the matching paths in walk order, each once |
| BatchJobs.JobParameters | docker/data-processing-template/submit_jobs.py:17-46 | the request carries two resource requirements and one environment variable |
| BatchJobs.JobParametersContents | docker/data-processing-template/submit_jobs.py:17-46 | the job name is the given name, a dash and the suffix; the MEMORY value is decimal text denoting `memory * 1000`; the VCPU value equals the `THREADS` value and denotes `cpu`; definition, queue and attempts are passed through; the command is `python -u process_script.py` |
| Strings.IntToDecimalRoundTrip | docker/data-processing-template/submit_jobs.py:31-35 | `str` of an integer reads back as that integer, with a minus sign exactly for negatives |
| BatchJobs.InsertOrderMembers | docker/data-processing-template/submit_jobs.py:54-57 | the dictionary's key order holds exactly its keys |
| BatchJobs.InsertOrderKeys | docker/data-processing-template/submit_jobs.py:54-57 | the key order lists each key once |
| BatchJobs.RepeatedArn | docker/data-processing-template/submit_jobs.py:55-57 | a repeated ARN keeps its first insertion position and takes the revision seen last |
| BatchJobs.RevisionIsLastSeen | docker/data-processing-template/submit_jobs.py:57 | the recorded revision of an ARN is that of its last definition |
| BatchJobs.RecordPage | docker/data-processing-template/submit_jobs.py:56-57 | one page recorded into the dictionary and its key order |
| BatchJobs.CollectRevisions | docker/data-processing-template/submit_jobs.py:54-57 | the dictionary and its key order after all pages |
| BatchJobs.MaxByValue | docker/data-processing-template/submit_jobs.py:58 | `max` by value: fails on an empty dictionary; otherwise a key whose value is at least every other, and the first in key order among ties |
| BatchJobs.LatestJobDefinition | docker/data-processing-template/submit_jobs.py:49-59 | an error exactly when no definition was returned; otherwise an ARN whose last recorded revision is at least every other ARN's, the first inserted among ties |

## Left out

- boto3 sessions, resources, lazy pagination and remote calls. Each phase walks a snapshot of the listing taken when it starts; listing while deleting is not modelled.
- The provider's internal link between the two listings. Deleting a version record never changes the live listing, and an unversioned bucket's `null`-version entries are whatever the version listing was built with.
- The provider refusing to delete a bucket that still holds version records. The emptiness check looks at live objects only, as written, so `DestroyPhase` deletes the bucket whatever version records remain.
- Per-call provider failures other than a missing bucket (throttling, access denied): a delete call here always succeeds.
- The exact text of printed lines, which are abstract `Line`/`Notice` values; standard output itself is not modelled.
- The click command-line decorators and `__main__` blocks, including the call to the undefined `clean_bucket()` at `destroy_bucket_contents.py:186`.
- The filesystem (`os.path.exists`, `isfile`, `open`) is a map from path to entry; `readlines` is modelled on text without universal-newline translation (`\r` and `\r\n` are not turned into `\n`).
- Python's Unicode `str.lower`: `Strings.Lower` lowers ASCII letters only.
- The `aws s3api` subprocess calls and `ast.literal_eval`. The listing per prefix is the input `listFor`, giving (key, versionId) pairs, and the `true`→`True` rewrite is applied to those strings. JSON escaping of keys in the CLI output is not modelled.
- DeleteMarkers.RemoveDeleteMarkersIntended: the output of each `delete-object` call is the input function `run`. Failures of that call are not modelled.
- `None` for `--string` or `--ext` in the search (which raises `TypeError` in the script) is not modelled; both are a string or a sequence of strings.
- `os.walk` and file reading are the input sequence of (path, lines) in walk order.
- Failures of `open(filepath, 'r+')` and of decoding in both scripts (`destroy_bucket_contents.py:81`, `search_for_string.py:50`). Mode `r+` also needs write permission, so a read-only file raises `PermissionError`; undecodable bytes raise `UnicodeDecodeError`. In the cleanup this would abort the run before any phase; in the search it would abort the whole walk. Here every regular file of the objects-file map reads as its text, and every walked file has its lines.
- The command text of `find_objects_with_delete_markers` is split on single spaces (`remove_delete_markers.py:73-74`). A prefix containing a space, or click's rendering of several prefixes as one tuple text, therefore becomes extra CLI arguments, and the listing fails or uses the wrong prefix. Output that `ast.literal_eval` rejects (`remove_delete_markers.py:82`), such as the empty output of a failing CLI call, raises instead of returning. `listFor` is a total function from prefix to records, so none of these failures is represented.
- The provider's listing order of version records. `AfterDeleteObject` appends each new delete marker after every existing record, while the provider lists versions in key order, newest first. The final state of a run is the same either way. The order of the version phase's printed lines and delete requests can differ, for example when an older marker on another key sorts after the new one.
- Suspended versioning: `versioned` is a boolean, so a bucket whose versioning is suspended is not represented.
- `uuid.uuid4().hex[:8]` is the parameter `hexHash`. `cpu`, `memory` and `retries` are integers; float arguments are not modelled.
- `latest_job_definition`'s `jobDefinitionName` filter is the provider's business; the pages it returns are the input.
- `make_job`, `make_queue` (polling a remote status), the unused `multiprocessing` import, and `scripts/aws/ec2/toggle_instance_state.py` (an interactive prompt around EC2 start/stop calls) are not part of this model.

## Findings

| source | as written | input that shows it | evidently intended | confidence | as-written member | corrected member |
|---|---|---|---|---|---|---|
| scripts/python/aws/s3/remove_delete_markers.py:44-45 | the command is built into `cmd`, then `cmd_str.split(' ')` is evaluated, and `cmd_str` is not bound in this function | any `--no-dryrun` run that finds at least one delete marker: it raises `NameError` at the first marker, so no marker is ever removed | split the command text that was just built and run it, once per marker | high; not executed | DeleteMarkers.RemoveDeleteMarkers, DeleteMarkers.LiveRemovalFails | DeleteMarkers.RemoveDeleteMarkersIntended, DeleteMarkers.IntendedCommandsTargetListedMarkers |
| scripts/python/aws/s3/remove_delete_markers.py:79 | `output.replace('true', 'True')` rewrites the whole CLI output, keys and version ids included | a delete marker on key `untrue` is reported, and would be deleted, as one on key `unTrue` | turn only the JSON booleans into Python literals, leaving keys and version ids as listed | medium; not executed | DeleteMarkers.FindObjectsWithDeleteMarkers, DeleteMarkers.RewriteCorruptsKeys | DeleteMarkers.FindObjectsWithDeleteMarkersIntended, DeleteMarkers.FoundIntendedMembers |
| scripts/python/search_for_string.py:62 | the guard `filepath not in map_string_to_filepaths` tests the dictionary's keys (the search strings), not the list being appended to | a case-insensitive search for `word` in `.py` files, with one file `a.py` whose lines are `word` and `Word`: the result lists `a.py` twice | `filepath not in map_string_to_filepaths[s]`, listing each matching path once | high; not executed | StringSearch.GetFilepathsContainingString, StringSearch.DuplicatePathCounterexample | StringSearch.GetFilepathsContainingStringDeduped, StringSearch.FirstHitsNoDup |
