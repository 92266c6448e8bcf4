# Drive-to-S3 transfer and local dataset restructuring, modelled in Dafny

The repository has two scripts that move a video dataset laid out as `resolution/label/video`.

- `drive_to_s3.py` walks a Google Drive folder tree three levels deep and downloads each video to a staging file. It uploads the file to S3 under `labels/<label>/<title>` and then deletes the staging file. A key that already exists is skipped. Both the download and the upload get up to `MAX_RETRIES` = 5 attempts, with a sleep of `2^attempt` seconds after each failure.
- `local_to_s3.py` walks an extracted copy of the same tree on local disk. It moves every video into `restructured/<label>/`, choosing `name_1.ext`, `name_2.ext`, ... when a name is taken, and counts the files moved and the entries skipped.

The model has six modules.

- `Media` (`common.dfy`) holds what both scripts share: the extension allow-list, ASCII lower-casing, the `endswith` filter and `os.path.join`.
- `DriveTransfer` (`drive_transfer.dfy`) models the outside world as a value `WorldState`:
  - the local files, as a set of paths;
  - the objects in the bucket, as a set of keys;
  - the delays passed to `time.sleep`, in order;
  - a log of the calls made to the two remote services.

  What Drive and S3 answer is scripted by an `Oracle`:
  - the outcome of a download, by file id and attempt number;
  - the outcome of an upload, by key and attempt number;
  - for each key, whether `head_object` raises a fault of its own (a denied permission, throttling, a server error) and with which code; without one it succeeds for a stored key and raises "404" for a missing one.

  The module holds closed-form specifications of the download and upload retry loops, of the existence check and of `process_single_video`, and lemmas about them.
- `DriveScan` (`drive_scan.dfy`) models the three-level walk. The Drive is a map from folder id to what `list_children` returns for it, and the walk computes the sequence of items it submits. The module also defines the effect of running those items one after the other.
- `DrivePipeline` (`drive_pipeline.dfy`) is the imperative side. A `World` object holds the files, the bucket, the delays and the call log as fields. Its methods are the source's loops, and each is proved to end in the state and return the value that the specification functions give.
- `UniquePaths` (`unique_path.dfy`) models `os.path.splitext`, `str(n)` and the suffix search of `ensure_unique_path`.
- `Restructure` (`restructure.dfy`) models the local walk. The directory tree is a map from directory to the names `os.listdir` returns, and a `Disk` object holds the set of existing files; the moves update it.

## Model

| member | source | states |
|---|---|---|
| Media.Lower | drive_to_s3.py:178 | lower-casing keeps the length and maps every character through `LowerChar` |
| Media.IsVideoName | drive_to_s3.py:178 | definition of the video filter, the same test as local_to_s3.py:60: the lower-cased name ends with `.mp4`, `.mov`, `.avi` or `.mkv`; what it selects is stated by `DriveScan.VideoTasksMembers` and `Restructure.MoveAllCounts` |
| DriveTransfer.S3Key | drive_to_s3.py:115 | definition of the key `labels/<label>/<title>`; its properties are `KeyDeterminesLabel` and `KeyInjective` |
| DriveTransfer.StagingPath | drive_to_s3.py:126-127 | definition of the staging path `temp_download/<id>_<title>`; its properties are `StagingPathInjective` and `StagingPathCollision` |
| DriveTransfer.KeyDeterminesLabel | drive_to_s3.py:115 | two videos with the same title get the same key only when their labels have the same title |
| DriveTransfer.KeyInjective | drive_to_s3.py:115 | when label titles contain no '/', the key `labels/<label>/<title>` determines both the label and the title |
| DriveTransfer.StagingPathInjective | drive_to_s3.py:126-127 | for file ids of equal length, the staging path `temp_download/<id>_<title>` determines both the id and the title |
| DriveTransfer.StagingPathCollision | drive_to_s3.py:126-127 | ids may hold '_', so ids of different lengths can share a staging path: id `a_b` with title `c` and id `a` with title `b_c` |
| DriveTransfer.ExistsCheck | drive_to_s3.py:90-97 | True exactly when head_object succeeds (the key is stored and no fault is raised); False exactly when it raises "404", whether for a missing key or as a fault; any other code, for a stored key too, is passed back as an error carrying that code |
| DriveTransfer.Download | drive_to_s3.py:51-86 | definition of `download_with_restart` in closed form; its properties are `DownloadAttempts` and `DownloadBackoff`, and `World.DownloadWithRestart` is proved to end in its state |
| DriveTransfer.FirstCompleted | drive_to_s3.py:51-77 | the first attempt from `from` on whose download completes, or MAX_RETRIES + 1 when none does; no attempt before it completes |
| DriveTransfer.DownloadAttempts | drive_to_s3.py:51-86 | between 1 and MAX_RETRIES attempts, numbered 1, 2, ..., each begun with no file at the staging path; every attempt but the last fails; the result is True exactly when the last attempt completes, and exactly when some attempt up to MAX_RETRIES completes; False only after MAX_RETRIES attempts |
| DriveTransfer.DownloadBackoff | drive_to_s3.py:79-86 | after the f-th failed attempt the delay 2^f is slept, including after the last failure; one delay per failed attempt and no others |
| DriveTransfer.UploadSpec | drive_to_s3.py:100-109 | definition of `upload_with_retry` in closed form; its properties are `UploadAttempts`, and `World.UploadWithRetry` is proved to end in its state |
| DriveTransfer.FirstAccepted | drive_to_s3.py:101-105 | the first attempt from `from` on whose upload succeeds, or MAX_RETRIES + 1 when none does |
| DriveTransfer.UploadAttempts | drive_to_s3.py:100-109 | between 1 and MAX_RETRIES upload calls, numbered 1, 2, ...; the loop stops at the first success and makes all MAX_RETRIES calls when every attempt fails; the result is True exactly when some attempt succeeds; a delay of 2^a follows every failed attempt a; local files are unchanged; the key is stored exactly on success |
| DriveTransfer.ProcessItem | drive_to_s3.py:113-141 | definition of `process_single_video`: the check, the skip, the crash on an unreadable size, the download, the upload and the removal of the staging file; its properties are `ItemShortCircuit`, `ItemCleanup`, `ItemIdempotent` and `ItemSucceeds` |
| DriveTransfer.ItemShortCircuit | drive_to_s3.py:113-133 | the item is skipped exactly when its key is stored and head_object raises no fault; the check fails exactly on a fault other than "404"; an item that does not reach the download only adds the head call; a failed download makes exactly MAX_RETRIES attempts and no upload call |
| DriveTransfer.ItemCleanup | drive_to_s3.py:126-141 | once a download has started, the staging file is absent when the item ends, whatever the upload did; no other local file changes; the key is stored exactly when the item succeeded |
| DriveTransfer.ItemIdempotent | drive_to_s3.py:117-121 | processing an item again after it succeeded skips it exactly when head_object raises no fault for its key, and then only a head call is made |
| DriveTransfer.ItemSucceeds | drive_to_s3.py:113-141 | an item whose key the check reports missing (no fault, or a "404" fault), whose size is readable, which has a completing download attempt and a succeeding upload attempt, and whose key is not yet stored, succeeds whatever the local files or the log hold |
| DriveScan.VideoTasks | drive_to_s3.py:175-179 | no more items are submitted than the label folder lists |
| DriveScan.VideoTasksMembers | drive_to_s3.py:175-179 | an item is submitted for a label folder exactly when it is listed there and its lower-cased title ends with a video extension, and it carries that folder's title |
| DriveScan.LabelsWalk | drive_to_s3.py:165-179 | definition of the loop over a resolution folder's entries; its properties are `LabelsSound`, `LabelsComplete` and `LabelsCompleteIff` |
| DriveScan.ResWalk | drive_to_s3.py:157-179 | definition of the loop over the root folder's entries; its properties are `ResSound`, `ResComplete` and `ResCompleteIff` |
| DriveScan.DriveWalk | drive_to_s3.py:155-179 | definition of the whole three-level walk; its properties are `DriveWalkSound`, `DriveWalkComplete` and `DriveWalkCompleteIff` |
| DriveScan.LabelsSound | drive_to_s3.py:163-179 | every item submitted for a resolution folder comes from a folder-typed, listable label entry of it and is a video |
| DriveScan.ResSound | drive_to_s3.py:157-179 | every item submitted comes from a folder-typed resolution entry and a folder-typed label entry under it |
| DriveScan.DriveWalkSound | drive_to_s3.py:155-179 | every submitted item is a video listed in a folder-typed label under a folder-typed resolution under the root, filed under that label's title; nothing below a non-folder entry is submitted |
| DriveScan.LabelsComplete | drive_to_s3.py:165-179 | a walk of a resolution folder that gets through submits every video of every label folder in it |
| DriveScan.ResComplete | drive_to_s3.py:157-179 | a walk of the resolutions that gets through submits every video of every label folder of every resolution folder |
| DriveScan.DriveWalkComplete | drive_to_s3.py:155-179 | a walk that gets through submits every video under every folder-typed resolution and label, under the label's title |
| DriveScan.LabelsCompleteIff | drive_to_s3.py:165-172 | the loop over a resolution folder gets through exactly when every folder-typed label entry can be listed |
| DriveScan.ResCompleteIff | drive_to_s3.py:157-172 | the loop over the resolutions gets through exactly when every folder-typed resolution entry, and every folder-typed label entry under it, can be listed |
| DriveScan.DriveWalkCompleteIff | drive_to_s3.py:155-172 | the walk gets through exactly when the root, every folder-typed resolution and every folder-typed label can be listed; non-folder entries are never listed |
| DriveScan.RunTasks | drive_to_s3.py:174-185 | running the submitted items gives exactly one outcome per item |
| DriveScan.RunOutcomeAt | drive_to_s3.py:181-185 | the outcome of item i is what processing it gives in the state the items before it left |
| DriveScan.RunStore | drive_to_s3.py:174-185 | a run never removes a key from the bucket and adds only the keys of its items |
| DriveScan.RunFiles | drive_to_s3.py:138-141 | after a run no new local file exists, and every file other than the items' staging paths is still there |
| DriveScan.WorkerIsolation | drive_to_s3.py:181-185 | an item whose services accept it, whose key is not stored and not shared with an earlier item, succeeds whatever the items before it did, crashes included |
| DriveScan.RunSkipsRepeatedKey | drive_to_s3.py:115-121 | the key does not include the resolution, so after an item succeeds a later item with the same label title and file title is skipped, exactly when head_object raises no fault for that key |
| DriveScan.RunIdempotent | drive_to_s3.py:117-121 | running the same items a second time, from the state the first run left, skips every item that succeeded the first time, exactly when head_object raises no fault for its key |
| DriveScan.EntryRunStep | drive_to_s3.py:175-183 | the items of a label folder from entry k on are the items of entry k, then those of the later entries, run from the state entry k leaves |
| DriveScan.RunAppend | drive_to_s3.py:174-185 | running `a + b` is running `a` and then `b` from the state `a` leaves; the outcomes are concatenated |
| DrivePipeline.World.ObjectExists | drive_to_s3.py:90-97 | one head call is logged, and the result is the existence check's classification |
| DrivePipeline.World.DownloadWithRestart | drive_to_s3.py:51-86 | the loop ends in the state and with the result of the closed-form download: its attempts, its delays, and the staging file present exactly on success |
| DrivePipeline.World.UploadWithRetry | drive_to_s3.py:100-109 | the loop ends in the state and with the result of the closed-form upload |
| DrivePipeline.World.ProcessSingleVideo | drive_to_s3.py:113-141 | the item ends in the state and with the outcome of the per-item specification |
| DrivePipeline.World.ProcessEntry | drive_to_s3.py:175-179 | one label-folder entry is processed exactly when its title has a video extension |
| DrivePipeline.World.ProcessLabelFolder | drive_to_s3.py:172-185 | the label folder's video items run in listing order; each outcome is collected, and the end state is that of running them all |
| DrivePipeline.World.ProcessResolutionFolder | drive_to_s3.py:163-185 | the loop over a resolution folder's entries runs exactly the items of the walk and reports whether it got through |
| DrivePipeline.World.ProcessDriveStructure | drive_to_s3.py:144-185 | the whole walk runs exactly the items the walk specification submits, in order, and reports whether every listing succeeded |
| UniquePaths.RFind | local_to_s3.py:21 | the last index of the character, or -1 when it does not occur |
| UniquePaths.SplitExt | local_to_s3.py:21 | the stem and the extension concatenate back to the path; the extension is empty, or a '.' followed by no further '.' or '/' |
| UniquePaths.LastDotIsExtensionDot | local_to_s3.py:21 | when the last path component has a '.' preceded in that component by a character other than '.', the last '.' of the path is such a dot too |
| UniquePaths.SplitExtHasExtension | local_to_s3.py:21 | the extension is non-empty exactly when the last path component has a '.' preceded in that component by a character other than '.'; with `SplitExt`'s clauses it is then the suffix from the last '.', so leading dots never start an extension |
| UniquePaths.NatToString | local_to_s3.py:25 | the decimal text of n is non-empty, and has one digit exactly when n < 10 |
| UniquePaths.NatToStringDigits | local_to_s3.py:25 | `str(n)` is made of decimal digits and starts with '0' only for 0 |
| UniquePaths.NatToStringValue | local_to_s3.py:25 | `str(n)` reads back as n |
| UniquePaths.NatToStringInjective | local_to_s3.py:25 | different counters have different decimal texts |
| UniquePaths.Candidate | local_to_s3.py:21-25 | definition of the alternative name `f"{base}_{n}{ext}"`; its properties are `CandidateInjective` and `CandidateIsNew` |
| UniquePaths.CandidateInjective | local_to_s3.py:25 | different counters give different alternative names |
| UniquePaths.CandidateIsNew | local_to_s3.py:25 | an alternative name is never the original path |
| UniquePaths.CandidatesCount | local_to_s3.py:24-28 | the first k alternative names are k distinct paths |
| UniquePaths.TakenBound | local_to_s3.py:24-28 | if the path and its first k alternatives all exist, more than k paths exist, so the counter stays within the number of existing paths |
| UniquePaths.FirstFree | local_to_s3.py:22-28 | the search from counter k stops at the first free counter n, with k <= n <= number of existing paths; every counter from k up to n is taken |
| UniquePaths.UniquePath | local_to_s3.py:14-28 | definition of `ensure_unique_path` against the set of existing paths; its properties are `UniquePathSpec`, and `Disk.EnsureUniquePath` is proved to return it |
| UniquePaths.UniquePathSpec | local_to_s3.py:14-28 | the result never exists; a free path is returned unchanged; otherwise the result is the alternative name with the smallest free counter n, with 1 <= n <= number of existing paths |
| Restructure.Step | local_to_s3.py:59-69 | definition of one entry of the innermost loop: a non-video is skipped, a video is moved to a free name, and a missing source makes the move raise; its properties are stated for `MoveAll` |
| Restructure.MoveAll | local_to_s3.py:59-69 | definition of handling entries in order; its properties are `MoveAllAppend`, `MoveAllStopped`, `MoveAllCounts`, `MoveAllKeepsCount`, `MoveAllOnlyVideosLeave` and `MoveAllLandings` |
| Restructure.RestructureSpec | local_to_s3.py:31-69 | definition of `restructure_dataset` from the listing and the existing files; its properties are `RestructureSummary`, and `Disk.RestructureDataset` is proved to end in it |
| Restructure.MoveAllAppend | local_to_s3.py:59-69 | handling `a + b` is handling `a`, then `b` from where `a` left off |
| Restructure.MoveAllStopped | local_to_s3.py:68 | once a move has raised, nothing further changes |
| Restructure.MoveAllCounts | local_to_s3.py:59-69 | when no move raised, moved + skipped grows by the number of entries handled, and moved grows by the number of video entries |
| Restructure.MoveAllKeepsCount | local_to_s3.py:64-69 | every move lands on a name that did not exist, so no file is overwritten and the number of files is unchanged |
| Restructure.MoveAllOnlyVideosLeave | local_to_s3.py:60-68 | only the sources of video entries ever disappear; skipped entries are not moved |
| Restructure.MoveAllLandings | local_to_s3.py:64-68 | every file that appears is the target `OUTPUT_ROOT/label/name` of a video entry, or an alternative name for it |
| Restructure.RestructureSummary | local_to_s3.py:31-73 | a missing root changes nothing; a run that completes has moved + skipped equal to the number of entries listed in the label folders it entered, and moved equal to the number of video entries; the number of files never changes |
| Restructure.LabelJobs | local_to_s3.py:47-59 | definition of the entries handled in one resolution folder, entering only directories; its properties are `LabelJobsSound` and `LabelJobsComplete` |
| Restructure.ResJobs | local_to_s3.py:38-59 | definition of the entries handled under the extracted root, entering only directories; its properties are `ResJobsSound` and `ResJobsComplete` |
| Restructure.LabelJobsSound | local_to_s3.py:47-59 | every entry handled in a resolution folder is listed in one of its label directories and filed under that label |
| Restructure.ResJobsSound | local_to_s3.py:38-59 | every entry handled is listed in a directory `EXTRACTED_ROOT/r/l`, with `r` and `l` directories listed above it, and is filed under label `l` |
| Restructure.LabelJobsComplete | local_to_s3.py:47-59 | every entry of every label directory of a resolution folder is handled |
| Restructure.ResJobsComplete | local_to_s3.py:38-59 | every entry of every label directory of every resolution directory is handled |
| Restructure.Disk.EnsureUniquePath | local_to_s3.py:14-28 | the `while True` loop returns the specified unique path, which does not exist; the loop's variant is the number of existing paths minus the counter |
| Restructure.Disk.MoveLabelEntries | local_to_s3.py:59-69 | the loop over one label folder ends with the files and counters of the move specification, and stops when a move raises |
| Restructure.Disk.MoveResolution | local_to_s3.py:47-69 | the loop over one resolution folder enters only directories and ends with the files and counters of the specification |
| Restructure.Disk.RestructureDataset | local_to_s3.py:31-73 | the whole walk ends with the files and the moved and skipped counters of the specification |

## Left out

- Authentication (`authenticate_drive`), the Drive query in `list_children`, the construction of the boto3 client and `main`: these are foreign library calls. A listing is a map lookup, and `head_object`, `upload_file` and `GetContentFile` are answered by the oracle.
- The sleeps are recorded as values; no time passes. The progress bar, `progress_cb` and every `print` are left out because they do not affect control flow.
- `file_obj.http = None` (line 57) is not modelled; each attempt is simply a fresh oracle answer.
- Concurrency: the thread pool (`MAX_WORKERS` = 2) and the `as_completed` order are not modelled. Items run one after the other in submission order, and outcomes are collected in that order. Two workers touching the same staging file or key at the same time are not covered.
- A listing that raises stops the whole walk. No code catches it, so the items already finished stay done and nothing after them runs.
- `Media.Lower`: lower-cases ASCII letters only, because Python's Unicode case mapping is not modelled.
- `Media.Join`: joins with '/' without handling an absolute second part, because Drive ids, label titles and file names are relative names here.
- `UniquePaths.SplitExt`: models POSIX `os.path.splitext`, including its rule that leading dots of the last component do not start an extension. Windows separators are not modelled.
- The existing-path test in `ensure_unique_path` and in `os.path.exists` sees only files, not directories. A directory at a candidate name is not modelled.
- `os.makedirs` for `TEMP_DIR`, `OUTPUT_ROOT` and each label's output folder is not modelled; it is assumed to succeed.
- A local entry with a video extension that is a directory: the source's `shutil.move` moves the whole directory and the walk carries on, but the model sees only files, so it treats such an entry as a missing source and stops the walk there. An entry that has vanished makes `shutil.move` raise in both, which ends the walk. `shutil.move` is otherwise "remove the source, add the destination".
- The head-object oracle gives the same answer every time a key is checked. A fault that comes and goes between two checks of the same key is not modelled.
- Two items whose ids differ in length can share a staging path, because ids may hold '_' (see `StagingPathCollision`). Items run one after the other in this model, so such a collision does no harm here.
- A download or upload that raises something other than a scripted failure, and a removal that fails, are not modelled. The bare `except` around the final `os.remove` (lines 138-141) can never fire in this model, because the staging file always exists at that point.
- `DrivePipeline.World.ProcessLabelFolder`: the outcomes are listed in submission order, not in the order the futures complete.
