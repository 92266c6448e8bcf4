/**
  The imperative side of drive_to_s3.py: the local filesystem, the object store, the sleeps
  and the remote-call log are fields of a `World` that the transfer functions update in place.
  Each method is proved to leave the `World` in the state, and to return the value, that the
  specification functions of `DriveTransfer` and `DriveScan` give for the state it started in.
*/
module DrivePipeline {
  import opened Media
  import opened DriveTransfer
  import opened DriveScan

  class World {
    var files: set<string>
    var store: set<string>
    var delays: seq<nat>
    var calls: seq<Call>

    function State(): WorldState
      reads this
    {
      WorldState(files, store, delays, calls)
    }

    constructor (files0: set<string>, store0: set<string>)
      ensures State() == WorldState(files0, store0, [], [])
    {
      files, store, delays, calls := files0, store0, [], [];
    }

    /** `s3_object_exists` (lines 90-97): one head call; of the codes it raises, only "404"
        means absent. */
    method ObjectExists(oracle: Oracle, key: string) returns (r: CheckResult)
      modifies this
      ensures r == ExistsCheck(old(State()), oracle, key)
      ensures State() == Record(old(State()), Head(key))
    {
      calls := calls + [Head(key)];
      match oracle.headFault(key)
      case Some(code) =>
        if code == "404" {
          return Found(false);
        }
        return CheckError(code);
      case None =>
        return Found(key in store);
    }

    /** `download_with_restart` (lines 51-86). Every attempt first removes whatever is at the
        staging path; a failed attempt removes what the fetch wrote before sleeping. */
    method DownloadWithRestart(oracle: Oracle, id: string, path: string) returns (ok: bool)
      modifies this
      ensures ok == Download(old(State()), oracle, id, path).ok
      ensures State() == Download(old(State()), oracle, id, path).state
      ensures ok ==> path in files
      ensures !ok ==> path !in files
    {
      for attempt := 1 to MAX_RETRIES + 1
        invariant forall a :: 1 <= a < attempt ==> !oracle.fetch(id, a).Completed?
        invariant forall f :: f != path ==> (f in files <==> f in old(files))
        invariant attempt > 1 ==> path !in files
        invariant store == old(store)
        invariant calls == old(calls) + FetchLog(id, path, attempt - 1)
        invariant delays == old(delays) + Backoffs(attempt - 1)
      {
        if path in files {
          files := files - {path};
        }
        calls := calls + [Fetch(id, path, attempt, path !in files)];
        assert FetchLog(id, path, attempt) == FetchLog(id, path, attempt - 1) + [Fetch(id, path, attempt, true)];
        match oracle.fetch(id, attempt)
        case Completed =>
          files := files + {path};
          assert FirstCompleted(oracle, id, 1) == attempt;
          return true;
        case Failed(partial) =>
          if partial {
            files := files + {path};
          }
          if path in files {
            files := files - {path};
          }
          delays := delays + [Pow2(attempt)];
          assert Backoffs(attempt) == Backoffs(attempt - 1) + [Pow2(attempt)];
      }
      assert FirstCompleted(oracle, id, 1) == MAX_RETRIES + 1;
      assert files == old(files) - {path};
      return false;
    }

    /** `upload_with_retry` (lines 100-109). */
    method UploadWithRetry(oracle: Oracle, path: string, key: string) returns (ok: bool)
      modifies this
      ensures ok == UploadSpec(old(State()), oracle, path, key).ok
      ensures State() == UploadSpec(old(State()), oracle, path, key).state
    {
      for attempt := 1 to MAX_RETRIES + 1
        invariant forall a :: 1 <= a < attempt ==> !oracle.upload(key, a)
        invariant files == old(files) && store == old(store)
        invariant calls == old(calls) + UploadLog(path, key, attempt - 1)
        invariant delays == old(delays) + Backoffs(attempt - 1)
      {
        calls := calls + [Upload(path, key, attempt)];
        assert UploadLog(path, key, attempt) == UploadLog(path, key, attempt - 1) + [Upload(path, key, attempt)];
        if oracle.upload(key, attempt) {
          store := store + {key};
          assert FirstAccepted(oracle, key, 1) == attempt;
          return true;
        }
        delays := delays + [Pow2(attempt)];
        assert Backoffs(attempt) == Backoffs(attempt - 1) + [Pow2(attempt)];
      }
      assert FirstAccepted(oracle, key, 1) == MAX_RETRIES + 1;
      return false;
    }

    /** `process_single_video` (lines 113-141). The size read at line 49 raises before the
        first download attempt when the entry's size is unreadable: the item ends `Crashed`. */
    method ProcessSingleVideo(oracle: Oracle, t: Task) returns (outcome: Outcome)
      modifies this
      ensures outcome == ProcessItem(old(State()), oracle, t).outcome
      ensures State() == ProcessItem(old(State()), oracle, t).state
    {
      var key := S3Key(t.labelName, t.video.title);
      var found := ObjectExists(oracle, key);
      match found
      case CheckError(_) =>
        return CheckFailed;
      case Found(present) =>
        if present {
          return Skipped;
        }
        if !t.video.sizeReadable {
          return Crashed;
        }
        var path := StagingPath(t.video.id, t.video.title);
        var downloaded := DownloadWithRestart(oracle, t.video.id, path);
        if !downloaded {
          return DownloadFailed;
        }
        var uploaded := UploadWithRetry(oracle, path, key);
        files := files - {path};
        outcome := if uploaded then Succeeded else UploadFailed;
    }

    /** One entry of a label folder (lines 175-179): a title with a video extension is
        processed as one item, any other entry is passed over. */
    method ProcessEntry(oracle: Oracle, labelName: string, v: DriveEntry) returns (outcomes: seq<Outcome>)
      modifies this
      ensures outcomes == RunTasks(old(State()), oracle, VideoTasks(labelName, [v])).outcomes
      ensures State() == RunTasks(old(State()), oracle, VideoTasks(labelName, [v])).state
    {
      VideoTasksStep(labelName, [v], 0);
      assert [v][0..] == [v] && [v][1..] == [];
      assert VideoTasks(labelName, [v][1..]) == [];
      if IsVideoName(v.title) {
        ghost var tasks := [Task(labelName, v)];
        assert tasks[..0] == [];
        var outcome := ProcessSingleVideo(oracle, Task(labelName, v));
        outcomes := [outcome];
      } else {
        outcomes := [];
      }
    }

    /** The block for one label folder (lines 172-185): its videos are submitted, in listing
        order, and each future's exception is caught and reported. */
    method ProcessLabelFolder(oracle: Oracle, labelName: string, videos: seq<DriveEntry>) returns (outcomes: seq<Outcome>)
      modifies this
      ensures outcomes == RunTasks(old(State()), oracle, VideoTasks(labelName, videos)).outcomes
      ensures State() == RunTasks(old(State()), oracle, VideoTasks(labelName, videos)).state
    {
      ghost var goal := RunTasks(State(), oracle, VideoTasks(labelName, videos));
      outcomes := [];
      for k := 0 to |videos|
        invariant RunTasks(State(), oracle, VideoTasks(labelName, videos[k..])).state == goal.state
        invariant outcomes + RunTasks(State(), oracle, VideoTasks(labelName, videos[k..])).outcomes == goal.outcomes
      {
        EntryRunStep(State(), oracle, labelName, videos, k);
        ghost var tail := RunTasks(State(), oracle, VideoTasks(labelName, videos[k..])).outcomes;
        var more := ProcessEntry(oracle, labelName, videos[k]);
        ghost var rest := RunTasks(State(), oracle, VideoTasks(labelName, videos[k + 1..])).outcomes;
        assert outcomes + tail == (outcomes + more) + rest;
        outcomes := outcomes + more;
      }
      VideoTasksStep(labelName, videos, |videos|);
      assert outcomes + [] == outcomes;
    }

    /** The loop over the entries of one resolution folder (lines 164-185): non-folders are
        skipped, each label folder is listed and its videos processed. A listing that raises
        ends the loop, and `complete` is false. */
    method ProcessResolutionFolder(oracle: Oracle, tree: Listing, labels: seq<DriveEntry>) returns (complete: bool, outcomes: seq<Outcome>)
      modifies this
      ensures complete == LabelsWalk(tree, labels).complete
      ensures outcomes == RunTasks(old(State()), oracle, LabelsWalk(tree, labels).tasks).outcomes
      ensures State() == RunTasks(old(State()), oracle, LabelsWalk(tree, labels).tasks).state
    {
      ghost var s0 := State();
      ghost var done: seq<Task> := [];
      outcomes := [];
      for j := 0 to |labels|
        invariant Then(Walk(true, done), LabelsWalk(tree, labels[j..])) == LabelsWalk(tree, labels)
        invariant State() == RunTasks(s0, oracle, done).state
        invariant outcomes == RunTasks(s0, oracle, done).outcomes
      {
        var l := labels[j];
        assert labels[j..][1..] == labels[j + 1..];
        if !IsFolder(l) {
          continue;
        }
        if l.id !in tree {
          assert done + [] == done;
          return false, outcomes;
        }
        var videos := VideoTasks(l.title, tree[l.id]);
        var more := ProcessLabelFolder(oracle, l.title, tree[l.id]);
        RunAppend(s0, oracle, done, videos);
        ThenAssoc(Walk(true, done), Walk(true, videos), LabelsWalk(tree, labels[j + 1..]));
        outcomes := outcomes + more;
        done := done + videos;
      }
      assert done + [] == done;
      return true, outcomes;
    }

    /** `process_drive_structure` (lines 144-185): the root's entries are listed, non-folders
        skipped, and each resolution folder processed in turn. A listing that raises ends the
        walk; `complete` says whether it got through. */
    method ProcessDriveStructure(oracle: Oracle, tree: Listing, root: string) returns (complete: bool, outcomes: seq<Outcome>)
      modifies this
      ensures complete == DriveWalk(tree, root).complete
      ensures outcomes == RunTasks(old(State()), oracle, DriveWalk(tree, root).tasks).outcomes
      ensures State() == RunTasks(old(State()), oracle, DriveWalk(tree, root).tasks).state
    {
      ghost var s0 := State();
      ghost var done: seq<Task> := [];
      outcomes := [];
      if root !in tree {
        return false, outcomes;
      }
      var resolutions := tree[root];
      for i := 0 to |resolutions|
        invariant Then(Walk(true, done), ResWalk(tree, resolutions[i..])) == ResWalk(tree, resolutions)
        invariant State() == RunTasks(s0, oracle, done).state
        invariant outcomes == RunTasks(s0, oracle, done).outcomes
      {
        var r := resolutions[i];
        assert resolutions[i..][1..] == resolutions[i + 1..];
        if !IsFolder(r) {
          continue;
        }
        if r.id !in tree {
          assert done + [] == done;
          return false, outcomes;
        }
        ghost var inner := LabelsWalk(tree, tree[r.id]);
        var ok, more := ProcessResolutionFolder(oracle, tree, tree[r.id]);
        RunAppend(s0, oracle, done, inner.tasks);
        ThenAssoc(Walk(true, done), inner, ResWalk(tree, resolutions[i + 1..]));
        outcomes := outcomes + more;
        done := done + inner.tasks;
        if !ok {
          return false, outcomes;
        }
      }
      assert done + [] == done;
      return true, outcomes;
    }
  }
}
