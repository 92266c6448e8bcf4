/**
  The per-item transfer pipeline of drive_to_s3.py, on values.

  The outside world is a `WorldState`: the local filesystem as a set of paths, the object
  store as a set of keys, the delays passed to `time.sleep` in order, and the log of calls
  made to the two remote services. What the services answer is scripted by an `Oracle`.
  The functions here are the specifications that the methods of `DrivePipeline.World`
  are proved against; the lemmas state what the source promises about them.
*/
module DriveTransfer {
  import opened Media

  const MAX_RETRIES: nat := 5
  const S3_BASE_PREFIX: string := "labels"
  const TEMP_DIR: string := "temp_download"

  /** One entry of a Drive listing. `sizeReadable` is false when `int(file_obj.get("fileSize", 0))`
      raises, which happens before the download's retry loop and outside its `try`. */
  datatype DriveEntry = DriveEntry(id: string, title: string, mimeType: string, sizeReadable: bool)

  /** One submitted unit of work: a video and the title of the label folder it was listed in. */
  datatype Task = Task(labelName: string, video: DriveEntry)

  /** How one `GetContentFile` call ends: it completes, or it raises after having written
      part of the file (`partial`) or nothing at all. */
  datatype FetchOutcome = Completed | Failed(partial: bool)

  datatype Option<T> = None | Some(value: T)

  /** The scripted remote services. `headFault(key)` is `Some(code)` when head_object raises
      `code` for that key whatever the store holds (a denied permission, throttling, a server
      error); with `None` it answers from the store: it succeeds for a stored key and raises
      "404" for a missing one. */
  datatype Oracle = Oracle(
    fetch: (string, nat) -> FetchOutcome,  // download of a file id, on a numbered attempt
    upload: (string, nat) -> bool,         // upload to a key, on a numbered attempt: succeeds?
    headFault: string -> Option<string>)

  /** A remote call, as recorded in the log. `clean` says that no file existed at the staging
      path when the download attempt began. */
  datatype Call =
    | Head(key: string)
    | Fetch(fileId: string, path: string, attempt: nat, clean: bool)
    | Upload(path: string, key: string, attempt: nat)

  datatype WorldState = WorldState(files: set<string>, store: set<string>, delays: seq<nat>, calls: seq<Call>)

  /** The state after a retry loop, and the boolean the loop returns. */
  datatype Attempted = Attempted(state: WorldState, ok: bool)

  /** `s3_object_exists`: a boolean, or the error it re-raises. */
  datatype CheckResult = Found(present: bool) | CheckError(code: string)

  /** What happened to one item; the source reports each of these by a message. */
  datatype Outcome = Skipped | CheckFailed | Crashed | DownloadFailed | UploadFailed | Succeeded

  datatype ItemResult = ItemResult(state: WorldState, outcome: Outcome)

  function Pow2(n: nat): (r: nat)
    ensures r >= 1
  {
    if n == 0 then 1 else 2 * Pow2(n - 1)
  }

  function Min(a: int, b: int): int
  {
    if a <= b then a else b
  }

  function Record(s: WorldState, c: Call): WorldState
  {
    s.(calls := s.calls + [c])
  }

  /** The destination key `S3_BASE_PREFIX/label/title`. */
  function S3Key(labelName: string, title: string): string
  {
    S3_BASE_PREFIX + "/" + labelName + "/" + title
  }

  /** The staging path `TEMP_DIR/id_title`. */
  function StagingPath(id: string, title: string): string
  {
    Join(TEMP_DIR, id + "_" + title)
  }

  /** Two videos of the same title share a key only when their labels have the same title:
      videos listed under different labels never collide. */
  lemma KeyDeterminesLabel(label1: string, label2: string, title: string)
    requires S3Key(label1, title) == S3Key(label2, title)
    ensures label1 == label2
  {
    var k := S3Key(label1, title);
    var p1, p2 := S3_BASE_PREFIX + "/" + label1 + "/", S3_BASE_PREFIX + "/" + label2 + "/";
    assert k == p1 + title && k == p2 + title;
    assert p1 == k[..|k| - |title|] == p2;
    assert label1 == p1[|S3_BASE_PREFIX| + 1..|p1| - 1] == p2[|S3_BASE_PREFIX| + 1..|p2| - 1] == label2;
  }

  /** The index of the first '/' of a string, or its length when it has none. */
  function FirstSlash(s: string): (n: nat)
    ensures n <= |s|
  {
    if s == [] || s[0] == '/' then 0 else 1 + FirstSlash(s[1..])
  }

  lemma {:induction false} FirstSlashAfter(head: string, tail: string)
    requires '/' !in head
    ensures FirstSlash(head + "/" + tail) == |head|
  {
    if head != [] {
      assert (head + "/" + tail)[1..] == head[1..] + "/" + tail;
      FirstSlashAfter(head[1..], tail);
    }
  }

  /** When label titles hold no '/', the key determines both the label and the video title. */
  lemma KeyInjective(label1: string, title1: string, label2: string, title2: string)
    requires '/' !in label1 && '/' !in label2
    requires S3Key(label1, title1) == S3Key(label2, title2)
    ensures label1 == label2 && title1 == title2
  {
    var k := S3Key(label1, title1);
    var n := |S3_BASE_PREFIX| + 1;
    assert k == (S3_BASE_PREFIX + "/") + (label1 + "/" + title1);
    assert k == (S3_BASE_PREFIX + "/") + (label2 + "/" + title2);
    var rest1, rest2 := label1 + "/" + title1, label2 + "/" + title2;
    assert rest1 == k[n..] == rest2;
    FirstSlashAfter(label1, title1);
    FirstSlashAfter(label2, title2);
    assert label1 == rest1[..|label1|] == rest2[..|label2|] == label2;
    assert title1 == rest1[|label1| + 1..] == rest2[|label2| + 1..] == title2;
  }

  /** For file ids of the same length, two items share a staging file only when they are
      the same file under the same title. */
  lemma StagingPathInjective(id1: string, title1: string, id2: string, title2: string)
    requires |id1| == |id2|
    requires StagingPath(id1, title1) == StagingPath(id2, title2)
    ensures id1 == id2 && title1 == title2
  {
    var p := StagingPath(id1, title1);
    var n := |TEMP_DIR| + 1;
    assert p == (TEMP_DIR + "/") + (id1 + "_" + title1);
    assert p == (TEMP_DIR + "/") + (id2 + "_" + title2);
    var rest1, rest2 := id1 + "_" + title1, id2 + "_" + title2;
    assert rest1 == p[n..] == rest2;
    assert id1 == rest1[..|id1|] == rest2[..|id2|] == id2;
    assert title1 == rest1[|id1| + 1..] == rest2[|id2| + 1..] == title2;
  }

  /** Ids may hold '_', so ids of different lengths can collide: id `a_b` with title `c`
      and id `a` with title `b_c` are staged at the same path. */
  lemma StagingPathCollision(id: string, a: string, title: string)
    ensures StagingPath(id + "_" + a, title) == StagingPath(id, a + "_" + title)
  {
    assert (id + "_" + a) + "_" + title == id + "_" + (a + "_" + title);
  }

  /** `s3_object_exists`: True when head_object succeeds; of the errors it raises, only "404"
      is turned into False, and any other is passed on. */
  function ExistsCheck(s: WorldState, oracle: Oracle, key: string): (r: CheckResult)
    ensures r == Found(true) <==> key in s.store && oracle.headFault(key) == None
    ensures r == Found(false) <==>
              (key !in s.store && oracle.headFault(key) == None) || oracle.headFault(key) == Some("404")
    ensures r.CheckError? <==> oracle.headFault(key).Some? && oracle.headFault(key).value != "404"
    ensures r.CheckError? ==> r.code == oracle.headFault(key).value
  {
    match oracle.headFault(key)
    case Some(code) => if code == "404" then Found(false) else CheckError(code)
    case None => Found(key in s.store)
  }

  // ---------------------------------------------------------------- download

  /** The log of download attempts 1..n, each begun with no file at the staging path. */
  function FetchLog(id: string, path: string, n: nat): (r: seq<Call>)
  {
    seq(n, (i: nat) => Fetch(id, path, i + 1, true))
  }

  /** The delays slept after failed attempts 1..n: 2^1, ..., 2^n. */
  function Backoffs(n: nat): (r: seq<nat>)
  {
    seq(n, (i: nat) => Pow2(i + 1))
  }

  /** The first attempt, from `from` on, whose fetch completes; MAX_RETRIES + 1 when none does. */
  function FirstCompleted(oracle: Oracle, id: string, from: nat): (k: nat)
    requires from <= MAX_RETRIES + 1
    ensures from <= k <= MAX_RETRIES + 1
    ensures k <= MAX_RETRIES ==> oracle.fetch(id, k).Completed?
    ensures forall a :: from <= a < k ==> !oracle.fetch(id, a).Completed?
    decreases MAX_RETRIES + 1 - from
  {
    if from > MAX_RETRIES || oracle.fetch(id, from).Completed? then from
    else FirstCompleted(oracle, id, from + 1)
  }

  /** The effect of `download_with_restart` in closed form: attempts 1..k are made, where k is
      the first attempt that completes (or MAX_RETRIES when none does), each one begun on a
      clean staging path; every failed attempt a is followed by a sleep of 2^a; the staging
      file exists afterwards exactly when the download succeeded. */
  function Download(s: WorldState, oracle: Oracle, id: string, path: string): Attempted
  {
    var k := FirstCompleted(oracle, id, 1);
    var ok := k <= MAX_RETRIES;
    Attempted(
      s.(files := if ok then s.files + {path} else s.files - {path},
         delays := s.delays + Backoffs(k - 1),
         calls := s.calls + FetchLog(id, path, Min(k, MAX_RETRIES))),
      ok)
  }

  /** `download_with_restart` makes attempts 1..n for some n <= MAX_RETRIES, every attempt
      beginning with no file at the staging path; all attempts before the last fail, it returns
      True exactly when the last one completes, and it returns False only after MAX_RETRIES
      failures. */
  lemma DownloadAttempts(s: WorldState, oracle: Oracle, id: string, path: string)
    ensures var r := Download(s, oracle, id, path);
            var n := |r.state.calls| - |s.calls|;
            && 1 <= n <= MAX_RETRIES
            && r.state.calls[..|s.calls|] == s.calls
            && (forall i :: |s.calls| <= i < |r.state.calls| ==> r.state.calls[i] == Fetch(id, path, i - |s.calls| + 1, true))
            && (forall a :: 1 <= a < n ==> !oracle.fetch(id, a).Completed?)
            && (r.ok <==> oracle.fetch(id, n).Completed?)
            && (r.ok <==> exists a :: 1 <= a <= MAX_RETRIES && oracle.fetch(id, a).Completed?)
            && (!r.ok ==> n == MAX_RETRIES)
  {
    var r := Download(s, oracle, id, path);
    var k := FirstCompleted(oracle, id, 1);
    var log := FetchLog(id, path, Min(k, MAX_RETRIES));
    assert r.state.calls == s.calls + log;
    forall i | |s.calls| <= i < |r.state.calls|
      ensures r.state.calls[i] == Fetch(id, path, i - |s.calls| + 1, true)
    {
      assert r.state.calls[i] == log[i - |s.calls|];
    }
    if r.ok {
      assert oracle.fetch(id, k).Completed?;
    }
  }

  /** After failed attempt a the loop sleeps 2^a, the last failure included: the recorded
      delays are 2^1 .. 2^f for the f failed attempts, and nothing else is slept. */
  lemma DownloadBackoff(s: WorldState, oracle: Oracle, id: string, path: string)
    ensures var r := Download(s, oracle, id, path);
            var f := |r.state.delays| - |s.delays|;
            && r.state.delays[..|s.delays|] == s.delays
            && f == (if r.ok then |r.state.calls| - |s.calls| - 1 else MAX_RETRIES)
            && forall i :: |s.delays| <= i < |r.state.delays| ==> r.state.delays[i] == Pow2(i - |s.delays| + 1)
  {
    var r := Download(s, oracle, id, path);
    var b := Backoffs(FirstCompleted(oracle, id, 1) - 1);
    assert r.state.delays == s.delays + b;
    forall i | |s.delays| <= i < |r.state.delays|
      ensures r.state.delays[i] == Pow2(i - |s.delays| + 1)
    {
      assert r.state.delays[i] == b[i - |s.delays|];
    }
  }

  // ---------------------------------------------------------------- upload

  /** The log of upload attempts 1..n. */
  function UploadLog(path: string, key: string, n: nat): (r: seq<Call>)
  {
    seq(n, (i: nat) => Upload(path, key, i + 1))
  }

  /** The first attempt, from `from` on, whose upload succeeds; MAX_RETRIES + 1 when none does. */
  function FirstAccepted(oracle: Oracle, key: string, from: nat): (k: nat)
    requires from <= MAX_RETRIES + 1
    ensures from <= k <= MAX_RETRIES + 1
    ensures k <= MAX_RETRIES ==> oracle.upload(key, k)
    ensures forall a :: from <= a < k ==> !oracle.upload(key, a)
    decreases MAX_RETRIES + 1 - from
  {
    if from > MAX_RETRIES || oracle.upload(key, from) then from
    else FirstAccepted(oracle, key, from + 1)
  }

  /** The effect of `upload_with_retry` in closed form: attempts 1..k up to the first success,
      a sleep of 2^a after every failed attempt a, and the key stored exactly on success. */
  function UploadSpec(s: WorldState, oracle: Oracle, path: string, key: string): Attempted
  {
    var k := FirstAccepted(oracle, key, 1);
    var ok := k <= MAX_RETRIES;
    Attempted(
      s.(store := if ok then s.store + {key} else s.store,
         delays := s.delays + Backoffs(k - 1),
         calls := s.calls + UploadLog(path, key, Min(k, MAX_RETRIES))),
      ok)
  }

  /** `upload_with_retry` calls the upload at most MAX_RETRIES times with attempt numbers
      1, 2, ..., stops at the first success, makes all MAX_RETRIES calls when it fails,
      returns True exactly when some attempt succeeds, and touches no local file. */
  lemma UploadAttempts(s: WorldState, oracle: Oracle, path: string, key: string)
    ensures var r := UploadSpec(s, oracle, path, key);
            var n := |r.state.calls| - |s.calls|;
            && 1 <= n <= MAX_RETRIES
            && r.state.calls[..|s.calls|] == s.calls
            && (forall i :: |s.calls| <= i < |r.state.calls| ==> r.state.calls[i] == Upload(path, key, i - |s.calls| + 1))
            && (forall a :: 1 <= a < n ==> !oracle.upload(key, a))
            && (r.ok <==> oracle.upload(key, n))
            && (r.ok <==> exists a :: 1 <= a <= MAX_RETRIES && oracle.upload(key, a))
            && (!r.ok ==> n == MAX_RETRIES)
            && r.state.delays == s.delays + Backoffs(if r.ok then n - 1 else MAX_RETRIES)
            && r.state.files == s.files
            && r.state.store == (if r.ok then s.store + {key} else s.store)
  {
    var r := UploadSpec(s, oracle, path, key);
    var k := FirstAccepted(oracle, key, 1);
    var log := UploadLog(path, key, Min(k, MAX_RETRIES));
    assert r.state.calls == s.calls + log;
    forall i | |s.calls| <= i < |r.state.calls|
      ensures r.state.calls[i] == Upload(path, key, i - |s.calls| + 1)
    {
      assert r.state.calls[i] == log[i - |s.calls|];
    }
    if r.ok {
      assert oracle.upload(key, k);
    }
  }

  // ---------------------------------------------------------------- one item

  /** `process_single_video`: the existence check, then the download, then the upload, then
      removal of the staging file. A check error is caught and reported; an unreadable size
      raises out of the worker (reported here as `Crashed`). */
  function ProcessItem(s: WorldState, oracle: Oracle, t: Task): ItemResult
  {
    var key := S3Key(t.labelName, t.video.title);
    var checked := Record(s, Head(key));
    match ExistsCheck(s, oracle, key)
    case CheckError(_) => ItemResult(checked, CheckFailed)
    case Found(present) =>
      if present then ItemResult(checked, Skipped)
      else if !t.video.sizeReadable then ItemResult(checked, Crashed)
      else
        var path := StagingPath(t.video.id, t.video.title);
        var down := Download(checked, oracle, t.video.id, path);
        if !down.ok then ItemResult(down.state, DownloadFailed)
        else
          var up := UploadSpec(down.state, oracle, path, key);
          ItemResult(up.state.(files := up.state.files - {path}), if up.ok then Succeeded else UploadFailed)
  }

  /** The outcomes for which a download was started. */
  predicate Downloaded(o: Outcome)
  {
    o == DownloadFailed || o == UploadFailed || o == Succeeded
  }

  /** The steps short-circuit: an existing key or a failed check stops the item before any
      download; a failed download stops it before any upload. */
  lemma ItemShortCircuit(s: WorldState, oracle: Oracle, t: Task)
    ensures var key := S3Key(t.labelName, t.video.title);
            var r := ProcessItem(s, oracle, t);
            && (r.outcome == Skipped <==> key in s.store && oracle.headFault(key) == None)
            && (r.outcome == CheckFailed <==> oracle.headFault(key).Some? && oracle.headFault(key).value != "404")
            && (!Downloaded(r.outcome) ==> r.state == Record(s, Head(key)))
            && (r.outcome == DownloadFailed ==>
                  r.state.calls == s.calls + [Head(key)]
                     + FetchLog(t.video.id, StagingPath(t.video.id, t.video.title), MAX_RETRIES))
  {
    var key := S3Key(t.labelName, t.video.title);
    var checked := Record(s, Head(key));
    if ExistsCheck(s, oracle, key) == Found(false) && t.video.sizeReadable {
      var path := StagingPath(t.video.id, t.video.title);
      var down := Download(checked, oracle, t.video.id, path);
    }
  }

  /** Once a download has started, the staging file is gone when the item ends, whatever the
      upload did; no other local file is touched, and the store gains the key exactly when
      the item succeeded. */
  lemma ItemCleanup(s: WorldState, oracle: Oracle, t: Task)
    ensures var path := StagingPath(t.video.id, t.video.title);
            var r := ProcessItem(s, oracle, t);
            && r.state.files == (if Downloaded(r.outcome) then s.files - {path} else s.files)
            && r.state.store == (if r.outcome == Succeeded then s.store + {S3Key(t.labelName, t.video.title)} else s.store)
  {
    var key := S3Key(t.labelName, t.video.title);
    var checked := Record(s, Head(key));
    if ExistsCheck(s, oracle, key) == Found(false) && t.video.sizeReadable {
      var path := StagingPath(t.video.id, t.video.title);
      var down := Download(checked, oracle, t.video.id, path);
    }
  }

  /** Running an item again after it succeeded skips it, with a single head call, exactly
      when head_object answers for its key; a "404" raised for the stored key would start
      the download again. */
  lemma ItemIdempotent(s: WorldState, oracle: Oracle, t: Task)
    requires ProcessItem(s, oracle, t).outcome == Succeeded
    ensures var key := S3Key(t.labelName, t.video.title);
            var first := ProcessItem(s, oracle, t);
            var again := ProcessItem(first.state, oracle, t);
            && (again.outcome == Skipped <==> oracle.headFault(key) == None)
            && (oracle.headFault(key) == None ==> again.state == Record(first.state, Head(key)))
  {
    ItemCleanup(s, oracle, t);
    ItemShortCircuit(ProcessItem(s, oracle, t).state, oracle, t);
  }

  /** What the services must answer for an item to go through: the check reports the key
      missing, the size is readable, and some download and some upload attempt succeed. */
  predicate ServicesAccept(oracle: Oracle, t: Task)
  {
    && (oracle.headFault(S3Key(t.labelName, t.video.title)) == None
        || oracle.headFault(S3Key(t.labelName, t.video.title)) == Some("404"))
    && t.video.sizeReadable
    && (exists a :: 1 <= a <= MAX_RETRIES && oracle.fetch(t.video.id, a).Completed?)
    && (exists a :: 1 <= a <= MAX_RETRIES && oracle.upload(S3Key(t.labelName, t.video.title), a))
  }

  /** An item whose services accept it, and whose key is not yet stored, succeeds whatever
      else is on disk or in the log. */
  lemma ItemSucceeds(s: WorldState, oracle: Oracle, t: Task)
    requires ServicesAccept(oracle, t)
    requires S3Key(t.labelName, t.video.title) !in s.store
    ensures ProcessItem(s, oracle, t).outcome == Succeeded
  {
    var key := S3Key(t.labelName, t.video.title);
    var checked := Record(s, Head(key));
    var path := StagingPath(t.video.id, t.video.title);
    var down := Download(checked, oracle, t.video.id, path);
    UploadAttempts(down.state, oracle, path, key);
  }
}
