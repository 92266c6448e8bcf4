/**
  The three-level walk of `process_drive_structure` (drive_to_s3.py:144-185) and the effect of
  running the items it submits.

  The Drive is a listing map from folder id to the entries `list_children` returns for it.
  An id missing from the map is a listing that raises: nothing catches it, so the whole walk
  stops there, after the items of the labels already finished have been processed.
*/
module DriveScan {
  import opened Media
  import opened DriveTransfer

  const FOLDER_MIME: string := "application/vnd.google-apps.folder"

  type Listing = map<string, seq<DriveEntry>>

  predicate IsFolder(e: DriveEntry)
  {
    e.mimeType == FOLDER_MIME
  }

  /** `e` is a folder listed under `parent`. */
  predicate FolderUnder(tree: Listing, parent: string, e: DriveEntry)
  {
    parent in tree && e in tree[parent] && IsFolder(e)
  }

  /** The walk's verdict: whether it got through every listing it needed, and the items it
      submitted, in submission order, up to the point where it stopped. */
  datatype Walk = Walk(complete: bool, tasks: seq<Task>)

  /** `w`, then `next` if `w` got through. */
  function Then(w: Walk, next: Walk): Walk
  {
    if w.complete then Walk(next.complete, w.tasks + next.tasks) else w
  }

  /** The items submitted for one label folder: its entries whose lower-cased title ends in a
      video extension, in listing order. */
  function VideoTasks(labelName: string, children: seq<DriveEntry>): (r: seq<Task>)
    ensures |r| <= |children|
  {
    if children == [] then []
    else
      var rest := VideoTasks(labelName, children[1..]);
      if IsVideoName(children[0].title) then [Task(labelName, children[0])] + rest else rest
  }

  /** Exactly the entries whose title has a video extension are submitted, each under the
      label folder's title. */
  lemma {:induction false} VideoTasksMembers(labelName: string, children: seq<DriveEntry>, t: Task)
    ensures t in VideoTasks(labelName, children)
        <==> t.labelName == labelName && t.video in children && IsVideoName(t.video.title)
  {
    if children != [] {
      VideoTasksMembers(labelName, children[1..], t);
      assert t.video in children <==> t.video == children[0] || t.video in children[1..];
    }
  }

  /** One step of the loop over a label folder's entries: the entry at `k` is submitted
      when it is a video, and the rest follow. */
  lemma VideoTasksStep(labelName: string, children: seq<DriveEntry>, k: nat)
    requires k <= |children|
    ensures VideoTasks(labelName, children[k..])
         == if k == |children| then []
            else (if IsVideoName(children[k].title) then [Task(labelName, children[k])] else [])
                 + VideoTasks(labelName, children[k + 1..])
  {
    if k < |children| {
      assert children[k..][1..] == children[k + 1..];
    }
  }

  /** The inner loop over the entries of one resolution folder: non-folders are skipped,
      every label folder is listed and its videos submitted. */
  function LabelsWalk(tree: Listing, labels: seq<DriveEntry>): Walk
  {
    if labels == [] then Walk(true, [])
    else
      var l := labels[0];
      if !IsFolder(l) then LabelsWalk(tree, labels[1..])
      else if l.id !in tree then Walk(false, [])
      else Then(Walk(true, VideoTasks(l.title, tree[l.id])), LabelsWalk(tree, labels[1..]))
  }

  /** The outer loop over the entries of the root folder. */
  function ResWalk(tree: Listing, resolutions: seq<DriveEntry>): Walk
  {
    if resolutions == [] then Walk(true, [])
    else
      var r := resolutions[0];
      if !IsFolder(r) then ResWalk(tree, resolutions[1..])
      else if r.id !in tree then Walk(false, [])
      else Then(LabelsWalk(tree, tree[r.id]), ResWalk(tree, resolutions[1..]))
  }

  /** The whole walk from the root folder. */
  function DriveWalk(tree: Listing, root: string): Walk
  {
    if root !in tree then Walk(false, []) else ResWalk(tree, tree[root])
  }

  lemma ThenAssoc(a: Walk, b: Walk, c: Walk)
    ensures Then(Then(a, b), c) == Then(a, Then(b, c))
  {
    if a.complete && b.complete {
      assert (a.tasks + b.tasks) + c.tasks == a.tasks + (b.tasks + c.tasks);
    }
  }

  // ---------------------------------------------------------------- what the walk submits

  lemma {:induction false} LabelsSound(tree: Listing, labels: seq<DriveEntry>, t: Task)
    requires t in LabelsWalk(tree, labels).tasks
    ensures exists l :: l in labels && IsFolder(l) && l.id in tree
                        && t.labelName == l.title && t.video in tree[l.id] && IsVideoName(t.video.title)
  {
    var l := labels[0];
    if IsFolder(l) && l.id in tree {
      VideoTasksMembers(l.title, tree[l.id], t);
    }
    if !IsFolder(l) || t !in VideoTasks(l.title, tree[l.id]) {
      LabelsSound(tree, labels[1..], t);
      var l' :| l' in labels[1..] && IsFolder(l') && l'.id in tree
                && t.labelName == l'.title && t.video in tree[l'.id] && IsVideoName(t.video.title);
      assert l' in labels;
    }
  }

  lemma {:induction false} ResSound(tree: Listing, resolutions: seq<DriveEntry>, t: Task)
    requires t in ResWalk(tree, resolutions).tasks
    ensures exists r, l :: r in resolutions && IsFolder(r) && FolderUnder(tree, r.id, l) && l.id in tree
                           && t.labelName == l.title && t.video in tree[l.id] && IsVideoName(t.video.title)
  {
    var r := resolutions[0];
    if IsFolder(r) && t in LabelsWalk(tree, tree[r.id]).tasks {
      LabelsSound(tree, tree[r.id], t);
      var l :| l in tree[r.id] && IsFolder(l) && l.id in tree
               && t.labelName == l.title && t.video in tree[l.id] && IsVideoName(t.video.title);
      assert FolderUnder(tree, r.id, l);
    } else {
      ResSound(tree, resolutions[1..], t);
      var r', l :| r' in resolutions[1..] && IsFolder(r') && FolderUnder(tree, r'.id, l) && l.id in tree
                   && t.labelName == l.title && t.video in tree[l.id] && IsVideoName(t.video.title);
      assert r' in resolutions;
    }
  }

  /** Every submitted item is a video, by extension, listed in a label folder that is listed
      in a resolution folder that is listed in the root; its label is that label folder's
      title. Nothing below a non-folder entry is ever submitted. */
  lemma DriveWalkSound(tree: Listing, root: string, t: Task)
    requires t in DriveWalk(tree, root).tasks
    ensures exists r, l :: FolderUnder(tree, root, r) && FolderUnder(tree, r.id, l) && l.id in tree
                           && t.labelName == l.title && t.video in tree[l.id] && IsVideoName(t.video.title)
  {
    ResSound(tree, tree[root], t);
    var r, l :| r in tree[root] && IsFolder(r) && FolderUnder(tree, r.id, l) && l.id in tree
                && t.labelName == l.title && t.video in tree[l.id] && IsVideoName(t.video.title);
    assert FolderUnder(tree, root, r);
  }

  lemma {:induction false} LabelsComplete(tree: Listing, labels: seq<DriveEntry>, l: DriveEntry, v: DriveEntry)
    requires LabelsWalk(tree, labels).complete
    requires l in labels && IsFolder(l) && l.id in tree && v in tree[l.id] && IsVideoName(v.title)
    ensures Task(l.title, v) in LabelsWalk(tree, labels).tasks
  {
    if l != labels[0] {
      LabelsComplete(tree, labels[1..], l, v);
    } else {
      VideoTasksMembers(l.title, tree[l.id], Task(l.title, v));
    }
  }

  lemma {:induction false} ResComplete(tree: Listing, resolutions: seq<DriveEntry>, r: DriveEntry, l: DriveEntry, v: DriveEntry)
    requires ResWalk(tree, resolutions).complete
    requires r in resolutions && IsFolder(r) && FolderUnder(tree, r.id, l) && l.id in tree
    requires v in tree[l.id] && IsVideoName(v.title)
    ensures Task(l.title, v) in ResWalk(tree, resolutions).tasks
  {
    if r == resolutions[0] {
      LabelsComplete(tree, tree[r.id], l, v);
    } else {
      ResComplete(tree, resolutions[1..], r, l, v);
    }
  }

  /** A walk that gets through submits every video of every label folder of every resolution
      folder, each under the title of the label folder it is listed in. */
  lemma DriveWalkComplete(tree: Listing, root: string, r: DriveEntry, l: DriveEntry, v: DriveEntry)
    requires DriveWalk(tree, root).complete
    requires FolderUnder(tree, root, r) && FolderUnder(tree, r.id, l) && l.id in tree
    requires v in tree[l.id] && IsVideoName(v.title)
    ensures Task(l.title, v) in DriveWalk(tree, root).tasks
  {
    ResComplete(tree, tree[root], r, l, v);
  }

  // ---------------------------------------------------------------- when the walk stops

  lemma {:induction false} LabelsCompleteIff(tree: Listing, labels: seq<DriveEntry>)
    ensures LabelsWalk(tree, labels).complete <==> forall l :: l in labels && IsFolder(l) ==> l.id in tree
  {
    if labels != [] {
      LabelsCompleteIff(tree, labels[1..]);
      assert forall l :: l in labels ==> l == labels[0] || l in labels[1..];
    }
  }

  lemma {:induction false} ResCompleteIff(tree: Listing, resolutions: seq<DriveEntry>)
    ensures ResWalk(tree, resolutions).complete <==>
            forall r :: r in resolutions && IsFolder(r) ==>
              r.id in tree && forall l :: l in tree[r.id] && IsFolder(l) ==> l.id in tree
  {
    if resolutions != [] {
      var r := resolutions[0];
      ResCompleteIff(tree, resolutions[1..]);
      if IsFolder(r) && r.id in tree {
        LabelsCompleteIff(tree, tree[r.id]);
      }
      assert forall r' :: r' in resolutions ==> r' == r || r' in resolutions[1..];
    }
  }

  /** The walk gets through exactly when the root, every resolution folder and every label
      folder can be listed; a non-folder entry's id is never listed, so it cannot stop it. */
  lemma DriveWalkCompleteIff(tree: Listing, root: string)
    ensures DriveWalk(tree, root).complete <==>
            root in tree &&
            forall r :: FolderUnder(tree, root, r) ==>
              r.id in tree && forall l :: FolderUnder(tree, r.id, l) ==> l.id in tree
  {
    if root in tree {
      ResCompleteIff(tree, tree[root]);
    }
  }

  // ---------------------------------------------------------------- running the items

  /** The state after a run, and one outcome per item, in order. */
  datatype Run = Run(state: WorldState, outcomes: seq<Outcome>)

  function KeyOf(t: Task): string
  {
    S3Key(t.labelName, t.video.title)
  }

  function PathOf(t: Task): string
  {
    StagingPath(t.video.id, t.video.title)
  }

  /** The items processed one after the other; a crash of one is caught by the loop over
      the futures, so every item is reached whatever the earlier ones did. */
  function RunTasks(s: WorldState, oracle: Oracle, tasks: seq<Task>): (r: Run)
    ensures |r.outcomes| == |tasks|
  {
    if tasks == [] then Run(s, [])
    else
      var prev := RunTasks(s, oracle, tasks[..|tasks| - 1]);
      var item := ProcessItem(prev.state, oracle, tasks[|tasks| - 1]);
      Run(item.state, prev.outcomes + [item.outcome])
  }

  /** The outcome of item i is what processing it gives in the state the items before it left. */
  lemma {:induction false} RunOutcomeAt(s: WorldState, oracle: Oracle, tasks: seq<Task>, i: nat)
    requires i < |tasks|
    ensures RunTasks(s, oracle, tasks).outcomes[i]
         == ProcessItem(RunTasks(s, oracle, tasks[..i]).state, oracle, tasks[i]).outcome
    decreases |tasks|
  {
    var n := |tasks| - 1;
    if i < n {
      RunOutcomeAt(s, oracle, tasks[..n], i);
      assert tasks[..n][..i] == tasks[..i];
    } else {
      assert tasks[..i] == tasks[..n];
    }
  }

  /** The store only grows, and only by the keys of the items run. */
  lemma {:induction false} RunStore(s: WorldState, oracle: Oracle, tasks: seq<Task>)
    ensures s.store <= RunTasks(s, oracle, tasks).state.store
    ensures RunTasks(s, oracle, tasks).state.store <= s.store + set t | t in tasks :: KeyOf(t)
  {
    if tasks != [] {
      var n := |tasks| - 1;
      var prev := RunTasks(s, oracle, tasks[..n]).state;
      RunStore(s, oracle, tasks[..n]);
      ItemCleanup(prev, oracle, tasks[n]);
      assert RunTasks(s, oracle, tasks).state == ProcessItem(prev, oracle, tasks[n]).state;
      var keys := set t | t in tasks :: KeyOf(t);
      assert tasks == tasks[..n] + [tasks[n]];
      assert (set t | t in tasks[..n] :: KeyOf(t)) <= keys;
      assert KeyOf(tasks[n]) in keys;
    }
  }

  /** No staging file outlives the run, and no other local file is touched. */
  lemma {:induction false} RunFiles(s: WorldState, oracle: Oracle, tasks: seq<Task>)
    ensures RunTasks(s, oracle, tasks).state.files <= s.files
    ensures s.files - (set t | t in tasks :: PathOf(t)) <= RunTasks(s, oracle, tasks).state.files
  {
    if tasks != [] {
      var n := |tasks| - 1;
      var prev := RunTasks(s, oracle, tasks[..n]).state;
      RunFiles(s, oracle, tasks[..n]);
      ItemCleanup(prev, oracle, tasks[n]);
      assert RunTasks(s, oracle, tasks).state == ProcessItem(prev, oracle, tasks[n]).state;
      var paths := set t | t in tasks :: PathOf(t);
      assert tasks == tasks[..n] + [tasks[n]];
      assert (set t | t in tasks[..n] :: PathOf(t)) <= paths;
      assert PathOf(tasks[n]) in paths;
    }
  }

  /** Failure isolation: an item whose services accept it, whose key is not yet stored and
      not shared with an earlier item, succeeds whatever happened to the items before it. */
  lemma WorkerIsolation(s: WorldState, oracle: Oracle, tasks: seq<Task>, i: nat)
    requires i < |tasks| && ServicesAccept(oracle, tasks[i])
    requires KeyOf(tasks[i]) !in s.store
    requires forall j :: 0 <= j < i ==> KeyOf(tasks[j]) != KeyOf(tasks[i])
    ensures RunTasks(s, oracle, tasks).outcomes[i] == Succeeded
  {
    RunOutcomeAt(s, oracle, tasks, i);
    RunStore(s, oracle, tasks[..i]);
    var before := RunTasks(s, oracle, tasks[..i]).state;
    assert KeyOf(tasks[i]) !in before.store;
    ItemSucceeds(before, oracle, tasks[i]);
  }

  /** The key leaves out the resolution folder: once an item has been uploaded, a later item
      with the same label title and file title is skipped, exactly when head_object answers
      for that key. */
  lemma RunSkipsRepeatedKey(s: WorldState, oracle: Oracle, tasks: seq<Task>, i: nat, j: nat)
    requires i < j < |tasks| && KeyOf(tasks[i]) == KeyOf(tasks[j])
    requires RunTasks(s, oracle, tasks).outcomes[i] == Succeeded
    ensures RunTasks(s, oracle, tasks).outcomes[j] == Skipped <==> oracle.headFault(KeyOf(tasks[j])) == None
  {
    RunOutcomeAt(s, oracle, tasks, i);
    RunOutcomeAt(s, oracle, tasks, j);
    var mid := RunTasks(s, oracle, tasks[..i + 1]).state;
    RunOutcomeAt(s, oracle, tasks[..i + 1], i);
    assert tasks[..i + 1][..i] == tasks[..i];
    ItemCleanup(RunTasks(s, oracle, tasks[..i]).state, oracle, tasks[i]);
    assert KeyOf(tasks[i]) in mid.store;
    RunStore(mid, oracle, tasks[i + 1..j]);
    assert tasks[..j] == tasks[..i + 1] + tasks[i + 1..j];
    RunAppend(s, oracle, tasks[..i + 1], tasks[i + 1..j]);
    ItemShortCircuit(RunTasks(s, oracle, tasks[..j]).state, oracle, tasks[j]);
  }

  /** Running the whole walk's items again, from the state the first run left: an item
      that succeeded the first time is skipped, exactly when head_object answers for its key. */
  lemma RunIdempotent(s: WorldState, oracle: Oracle, tasks: seq<Task>, i: nat)
    requires i < |tasks|
    requires RunTasks(s, oracle, tasks).outcomes[i] == Succeeded
    ensures RunTasks(RunTasks(s, oracle, tasks).state, oracle, tasks).outcomes[i] == Skipped
        <==> oracle.headFault(KeyOf(tasks[i])) == None
  {
    var key := KeyOf(tasks[i]);
    var first := RunTasks(s, oracle, tasks).state;
    RunOutcomeAt(s, oracle, tasks, i);
    RunOutcomeAt(s, oracle, tasks[..i + 1], i);
    assert tasks[..i + 1][..i] == tasks[..i];
    ItemCleanup(RunTasks(s, oracle, tasks[..i]).state, oracle, tasks[i]);
    var mid := RunTasks(s, oracle, tasks[..i + 1]).state;
    assert key in mid.store;
    assert tasks == tasks[..i + 1] + tasks[i + 1..];
    RunAppend(s, oracle, tasks[..i + 1], tasks[i + 1..]);
    RunStore(mid, oracle, tasks[i + 1..]);
    assert key in first.store;
    RunOutcomeAt(first, oracle, tasks, i);
    RunStore(first, oracle, tasks[..i]);
    ItemShortCircuit(RunTasks(first, oracle, tasks[..i]).state, oracle, tasks[i]);
  }

  /** The remaining items of a label folder, from entry `k` on: the items of entry `k` run
      first, and those of the later entries from the state they leave. */
  lemma {:induction false} EntryRunStep(s: WorldState, oracle: Oracle, labelName: string, videos: seq<DriveEntry>, k: nat)
    requires k < |videos|
    ensures var first := RunTasks(s, oracle, VideoTasks(labelName, [videos[k]]));
            var rest := RunTasks(first.state, oracle, VideoTasks(labelName, videos[k + 1..]));
            RunTasks(s, oracle, VideoTasks(labelName, videos[k..])) == Run(rest.state, first.outcomes + rest.outcomes)
  {
    VideoTasksStep(labelName, videos, k);
    VideoTasksStep(labelName, [videos[k]], 0);
    assert [videos[k]][0..] == [videos[k]];
    assert [videos[k]][1..] == [];
    var here := VideoTasks(labelName, [videos[k]]);
    var later := VideoTasks(labelName, videos[k + 1..]);
    assert here + later == VideoTasks(labelName, videos[k..]);
    RunAppend(s, oracle, here, later);
  }

  /** Running `a + b` is running `a`, then `b` from where `a` left off; the outcomes are
      those of `a` followed by those of `b`. */
  lemma {:induction false} RunAppend(s: WorldState, oracle: Oracle, a: seq<Task>, b: seq<Task>)
    ensures RunTasks(s, oracle, a + b).state
         == RunTasks(RunTasks(s, oracle, a).state, oracle, b).state
    ensures RunTasks(s, oracle, a + b).outcomes
         == RunTasks(s, oracle, a).outcomes + RunTasks(RunTasks(s, oracle, a).state, oracle, b).outcomes
    decreases |b|
  {
    if b == [] {
      assert a + b == a;
    } else {
      var n := |b| - 1;
      RunAppend(s, oracle, a, b[..n]);
      assert (a + b)[..|a + b| - 1] == a + b[..n];
      assert (a + b)[|a + b| - 1] == b[n];
      var mid := RunTasks(s, oracle, a);
      var left := RunTasks(mid.state, oracle, b[..n]).outcomes;
      var item := ProcessItem(RunTasks(mid.state, oracle, b[..n]).state, oracle, b[n]);
      assert (mid.outcomes + left) + [item.outcome] == mid.outcomes + (left + [item.outcome]);
    }
  }
}
