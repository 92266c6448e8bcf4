/**
  `restructure_dataset` (local_to_s3.py:31-73): the extracted dataset is laid out as
  `EXTRACTED_ROOT/resolution/label/file`; every video file is moved to `OUTPUT_ROOT/label/`
  under a name that does not exist yet, and every other entry of a label folder is counted
  as skipped.

  The directory tree is a listing map from directory path to the names `os.listdir` returns
  for it, in that order; a path is a directory exactly when it is a key of the map. The
  files that exist are a set of paths that the moves update.
*/
module Restructure {
  import opened Media
  import opened UniquePaths

  const EXTRACTED_ROOT: string := "Kinetics600_Dataset"
  const OUTPUT_ROOT: string := "restructured"

  type Listing = map<string, seq<string>>

  /** One entry of a label folder, as the innermost loop meets it. */
  datatype Job = Job(labelName: string, srcDir: string, name: string)

  function Source(j: Job): string
  {
    Join(j.srcDir, j.name)
  }

  /** `os.path.join(label_dst, file)`, before a free name is chosen. */
  function Target(j: Job): string
  {
    Join(Join(OUTPUT_ROOT, j.labelName), j.name)
  }

  /** The entries of one label folder, in listing order. */
  function EntryJobs(labelName: string, dir: string, names: seq<string>): seq<Job>
  {
    seq(|names|, i requires 0 <= i < |names| => Job(labelName, dir, names[i]))
  }

  /** The loop over the entries of one resolution folder: only directories are entered. */
  function LabelJobs(listing: Listing, resPath: string, labels: seq<string>): seq<Job>
  {
    if labels == [] then []
    else
      var p := Join(resPath, labels[0]);
      (if p in listing then EntryJobs(labels[0], p, listing[p]) else [])
        + LabelJobs(listing, resPath, labels[1..])
  }

  /** The loop over the entries of the extracted root: only directories are entered. */
  function ResJobs(listing: Listing, resolutions: seq<string>): seq<Job>
  {
    if resolutions == [] then []
    else
      var p := Join(EXTRACTED_ROOT, resolutions[0]);
      (if p in listing then LabelJobs(listing, p, listing[p]) else [])
        + ResJobs(listing, resolutions[1..])
  }

  /** One step of the middle loop: the entry at `j` is entered when it is a directory. */
  lemma LabelJobsStep(listing: Listing, resPath: string, labels: seq<string>, j: nat)
    requires j <= |labels|
    ensures j == |labels| ==> LabelJobs(listing, resPath, labels[j..]) == []
    ensures j < |labels| && Join(resPath, labels[j]) !in listing ==>
              LabelJobs(listing, resPath, labels[j..]) == LabelJobs(listing, resPath, labels[j + 1..])
    ensures j < |labels| && Join(resPath, labels[j]) in listing ==>
              var p := Join(resPath, labels[j]);
              LabelJobs(listing, resPath, labels[j..])
                == EntryJobs(labels[j], p, listing[p]) + LabelJobs(listing, resPath, labels[j + 1..])
  {
    if j < |labels| {
      assert labels[j..][1..] == labels[j + 1..];
      assert [] + LabelJobs(listing, resPath, labels[j + 1..]) == LabelJobs(listing, resPath, labels[j + 1..]);
    }
  }

  /** One step of the outer loop: the entry at `i` is entered when it is a directory. */
  lemma ResJobsStep(listing: Listing, resolutions: seq<string>, i: nat)
    requires i <= |resolutions|
    ensures i == |resolutions| ==> ResJobs(listing, resolutions[i..]) == []
    ensures i < |resolutions| && Join(EXTRACTED_ROOT, resolutions[i]) !in listing ==>
              ResJobs(listing, resolutions[i..]) == ResJobs(listing, resolutions[i + 1..])
    ensures i < |resolutions| && Join(EXTRACTED_ROOT, resolutions[i]) in listing ==>
              var p := Join(EXTRACTED_ROOT, resolutions[i]);
              ResJobs(listing, resolutions[i..])
                == LabelJobs(listing, p, listing[p]) + ResJobs(listing, resolutions[i + 1..])
  {
    if i < |resolutions| {
      assert resolutions[i..][1..] == resolutions[i + 1..];
      assert [] + ResJobs(listing, resolutions[i + 1..]) == ResJobs(listing, resolutions[i + 1..]);
    }
  }

  // ---------------------------------------------------------------- moving

  /** The files that exist, the two counters, and whether no move has raised. */
  datatype Tally = Tally(ok: bool, files: set<string>, moved: nat, skipped: nat)

  /** One entry: a non-video is counted as skipped; a video is moved to a free name in its
      label's output folder, and `shutil.move` raises when the source does not exist. */
  function Step(t: Tally, j: Job): Tally
  {
    if !t.ok then t
    else if !IsVideoName(j.name) then t.(skipped := t.skipped + 1)
    else
      var dst := UniquePath(Target(j), t.files);
      if Source(j) !in t.files then t.(ok := false)
      else t.(files := t.files - {Source(j)} + {dst}, moved := t.moved + 1)
  }

  function MoveAll(t: Tally, jobs: seq<Job>): Tally
  {
    if jobs == [] then t else Step(MoveAll(t, jobs[..|jobs| - 1]), jobs[|jobs| - 1])
  }

  /** `restructure_dataset` from the files that exist: `os.listdir(EXTRACTED_ROOT)` raises
      when the root is not a directory, before anything is moved. */
  function RestructureSpec(listing: Listing, files: set<string>): Tally
  {
    if EXTRACTED_ROOT !in listing then Tally(false, files, 0, 0)
    else MoveAll(Tally(true, files, 0, 0), ResJobs(listing, listing[EXTRACTED_ROOT]))
  }

  function VideoCount(jobs: seq<Job>): nat
  {
    if jobs == [] then 0
    else VideoCount(jobs[..|jobs| - 1]) + (if IsVideoName(jobs[|jobs| - 1].name) then 1 else 0)
  }

  /** `p` is the name a move of `j` may land on: its target, or an alternative to it. */
  ghost predicate NameFor(p: string, j: Job)
  {
    p == Target(j) || exists n :: 1 <= n && p == Candidate(Target(j), n)
  }

  lemma {:induction false} MoveAllAppend(t: Tally, a: seq<Job>, b: seq<Job>)
    ensures MoveAll(t, a + b) == MoveAll(MoveAll(t, a), b)
    decreases |b|
  {
    if b == [] {
      assert a + b == a;
    } else {
      var n := |b| - 1;
      MoveAllAppend(t, a, b[..n]);
      assert (a + b)[..|a + b| - 1] == a + b[..n];
      assert (a + b)[|a + b| - 1] == b[n];
    }
  }

  /** Once a move has raised, nothing further happens. */
  lemma {:induction false} MoveAllStopped(t: Tally, jobs: seq<Job>)
    requires !t.ok
    ensures MoveAll(t, jobs) == t
    decreases |jobs|
  {
    if jobs != [] {
      MoveAllStopped(t, jobs[..|jobs| - 1]);
    }
  }

  /** The counters add up: when no move raised, every entry was either moved or skipped,
      and the moved ones are exactly the videos. */
  lemma {:induction false} MoveAllCounts(t: Tally, jobs: seq<Job>)
    ensures var r := MoveAll(t, jobs);
            r.ok ==> r.moved + r.skipped == t.moved + t.skipped + |jobs|
                     && r.moved == t.moved + VideoCount(jobs)
    decreases |jobs|
  {
    if jobs != [] {
      MoveAllCounts(t, jobs[..|jobs| - 1]);
    }
  }

  /** No move overwrites a file and no file is lost: every move goes to a name that did not
      exist, so the number of files never changes. */
  lemma {:induction false} MoveAllKeepsCount(t: Tally, jobs: seq<Job>)
    ensures |MoveAll(t, jobs).files| == |t.files|
    decreases |jobs|
  {
    if jobs != [] {
      var n := |jobs| - 1;
      var prev := MoveAll(t, jobs[..n]);
      MoveAllKeepsCount(t, jobs[..n]);
      var j := jobs[n];
      if prev.ok && IsVideoName(j.name) && Source(j) in prev.files {
        var dst := UniquePath(Target(j), prev.files);
        UniquePathSpec(Target(j), prev.files);
        assert |prev.files - {Source(j)}| == |prev.files| - 1;
      }
    }
  }

  /** The paths the video entries among `jobs` are moved from. */
  function VideoSources(jobs: seq<Job>): set<string>
  {
    set j | j in jobs && IsVideoName(j.name) :: Source(j)
  }

  /** Only the sources of video entries leave: a skipped entry is never moved. */
  lemma {:induction false} MoveAllOnlyVideosLeave(t: Tally, jobs: seq<Job>)
    ensures t.files - MoveAll(t, jobs).files <= VideoSources(jobs)
    decreases |jobs|
  {
    if jobs != [] {
      var n := |jobs| - 1;
      var prev := MoveAll(t, jobs[..n]);
      MoveAllOnlyVideosLeave(t, jobs[..n]);
      assert VideoSources(jobs[..n]) <= VideoSources(jobs) by {
        assert forall x :: x in jobs[..n] ==> x in jobs;
      }
      var j := jobs[n];
      if prev.ok && IsVideoName(j.name) {
        assert Source(j) in VideoSources(jobs);
      }
    }
  }

  /** Every file that appears is the target of a video entry, or an alternative name for it. */
  lemma {:induction false} MoveAllLandings(t: Tally, jobs: seq<Job>)
    ensures forall p :: p in MoveAll(t, jobs).files - t.files ==>
              exists j :: j in jobs && IsVideoName(j.name) && NameFor(p, j)
    decreases |jobs|
  {
    if jobs != [] {
      var n := |jobs| - 1;
      var prev := MoveAll(t, jobs[..n]);
      MoveAllLandings(t, jobs[..n]);
      var j := jobs[n];
      var r := MoveAll(t, jobs);
      forall p | p in r.files - t.files
        ensures exists x :: x in jobs && IsVideoName(x.name) && NameFor(p, x)
      {
        if p in prev.files {
          assert p in prev.files - t.files;
          var x :| x in jobs[..n] && IsVideoName(x.name) && NameFor(p, x);
          assert x in jobs;
        } else {
          var dst := UniquePath(Target(j), prev.files);
          assert p == dst;
          UniquePathSpec(Target(j), prev.files);
          assert NameFor(p, j);
        }
      }
    }
  }

  /** A whole run: a missing root changes nothing; a run that completes has moved every
      video entry and skipped every other entry of the label folders it entered; and the
      number of files is unchanged either way. */
  lemma RestructureSummary(listing: Listing, files: set<string>)
    ensures var r := RestructureSpec(listing, files);
            && (EXTRACTED_ROOT !in listing ==> !r.ok && r.files == files && r.moved == 0 && r.skipped == 0)
            && (EXTRACTED_ROOT in listing && r.ok ==>
                  var jobs := ResJobs(listing, listing[EXTRACTED_ROOT]);
                  r.moved + r.skipped == |jobs| && r.moved == VideoCount(jobs))
            && |r.files| == |files|
  {
    if EXTRACTED_ROOT in listing {
      var jobs := ResJobs(listing, listing[EXTRACTED_ROOT]);
      MoveAllCounts(Tally(true, files, 0, 0), jobs);
      MoveAllKeepsCount(Tally(true, files, 0, 0), jobs);
    }
  }

  // ---------------------------------------------------------------- what the walk visits

  lemma {:induction false} LabelJobsSound(listing: Listing, resPath: string, labels: seq<string>, j: Job)
    requires j in LabelJobs(listing, resPath, labels)
    ensures exists l :: l in labels && j.labelName == l && j.srcDir == Join(resPath, l)
                        && j.srcDir in listing && j.name in listing[j.srcDir]
  {
    var p := Join(resPath, labels[0]);
    if p in listing && j in EntryJobs(labels[0], p, listing[p]) {
      var i :| 0 <= i < |listing[p]| && EntryJobs(labels[0], p, listing[p])[i] == j;
      assert j.name == listing[p][i];
    } else {
      LabelJobsSound(listing, resPath, labels[1..], j);
      var l :| l in labels[1..] && j.labelName == l && j.srcDir == Join(resPath, l)
               && j.srcDir in listing && j.name in listing[j.srcDir];
      assert l in labels;
    }
  }

  /** Every entry the walk handles is listed in a directory `EXTRACTED_ROOT/r/l`, where `r`
      is listed in the root and `l` in `EXTRACTED_ROOT/r`, both directories, and it is
      filed under the label `l`. */
  lemma {:induction false} ResJobsSound(listing: Listing, resolutions: seq<string>, j: Job)
    requires j in ResJobs(listing, resolutions)
    ensures exists r, l :: r in resolutions && Join(EXTRACTED_ROOT, r) in listing
                           && l in listing[Join(EXTRACTED_ROOT, r)]
                           && j.labelName == l && j.srcDir == Join(Join(EXTRACTED_ROOT, r), l)
                           && j.srcDir in listing && j.name in listing[j.srcDir]
  {
    var p := Join(EXTRACTED_ROOT, resolutions[0]);
    if p in listing && j in LabelJobs(listing, p, listing[p]) {
      LabelJobsSound(listing, p, listing[p], j);
    } else {
      ResJobsSound(listing, resolutions[1..], j);
      var r, l :| r in resolutions[1..] && Join(EXTRACTED_ROOT, r) in listing
                  && l in listing[Join(EXTRACTED_ROOT, r)]
                  && j.labelName == l && j.srcDir == Join(Join(EXTRACTED_ROOT, r), l)
                  && j.srcDir in listing && j.name in listing[j.srcDir];
      assert r in resolutions;
    }
  }

  lemma {:induction false} LabelJobsComplete(listing: Listing, resPath: string, labels: seq<string>, l: string, name: string)
    requires l in labels && Join(resPath, l) in listing && name in listing[Join(resPath, l)]
    ensures Job(l, Join(resPath, l), name) in LabelJobs(listing, resPath, labels)
  {
    if l == labels[0] {
      var p := Join(resPath, l);
      var i :| 0 <= i < |listing[p]| && listing[p][i] == name;
      assert EntryJobs(l, p, listing[p])[i] == Job(l, p, name);
    } else {
      LabelJobsComplete(listing, resPath, labels[1..], l, name);
    }
  }

  /** Every entry of every label directory of every resolution directory is handled. */
  lemma {:induction false} ResJobsComplete(listing: Listing, resolutions: seq<string>, r: string, l: string, name: string)
    requires r in resolutions && Join(EXTRACTED_ROOT, r) in listing
    requires l in listing[Join(EXTRACTED_ROOT, r)]
    requires Join(Join(EXTRACTED_ROOT, r), l) in listing && name in listing[Join(Join(EXTRACTED_ROOT, r), l)]
    ensures Job(l, Join(Join(EXTRACTED_ROOT, r), l), name) in ResJobs(listing, resolutions)
  {
    if r == resolutions[0] {
      LabelJobsComplete(listing, Join(EXTRACTED_ROOT, r), listing[Join(EXTRACTED_ROOT, r)], l, name);
    } else {
      ResJobsComplete(listing, resolutions[1..], r, l, name);
    }
  }

  // ---------------------------------------------------------------- the filesystem

  class Disk {
    var files: set<string>

    constructor (files0: set<string>)
      ensures files == files0
    {
      files := files0;
    }

    /** `ensure_unique_path` (lines 14-28). */
    method EnsureUniquePath(dst: string) returns (r: string)
      ensures r == UniquePath(dst, files)
      ensures r !in files
    {
      if dst !in files {
        return dst;
      }
      var (base, ext) := SplitExt(dst);
      var counter := 1;
      while true
        invariant 1 <= counter
        invariant forall j :: 1 <= j < counter ==> Candidate(dst, j) in files
        decreases |files| - counter
      {
        var newPath := base + "_" + NatToString(counter) + ext;
        assert newPath == Candidate(dst, counter);
        if newPath !in files {
          assert FirstFree(dst, files, 1) == counter;
          return newPath;
        }
        TakenBound(dst, files, counter);
        counter := counter + 1;
      }
    }

    /** The innermost loop (lines 59-69) over the entries of one label folder. */
    method MoveLabelEntries(labelName: string, labelSrc: string, names: seq<string>, moved0: nat, skipped0: nat)
      returns (ok: bool, moved: nat, skipped: nat)
      modifies this
      ensures Tally(ok, files, moved, skipped)
           == MoveAll(Tally(true, old(files), moved0, skipped0), EntryJobs(labelName, labelSrc, names))
    {
      ghost var t0 := Tally(true, files, moved0, skipped0);
      ghost var jobs := EntryJobs(labelName, labelSrc, names);
      moved, skipped := moved0, skipped0;
      for k := 0 to |names|
        invariant Tally(true, files, moved, skipped) == MoveAll(t0, jobs[..k])
      {
        var name := names[k];
        assert jobs[..k + 1][..k] == jobs[..k];
        assert jobs[..k + 1][k] == Job(labelName, labelSrc, name);
        if !IsVideoName(name) {
          skipped := skipped + 1;
          continue;
        }
        var src := Join(labelSrc, name);
        var dst := EnsureUniquePath(Join(Join(OUTPUT_ROOT, labelName), name));
        if src !in files {
          assert jobs == jobs[..k + 1] + jobs[k + 1..];
          MoveAllAppend(t0, jobs[..k + 1], jobs[k + 1..]);
          MoveAllStopped(MoveAll(t0, jobs[..k + 1]), jobs[k + 1..]);
          return false, moved, skipped;
        }
        files := files - {src} + {dst};
        moved := moved + 1;
      }
      assert jobs[..|names|] == jobs;
      return true, moved, skipped;
    }

    /** The middle loop (lines 47-69) over the entries of one resolution folder. */
    method MoveResolution(listing: Listing, resPath: string, labels: seq<string>, moved0: nat, skipped0: nat)
      returns (ok: bool, moved: nat, skipped: nat)
      modifies this
      ensures Tally(ok, files, moved, skipped)
           == MoveAll(Tally(true, old(files), moved0, skipped0), LabelJobs(listing, resPath, labels))
    {
      ghost var goal := MoveAll(Tally(true, files, moved0, skipped0), LabelJobs(listing, resPath, labels));
      moved, skipped := moved0, skipped0;
      for j := 0 to |labels|
        invariant MoveAll(Tally(true, files, moved, skipped), LabelJobs(listing, resPath, labels[j..])) == goal
      {
        var labelSrc := Join(resPath, labels[j]);
        LabelJobsStep(listing, resPath, labels, j);
        if labelSrc !in listing {
          continue;
        }
        ghost var before := Tally(true, files, moved, skipped);
        ok, moved, skipped := MoveLabelEntries(labels[j], labelSrc, listing[labelSrc], moved, skipped);
        MoveAllAppend(before, EntryJobs(labels[j], labelSrc, listing[labelSrc]), LabelJobs(listing, resPath, labels[j + 1..]));
        if !ok {
          MoveAllStopped(Tally(ok, files, moved, skipped), LabelJobs(listing, resPath, labels[j + 1..]));
          return;
        }
      }
      LabelJobsStep(listing, resPath, labels, |labels|);
      ok := true;
    }

    /** `restructure_dataset` (lines 31-73): the loop over the extracted root, returning
        whether it ran to the end and the two counters it prints. */
    method RestructureDataset(listing: Listing) returns (ok: bool, moved: nat, skipped: nat)
      modifies this
      ensures Tally(ok, files, moved, skipped) == RestructureSpec(listing, old(files))
    {
      moved, skipped := 0, 0;
      if EXTRACTED_ROOT !in listing {
        return false, moved, skipped;
      }
      var resolutions := listing[EXTRACTED_ROOT];
      ghost var goal := RestructureSpec(listing, files);
      for i := 0 to |resolutions|
        invariant MoveAll(Tally(true, files, moved, skipped), ResJobs(listing, resolutions[i..])) == goal
      {
        var resPath := Join(EXTRACTED_ROOT, resolutions[i]);
        ResJobsStep(listing, resolutions, i);
        if resPath !in listing {
          continue;
        }
        ghost var before := Tally(true, files, moved, skipped);
        ok, moved, skipped := MoveResolution(listing, resPath, listing[resPath], moved, skipped);
        MoveAllAppend(before, LabelJobs(listing, resPath, listing[resPath]), ResJobs(listing, resolutions[i + 1..]));
        if !ok {
          MoveAllStopped(Tally(ok, files, moved, skipped), ResJobs(listing, resolutions[i + 1..]));
          return;
        }
      }
      ResJobsStep(listing, resolutions, |resolutions|);
      ok := true;
    }
  }
}
