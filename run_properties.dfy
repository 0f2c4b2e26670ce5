/**
 * Properties of a whole conversion run (src/main.rs, lines 89-193): the order in which the
 * tracks are visited, the tallies, the record of handled tracks following the tracks, where the run
 * stops, and what a pinned overwrite setting implies for the rest of the run.
 */
module RunProperties {
  import opened Wrappers
  import opened SortedMap
  import opened OverwriteSelect
  import opened PathInfo
  import opened Converter
  import opened CreateCommand

  /** Track `x` is visited before track `y`: an earlier album, or the same album and an
      earlier basename. */
  predicate JobBefore(x: Job, y: Job) {
    LexLess(x.albumName, y.albumName) || (x.albumName == y.albumName && LexLess(x.basename, y.basename))
  }

  lemma {:induction false} TrackJobsLength(args: Args, albumName: string, album: AlbumData, tracks: seq<(string, Tags)>)
    ensures |TrackJobs(args, albumName, album, tracks)| == |tracks|
  {
    if tracks != [] {
      TrackJobsLength(args, albumName, album, tracks[1..]);
    }
  }

  lemma {:induction false} TrackJobAt(args: Args, albumName: string, album: AlbumData, tracks: seq<(string, Tags)>, i: nat)
    requires i < |tracks|
    ensures i < |TrackJobs(args, albumName, album, tracks)|
    ensures TrackJobs(args, albumName, album, tracks)[i] == PlanTrack(args, albumName, album, tracks[i].0, tracks[i].1)
  {
    TrackJobsLength(args, albumName, album, tracks);
    var head := PlanTrack(args, albumName, album, tracks[0].0, tracks[0].1);
    var rest := TrackJobs(args, albumName, album, tracks[1..]);
    assert TrackJobs(args, albumName, album, tracks) == [head] + rest;
    if i > 0 {
      TrackJobAt(args, albumName, album, tracks[1..], i - 1);
      assert tracks[1..][i - 1] == tracks[i];
      assert ([head] + rest)[i] == rest[i - 1];
    }
  }

  /** Job `i` of an album is its track `i`. */
  lemma TrackJobsAt(args: Args, albumName: string, album: AlbumData, tracks: seq<(string, Tags)>)
    ensures |TrackJobs(args, albumName, album, tracks)| == |tracks|
    ensures forall i :: 0 <= i < |tracks| ==>
      TrackJobs(args, albumName, album, tracks)[i].albumName == albumName &&
      TrackJobs(args, albumName, album, tracks)[i].basename == tracks[i].0
  {
    TrackJobsLength(args, albumName, album, tracks);
    forall i | 0 <= i < |tracks|
      ensures TrackJobs(args, albumName, album, tracks)[i].albumName == albumName
      ensures TrackJobs(args, albumName, album, tracks)[i].basename == tracks[i].0
    {
      TrackJobAt(args, albumName, album, tracks, i);
    }
  }

  /** Every job of albums whose names all lie above `x` belongs to an album above `x`. */
  lemma {:induction false} JobsAbove(args: Args, x: string, albums: seq<(string, AlbumData)>)
    requires forall k :: 0 <= k < |albums| ==> LexLess(x, albums[k].0)
    ensures forall j :: 0 <= j < |Jobs(args, albums)| ==> LexLess(x, Jobs(args, albums)[j].albumName)
  {
    if albums != [] {
      var head := TrackJobs(args, albums[0].0, albums[0].1, albums[0].1.uniqueMetadata);
      TrackJobsAt(args, albums[0].0, albums[0].1, albums[0].1.uniqueMetadata);
      JobsAbove(args, x, albums[1..]);
      var jobs := Jobs(args, albums);
      forall j | 0 <= j < |jobs| ensures LexLess(x, jobs[j].albumName) {
        if j < |head| {
          assert jobs[j] == head[j];
        } else {
          assert jobs[j] == Jobs(args, albums[1..])[j - |head|];
        }
      }
    }
  }

  /** The loops visit the tracks in strictly increasing (album name, basename) order, so no
      track is handled twice. */
  lemma {:induction false} JobsInOrder(args: Args, albums: Ordered<AlbumData>)
    ensures forall i, j :: 0 <= i < j < |Jobs(args, albums)| ==> JobBefore(Jobs(args, albums)[i], Jobs(args, albums)[j])
  {
    if albums != [] {
      var name := albums[0].0;
      var tracks := albums[0].1.uniqueMetadata;
      var head := TrackJobs(args, name, albums[0].1, tracks);
      var rest: Ordered<AlbumData> := albums[1..];
      var tail := Jobs(args, rest);
      var jobs := Jobs(args, albums);
      assert jobs == head + tail;
      TrackJobsAt(args, name, albums[0].1, tracks);
      JobsInOrder(args, rest);
      JobsAbove(args, name, rest);
      forall i, j | 0 <= i < j < |jobs| ensures JobBefore(jobs[i], jobs[j]) {
        if j < |head| {
          assert jobs[i] == head[i] && jobs[j] == head[j];
        } else if i < |head| {
          assert jobs[i] == head[i] && jobs[j] == tail[j - |head|];
        } else {
          assert jobs[i] == tail[i - |head|] && jobs[j] == tail[j - |head|];
        }
      }
    }
  }

  /** The number of handled tracks recorded as converted. */
  function ConvertedCount(log: seq<TrackReport>): nat {
    if log == [] then 0
    else ConvertedCount(log[..|log| - 1]) + (if log[|log| - 1].command.Some? then 1 else 0)
  }

  /** The counters agree with the record: `converted_cnt` counts the converted
      entries and the two counters together count all entries. */
  predicate Tallied(s: RunState) {
    s.convertedCnt == ConvertedCount(s.log) && s.convertedCnt + s.skippedCnt == |s.log|
  }

  lemma StepTallied(s: RunState, job: Job)
    requires Tallied(s)
    ensures Tallied(Step(s, job))
  {
    var r := Step(s, job);
    if r.log != s.log {
      assert r.log[..|r.log| - 1] == s.log;
    }
  }

  /** Every handled track adds to exactly one of the two counters. */
  lemma {:induction false} RunTallied(s: RunState, jobs: seq<Job>)
    requires Tallied(s)
    ensures Tallied(RunJobs(s, jobs))
    decreases |jobs|
  {
    if jobs != [] && s.status == Active {
      StepTallied(s, jobs[0]);
      RunTallied(Step(s, jobs[0]), jobs[1..]);
    }
  }

  /** The final counters of a run: `converted_cnt` is the number of converted tracks and
      `converted_cnt + skipped_cnt` the number of handled tracks. */
  lemma Tallies(args: Args, albums: Ordered<AlbumData>, existing: set<string>, input: seq<string>)
    ensures var r := RunJobs(InitialState(args, existing, input), Jobs(args, albums));
      r.convertedCnt == ConvertedCount(r.log) && r.convertedCnt + r.skippedCnt == |r.log|
  {
    RunTallied(InitialState(args, existing, input), Jobs(args, albums));
  }

  /** A record entry belongs to `job`, and a converted one holds the command that was run. */
  predicate Reports(job: Job, entry: TrackReport) {
    entry.albumName == job.albumName && entry.basename == job.basename &&
    (entry.command.Some? ==> entry.command.value == job.command)
  }

  /** One step either stops the run without recording the job, or records it once. */
  lemma StepLog(s: RunState, job: Job)
    requires s.status == Active
    ensures var r := Step(s, job);
      || (r.status != Active && r.log == s.log)
      || (r.status == Active && r.log == s.log + [r.log[|s.log|]] && Reports(job, r.log[|s.log|]))
  {
    var d := Decide(job.destination in s.existing, s.policy, s.input);
    assert Step(s, job) == Apply(s, job, d);
  }

  /** The run records one entry per handled track, in the order of the jobs and with each
      track's own command; it handles every track unless it stops, and the track at which
      it stops gets no entry. A stopped state stays as it is. */
  lemma {:induction false} LogFollowsJobs(s: RunState, jobs: seq<Job>)
    ensures var r := RunJobs(s, jobs);
      && |s.log| <= |r.log| <= |s.log| + |jobs|
      && r.log[..|s.log|] == s.log
      && (forall i :: |s.log| <= i < |r.log| ==> Reports(jobs[i - |s.log|], r.log[i]))
      && (s.status != Active ==> r == s)
      && (s.status == Active && r.status == Active ==> |r.log| == |s.log| + |jobs|)
      && (s.status == Active && r.status != Active ==> |r.log| < |s.log| + |jobs|)
    decreases |jobs|
  {
    if jobs != [] && s.status == Active {
      var next := Step(s, jobs[0]);
      StepLog(s, jobs[0]);
      LogFollowsJobs(next, jobs[1..]);
      var r := RunJobs(next, jobs[1..]);
      if next.status == Active {
        assert r.log[..|s.log|] == next.log[..|s.log|];
        forall i | |s.log| <= i < |r.log| ensures Reports(jobs[i - |s.log|], r.log[i]) {
          if i > |s.log| {
            assert jobs[i - |s.log|] == jobs[1..][i - |next.log|];
          } else {
            assert r.log[i] == next.log[i];
          }
        }
      }
    }
  }

  /** Under a pinned setting one track is handled without a prompt: converted when the
      setting is `Yes` or the destination is absent, skipped otherwise. */
  lemma StepPinned(s: RunState, job: Job)
    requires s.status == Active && s.policy != Undecided
    ensures var convert := s.policy == OverallOverwriteSelect.Yes || job.destination !in s.existing;
      Step(s, job) ==
        if convert then
          s.(existing := s.existing + {job.destination}, convertedCnt := s.convertedCnt + 1,
             log := s.log + [TrackReport(job.albumName, job.basename, s.policy, Some(job.command))])
        else
          s.(skippedCnt := s.skippedCnt + 1,
             log := s.log + [TrackReport(job.albumName, job.basename, s.policy, None)])
  {
    var convert := s.policy == OverallOverwriteSelect.Yes || job.destination !in s.existing;
    var d := Decide(job.destination in s.existing, s.policy, s.input);
    assert d == Decided(if convert then Proceed else Skip, s.policy, s.input);
  }

  /** Once the written overwrite setting is `Yes` or `No`, the rest of the run never asks:
      it handles every remaining track under that setting, never stops, and reads no input. */
  lemma {:induction false} PinnedPolicyStays(s: RunState, jobs: seq<Job>)
    requires s.status == Active && s.policy != Undecided
    ensures var r := RunJobs(s, jobs);
      && r.policy == s.policy && r.input == s.input && r.status == Active
      && |r.log| == |s.log| + |jobs| && r.log[..|s.log|] == s.log
      && (forall i :: |s.log| <= i < |r.log| ==> r.log[i].policy == s.policy)
      && r.convertedCnt + r.skippedCnt == s.convertedCnt + s.skippedCnt + |jobs|
    decreases |jobs|
  {
    if jobs != [] {
      StepPinned(s, jobs[0]);
      var next := Step(s, jobs[0]);
      PinnedPolicyStays(next, jobs[1..]);
      var r := RunJobs(next, jobs[1..]);
      assert r.log[..|s.log|] == next.log[..|s.log|];
      forall i | |s.log| <= i < |r.log| ensures r.log[i].policy == s.policy {
        if i == |s.log| {
          assert r.log[i] == next.log[i];
        }
      }
    }
  }

  /** With the setting `Yes` every remaining track is converted. */
  lemma {:induction false} AlwaysYesConvertsAll(s: RunState, jobs: seq<Job>)
    requires s.status == Active && s.policy == OverallOverwriteSelect.Yes
    ensures var r := RunJobs(s, jobs);
      r.convertedCnt == s.convertedCnt + |jobs| && r.skippedCnt == s.skippedCnt
    decreases |jobs|
  {
    if jobs != [] {
      StepPinned(s, jobs[0]);
      AlwaysYesConvertsAll(Step(s, jobs[0]), jobs[1..]);
    }
  }

  /** With the setting `No` a file that exists when the run reaches a track is never
      overwritten: in particular no file that existed before is converted again. */
  lemma {:induction false} AlwaysNoKeepsExisting(s: RunState, jobs: seq<Job>)
    requires s.status == Active && s.policy == OverallOverwriteSelect.No
    ensures var r := RunJobs(s, jobs);
      && |r.log| == |s.log| + |jobs| && s.existing <= r.existing
      && forall i :: |s.log| <= i < |r.log| && r.log[i].command.Some? ==>
           jobs[i - |s.log|].destination !in s.existing
    decreases |jobs|
  {
    if jobs != [] {
      StepPinned(s, jobs[0]);
      var next := Step(s, jobs[0]);
      AlwaysNoKeepsExisting(next, jobs[1..]);
      PinnedPolicyStays(next, jobs[1..]);
      var r := RunJobs(next, jobs[1..]);
      forall i | |s.log| <= i < |r.log| && r.log[i].command.Some?
        ensures jobs[i - |s.log|].destination !in s.existing
      {
        if i == |s.log| {
          assert r.log[..|next.log|] == next.log;
          assert r.log[i] == next.log[i];
        } else {
          assert jobs[i - |s.log|] == jobs[1..][i - |next.log|];
        }
      }
    }
  }

  /** The written setting changes only from `Undecided`: a run that starts with `Yes` or
      `No` ends with it. */
  lemma {:induction false} PolicyOnlyLeavesUndecided(s: RunState, jobs: seq<Job>)
    ensures var r := RunJobs(s, jobs);
      r.policy == s.policy || (s.policy == Undecided && r.policy != Undecided)
    decreases |jobs|
  {
    if jobs != [] && s.status == Active {
      var next := Step(s, jobs[0]);
      PolicyOnlyLeavesUndecided(next, jobs[1..]);
      var d := Decide(jobs[0].destination in s.existing, s.policy, s.input);
      assert next.policy == d.policy;
    }
  }

  /** An `exit` typed at the prompt of the first track ends the run at once: nothing is
      converted or skipped any more, and every input line after it is left unread. */
  lemma ExitStopsRun(s: RunState, job: Job, later: seq<Job>, w1: string, w2: string, rest: seq<string>)
    requires s.status == Active && s.policy == Undecided && job.destination in s.existing
    requires AllWhitespace(w1) && AllWhitespace(w2)
    requires s.input == [w1 + Token(Exit) + w2] + rest
    ensures RunJobs(s, [job] + later) == s.(input := rest, status := Exited)
  {
    DecideOnTypedAnswer(w1, Exit, w2, rest);
    RunJobsNext(s, job, later);
  }

  /** One track planned end to end: `a.mp3` of an album kept in `music`, without art or
      common metadata, converted to FLAC in `out/` with its one title tag. */
  lemma PlainTrackPlan()
    ensures PlanTrack(Args(DefaultOverwrite, false, DefaultConvertedExtension), "Album",
                      AlbumData("music", "out/", None, None, []), "a.mp3", [("title", "T")])
         == Job("Album", "a.mp3", "out/a.flac",
                ["ffmpeg", "-i", "music/a.mp3", "-y", "-metadata:g", "title=T", "out/a.flac"])
  {
    assert LastIndexOf("a.mp3", '.') == 1 by {
      assert "a.mp3"[..4] == "a.mp";
      assert "a.mp"[..3] == "a.m";
      assert "a.m"[..2] == "a.";
    }
    assert WithExtension("a.mp3", "flac") == "a.flac";
    var album := AlbumData("music", "out/", None, None, []);
    var md: Tags := [("title", "T")];
    assert InsertAll([], md) == InsertAll(Insert([], "title", "T"), []);
    assert TrackMetadata(album, md) == md;
    var paths := TrackPaths(Args(DefaultOverwrite, false, DefaultConvertedExtension), album, "a.mp3");
    assert paths.originalFilePathname == "music/a.mp3";
    assert paths.convertedFilePathname == "out/a.flac";
    assert md[1..] == [] && MetadataArgument("title", "T") == "title=T";
    assert MetadataTokens(md) == ["-metadata:g", "title=T"] + MetadataTokens(md[1..]);
    assert MetadataTokens(md) == ["-metadata:g", "title=T"];
    assert FlagTokens(true, false) == ["-y"];
    assert Command(PlainHead("music/a.mp3"), "out/a.flac", md, true, false)
        == ["ffmpeg", "-i", "music/a.mp3", "-y", "-metadata:g", "title=T", "out/a.flac"];
  }
}
