/**
 * The per-track orchestration of the converter (src/main.rs) without its I/O: for every
 * album in name order and every track in basename order, derive the paths, overlay the
 * track's metadata on the album's common metadata, let the overwrite arbiter decide, build
 * the ffmpeg command with or without album art, and count the track as converted or skipped.
 *
 * The run's inputs are the parsed settings, the parsed conversion data, the set of files
 * that exist when the run starts and the operator's input lines. Running ffmpeg is not
 * modelled; a conversion that goes ahead is taken to create its destination file.
 */
module Converter {
  import opened Wrappers
  import opened SortedMap
  import opened CreateCommand
  import opened OverwriteSelect
  import opened PathInfo

  /** The destination extension when none is given on the command line. */
  const DefaultConvertedExtension: string := "flac"

  /** The overwrite setting when none is given on the command line. */
  const DefaultOverwrite: OverallOverwriteSelect := Undecided

  /** The settings taken from the command line: `--overwrite`, `--copy`, `--extension`. */
  datatype Args = Args(overwrite: OverallOverwriteSelect, copy: bool, extension: string)

  /** One album of the conversion data; `uniqueMetadata` maps each track's basename to
      its own metadata. */
  datatype AlbumData = AlbumData(
    originalFolderPathname: string,
    convertedFolderPathname: string,
    albumArtFilePathname: Option<string>,
    commonMetadata: Option<Tags>,
    uniqueMetadata: Ordered<Tags>)

  /** Every track basename of the conversion data is a valid single segment. */
  predicate ValidBasenames(albums: seq<(string, AlbumData)>) {
    forall i :: 0 <= i < |albums| ==>
      forall j :: 0 <= j < |albums[i].1.uniqueMetadata| ==> ValidBasename(albums[i].1.uniqueMetadata[j].0)
  }

  /** What the loop needs to know about one track: where it comes from in the data, where
      its conversion writes, and the command that conversion runs. */
  datatype Job = Job(albumName: string, basename: string, destination: string, command: seq<string>)

  /** The album's common metadata, an absent one read as the empty map (main.rs, lines
      106-109). */
  function CommonMetadata(album: AlbumData): Tags {
    match album.commonMetadata
    case Some(common) => common
    case None => []
  }

  /** The metadata of a track: its own entries inserted over the album's common ones. */
  function TrackMetadata(album: AlbumData, uniqueMetadata: Tags): Tags {
    InsertAll(CommonMetadata(album), uniqueMetadata)
  }

  /** A track's metadata holds the keys of both maps; its own values win over the album's
      common ones, which are kept for the other keys. Without common metadata a track has
      exactly its own. */
  lemma TrackMetadataOverlay(album: AlbumData, uniqueMetadata: Tags)
    ensures var merged := ToMap(TrackMetadata(album, uniqueMetadata));
      var common := ToMap(CommonMetadata(album));
      var own := ToMap(uniqueMetadata);
      && merged.Keys == common.Keys + own.Keys
      && (forall tag :: tag in own ==> merged[tag] == own[tag])
      && (forall tag :: tag in common && tag !in own ==> merged[tag] == common[tag])
      && (album.commonMetadata.None? ==> merged == own)
  {
  }

  /** The paths of a track, as `PathInfoForConversion::new` derives them. */
  function TrackPaths(args: Args, album: AlbumData, basename: string): PathInfoForConversion {
    PathInfoForConversion(
      Push(album.originalFolderPathname, basename),
      Push(album.convertedFolderPathname, WithExtension(basename, args.extension)))
  }

  /** The inputs a track's command starts with: the art builder's prefix when the album
      has art, the plain builder's otherwise. */
  function CommandHead(album: AlbumData, originalFilePathname: string): seq<string> {
    match album.albumArtFilePathname
    case Some(art) => ArtHead(originalFilePathname, art)
    case None => PlainHead(originalFilePathname)
  }

  /** The command a track is converted with: the prefix chosen by `CommandHead`, always
      with the overwrite flag and with the copy flag of `args`. */
  function CommandFor(args: Args, album: AlbumData, paths: PathInfoForConversion, metadata: Tags): seq<string> {
    Command(CommandHead(album, paths.originalFilePathname), paths.convertedFilePathname, metadata, true, args.copy)
  }

  /** Everything the inner loop derives for one track before the arbiter is asked. */
  function PlanTrack(args: Args, albumName: string, album: AlbumData, basename: string, uniqueMetadata: Tags): Job {
    var paths := TrackPaths(args, album, basename);
    Job(albumName, basename, paths.convertedFilePathname,
        CommandFor(args, album, paths, TrackMetadata(album, uniqueMetadata)))
  }

  /** The command planned for a track: the art builder's prefix exactly when the album has
      art (the plain prefix otherwise), `-y` right after it, `-codec copy` exactly when the
      settings ask for it, the merged metadata's pairs in ascending tag order, and the
      track's destination last. */
  lemma PlannedCommand(args: Args, albumName: string, album: AlbumData, basename: string, uniqueMetadata: Tags)
    ensures var job := PlanTrack(args, albumName, album, basename, uniqueMetadata);
      var original := TrackPaths(args, album, basename).originalFilePathname;
      var head := CommandHead(album, original);
      var metadata := TrackMetadata(album, uniqueMetadata);
      var cmd := job.command;
      && (album.albumArtFilePathname.Some? ==> head == ArtHead(original, album.albumArtFilePathname.value))
      && (album.albumArtFilePathname.None? ==> head == PlainHead(original))
      && |cmd| == |head| + FlagCount(true, args.copy) + 2 * |metadata| + 1
      && cmd[..|head|] == head && cmd[|head|] == "-y"
      && ("-codec" in cmd[|head|..|cmd| - 1] <==> args.copy)
      && ("copy" in cmd[|head|..|cmd| - 1] <==> args.copy)
      && (forall i :: 0 <= i < |metadata| ==>
            cmd[|head| + FlagCount(true, args.copy) + 2 * i] == "-metadata:g" &&
            cmd[|head| + FlagCount(true, args.copy) + 2 * i + 1] == MetadataArgument(metadata[i].0, metadata[i].1))
      && cmd[|cmd| - 1] == job.destination
      && job.destination == Push(album.convertedFolderPathname, WithExtension(basename, args.extension))
  {
    var paths := TrackPaths(args, album, basename);
    CommandShape(CommandHead(album, paths.originalFilePathname), paths.convertedFilePathname,
                 TrackMetadata(album, uniqueMetadata), args.copy);
  }

  /** The layout facts of a command built with the overwrite flag set. */
  lemma CommandShape(head: seq<string>, destination: string, metadata: Tags, copy: bool)
    ensures var cmd := Command(head, destination, metadata, true, copy);
      && |cmd| == |head| + FlagCount(true, copy) + 2 * |metadata| + 1
      && cmd[..|head|] == head && cmd[|head|] == "-y" && cmd[|cmd| - 1] == destination
    ensures var cmd := Command(head, destination, metadata, true, copy);
      && ("-codec" in cmd[|head|..|cmd| - 1] <==> copy)
      && ("copy" in cmd[|head|..|cmd| - 1] <==> copy)
    ensures var cmd := Command(head, destination, metadata, true, copy);
      forall i :: 0 <= i < |metadata| ==>
        cmd[|head| + FlagCount(true, copy) + 2 * i] == "-metadata:g" &&
        cmd[|head| + FlagCount(true, copy) + 2 * i + 1] == MetadataArgument(metadata[i].0, metadata[i].1)
  {
    var cmd := Command(head, destination, metadata, true, copy);
    var n := |head|;
    CommandLayout(head, destination, metadata, true, copy);
    assert |cmd| == n + FlagCount(true, copy) + 2 * |metadata| + 1;
    assert cmd[..n] == head && cmd[n] == "-y" && cmd[|cmd| - 1] == destination;
    FlagsIffRequested(head, destination, metadata, true, copy);
  }

  /** The tracks of one album in the order the inner loop visits them. */
  function TrackJobs(args: Args, albumName: string, album: AlbumData, tracks: seq<(string, Tags)>): seq<Job> {
    if tracks == [] then []
    else [PlanTrack(args, albumName, album, tracks[0].0, tracks[0].1)] + TrackJobs(args, albumName, album, tracks[1..])
  }

  /** All tracks of the conversion data in the order the two loops visit them. */
  function Jobs(args: Args, albums: seq<(string, AlbumData)>): seq<Job> {
    if albums == [] then []
    else TrackJobs(args, albums[0].0, albums[0].1, albums[0].1.uniqueMetadata) + Jobs(args, albums[1..])
  }

  /** `Active` while tracks are being handled (at the end: every track was handled);
      `Exited` after the operator's `exit`; `OutOfInput` when the prompt ran out of input. */
  datatype Status = Active | Exited | OutOfInput

  /** The record of one handled track, for which the program prints `<basename>: ` and then
      `Converted` or `Skipped`: converted by running `command`, or skipped (`command` is
      None). `policy` is the overwrite setting the decision was made under. */
  datatype TrackReport = TrackReport(albumName: string, basename: string,
                                     policy: OverallOverwriteSelect, command: Option<seq<string>>)

  /** The run's state between two tracks. */
  datatype RunState = RunState(
    policy: OverallOverwriteSelect,
    input: seq<string>,
    existing: set<string>,
    convertedCnt: nat,
    skippedCnt: nat,
    log: seq<TrackReport>,
    status: Status)

  function InitialState(args: Args, existing: set<string>, input: seq<string>): RunState {
    RunState(args.overwrite, input, existing, 0, 0, [], Active)
  }

  /** What the outcome `d` of the arbiter makes of the state for one track: stop on
      `exit` or on exhausted input, otherwise convert the track, which creates its
      destination, or skip it. */
  function Apply(s: RunState, job: Job, d: Decided): RunState {
    match d.decision
    case ExitProgram => s.(policy := d.policy, input := d.rest, status := Exited)
    case EndOfInput => s.(policy := d.policy, input := d.rest, status := OutOfInput)
    case Proceed =>
      s.(policy := d.policy, input := d.rest,
         existing := s.existing + {job.destination},
         convertedCnt := s.convertedCnt + 1,
         log := s.log + [TrackReport(job.albumName, job.basename, s.policy, Some(job.command))])
    case Skip =>
      s.(policy := d.policy, input := d.rest,
         skippedCnt := s.skippedCnt + 1,
         log := s.log + [TrackReport(job.albumName, job.basename, s.policy, None)])
  }

  /** One iteration of the inner loop. */
  function Step(s: RunState, job: Job): RunState {
    if s.status != Active then s
    else Apply(s, job, Decide(job.destination in s.existing, s.policy, s.input))
  }

  /** The remaining iterations, stopping at the first track that ends the run. */
  function RunJobs(s: RunState, jobs: seq<Job>): RunState
    decreases |jobs|
  {
    if jobs == [] || s.status != Active then s
    else RunJobs(Step(s, jobs[0]), jobs[1..])
  }

  /** Overlays a track's metadata on the album's common metadata (main.rs, lines 125-128). */
  method MergeMetadata(commonMetadata: Tags, uniqueMetadata: Tags) returns (metadata: Tags)
    ensures metadata == InsertAll(commonMetadata, uniqueMetadata)
  {
    metadata := commonMetadata;
    for i := 0 to |uniqueMetadata|
      invariant InsertAll(metadata, uniqueMetadata[i..]) == InsertAll(commonMetadata, uniqueMetadata)
    {
      var rest: Tags := uniqueMetadata[i..];
      assert rest[1..] == uniqueMetadata[i + 1..];
      metadata := Insert(metadata, uniqueMetadata[i].0, uniqueMetadata[i].1);
    }
  }

  /** The choice of builder (main.rs, lines 138-157): with album art when the album has
      a picture, without it otherwise; the overwrite flag is always set because the arbiter
      has already decided. */
  method BuildCommand(args: Args, albumData: AlbumData, pathInfo: PathInfoForConversion, metadata: Tags)
    returns (cmd: seq<string>)
    ensures cmd == CommandFor(args, albumData, pathInfo, metadata)
  {
    match albumData.albumArtFilePathname {
      case Some(albumArtFilename) =>
        cmd := AddAlbumArtAndMetadata(pathInfo.originalFilePathname, pathInfo.convertedFilePathname,
                                      albumArtFilename, metadata, true, args.copy);
      case None =>
        cmd := AddMetadata(pathInfo.originalFilePathname, pathInfo.convertedFilePathname,
                           metadata, true, args.copy);
    }
  }

  /** The second half of the inner loop's body (main.rs, lines 136-191): acting on the
      arbiter's outcome. */
  method Record(args: Args, albumName: string, albumData: AlbumData, originalFileBasename: string,
                pathInfo: PathInfoForConversion, metadata: Tags, state: RunState,
                executeConversion: Decision, overallOverwriteSelect: OverallOverwriteSelect,
                remainingInput: seq<string>)
    returns (next: RunState)
    ensures next == Apply(state,
                          Job(albumName, originalFileBasename, pathInfo.convertedFilePathname,
                              CommandFor(args, albumData, pathInfo, metadata)),
                          Decided(executeConversion, overallOverwriteSelect, remainingInput))
  {
    next := state.(policy := overallOverwriteSelect, input := remainingInput);
    match executeConversion {
      case ExitProgram =>
        next := next.(status := Exited);
      case EndOfInput =>
        next := next.(status := OutOfInput);
      case Proceed =>
        var cmd := BuildCommand(args, albumData, pathInfo, metadata);
        next := next.(existing := next.existing + {pathInfo.convertedFilePathname},
                      log := next.log + [TrackReport(albumName, originalFileBasename, state.policy, Some(cmd))],
                      convertedCnt := next.convertedCnt + 1);
      case Skip =>
        next := next.(log := next.log + [TrackReport(albumName, originalFileBasename, state.policy, None)],
                      skippedCnt := next.skippedCnt + 1);
    }
  }

  /** The body of the inner loop of `main` (lines 111-191) for one track: the paths, the
      merged metadata, the decision, and then the command and the tally. The counters,
      the policy, the remaining input and the existing files are carried in `state`. */
  method HandleTrack(args: Args, albumName: string, albumData: AlbumData, commonMetadata: Tags,
                     originalFileBasename: string, uniqueMetadata: Tags, state: RunState)
    returns (next: RunState)
    requires ValidBasename(originalFileBasename)
    requires state.status == Active && commonMetadata == CommonMetadata(albumData)
    ensures next == Step(state, PlanTrack(args, albumName, albumData, originalFileBasename, uniqueMetadata))
  {
    var pathInfo := New(albumData.originalFolderPathname, albumData.convertedFolderPathname,
                        originalFileBasename, args.extension);
    assert pathInfo == TrackPaths(args, albumData, originalFileBasename);
    var metadata := MergeMetadata(commonMetadata, uniqueMetadata);

    var executeConversion, overallOverwriteSelect, remainingInput :=
      DecideWhetherToExecute(pathInfo.convertedFilePathname in state.existing, state.policy, state.input);
    next := Record(args, albumName, albumData, originalFileBasename, pathInfo, metadata, state,
                   executeConversion, overallOverwriteSelect, remainingInput);
  }

  /** Handling one more track first is one `Step`. */
  lemma RunJobsNext(s: RunState, job: Job, later: seq<Job>)
    ensures RunJobs(s, [job] + later) == RunJobs(Step(s, job), later)
  {
    assert ([job] + later)[0] == job && ([job] + later)[1..] == later;
  }

  /** The jobs from album `a` on are that album's tracks, then the later albums' jobs. */
  lemma JobsFrom(args: Args, albums: seq<(string, AlbumData)>, a: nat)
    requires a < |albums|
    ensures Jobs(args, albums[a..])
         == TrackJobs(args, albums[a].0, albums[a].1, albums[a].1.uniqueMetadata) + Jobs(args, albums[a + 1..])
  {
    assert albums[a..][0] == albums[a] && albums[a..][1..] == albums[a + 1..];
  }

  /** The tracks from `t` on are track `t`, then the later ones. */
  lemma TrackJobsFrom(args: Args, albumName: string, album: AlbumData, tracks: seq<(string, Tags)>, t: nat,
                      later: seq<Job>)
    requires t < |tracks|
    ensures TrackJobs(args, albumName, album, tracks[t..]) + later
         == [PlanTrack(args, albumName, album, tracks[t].0, tracks[t].1)]
            + (TrackJobs(args, albumName, album, tracks[t + 1..]) + later)
  {
    assert tracks[t..][0] == tracks[t] && tracks[t..][1..] == tracks[t + 1..];
  }

  /** The conversion loop of `main`: albums in name order, tracks in basename order, ended
      early by an `exit` answer (or by the input running out at a prompt). */
  method ConvertAll(args: Args, albums: Ordered<AlbumData>, existing: set<string>, input: seq<string>)
    returns (report: RunState)
    requires ValidBasenames(albums)
    ensures report == RunJobs(InitialState(args, existing, input), Jobs(args, albums))
  {
    ghost var target := RunJobs(InitialState(args, existing, input), Jobs(args, albums));
    var state := InitialState(args, existing, input);
    assert albums[0..] == albums;

    for a := 0 to |albums|
      invariant state.status == Active
      invariant RunJobs(state, Jobs(args, albums[a..])) == target
    {
      var albumName := albums[a].0;
      var albumData := albums[a].1;
      var commonMetadata := match albumData.commonMetadata
        case Some(common) => common
        case None => [];
      var tracks := albumData.uniqueMetadata;
      JobsFrom(args, albums, a);
      assert tracks[0..] == tracks;

      for t := 0 to |tracks|
        invariant state.status == Active
        invariant RunJobs(state, TrackJobs(args, albumName, albumData, tracks[t..]) + Jobs(args, albums[a + 1..]))
               == target
      {
        TrackJobsFrom(args, albumName, albumData, tracks, t, Jobs(args, albums[a + 1..]));
        RunJobsNext(state, PlanTrack(args, albumName, albumData, tracks[t].0, tracks[t].1),
                    TrackJobs(args, albumName, albumData, tracks[t + 1..]) + Jobs(args, albums[a + 1..]));
        assert ValidBasename(tracks[t].0) by {
          assert albums[a].1.uniqueMetadata[t] == tracks[t];
        }

        state := HandleTrack(args, albumName, albumData, commonMetadata, tracks[t].0, tracks[t].1, state);
        if state.status != Active {
          return state;
        }
      }
      assert tracks[|tracks|..] == [];
      assert TrackJobs(args, albumName, albumData, []) + Jobs(args, albums[a + 1..]) == Jobs(args, albums[a + 1..]);
    }
    report := state;
  }
}
