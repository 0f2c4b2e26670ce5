# media_file_converter, modelled in Dafny

`media_file_converter` is a batch audio converter. It reads a table of albums; each album has
an original folder, a converted folder, optional album art, optional common metadata and one
metadata map per track basename. For every album in name order, and every track in basename
order, it:

1. derives the source path and the destination path (the basename with the configured
   extension, `flac` by default);
2. overlays the track's own tags on the album's common tags;
3. asks the overwrite arbiter whether to convert;
4. builds the `ffmpeg` argument vector, with or without the cover-art inputs, and runs it.

At the end it prints how many tracks were converted and how many were skipped.

The arbiter holds a run-wide setting: `Yes`, `No` or `Undecided`.
- When the destination does not exist, the track is always converted.
- Otherwise `Yes` converts and `No` skips.
- `Undecided` prompts until the operator types one of `yes`, `no`, `all-yes`, `all-no` or `exit`:
  - `all-yes` and `all-no` pin the setting for the rest of the run;
  - `exit` ends the program.

The model has seven modules. Each follows one source file, or one piece of `main`:

- `Wrappers`: the `Option` type.
- `SortedMap`: `BTreeMap<String, V>` as its ascending iteration sequence, with `insert`.
- `CreateCommand` (`src/create_command.rs`): the two argument-vector builders. They are
  methods that push tokens one at a time.
- `PathInfo` (`src/path_info_for_conversion.rs`): `PathBuf::push`, `file_name`,
  `file_stem`, `extension` and `set_extension` on `/`-separated strings, and
  `PathInfoForConversion::new`.
- `OverwriteSelect` (`src/overwrite_select.rs`):
  - the two enums;
  - `str::trim` with Rust's Unicode white-space set;
  - the literal match;
  - the prompt loop over a scripted sequence of input lines;
  - `decide_whether_to_execute`, with the `&mut` setting passed in and handed back.
- `Converter` (`src/main.rs`, lines 89-193): the nested loops of `main`. Each track's paths,
  merged metadata and command are collected in a `Job`. The state the loops carry is:
  - the setting;
  - the remaining input;
  - the set of existing files;
  - the two counters;
  - the record of handled tracks. For each one the program prints `<basename>: ` and then
    `Converted` or `Skipped`. The record holds the album, the basename and, for a converted
    track, the command that was run;
  - whether the run is still going.

  `ConvertAll` is the loop. It is proved equal to `RunJobs` over `Jobs`, the specification.
- `RunProperties`: what a whole run does, stated about `RunJobs` and `Jobs`.

The file system and the console are inputs:
- Whether a destination exists is looked up in a set of paths. A conversion that goes ahead
  adds its destination to that set.
- The operator's lines are a sequence of strings, each as `read_line` returns it.

## Model

| member | source | states |
|---|---|---|
| CreateCommand.PushOptionsAndOutput | src/create_command.rs:17-37 | the pushes after the prefix give the prefix, `-y` if requested, `-codec copy` if requested, one pair per metadata entry in map order, then the output path |
| CreateCommand.AddMetadata | src/create_command.rs:4-38 | the plain builder's vector is `Command` over the prefix `ffmpeg -i <original>` |
| CreateCommand.AddAlbumArtAndMetadata | src/create_command.rs:41-88 | the art builder's vector is `Command` over the 11-token prefix with the second input, the two `-map`s and `-disposition:1 attached_pic` |
| CreateCommand.CommandLayout | src/create_command.rs:12-37 | the vector begins with the prefix; `-y` comes right after it when set; `-codec copy` comes after `-y` (or after the prefix) when set; entry i's `-metadata:g`, `tag=value` pair comes after the flags at offset 2i in ascending key order; the output path is last; the length is prefix + (1 if `-y`) + (2 if copy) + 2·entries + 1 |
| CreateCommand.FlagsIffRequested | src/create_command.rs:18-26 | between the prefix and the output path, `-y` occurs if and only if the overwrite flag is set, and `-codec` and `copy` occur if and only if the copy flag is set, each independently of the other |
| CreateCommand.ArtCommandExtendsPlain | src/create_command.rs:50-85 | the art vector is its 11-token prefix followed by exactly what the plain builder puts after its 3-token prefix, and both share their first three tokens |
| CreateCommand.MetadataTokensAt | src/create_command.rs:29-32 | the metadata block has two tokens per entry: `-metadata:g` at 2i and `tag=value` of entry i at 2i+1 |
| CreateCommand.MetadataTokensAreNotFlags | src/create_command.rs:29-32 | every metadata token is `-metadata:g` or contains `=`, so none can be read as a flag |
| SortedMap.Insert | src/main.rs:126-128 | `BTreeMap::insert` sets the key to the value and leaves the other keys, keeps the keys ascending, and grows the map by one exactly when the key was absent |
| SortedMap.InsertAll | src/main.rs:125-128 | inserting the track's entries one by one into the common map gives the map union in which the track's values win |
| OverwriteSelect.TrimStartSpec | src/overwrite_select.rs:117 | the leading white space is dropped: the result is the suffix after an all-white-space prefix and does not start with white space |
| OverwriteSelect.TrimEndSpec | src/overwrite_select.rs:117 | the trailing white space is dropped: the result is the prefix before an all-white-space suffix and does not end with white space |
| OverwriteSelect.TrimSpec | src/overwrite_select.rs:117 | `trim` gives the slice of the line between its leading and trailing white space, and that slice neither starts nor ends with white space |
| OverwriteSelect.TrimSurrounded | src/overwrite_select.rs:117 | trimming any white space around a text that has none at its ends gives back exactly that text |
| OverwriteSelect.Token | src/overwrite_select.rs:118-122 | each answer's literal is non-empty and has no white space at its ends |
| OverwriteSelect.Parse | src/overwrite_select.rs:117-124 | a trimmed line is recognised if and only if it is one of the five literals, and then it is the literal of the answer it is mapped to |
| OverwriteSelect.RecognizeTyped | src/overwrite_select.rs:115-124 | a line holding an answer's literal with any white space around it (such as the newline `read_line` keeps) is recognised as that answer |
| OverwriteSelect.QuestionWhetherToOverwrite | src/overwrite_select.rs:97-132 | the loop reads lines until one is recognised and returns the first recognised answer and the unread lines after it, or reports that the input ran out |
| OverwriteSelect.FirstAnswerIsFirstRecognised | src/overwrite_select.rs:110-131 | the answer is the first recognised line, every earlier line was rejected, and the input left starts right after it; when the input runs out, every line was rejected |
| OverwriteSelect.FirstAnswerSkipsRejected | src/overwrite_select.rs:126-130 | rejected lines in front of the input change nothing about the answer obtained |
| OverwriteSelect.Decide | src/overwrite_select.rs:42-94 | an absent destination means convert and leaves setting and input alone; `Yes` converts and `No` skips without prompting or changing the setting; the setting changes only from `Undecided`, and only to `Yes` together with a conversion or to `No` together with a skip; `exit` and exhausted input leave the setting as it was |
| OverwriteSelect.DecideWhetherToExecute | src/overwrite_select.rs:42-94 | the method's outcome, new setting and remaining input are those of `Decide` |
| OverwriteSelect.DecideOnTypedAnswer | src/overwrite_select.rs:58-82 | for an existing destination under `Undecided`, a typed `yes`/`no` converts/skips and keeps `Undecided`, `all-yes`/`all-no` converts/skips and pins `Yes`/`No`, `exit` ends the run; exactly one line is consumed |
| OverwriteSelect.DecideSkipsRejectedLines | src/overwrite_select.rs:110-131 | rejected lines before the answer only consume input: the decision and the setting are as if they were absent |
| PathInfo.LastIndexOf | src/path_info_for_conversion.rs:18-22 | the index found is in range and holds the character searched for, or is -1 |
| PathInfo.LastIndexOfIsLast | src/path_info_for_conversion.rs:18-22 | no later position holds the character |
| PathInfo.FolderPrefix | src/path_info_for_conversion.rs:18 | a `/` is added after the folder unless the folder is empty or already ends in one |
| PathInfo.PushSpec | src/path_info_for_conversion.rs:17-18 | the pushed basename ends the path, and it is the path's file name with the folder and one separator before it |
| PathInfo.SetExtensionOfPush | src/path_info_for_conversion.rs:20-22 | setting the extension of a pushed path rewrites only the pushed segment |
| PathInfo.WithExtensionReplaces | src/path_info_for_conversion.rs:22 | the new name keeps the stem and has the configured extension; a basename without an extension gets `.` and the extension appended |
| PathInfo.WithEmptyExtensionDropsIt | src/path_info_for_conversion.rs:22 | an empty extension leaves just the stem, and a name with an extension is its stem, `.`, and that extension |
| PathInfo.PathInfoForConversion.GetOriginalFileBasename | src/path_info_for_conversion.rs:38-44 | the result is the whole final segment of the stored original path: a suffix without `/` that is either the whole path or preceded by a `/` |
| PathInfo.New | src/path_info_for_conversion.rs:11-28 | the original path is the folder with the basename pushed; its file name is that basename; the converted path is the converted folder with the basename, its extension replaced, pushed |
| Converter.TrackMetadataOverlay | src/main.rs:106-128 | the merged keys are the union of the common and the track keys; track values win; common values are kept for the other keys; a missing common map gives exactly the track's map |
| Converter.MergeMetadata | src/main.rs:125-128 | the clone-then-insert loop gives the overlay `InsertAll` |
| Converter.PlannedCommand | src/main.rs:138-157 | a planned track's command starts with the art builder's 11-token prefix when the album has art and with the plain 3-token prefix otherwise; `-y` follows the prefix; `-codec` and `copy` occur exactly when the settings ask for the copy parameter; the merged metadata pairs follow in ascending tag order; the track's destination, the converted folder with the re-extended basename, is last; the length is the layout's |
| Converter.CommandShape | src/create_command.rs:12-37 | a vector built with the overwrite flag set is its prefix, then `-y`, then `-codec copy` exactly when requested, then the metadata pairs, then the output path |
| Converter.BuildCommand | src/main.rs:138-157 | with album art the art builder is used, otherwise the plain one; the overwrite flag is always set and the copy flag comes from the settings |
| Converter.Record | src/main.rs:136-191 | `exit` stops the run; a conversion adds its destination, counts one converted track and records the track with the command that was run; a skip counts one skipped track and records the track without a command; the arbiter's setting and remaining input are carried on |
| Converter.HandleTrack | src/main.rs:111-191 | one iteration of the inner loop is one `Step` on that track's planned paths, metadata and command |
| Converter.ConvertAll | src/main.rs:89-193 | the nested loops, starting from the command-line setting and zero counters, compute `RunJobs` over all tracks in album then basename order, stopping where an `exit` ends the run |
| Converter.RunJobsNext | src/main.rs:111 | handling one more track first is one step followed by the rest |
| RunProperties.TrackJobsLength | src/main.rs:111 | an album contributes one job per track |
| RunProperties.TrackJobAt | src/main.rs:111-157 | job i of an album is the plan of its track i |
| RunProperties.TrackJobsAt | src/main.rs:111 | job i of an album belongs to that album and to its track i |
| RunProperties.JobsInOrder | src/main.rs:96-111 | tracks are visited in strictly ascending (album name, basename) order, so none is visited twice |
| RunProperties.StepTallied | src/main.rs:182-190 | one track keeps the counters in agreement with the record of handled tracks |
| RunProperties.RunTallied | src/main.rs:136-191 | every handled track adds to exactly one counter, and `converted_cnt` counts the converted entries |
| RunProperties.Tallies | src/main.rs:89-196 | at the end, `converted_cnt` is the number of converted tracks and `converted_cnt + skipped_cnt` the number of handled tracks |
| RunProperties.StepLog | src/main.rs:136-191 | one track either stops the run without a record entry or adds exactly one entry, which names the track and holds the command that was run if it was converted |
| RunProperties.LogFollowsJobs | src/main.rs:96-193 | the record entries follow the tracks in order, one per handled track, each with the command run for it; every track is handled unless the run stops, and the track it stops at gets no entry; a stopped run stays stopped |
| RunProperties.StepPinned | src/overwrite_select.rs:47-56 | under a pinned setting a track is converted when the setting is `Yes` or the destination is absent, and skipped otherwise, without reading input |
| RunProperties.PinnedPolicyStays | src/overwrite_select.rs:51-82 | once the setting is `Yes` or `No` it never changes again; no input is read; the run does not stop; every remaining track gets one record entry |
| RunProperties.AlwaysYesConvertsAll | src/overwrite_select.rs:53 | under `Yes` every remaining track is converted and none skipped |
| RunProperties.AlwaysNoKeepsExisting | src/overwrite_select.rs:56 | under `No` no file that existed before is converted again |
| RunProperties.PolicyOnlyLeavesUndecided | src/main.rs:89-134 | over a run the setting either stays what it was or moves from `Undecided` to `Yes` or `No` |
| RunProperties.ExitStopsRun | src/overwrite_select.rs:79-81 | an `exit` typed at a prompt ends the run at once, with nothing converted or skipped after it and the lines after it unread |
| RunProperties.PlainTrackPlan | src/main.rs:117-157 | `a.mp3` from `music` with the tag `title=T`, no art and no common tags, converted to FLAC in `out/`, has destination `out/a.flac` and command `ffmpeg -i music/a.mp3 -y -metadata:g title=T out/a.flac` |

## Left out

- Command-line parsing (clap) and reading the JSON conversion data (serde): the settings and the albums are taken as parsed values. The defaults `flac` and `Undecided` appear as constants, used in `PlainTrackPlan`.
- `fs::create_dir_all` for the converted folder: the model has no directories.
- Running `ffmpeg`, and the panic when it fails: a conversion that goes ahead is assumed to succeed and to create its destination.
- All printing and flushing: the configuration block, album headings, the menu text, the re-prompt message and the final totals. What remains of the per-track `<basename>: Converted`/`Skipped` output is the record of handled tracks. For a converted track, the record also holds the command that was run (src/main.rs:160-163), though the program never prints it.
- The final `Press the Enter key` read.
- `process::exit(0)` on `exit`: it becomes the state `Exited`, at which the loops stop.
- The prompt at end of input: `read_line` then returns an empty line forever and the program re-prompts without end. The model instead ends the run with the outcome `EndOfInput` and the state `OutOfInput`.
- Converter.RunState: `converted_cnt` and `skipped_cnt` are `u32` in the program; they are unbounded here, so a wrap-around after 2^32 tracks is not modelled.
- Converter.ConvertAll: requires every basename to be a single non-empty segment other than `.` and `..`. An absolute basename replacing the folder in `push`, Windows separators, and names whose final segment is `.` or `..` are not modelled.
- PathInfo.SetExtension: an extension containing `/` is appended as plain text. Rust's `set_extension` panics on such an extension, and that panic is not modelled.
- The UTF-8 `expect`s of the getters and the `expect` on `file_name`: paths are strings.
- The getters `get_original_file_pathname`, `get_converted_file_path` and `get_converted_file_pathname` are the datatype's two stored fields, read without change. `get_converted_file_path` and `get_converted_file_pathname` are the same value.
- The basename printed again after a prompt (src/overwrite_select.rs:84-89) is output only.
- Whether a destination exists is decided by exact string equality with the paths in the set of existing files, so two spellings of one file (`out/a.flac` from the folder `out` and `./out/a.flac` from the folder `./out`, say) are different files in the model, while `Path::exists` sees one file.
- Converter.TrackReport: the setting stored with each record entry is a model addition, used to state what a pinned setting implies.
