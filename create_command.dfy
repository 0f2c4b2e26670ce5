/**
 * The two builders of the ffmpeg argument vector (src/create_command.rs). The vector is
 * the tool name and its inputs, the optional `-y`, the optional `-codec copy`, one
 * `-metadata:g tag=value` pair per metadata entry in ascending tag order, and the output
 * path last.
 */
module CreateCommand {
  import opened SortedMap

  /** The command prefix of `add_metadata`: the tool and the one input. */
  function PlainHead(originalFilePathname: string): seq<string> {
    ["ffmpeg", "-i", originalFilePathname]
  }

  /** The command prefix of `add_album_art_and_metadata`: the tool, the audio input, the
      picture input, the stream maps and the disposition that makes the picture cover art. */
  function ArtHead(originalFilePathname: string, albumArtFilePathname: string): seq<string> {
    ["ffmpeg", "-i", originalFilePathname, "-i", albumArtFilePathname,
     "-map", "0:a", "-map", "1:v", "-disposition:1", "attached_pic"]
  }

  function FlagTokens(overwriteFlag: bool, specifyCopyParameterFlag: bool): seq<string> {
    (if overwriteFlag then ["-y"] else []) + (if specifyCopyParameterFlag then ["-codec", "copy"] else [])
  }

  function FlagCount(overwriteFlag: bool, specifyCopyParameterFlag: bool): nat {
    (if overwriteFlag then 1 else 0) + (if specifyCopyParameterFlag then 2 else 0)
  }

  /** `format!("{}={}", tag, data)`. */
  function MetadataArgument(tag: string, data: string): string {
    tag + "=" + data
  }

  /** The metadata block: one `-metadata:g` pair per entry, in the map's iteration order. */
  function MetadataTokens(metadata: seq<(string, string)>): seq<string> {
    if metadata == [] then []
    else ["-metadata:g", MetadataArgument(metadata[0].0, metadata[0].1)] + MetadataTokens(metadata[1..])
  }

  /** The whole argument vector the builders produce after the given prefix. */
  function Command(head: seq<string>, convertedFilePathname: string, metadata: Tags,
                   overwriteFlag: bool, specifyCopyParameterFlag: bool): seq<string> {
    head + FlagTokens(overwriteFlag, specifyCopyParameterFlag) + MetadataTokens(metadata)
      + [convertedFilePathname]
  }

  /** The part both builders share: pushes the flags, the metadata pairs and the output. */
  method PushOptionsAndOutput(head: seq<string>, convertedFilePathname: string, metadata: Tags,
                              overwriteFlag: bool, specifyCopyParameterFlag: bool)
    returns (cmd: seq<string>)
    ensures cmd == Command(head, convertedFilePathname, metadata, overwriteFlag, specifyCopyParameterFlag)
  {
    cmd := head;
    if overwriteFlag {
      cmd := cmd + ["-y"];
    }
    if specifyCopyParameterFlag {
      cmd := cmd + ["-codec"];
      cmd := cmd + ["copy"];
    }
    ghost var flagged := cmd;
    assert flagged == head + FlagTokens(overwriteFlag, specifyCopyParameterFlag);
    for i := 0 to |metadata|
      invariant cmd + MetadataTokens(metadata[i..]) == flagged + MetadataTokens(metadata)
    {
      assert metadata[i..][1..] == metadata[i + 1..];
      cmd := cmd + ["-metadata:g"];
      cmd := cmd + [MetadataArgument(metadata[i].0, metadata[i].1)];
    }
    cmd := cmd + [convertedFilePathname];
  }

  /** `add_metadata`. */
  method AddMetadata(originalFilePathname: string, convertedFilePathname: string, metadata: Tags,
                     overwriteFlag: bool, specifyCopyParameterFlag: bool)
    returns (cmd: seq<string>)
    ensures cmd == Command(PlainHead(originalFilePathname), convertedFilePathname, metadata,
                           overwriteFlag, specifyCopyParameterFlag)
  {
    cmd := PushOptionsAndOutput(PlainHead(originalFilePathname), convertedFilePathname, metadata,
                                overwriteFlag, specifyCopyParameterFlag);
  }

  /** `add_album_art_and_metadata`. */
  method AddAlbumArtAndMetadata(originalFilePathname: string, convertedFilePathname: string,
                                albumArtFilePathname: string, metadata: Tags,
                                overwriteFlag: bool, specifyCopyParameterFlag: bool)
    returns (cmd: seq<string>)
    ensures cmd == Command(ArtHead(originalFilePathname, albumArtFilePathname), convertedFilePathname,
                           metadata, overwriteFlag, specifyCopyParameterFlag)
  {
    cmd := PushOptionsAndOutput(ArtHead(originalFilePathname, albumArtFilePathname),
                                convertedFilePathname, metadata, overwriteFlag, specifyCopyParameterFlag);
  }

  /** The metadata block holds exactly two tokens per entry, the pair for entry `i` at 2i. */
  lemma {:induction false} MetadataTokensAt(metadata: seq<(string, string)>)
    ensures |MetadataTokens(metadata)| == 2 * |metadata|
    ensures forall i :: 0 <= i < |metadata| ==>
      MetadataTokens(metadata)[2 * i] == "-metadata:g" &&
      MetadataTokens(metadata)[2 * i + 1] == MetadataArgument(metadata[i].0, metadata[i].1)
  {
    if metadata != [] {
      MetadataTokensAt(metadata[1..]);
      var tokens := MetadataTokens(metadata);
      forall i | 1 <= i < |metadata|
        ensures tokens[2 * i] == "-metadata:g"
        ensures tokens[2 * i + 1] == MetadataArgument(metadata[i].0, metadata[i].1)
      {
        assert tokens[2 * i] == MetadataTokens(metadata[1..])[2 * (i - 1)];
        assert tokens[2 * i + 1] == MetadataTokens(metadata[1..])[2 * (i - 1) + 1];
        assert metadata[1..][i - 1] == metadata[i];
      }
    }
  }

  /** No metadata token can be mistaken for a flag: each is `-metadata:g` or holds an `=`. */
  lemma {:induction false} MetadataTokensAreNotFlags(metadata: seq<(string, string)>)
    ensures forall t :: t in MetadataTokens(metadata) ==> t == "-metadata:g" || '=' in t
  {
    if metadata != [] {
      MetadataTokensAreNotFlags(metadata[1..]);
      var arg := MetadataArgument(metadata[0].0, metadata[0].1);
      assert arg[|metadata[0].0|] == '=';
    }
  }

  /** The exact layout of an argument vector: the prefix, the flags right after it with
      `-codec copy` after `-y`, the metadata pairs in the map's (ascending) order, and the
      output path last, with the length that this layout gives. */
  lemma CommandLayout(head: seq<string>, convertedFilePathname: string, metadata: Tags,
                      overwriteFlag: bool, specifyCopyParameterFlag: bool)
    ensures var cmd := Command(head, convertedFilePathname, metadata, overwriteFlag, specifyCopyParameterFlag);
      && |cmd| == |head| + FlagCount(overwriteFlag, specifyCopyParameterFlag) + 2 * |metadata| + 1
      && cmd[..|head|] == head
      && cmd[|cmd| - 1] == convertedFilePathname
      && (overwriteFlag ==> cmd[|head|] == "-y")
      && (specifyCopyParameterFlag ==>
            var at := |head| + (if overwriteFlag then 1 else 0);
            cmd[at] == "-codec" && cmd[at + 1] == "copy")
      && forall i :: 0 <= i < |metadata| ==>
           var at := |head| + FlagCount(overwriteFlag, specifyCopyParameterFlag) + 2 * i;
           cmd[at] == "-metadata:g" && cmd[at + 1] == MetadataArgument(metadata[i].0, metadata[i].1)
  {
    var cmd := Command(head, convertedFilePathname, metadata, overwriteFlag, specifyCopyParameterFlag);
    var flags := FlagTokens(overwriteFlag, specifyCopyParameterFlag);
    var tokens := MetadataTokens(metadata);
    MetadataTokensAt(metadata);
    assert cmd == head + flags + tokens + [convertedFilePathname];
    forall i | 0 <= i < |metadata|
      ensures cmd[|head| + |flags| + 2 * i] == "-metadata:g"
      ensures cmd[|head| + |flags| + 2 * i + 1] == MetadataArgument(metadata[i].0, metadata[i].1)
    {
      assert cmd[|head| + |flags| + 2 * i] == tokens[2 * i];
      assert cmd[|head| + |flags| + 2 * i + 1] == tokens[2 * i + 1];
    }
  }

  /** Between the prefix and the output path, `-y` occurs exactly when the overwrite flag
      is set, and `-codec` and `copy` exactly when the copy flag is set; the two flags
      are independent. */
  lemma FlagsIffRequested(head: seq<string>, convertedFilePathname: string, metadata: Tags,
                          overwriteFlag: bool, specifyCopyParameterFlag: bool)
    ensures var cmd := Command(head, convertedFilePathname, metadata, overwriteFlag, specifyCopyParameterFlag);
      var options := cmd[|head|..|cmd| - 1];
      && ("-y" in options <==> overwriteFlag)
      && ("-codec" in options <==> specifyCopyParameterFlag)
      && ("copy" in options <==> specifyCopyParameterFlag)
  {
    var cmd := Command(head, convertedFilePathname, metadata, overwriteFlag, specifyCopyParameterFlag);
    var flags := FlagTokens(overwriteFlag, specifyCopyParameterFlag);
    var tokens := MetadataTokens(metadata);
    assert cmd[|head|..|cmd| - 1] == flags + tokens;
    MetadataTokensAreNotFlags(metadata);
    assert "-y" !in tokens && "-codec" !in tokens && "copy" !in tokens by {
      assert forall t :: t in tokens ==> t == "-metadata:g" || '=' in t;
      assert '=' !in "-y" && '=' !in "-codec" && '=' !in "copy";
    }
  }

  /** The art builder's vector is its 11-token prefix followed by exactly what the plain
      builder produces after its 3-token prefix, for the same arguments. */
  lemma ArtCommandExtendsPlain(originalFilePathname: string, convertedFilePathname: string,
                               albumArtFilePathname: string, metadata: Tags,
                               overwriteFlag: bool, specifyCopyParameterFlag: bool)
    ensures var plain := Command(PlainHead(originalFilePathname), convertedFilePathname, metadata,
                                 overwriteFlag, specifyCopyParameterFlag);
      var art := Command(ArtHead(originalFilePathname, albumArtFilePathname), convertedFilePathname,
                         metadata, overwriteFlag, specifyCopyParameterFlag);
      && |plain| >= 3 && art[..11] == ArtHead(originalFilePathname, albumArtFilePathname)
      && art[11..] == plain[3..]
      && art[..3] == plain[..3]
  {
    var rest := FlagTokens(overwriteFlag, specifyCopyParameterFlag) + MetadataTokens(metadata)
      + [convertedFilePathname];
    var plain := Command(PlainHead(originalFilePathname), convertedFilePathname, metadata,
                         overwriteFlag, specifyCopyParameterFlag);
    var art := Command(ArtHead(originalFilePathname, albumArtFilePathname), convertedFilePathname,
                       metadata, overwriteFlag, specifyCopyParameterFlag);
    assert plain == PlainHead(originalFilePathname) + rest;
    assert art == ArtHead(originalFilePathname, albumArtFilePathname) + rest;
  }
}
