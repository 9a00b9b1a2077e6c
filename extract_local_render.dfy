/** The After Effects local-render extractor: after the host has rendered
    the composition into the staging directory, it collects the rendered
    files that carry the output module's extension, records them as the
    instance's representation, and asks ffmpeg for a thumbnail of the first
    one. The render itself, the directory listing and the ffmpeg run are
    inputs: the listing after the render, and the exception the ffmpeg run
    raises, if any. */
module ExtractLocalRender {
  import opened Py
  import opened PyText
  import PosixPath

  /** The `files` entry of a representation: a bare name or a list of names. */
  datatype Files = OneFile(name: string) | FileList(names: seq<string>)

  /** A representation dictionary; an absent key is None. */
  datatype Representation = Representation(
    name: string,
    ext: string,
    files: Files,
    stagingDir: string,
    tags: Option<seq<string>>,
    frameStart: Option<int>,
    frameEnd: Option<int>)

  /** The publish instance: the data the extractor reads, and its
      `representations` entry (None while the instance has none), which the
      extractor writes. */
  class Instance {
    const stagingDir: string
    const fileName: string
    const frameStart: int
    const frameEnd: int
    const review: bool
    var representations: Option<seq<Representation>>

    constructor (stagingDir: string, fileName: string, frameStart: int, frameEnd: int,
                 review: bool, representations: Option<seq<Representation>>)
      ensures this.stagingDir == stagingDir && this.fileName == fileName
      ensures this.frameStart == frameStart && this.frameEnd == frameEnd
      ensures this.review == review && this.representations == representations
    {
      this.stagingDir := stagingDir;
      this.fileName := fileName;
      this.frameStart := frameStart;
      this.frameEnd := frameEnd;
      this.review := review;
      this.representations := representations;
    }
  }

  const NoExtension := "No file extension set in Render Queue"
  const ThumbnailName := "thumbnail.jpg"

  /** The extension of the configured output file name, without its dot. */
  function RenderedExt(fileName: string): (ext: string)
    ensures '.' !in ext && '/' !in ext
  {
    var e := PosixPath.SplitExt(PosixPath.Basename(fileName)).1;
    if e == [] then [] else e[1..]
  }

  /** The base name has an extension exactly when it holds a `.` with some
      other character than `.` before it; the extension is then the text
      after the base name's last `.` (which holds no `.`), and there is
      none otherwise. The base name is its root followed by the dotted
      extension. */
  lemma RenderedExtSpec(fileName: string)
    ensures var base := PosixPath.Basename(fileName);
      var (root, dotted) := PosixPath.SplitExt(base);
      var ext := RenderedExt(fileName);
      && base == root + dotted
      && (dotted != [] <==> exists d, k :: 0 <= k < d < |base| && base[d] == '.' && base[k] != '.')
      && (dotted == [] ==> ext == [])
      && (dotted != [] ==>
            dotted == "." + ext && |ext| < |base| &&
            base[|base| - |ext| - 1] == '.' && base[|base| - |ext|..] == ext)
      && (ext != [] ==> EndsWith(base, "." + ext))
  {
    var base := PosixPath.Basename(fileName);
    PosixPath.SplitExtOfName(base);
    PosixPath.SplitExtSuffix(base);
  }

  /** The listing entries that end with `ext`, in listing order. */
  function Matching(listing: seq<string>, ext: string): seq<string> {
    if listing == [] then []
    else (if EndsWith(listing[0], ext) then [listing[0]] else []) + Matching(listing[1..], ext)
  }

  /** Filtering distributes over concatenation: the matches keep the order
      of the listing. */
  lemma {:induction false} MatchingAppend(a: seq<string>, b: seq<string>, ext: string)
    ensures Matching(a + b, ext) == Matching(a, ext) + Matching(b, ext)
  {
    if a != [] {
      assert (a + b)[1..] == a[1..] + b;
      MatchingAppend(a[1..], b, ext);
    } else {
      assert a + b == b;
    }
  }

  /** A name is matched exactly when it is in the listing and ends with the
      extension; there are never more matches than entries; and an empty
      extension matches every entry. */
  lemma {:induction false} MatchingSpec(listing: seq<string>, ext: string)
    ensures forall x :: x in Matching(listing, ext) <==> x in listing && EndsWith(x, ext)
    ensures |Matching(listing, ext)| <= |listing|
    ensures ext == [] ==> Matching(listing, ext) == listing
  {
    if listing != [] {
      MatchingSpec(listing[1..], ext);
      assert listing == [listing[0]] + listing[1..];
      if ext == [] {
        assert EndsWith(listing[0], ext);
      }
    }
  }

  /** The collecting loop: keep the entries ending with the extension, and
      the staging path of the first of them. */
  method CollectRenderedFiles(stagingDir: string, listing: seq<string>, ext: string)
    returns (files: seq<string>, firstFilePath: Option<string>)
    ensures files == Matching(listing, ext)
    ensures firstFilePath == if files == [] then None else Some(PosixPath.Join(stagingDir, files[0]))
  {
    files := [];
    firstFilePath := None;
    var i := 0;
    while i < |listing|
      invariant 0 <= i <= |listing|
      invariant files == Matching(listing[..i], ext)
      invariant firstFilePath == if files == [] then None else Some(PosixPath.Join(stagingDir, files[0]))
    {
      var fileName := listing[i];
      assert listing[..i + 1] == listing[..i] + [fileName];
      MatchingAppend(listing[..i], [fileName], ext);
      assert Matching([fileName], ext) == if EndsWith(fileName, ext) then [fileName] else [];
      if !EndsWith(fileName, ext) {
        i := i + 1;
        continue;
      }
      files := files + [fileName];
      if firstFilePath.None? {
        firstFilePath := Some(PosixPath.Join(stagingDir, fileName));
      }
      i := i + 1;
    }
    assert listing[..i] == listing;
  }

  /** The rendered output's representation: named after the extension,
      holding the single file name or the list of names, tagged for review
      when the instance is reviewed. */
  function MainRepresentation(ext: string, files: seq<string>, stagingDir: string,
                              frameStart: int, frameEnd: int, review: bool): Representation
    requires files != []
  {
    var resultingFiles := if |files| == 1 then OneFile(files[0]) else FileList(files);
    var repre := Representation(ext, ext, resultingFiles, stagingDir, None, Some(frameStart), Some(frameEnd));
    if review then repre.(tags := Some(["review"])) else repre
  }

  /** The thumbnail's representation. */
  function ThumbnailRepresentation(stagingDir: string): Representation {
    Representation("thumbnail", "jpg", OneFile(PosixPath.Basename(PosixPath.Join(stagingDir, ThumbnailName))),
                   stagingDir, Some(["thumbnail"]), None, None)
  }

  /** The ffmpeg command line that renders a 300-pixel-wide thumbnail of the
      first frame into the staging directory. */
  function ThumbnailArgs(ffmpegPath: string, firstFilePath: string, stagingDir: string): seq<string> {
    [ffmpegPath, "-y", "-i", firstFilePath, "-vf", "scale=300:-1", "-vframes", "1",
     PosixPath.Join(stagingDir, ThumbnailName)]
  }

  /** The thumbnail representation holds the bare file name `thumbnail.jpg`,
      whatever the staging directory. */
  lemma ThumbnailSpec(stagingDir: string)
    ensures ThumbnailRepresentation(stagingDir) ==
      Representation("thumbnail", "jpg", OneFile("thumbnail.jpg"), stagingDir, Some(["thumbnail"]), None, None)
  {
    PosixPath.BasenameOfJoin(stagingDir, ThumbnailName);
  }

  /** ffmpeg reads the first rendered file and writes the file that the
      thumbnail representation names, inside the staging directory. */
  lemma ThumbnailArgsSpec(ffmpegPath: string, firstFilePath: string, stagingDir: string)
    ensures var args := ThumbnailArgs(ffmpegPath, firstFilePath, stagingDir);
      && |args| == 9 && args[0] == ffmpegPath && args[3] == firstFilePath
      && args[8] == PosixPath.Join(stagingDir, ThumbnailRepresentation(stagingDir).files.name)
  {
    ThumbnailSpec(stagingDir);
  }

  /** The main representation's files are the bare name exactly when one
      file matched, its name and extension are the extension, and it has
      the review tag exactly when the instance is reviewed (and no tags
      otherwise). */
  lemma MainRepresentationSpec(ext: string, files: seq<string>, stagingDir: string,
                               frameStart: int, frameEnd: int, review: bool)
    requires files != []
    ensures var r := MainRepresentation(ext, files, stagingDir, frameStart, frameEnd, review);
      && r.name == ext && r.ext == ext && r.stagingDir == stagingDir
      && (r.files.OneFile? <==> |files| == 1)
      && (r.files.OneFile? ==> r.files.name == files[0])
      && (r.files.FileList? ==> r.files.names == files)
      && (review <==> r.tags == Some(["review"]))
      && (!review <==> r.tags.None?)
  {
  }

  /** What one run of the extractor does: the exception it raises, if any;
      the ffmpeg command line, if it runs ffmpeg; and the representations it
      leaves on the instance, or None when it does not touch them. */
  datatype Outcome = Outcome(
    error: Option<Exception>,
    ffmpegArgs: Option<seq<string>>,
    written: Option<seq<Representation>>)

  /** The extractor's effect on data read from the instance. */
  function Extract(stagingDir: string, fileName: string, frameStart: int, frameEnd: int,
                   review: bool, listing: seq<string>, ffmpegPath: string,
                   ffmpegError: Option<Exception>): Outcome
  {
    if fileName == "" then Outcome(Some(ValueError(NoExtension)), None, None)
    else Publish(stagingDir, RenderedExt(fileName), frameStart, frameEnd, review, listing,
                 ffmpegPath, ffmpegError)
  }

  /** The extractor's effect once the extension is known. */
  function Publish(stagingDir: string, ext: string, frameStart: int, frameEnd: int,
                   review: bool, listing: seq<string>, ffmpegPath: string,
                   ffmpegError: Option<Exception>): Outcome
  {
    var files := Matching(listing, ext);
    if files == [] then Outcome(None, None, None)
    else
      var main := MainRepresentation(ext, files, stagingDir, frameStart, frameEnd, review);
      var args := ThumbnailArgs(ffmpegPath, PosixPath.Join(stagingDir, files[0]), stagingDir);
      if ffmpegError.Some? then Outcome(ffmpegError, Some(args), Some([main]))
      else Outcome(None, Some(args), Some([main, ThumbnailRepresentation(stagingDir)]))
  }

  /** An empty output file name is refused before anything is rendered or
      written, and nothing else is done. */
  lemma ExtractRefusesEmptyName(stagingDir: string, fileName: string, frameStart: int, frameEnd: int,
                                review: bool, listing: seq<string>, ffmpegPath: string,
                                ffmpegError: Option<Exception>)
    ensures var o := Extract(stagingDir, fileName, frameStart, frameEnd, review, listing,
                             ffmpegPath, ffmpegError);
      && (fileName == "" <==> o.error == Some(ValueError(NoExtension)) && o.written.None?)
      && (fileName == "" ==> o.ffmpegArgs.None?)
  {
    if fileName != "" {
      PublishRecords(stagingDir, RenderedExt(fileName), frameStart, frameEnd, review, listing,
                     ffmpegPath, ffmpegError);
    }
  }

  /** A render that produced no file with the extension is passed over
      silently: no exception, no ffmpeg run, no representation. */
  lemma PublishSkipsEmptyRender(stagingDir: string, ext: string, frameStart: int, frameEnd: int,
                                review: bool, listing: seq<string>, ffmpegPath: string,
                                ffmpegError: Option<Exception>)
    ensures var o := Publish(stagingDir, ext, frameStart, frameEnd, review, listing,
                             ffmpegPath, ffmpegError);
      && (o.written.None? <==> forall x :: x in listing ==> !EndsWith(x, ext))
      && (o.written.None? ==> o == Outcome(None, None, None))
  {
    MatchingSpec(listing, ext);
    var files := Matching(listing, ext);
    if files != [] {
      assert files[0] in files;
    }
  }

  /** Otherwise the instance is given its main representation first,
      ffmpeg is asked for a thumbnail of the first matching file, and the
      thumbnail's representation follows the main one unless ffmpeg
      failed, whose exception is then raised. */
  lemma PublishRecords(stagingDir: string, ext: string, frameStart: int, frameEnd: int,
                       review: bool, listing: seq<string>, ffmpegPath: string,
                       ffmpegError: Option<Exception>)
    ensures var o := Publish(stagingDir, ext, frameStart, frameEnd, review, listing,
                             ffmpegPath, ffmpegError);
      var files := Matching(listing, ext);
      files != [] ==>
        && o.error == ffmpegError
        && o.ffmpegArgs.Some? && o.ffmpegArgs.value[3] == PosixPath.Join(stagingDir, files[0])
        && files[0] in listing && EndsWith(files[0], ext)
        && o.written.Some?
        && o.written.value ==
             (var main := MainRepresentation(ext, files, stagingDir, frameStart, frameEnd, review);
              if ffmpegError.None? then [main, ThumbnailRepresentation(stagingDir)] else [main])
  {
    var files := Matching(listing, ext);
    if files != [] {
      MatchingSpec(listing, ext);
      assert files[0] in files;
    }
  }

  /** The extractor on an instance. `listing` is the staging directory's
      content after the render, `ffmpegPath` the ffmpeg executable, and
      `ffmpegError` the exception the thumbnail run raises, if any. It
      returns the exception it raises, if any, and the ffmpeg command line,
      if it ran ffmpeg. */
  method Process(instance: Instance, listing: seq<string>, ffmpegPath: string,
                 ffmpegError: Option<Exception>)
    returns (error: Option<Exception>, ffmpegArgs: Option<seq<string>>)
    modifies instance
    ensures var o := Extract(instance.stagingDir, instance.fileName, instance.frameStart,
                             instance.frameEnd, instance.review, listing, ffmpegPath, ffmpegError);
      && error == o.error && ffmpegArgs == o.ffmpegArgs
      && instance.representations == if o.written.Some? then o.written else old(instance.representations)
  {
    if instance.fileName == "" {
      return Some(ValueError(NoExtension)), None;
    }
    var ext := RenderedExt(instance.fileName);
    error, ffmpegArgs := PublishRender(instance, ext, listing, ffmpegPath, ffmpegError);
  }

  /** The part of the extractor after the extension is known: collect the
      rendered files, record the main representation, run ffmpeg and record
      the thumbnail. */
  method PublishRender(instance: Instance, ext: string, listing: seq<string>, ffmpegPath: string,
                       ffmpegError: Option<Exception>)
    returns (error: Option<Exception>, ffmpegArgs: Option<seq<string>>)
    modifies instance
    ensures var o := Publish(instance.stagingDir, ext, instance.frameStart, instance.frameEnd,
                             instance.review, listing, ffmpegPath, ffmpegError);
      && error == o.error && ffmpegArgs == o.ffmpegArgs
      && instance.representations == if o.written.Some? then o.written else old(instance.representations)
  {
    var stagingDir := instance.stagingDir;
    var files, firstFilePath := CollectRenderedFiles(stagingDir, listing, ext);
    if files == [] {
      return None, None;
    }
    var resultingFiles := if |files| == 1 then OneFile(files[0]) else FileList(files);
    var repreData := Representation(ext, ext, resultingFiles, stagingDir, None,
                                    Some(instance.frameStart), Some(instance.frameEnd));
    if instance.review {
      repreData := repreData.(tags := Some(["review"]));
    }
    assert repreData == MainRepresentation(ext, files, stagingDir, instance.frameStart,
                                           instance.frameEnd, instance.review);
    instance.representations := Some([repreData]);
    var thumbnailPath := PosixPath.Join(stagingDir, ThumbnailName);
    var args := [ffmpegPath, "-y", "-i", firstFilePath.value, "-vf", "scale=300:-1",
                 "-vframes", "1", thumbnailPath];
    assert args == ThumbnailArgs(ffmpegPath, PosixPath.Join(stagingDir, files[0]), stagingDir);
    if ffmpegError.Some? {
      return ffmpegError, Some(args);
    }
    instance.representations := Some(instance.representations.value + [
      Representation("thumbnail", "jpg", OneFile(PosixPath.Basename(thumbnailPath)), stagingDir,
                     Some(["thumbnail"]), None, None)]);
    assert instance.representations.value == [repreData, ThumbnailRepresentation(stagingDir)];
    return None, Some(args);
  }
}
