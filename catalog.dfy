/** The file list of a torrent and the candidate list of playable files built from it
    (stream_torrent.py:30-37). */
module Catalog {
  import opened Text

  /** One entry of the torrent's file list: its path inside the torrent, its size in bytes and
      the byte offset at which it starts in the torrent's concatenated piece space. */
  datatype FileEntry = FileEntry(path: string, size: nat, offset: nat)

  /** A playable file: its index in the full file list, its path and its size. */
  datatype Candidate = Candidate(index: nat, path: string, size: nat)

  const VideoExtensions: seq<string> := [".mkv", ".mp4", ".avi", ".mov", ".wmv", ".flv"]

  /** The extension test: the lower-cased path ends in one of the six video extensions. As
      every extension has four characters, that is a test of the path's last four. */
  predicate IsVideoPath(path: string)
    ensures IsVideoPath(path) <==> |path| >= 4 && Lower(path)[|path| - 4..] in VideoExtensions
  {
    exists k :: 0 <= k < |VideoExtensions| && EndsWith(Lower(path), VideoExtensions[k])
  }

  /** The candidate for each video file, in the order of the file list. */
  predicate Lists(files: seq<FileEntry>, video: seq<Candidate>)
  {
    && (forall k :: 0 <= k < |video| ==>
          && video[k].index < |files|
          && video[k].path == files[video[k].index].path
          && video[k].size == files[video[k].index].size
          && IsVideoPath(video[k].path))
    && (forall k, m :: 0 <= k < m < |video| ==> video[k].index < video[m].index)
  }

  /** The candidate list the scan over the file list builds. */
  function VideoFiles(files: seq<FileEntry>): (video: seq<Candidate>)
    ensures |video| <= |files|
    ensures Lists(files, video)
  {
    if files == [] then []
    else
      var i := |files| - 1;
      var front := VideoFiles(files[..i]);
      assert forall k :: 0 <= k < |front| ==> files[front[k].index] == files[..i][front[k].index];
      front + (if IsVideoPath(files[i].path) then [Candidate(i, files[i].path, files[i].size)] else [])
  }

  /** Every video file of the list has its candidate, so with the contract of VideoFiles the
      candidates are exactly the video files. */
  lemma {:induction false} VideoFilesComplete(files: seq<FileEntry>, i: nat)
    requires i < |files| && IsVideoPath(files[i].path)
    ensures exists k :: 0 <= k < |VideoFiles(files)| && VideoFiles(files)[k].index == i
  {
    var n := |files| - 1;
    var front := VideoFiles(files[..n]);
    if i == n {
      assert VideoFiles(files)[|front|].index == i;
    } else {
      VideoFilesComplete(files[..n], i);
      var k :| 0 <= k < |front| && front[k].index == i;
      assert VideoFiles(files)[k] == front[k];
    }
  }

  /** The candidate list is empty exactly when no path of the file list is a video path. */
  lemma NoCandidatesIff(files: seq<FileEntry>)
    ensures VideoFiles(files) == [] <==> forall i :: 0 <= i < |files| ==> !IsVideoPath(files[i].path)
  {
    forall i | 0 <= i < |files| && IsVideoPath(files[i].path)
      ensures VideoFiles(files) != []
    {
      VideoFilesComplete(files, i);
    }
  }

  /** Only video files have candidates. */
  lemma VideoFilesOnlyVideo(files: seq<FileEntry>, i: nat)
    requires i < |files| && !IsVideoPath(files[i].path)
    ensures forall k :: 0 <= k < |VideoFiles(files)| ==> VideoFiles(files)[k].index != i
  {
  }

  /** The loop of stream_torrent.py:33-37, appending one candidate per video file. */
  method BuildCandidates(files: seq<FileEntry>) returns (video: seq<Candidate>)
    ensures video == VideoFiles(files)
  {
    video := [];
    for i := 0 to |files|
      invariant video == VideoFiles(files[..i])
    {
      assert files[..i + 1][..i] == files[..i];
      if IsVideoPath(files[i].path) {
        video := video + [Candidate(i, files[i].path, files[i].size)];
      }
    }
    assert files[..|files|] == files;
  }

  /** The test ignores case: "Movie.MKV" is a video file, "notes.txt" is not. */
  lemma VideoPathExamples()
    ensures IsVideoPath("Movie.MKV")
    ensures !IsVideoPath("notes.txt")
  {
    assert Lower("Movie.MKV") == "movie.mkv";
    assert EndsWith(Lower("Movie.MKV"), VideoExtensions[0]);
    var lower := Lower("notes.txt");
    assert lower == "notes.txt";
    forall k | 0 <= k < |VideoExtensions|
      ensures !EndsWith(lower, VideoExtensions[k])
    {
      assert lower[5..] == ".txt";
    }
  }
}
