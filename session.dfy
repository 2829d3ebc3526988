/** One run of stream_torrent(magnet_link) from the moment the magnet link is parsed: the
    candidate list, the file selection, the download priorities, the wait before playback,
    the streaming loop and the finally block, with every foreign call replaced by what it
    observed. */
module Session {
  import opened Text
  import opened Catalog
  import opened Selection
  import opened Priorities
  import opened Readiness
  import opened Supervisor
  import opened Cleanup

  /** The torrent's metadata: its file list and its piece length. */
  datatype Torrent = Torrent(files: seq<FileEntry>, pieceLength: nat)

  /** What parsing the magnet link and fetching the metadata gave: a parse error, metadata
      without torrent info, or the torrent. */
  datatype Metadata = ParseFailed | NoInfo | Info(torrent: Torrent)

  /** Piece length is positive, and every file's piece arithmetic is exact in doubles. */
  predicate WellFormed(t: Torrent)
  {
    && t.pieceLength > 0
    && forall i :: 0 <= i < |t.files| ==> t.files[i].offset + t.files[i].size + t.pieceLength <= ExactFloatLimit
  }

  /** The effects of a run on the user, the engine and the player, in order. */
  datatype Event =
    | Prompt(line: string)
    | Apply(directive: Directive)
    | StartPlayback
    | Finally(action: Action)

  /** Where the run ended. BadMagnet, NoTorrentInfo, NoVideo and WaitAborted are the returns
      before the player starts; SelectionClosed is the EOFError input() raises at the end of
      the input; StillWaiting and StillStreaming are a wait or a loop that had not ended when
      the observations ran out; Finished is the streaming loop's end, after the finally block. */
  datatype Outcome =
    | BadMagnet
    | NoTorrentInfo
    | NoVideo
    | SelectionClosed
    | WaitAborted(wait: WaitOutcome)
    | StillWaiting
    | StillStreaming
    | Finished(reason: StopReason)

  function Prompts(lines: seq<string>): (events: seq<Event>)
    ensures |events| == |lines|
    ensures forall k :: 0 <= k < |lines| ==> events[k] == Prompt(lines[k])
  {
    if lines == [] then [] else [Prompt(lines[0])] + Prompts(lines[1..])
  }

  function Applied(directives: seq<Directive>): (events: seq<Event>)
    ensures |events| == |directives|
    ensures forall k :: 0 <= k < |directives| ==> events[k] == Apply(directives[k])
  {
    if directives == [] then [] else [Apply(directives[0])] + Applied(directives[1..])
  }

  function Finalized(actions: seq<Action>): (events: seq<Event>)
    ensures |events| == |actions|
    ensures forall k :: 0 <= k < |actions| ==> events[k] == Finally(actions[k])
  {
    if actions == [] then [] else [Finally(actions[0])] + Finalized(actions[1..])
  }

  /** The run as a function of its observations: the magnet link's parse and the metadata, the
      lines typed at the prompt, the polls of the wait, the ticks of the streaming loop and what
      the finally block finds on disk. */
  function Run(meta: Metadata, inputs: seq<string>, polls: seq<Poll>, ticks: seq<Tick>, disk: DiskView): (r: (seq<Event>, Outcome))
    requires meta.Info? ==> WellFormed(meta.torrent)
    ensures r.1 == BadMagnet || r.1 == NoTorrentInfo || r.1 == NoVideo ==> r.0 == []
    ensures r.1 == SelectionClosed ==> r.0 == Prompts(inputs)
    ensures r.1 == SelectionClosed ==>
      && meta.Info? && |VideoFiles(meta.torrent.files)| >= 2
      && forall m :: 0 <= m < |inputs| ==> !Accepts(inputs[m], |VideoFiles(meta.torrent.files)|)
    ensures r.1.WaitAborted? ==> r.1.wait.Invalidated? || r.1.wait.Failed?
    ensures r.1.Finished? ==> Stream(ticks).Exited? && Stream(ticks).reason == r.1.reason
  {
    match meta
    case ParseFailed => ([], BadMagnet)
    case NoInfo => ([], NoTorrentInfo)
    case Info(t) =>
      var video := VideoFiles(t.files);
      PromptClosedIff(inputs, |video|);
      match Choose(video, inputs)
      case NoVideoFiles => ([], NoVideo)
      case InputClosed => (Prompts(inputs), SelectionClosed)
      case Selected(_, file, read) =>
        var planned := Prompts(inputs[..read]) + Applied(Plan(t.files, file, t.pieceLength));
        match Wait(polls, t.pieceLength)
        case Waiting => (planned, StillWaiting)
        case Ready(_, _) =>
          var playing := planned + [StartPlayback];
          (match Stream(ticks)
           case Streaming => (playing, StillStreaming)
           case Exited(_, reason) => (playing + Finalized(Teardown(|t.files|, disk)), Finished(reason)))
        case Invalidated(_) => (planned, WaitAborted(Wait(polls, t.pieceLength)))
        case Failed(_) => (planned, WaitAborted(Wait(polls, t.pieceLength)))
  }

  /** stream_torrent(magnet_link) with the component loops run as methods. */
  method StreamTorrent(meta: Metadata, inputs: seq<string>, polls: seq<Poll>, ticks: seq<Tick>, disk: DiskView)
    returns (trace: seq<Event>, outcome: Outcome)
    requires meta.Info? ==> WellFormed(meta.torrent)
    ensures (trace, outcome) == Run(meta, inputs, polls, ticks, disk)
  {
    if meta.ParseFailed? {
      return [], BadMagnet;
    }
    if meta.NoInfo? {
      return [], NoTorrentInfo;
    }
    var t := meta.torrent;
    var video := BuildCandidates(t.files);
    var selection := SelectFile(video, inputs);
    if selection.NoVideoFiles? {
      return [], NoVideo;
    }
    if selection.InputClosed? {
      return Prompts(inputs), SelectionClosed;
    }
    var file := selection.file;
    trace := Prompts(inputs[..selection.inputsRead]);
    var priorities := FilePriorities(|t.files|, file);
    var f := t.files[file];
    var startPiece := StartPiece(f.offset, t.pieceLength);
    var endPiece := EndPiece(f.offset, f.size, t.pieceLength);
    trace := trace + [Apply(SetFilePriorities(priorities[..])),
                      Apply(SetPiecePriority(startPiece, TopPriority)),
                      Apply(SetPiecePriority(endPiece, TopPriority))];
    assert Applied(Plan(t.files, file, t.pieceLength)) == trace[|trace| - 3..];
    var wait := WaitUntilReady(polls, t.pieceLength);
    if wait.Waiting? {
      return trace, StillWaiting;
    }
    if !wait.Ready? {
      return trace, WaitAborted(wait);
    }
    trace := trace + [StartPlayback];
    var streamed := Supervise(ticks);
    if streamed.Streaming? {
      return trace, StillStreaming;
    }
    trace := trace + Finalized(Teardown(|t.files|, disk));
    outcome := Finished(streamed.reason);
  }

  /** Without a video file the run returns before any line is read and before any priority
      is set. */
  lemma RunWithoutVideo(t: Torrent, inputs: seq<string>, polls: seq<Poll>, ticks: seq<Tick>, disk: DiskView)
    requires WellFormed(t)
    requires forall i :: 0 <= i < |t.files| ==> !IsVideoPath(t.files[i].path)
    ensures Run(Info(t), inputs, polls, ticks, disk) == ([], NoVideo)
  {
    NoCandidatesIff(t.files);
  }

  /** With exactly one video file no line is read: the run's first effect is the priority
      vector with 7 at that file's index. */
  lemma RunSingleVideo(t: Torrent, inputs: seq<string>, polls: seq<Poll>, ticks: seq<Tick>, disk: DiskView)
    requires WellFormed(t)
    requires |VideoFiles(t.files)| == 1
    ensures var (trace, outcome) := Run(Info(t), inputs, polls, ticks, disk);
      && |trace| >= 3
      && (forall k :: 0 <= k < |trace| ==> !trace[k].Prompt?)
      && trace[0] == Apply(SetFilePriorities(PriorityVector(|t.files|, VideoFiles(t.files)[0].index)))
  {
    var (trace, outcome) := Run(Info(t), inputs, polls, ticks, disk);
    assert inputs[..0] == [];
  }

  /** Playback starts only after the wait reported ready, right after the prompts that were
      read and the three priority directives of the plan. */
  lemma RunPlaybackAfterReady(meta: Metadata, inputs: seq<string>, polls: seq<Poll>, ticks: seq<Tick>, disk: DiskView)
    requires meta.Info? ==> WellFormed(meta.torrent)
    ensures var (trace, outcome) := Run(meta, inputs, polls, ticks, disk);
      StartPlayback in trace ==>
        && meta.Info?
        && Wait(polls, meta.torrent.pieceLength).Ready?
        && var sel := Choose(VideoFiles(meta.torrent.files), inputs);
        && sel.Selected?
        && |trace| >= sel.inputsRead + 4
        && trace[..sel.inputsRead] == Prompts(inputs[..sel.inputsRead])
        && trace[sel.inputsRead..sel.inputsRead + 3] == Applied(Plan(meta.torrent.files, sel.file, meta.torrent.pieceLength))
        && trace[sel.inputsRead + 3] == StartPlayback
  {
    var (trace, outcome) := Run(meta, inputs, polls, ticks, disk);
    if StartPlayback in trace {
      RunStartsPlaybackIff(meta, inputs, polls, ticks, disk);
      var t := meta.torrent;
      var sel := Choose(VideoFiles(t.files), inputs);
      assert sel.Selected? && Wait(polls, t.pieceLength).Ready?;
      var planned := Prompts(inputs[..sel.inputsRead]) + Applied(Plan(t.files, sel.file, t.pieceLength));
      assert trace[..|planned| + 1] == planned + [StartPlayback];
    }
  }

  /** The player starts exactly when the wait reported ready and the run got past it. */
  lemma RunStartsPlaybackIff(meta: Metadata, inputs: seq<string>, polls: seq<Poll>, ticks: seq<Tick>, disk: DiskView)
    requires meta.Info? ==> WellFormed(meta.torrent)
    ensures var (trace, outcome) := Run(meta, inputs, polls, ticks, disk);
      StartPlayback in trace <==> outcome.StillStreaming? || outcome.Finished?
  {
    var (trace, outcome) := Run(meta, inputs, polls, ticks, disk);
    if meta.Info? {
      var t := meta.torrent;
      var sel := Choose(VideoFiles(t.files), inputs);
      if sel.Selected? {
        var planned := Prompts(inputs[..sel.inputsRead]) + Applied(Plan(t.files, sel.file, t.pieceLength));
        assert StartPlayback !in planned;
      } else if sel.InputClosed? {
        assert StartPlayback !in Prompts(inputs);
      }
    }
  }

  /** An abort during the wait returns before the try block: the player is never started nor
      stopped, the torrent is not removed and nothing is deleted. */
  lemma RunWaitAbortSkipsFinally(meta: Metadata, inputs: seq<string>, polls: seq<Poll>, ticks: seq<Tick>, disk: DiskView)
    requires meta.Info? ==> WellFormed(meta.torrent)
    ensures var (trace, outcome) := Run(meta, inputs, polls, ticks, disk);
      outcome.WaitAborted? ==>
        && (outcome.wait.Invalidated? || outcome.wait.Failed?)
        && forall k :: 0 <= k < |trace| ==> trace[k].Prompt? || trace[k].Apply?
  {
  }

  /** The finally block runs exactly when the streaming loop ended, once, at the end of the
      run: its actions (which stop the player and remove the torrent once each) follow every
      other effect, and the outcome is the reason the loop ended. */
  lemma RunFinallyOnce(meta: Metadata, inputs: seq<string>, polls: seq<Poll>, ticks: seq<Tick>, disk: DiskView)
    requires meta.Info? ==> WellFormed(meta.torrent)
    ensures var (trace, outcome) := Run(meta, inputs, polls, ticks, disk);
      && ((exists k :: 0 <= k < |trace| && trace[k].Finally?) <==> outcome.Finished?)
      && (outcome.Finished? ==>
            && meta.Info?
            && Stream(ticks) == Exited(Stream(ticks).at, outcome.reason)
            && var fin := Finalized(Teardown(|meta.torrent.files|, disk));
            && |fin| < |trace|
            && trace[|trace| - |fin|..] == fin
            && forall k :: 0 <= k < |trace| - |fin| ==> !trace[k].Finally?)
  {
    var (trace, outcome) := Run(meta, inputs, polls, ticks, disk);
    if meta.Info? {
      var t := meta.torrent;
      var sel := Choose(VideoFiles(t.files), inputs);
      if sel.InputClosed? {
        assert forall k :: 0 <= k < |trace| ==> trace[k].Prompt?;
      } else if sel.Selected? {
        var planned := Prompts(inputs[..sel.inputsRead]) + Applied(Plan(t.files, sel.file, t.pieceLength));
        assert forall k :: 0 <= k < |planned| ==> planned[k].Prompt? || planned[k].Apply?;
        if outcome.Finished? {
          var fin := Finalized(Teardown(|t.files|, disk));
          assert trace == planned + [StartPlayback] + fin;
          assert trace[|planned| + 1].Finally?;
        }
      }
    }
  }

  /** A torrent of three files, one a video, streams that video without a prompt. */
  lemma OneVideoAmongThree(inputs: seq<string>)
    ensures var files := [FileEntry("show/notes.txt", 1024, 0),
                          FileEntry("show/Episode.mkv", 800 * 0x10_0000, 1024),
                          FileEntry("show/readme.txt", 2048, 1024 + 800 * 0x10_0000)];
      && VideoFiles(files) == [Candidate(1, "show/Episode.mkv", 800 * 0x10_0000)]
      && Choose(VideoFiles(files), inputs) == Selected(0, 1, 0)
  {
    var files := [FileEntry("show/notes.txt", 1024, 0),
                  FileEntry("show/Episode.mkv", 800 * 0x10_0000, 1024),
                  FileEntry("show/readme.txt", 2048, 1024 + 800 * 0x10_0000)];
    var front := files[..2];
    assert front == [files[0], files[1]];
    CandidatesOfTwo(front);
    NotVideo("show/readme.txt");
    assert files[..|files| - 1] == front;
  }

  lemma CandidatesOfTwo(front: seq<FileEntry>)
    requires front == [FileEntry("show/notes.txt", 1024, 0), FileEntry("show/Episode.mkv", 800 * 0x10_0000, 1024)]
    ensures VideoFiles(front) == [Candidate(1, "show/Episode.mkv", 800 * 0x10_0000)]
  {
    NotVideo("show/notes.txt");
    assert IsVideoPath("show/Episode.mkv") by {
      assert Lower("show/Episode.mkv")[12..] == ".mkv";
    }
    assert VideoFiles(front[..1]) == [] by {
      assert front[..1][..0] == [];
    }
    assert front[..|front| - 1] == front[..1];
  }

  lemma NotVideo(path: string)
    requires |path| >= 4 && path[|path| - 4..] == ".txt"
    ensures !IsVideoPath(path)
  {
    assert Lower(path)[|path| - 4..] == ".txt";
  }

  /** A handle that becomes invalid while streaming ends the loop with HandleLost; the finally
      block then stops the player, removes the torrent and deletes the partial single file. */
  lemma HandleLostWhileStreaming(files: seq<FileEntry>, polls: seq<Poll>, disk: DiskView, player: PlayerState)
    requires |files| == 1 && IsVideoPath(files[0].path)
    requires WellFormed(Torrent(files, 0x4_0000))
    requires |polls| == 1 && HasTwoPieces(polls[0], 0x4_0000)
    requires !PlaybackDone(player) && !disk.seeding && disk.pathExists && disk.pathIsFile && !disk.removeFileFails
    ensures var (trace, outcome) := Run(Info(Torrent(files, 0x4_0000)), [], polls, [Tick(false, false, player, false, false)], disk);
      && outcome == Finished(HandleLost)
      && trace[|trace| - 3..] == [Finally(StopPlayer), Finally(RemoveTorrent), Finally(RemoveFile)]
  {
    var t := Torrent(files, 0x4_0000);
    var video := VideoFiles(files);
    assert files[..0] == [];
    assert video == [Candidate(0, files[0].path, files[0].size)];
    var ticks := [Tick(false, false, player, false, false)];
    assert Stream(ticks) == Exited(0, HandleLost);
    var actions := Teardown(1, disk);
    assert actions == [StopPlayer, RemoveTorrent, RemoveFile];
  }
}
