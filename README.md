# Progressive torrent streaming: the decision logic of `stream_torrent`

This project models, in Dafny, the decisions that `stream_torrent(magnet_link)` in
`stream_torrent.py` takes while it streams a video out of a torrent that is still downloading.
The libtorrent session, the VLC player and the filesystem are replaced by what the script
observes of them, and the model proves what the script does with those observations:

- **Candidate list** (`Catalog`): the files whose lower-cased path ends in `.mkv`, `.mp4`,
  `.avi`, `.mov`, `.wmv` or `.flv`, in file-list order, each with its index, path and size.
- **File selection** (`Selection`): no candidate ends the run, one candidate is taken without a
  prompt, otherwise input lines are read until Python's `int()` reads one as `n` with
  `1 <= n <= count`. The line parse follows Python's `int()` on an ASCII line
  (`Text.ParseInt`): it strips only tab, line feed, vertical tab, form feed, carriage return
  and space, not the separators 0x1C-0x1F that `str.isspace()` also accepts.
- **Priorities** (`Priorities`): the per-file vector (0 everywhere, 7 at the chosen file) built
  in an array, and the two pieces holding the file's first and last bytes raised to 7. The
  piece numbers are Python's `int(a / L)`, a truncation toward zero.
- **Wait before playback** (`Readiness`): polls until the file holds `2 * piece_length`
  bytes or the torrent seeds. It aborts on an invalid handle or an error, checked in that
  order after seeding.
- **Streaming loop** (`Supervisor`): stops on a Ctrl-C interrupt, on a player in Ended/Error,
  on a seeding torrent whose player neither plays nor pauses, on an invalid handle or on an
  error, checked in that order.
- **Finally block** (`Cleanup`): stops the player and removes the torrent. Then it deletes a
  partial file (only a regular file, only when not seeding and the path exists) and, for a
  multi-file torrent, the root directory (only when it is a directory and empty). An
  `OSError` is reported as the last action.
- **The whole run** (`Session`): `StreamTorrent` calls the component methods and is proved
  equal to the specification `Run`. The lemmas about `Run` state the ordering: no prompt or
  priority without candidates, playback only after the wait, the finally block only after
  the streaming loop.

Each modelled loop that reads observations (the prompt, the wait, the streaming loop) is a
method over a finite sequence of them, proved equal to a recursive specification function;
the candidate scan is proved against `VideoFiles`, and the position scan `FindFileIndex`
against a closed form. The metadata wait (stream_torrent.py:21-22) is not modelled. Lemmas
characterise the recursive functions ("stops at the first observation where ...", in both
directions). When the observations run out before a loop ends, the outcome says the loop is
still running.

Behaviour of the code worth noting:

- The code sets file priorities and raises two pieces. It builds no per-piece
  Skip/Normal/High map.
- When the wait aborts (invalid handle or error), the code returns before its `try` block.
  The player is not stopped, the torrent is not removed and nothing is deleted
  (`Session.RunWaitAbortSkipsFinally`).
- The finally block decides what to delete from seeding and existence only, not from why
  the loop ended.
- End of input at the prompt raises `EOFError`, which nothing catches.

## Model

| member | source | states |
|---|---|---|
| Catalog.IsVideoPath | stream_torrent.py:36 | a path passes exactly when it has at least four characters whose last four, lower-cased, are one of `.mkv`, `.mp4`, `.avi`, `.mov`, `.wmv`, `.flv` |
| Catalog.VideoFiles | stream_torrent.py:30-37 | every candidate carries the index of a file in the list, that file's path and size, and a video path; candidates are in strictly increasing index order |
| Catalog.VideoFilesComplete | stream_torrent.py:33-37 | every file whose path is a video path has a candidate |
| Catalog.NoCandidatesIff | stream_torrent.py:33-41 | the candidate list is empty exactly when no path is a video path |
| Catalog.VideoFilesOnlyVideo | stream_torrent.py:36-37 | a file whose path is not a video path has no candidate |
| Catalog.BuildCandidates | stream_torrent.py:30-37 | the appending loop builds exactly the candidate list |
| Catalog.VideoPathExamples | stream_torrent.py:36 | the extension test ignores case: `Movie.MKV` passes, `notes.txt` does not |
| Text.ParseShow | stream_torrent.py:50 | the modelled `int()` reads back what the modelled `str()` prints, for every integer, negative ones included (Python's 4300-digit limit aside) |
| Text.ParseInt | stream_torrent.py:50 | a line `int()` accepts ends, once stripped of white space, in a digit, and reads as a negative number only after a leading minus; anything else is ValueError (None) |
| Text.ParseIgnoresPadding | stream_torrent.py:49-50 | any white space typed before and after the number leaves what `int()` reads unchanged |
| Text.SeparatorNotStripped | stream_torrent.py:50 | a tab and a space around "2" are stripped, but "2" followed by the separator 0x1F is a ValueError |
| Selection.PromptFrom | stream_torrent.py:47-65 | a pick names a position below the candidate count and has read at least one line and no more than were given |
| Selection.PromptSkips | stream_torrent.py:47-65 | rejected lines are passed over and the loop continues with the next line |
| Selection.PromptPickedIff | stream_torrent.py:47-65 | the loop ends after line k exactly when line k is the first accepted one, choosing position n-1 for the n it reads |
| Selection.PromptClosedIff | stream_torrent.py:47-65 | the input runs out exactly when no line is accepted |
| Selection.RetryScenario | stream_torrent.py:47-65 | with two candidates, "abc" and "99" are rejected and "2" selects the second candidate after three lines |
| Selection.RejectsNonPositive | stream_torrent.py:50-63 | zero and negative numbers are rejected |
| Selection.Choose | stream_torrent.py:39-69 | no candidate gives NoVideoFiles and only then; one candidate is picked with no line read; a selection names a valid position and that candidate's file index |
| Selection.FindFileIndex | stream_torrent.py:52-58 | the scan finds the file index of the candidate at the chosen position, and -1 for a position outside the list: past its end, or `choiceIndex < 0` from a typed 0 or negative number |
| Selection.SelectFile | stream_torrent.py:39-69 | the selection code gives the result of `Choose` |
| Priorities.PriorityVector | stream_torrent.py:74-76 | one entry per file, 7 at the chosen file, 0 at every other |
| Priorities.FilePriorities | stream_torrent.py:74-76 | the array has one entry per file, 7 at the chosen index and 0 elsewhere |
| Priorities.TruncDiv | stream_torrent.py:93-96 | the quotient rounded toward zero, for either sign of the dividend |
| Priorities.DivBounds | stream_torrent.py:93-96 | the floor quotient of a natural number times the divisor lies within one divisor below it |
| Priorities.StartPiece | stream_torrent.py:93 | the start piece is the piece holding the file's first byte |
| Priorities.EndPiece | stream_torrent.py:95-96 | for a non-empty file, the end piece holds its last byte; an empty file at offset 0 gets piece 0 (or -1 when pieces are one byte long) |
| Priorities.PieceSpan | stream_torrent.py:86-99 | for a non-empty file, start piece <= end piece and both pieces overlap the file's bytes |
| Priorities.EmptyFileEndPiece | stream_torrent.py:93-96 | an empty file starting at piece boundary k > 0 gets end piece k - 1, a piece outside the file |
| Priorities.PieceExample | stream_torrent.py:86-96 | 16 MiB pieces, offset 100 MiB, size 50 MiB: pieces 6 and 9 |
| Priorities.Plan | stream_torrent.py:74-99 | three directives in order: file priorities with 7 at the chosen file and 0 at every other, then raising to 7 the piece holding the file's first byte, then the piece holding its last byte (for a non-empty file) |
| Priorities.PlanRaisesBoundaryPieces | stream_torrent.py:74-99 | a piece is raised to 7 exactly when it is the start or the end piece; a raised piece overlaps a non-empty file |
| Readiness.WaitFrom | stream_torrent.py:116-128 | a wait that ends does so at one of the observed polls |
| Readiness.WaitSkips | stream_torrent.py:116-128 | polls that find a short file, no seeding, a valid handle and no error are passed over |
| Readiness.WaitEndsAt | stream_torrent.py:116-128 | the wait ends at the first poll that does not keep waiting |
| Readiness.ReadyIff | stream_torrent.py:116-121 | ready at poll k exactly when earlier polls kept waiting and poll k saw two pieces on disk or seeding; never ready on a short file unless seeding |
| Readiness.InvalidatedIff | stream_torrent.py:120-124 | aborted on an invalid handle exactly when that poll saw no two pieces, no seeding and an invalid handle |
| Readiness.FailedIff | stream_torrent.py:120-127 | aborted on an error exactly when that poll saw no two pieces, no seeding, a valid handle and an error |
| Readiness.WaitingIff | stream_torrent.py:116-128 | still waiting exactly when every poll kept waiting |
| Readiness.WaitUntilReady | stream_torrent.py:116-128 | the waiting loop gives the result of `Wait` |
| Supervisor.StreamFrom | stream_torrent.py:137-166 | a loop that ends does so at an observed tick, for the reason that tick's checks give |
| Supervisor.StreamSkips | stream_torrent.py:137-166 | ticks whose checks do not fire are passed over |
| Supervisor.ExitedIff | stream_torrent.py:137-169 | the loop ends at tick k with a reason exactly when tick k is the first whose checks fire, with that reason |
| Supervisor.StreamingIff | stream_torrent.py:137-166 | the loop keeps running exactly when no tick's checks fire |
| Supervisor.TickStep | stream_torrent.py:143-166 | a pass stops the loop only on an interrupt, a finished player, seeding, an invalid handle or an error; a pass that continues saw a valid handle and no error; while seeding and Playing/Paused it stops exactly on an invalid handle or an error |
| Supervisor.TickStepCases | stream_torrent.py:143-166 | the check order: interrupt, Ended/Error, seeding and not Playing/Paused, invalid handle, error; while seeding and Playing/Paused only the handle and the error stop the loop |
| Supervisor.Supervise | stream_torrent.py:136-169 | the streaming loop gives the result of `Stream` |
| Cleanup.Teardown | stream_torrent.py:171-195 | player stopped and torrent removed first, once each; nothing deleted when seeding or the path is missing; only a regular file removed; the root removed only for a multi-file torrent, only when a directory and empty; an OSError reported once, last; no action taken twice; the file removed before the root directory |
| Session.Run | stream_torrent.py:7-195 | a bad magnet, missing info or no video file leaves no effect; a closed input happens only with two or more candidates and has read every line and rejected each; a wait abort carries an invalid handle or an error; a finished run carries the reason the streaming loop stopped for |
| Session.StreamTorrent | stream_torrent.py:7-195 | the whole run gives the events and outcome of `Run` |
| Session.RunWithoutVideo | stream_torrent.py:39-41 | with no video file, the run ends with no line read and no priority set |
| Session.RunSingleVideo | stream_torrent.py:43-77 | with one video file no line is read and the first effect is the priority vector with 7 at that file |
| Session.RunPlaybackAfterReady | stream_torrent.py:74-133 | playback starts only after the wait reported ready, right after the prompts read and the three priority directives |
| Session.RunStartsPlaybackIff | stream_torrent.py:116-133 | the player starts exactly when the run got past the wait |
| Session.RunWaitAbortSkipsFinally | stream_torrent.py:122-127 | an abort during the wait leaves only prompts and priority directives: no playback, no player stop, no torrent removal, no deletion |
| Session.RunFinallyOnce | stream_torrent.py:136-195 | the finally block runs exactly when the streaming loop ended, once, as the last effects, with the loop's reason as outcome |
| Session.OneVideoAmongThree | stream_torrent.py:30-45 | three files, one `.mkv`: it is the only candidate and is picked without a prompt |
| Session.HandleLostWhileStreaming | stream_torrent.py:161-180 | a handle lost mid-stream ends the loop with HandleLost; the player is stopped, the torrent removed and the partial file deleted |

## Left out

- Creating the libtorrent session, parsing the magnet link and waiting for metadata
  (stream_torrent.py:8-28) are foreign calls. Their result is the input `Metadata`, and the
  metadata wait is assumed to end.
- The VLC instance, media and `play()`/`stop()` (stream_torrent.py:111-133, 172) are foreign
  calls. The player is the observed `PlayerState`; starting and stopping are events.
- Filesystem calls (`os.makedirs`, `exists`, `getsize`, `isfile`, `isdir`, `listdir`,
  `remove`, `rmdir`) are oracle values in `Poll` and `DiskView`. Removals are emitted
  actions. `os.makedirs` (stream_torrent.py:106) is not modelled.
- Progress, speed and MB printing (stream_torrent.py:34, 118, 152, 158) are floats and
  output. The messages printed are not modelled.
- `time.sleep` pacing is not modelled. Ctrl-C is only an observation at the head of each
  streaming tick; an interrupt elsewhere, or during the wait (not caught there), is not modelled.
- `Priorities.StartPiece`, `Priorities.EndPiece`: the float division in `int(a / L)` is
  modelled as exact truncation. The precondition `offset + size + L <= 2^53` is where this
  matches a double division. Larger offsets, where rounding could differ, are not modelled.
- `Text.ParseInt`: Python's `int()` also accepts non-ASCII digits and strips non-ASCII white
  space. Only ASCII lines are modelled; `Text.Lower` likewise lower-cases ASCII letters only.
- `Text.ParseInt`, `Text.Show`: Python (3.11 and later, and 3.10.7, 3.9.14, 3.8.14, 3.7.14)
  raises ValueError in `int()` and `str()` on more than 4300 decimal digits, leading zeros
  included. The model has no digit limit. So a line of more than 4300 digits whose value names
  a candidate through leading zeros, such as 4300 zeros followed by "2", is accepted by the
  model, while Python raises ValueError, prints "Invalid input" and prompts again.
- Path construction with `os.path.join` and the `__main__` block (stream_torrent.py:103,
  189, 198-204) are command-line scaffolding.
- `h.status()` and `h.is_valid()` are assumed never to raise, including in the finally
  block after the torrent's removal.
- `DiskView.rootEmpty` is the root directory's emptiness as listed after the file removal.
  The effect of that removal on the listing is not derived.
