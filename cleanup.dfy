/** The finally block that ends a streaming session (stream_torrent.py:171-195): stop the
    player, remove the torrent from the session, then delete a partial download. */
module Cleanup {

  /** What the block does, in order. A removal appears when it is attempted; ReportError is the
      printed OSError that ends the block. */
  datatype Action = StopPlayer | RemoveTorrent | RemoveFile | RemoveDir | ReportError

  /** What the block observes: whether the torrent is seeding after its removal; whether the
      file's path exists and is a regular file; whether the torrent's root directory is a
      directory and is empty when it is listed (after the file's removal); and which of the
      calls raise OSError. */
  datatype DiskView = DiskView(
    seeding: bool,
    pathExists: bool,
    pathIsFile: bool,
    rootIsDir: bool,
    rootEmpty: bool,
    removeFileFails: bool,
    listingFails: bool,
    removeDirFails: bool)

  /** A partial download is deleted only when the torrent is not seeding and the path exists. */
  predicate DeletesPartial(v: DiskView)
  {
    !v.seeding && v.pathExists
  }

  /** The root directory is listed: multi-file torrent, a partial download, the file removal
      (if any) did not fail, and the root is a directory. */
  predicate ListsRoot(numFiles: nat, v: DiskView)
  {
    DeletesPartial(v) && numFiles > 1 && !(v.pathIsFile && v.removeFileFails) && v.rootIsDir
  }

  function Attempt(a: Action, fails: bool): seq<Action>
  {
    if fails then [a, ReportError] else [a]
  }

  function RootRemoval(v: DiskView): seq<Action>
  {
    if !v.rootIsDir then []
    else if v.listingFails then [ReportError]
    else if v.rootEmpty then Attempt(RemoveDir, v.removeDirFails)
    else []
  }

  function Removal(numFiles: nat, v: DiskView): seq<Action>
  {
    if !DeletesPartial(v) then []
    else if numFiles == 1 then
      if v.pathIsFile then Attempt(RemoveFile, v.removeFileFails) else []
    else if numFiles > 1 then
      if v.pathIsFile && v.removeFileFails then [RemoveFile, ReportError]
      else (if v.pathIsFile then [RemoveFile] else []) + RootRemoval(v)
    else []
  }

  /** The actions of the finally block for a torrent of numFiles files. */
  function Teardown(numFiles: nat, v: DiskView): (actions: seq<Action>)
    // the player is stopped and the torrent removed, once each, before anything else
    ensures |actions| >= 2 && actions[0] == StopPlayer && actions[1] == RemoveTorrent
    ensures StopPlayer !in actions[2..] && RemoveTorrent !in actions[2..]
    // nothing is deleted from a seeding torrent or when the path does not exist
    ensures !DeletesPartial(v) ==> actions == [StopPlayer, RemoveTorrent]
    // only a regular file is removed
    ensures RemoveFile in actions <==> DeletesPartial(v) && v.pathIsFile && numFiles >= 1
    // the root directory is removed only for a multi-file torrent, only when it is a
    // directory and empty, never when it holds anything
    ensures RemoveDir in actions <==> ListsRoot(numFiles, v) && !v.listingFails && v.rootEmpty
    ensures RemoveDir in actions ==> numFiles > 1 && v.rootIsDir && v.rootEmpty
    // an OSError is reported once, as the last action, and ends the block
    ensures ReportError in actions <==>
      || (RemoveFile in actions && v.removeFileFails)
      || (ListsRoot(numFiles, v) && v.listingFails)
      || (RemoveDir in actions && v.removeDirFails)
    ensures ReportError in actions ==> actions[|actions| - 1] == ReportError && ReportError !in actions[..|actions| - 1]
    // every action is taken at most once, and the file is removed before the root is removed
    ensures forall i, j :: 0 <= i < j < |actions| ==> actions[i] != actions[j]
    ensures forall i, j :: 0 <= i < |actions| && 0 <= j < |actions| && actions[i] == RemoveFile && actions[j] == RemoveDir ==> i < j
  {
    [StopPlayer, RemoveTorrent] + Removal(numFiles, v)
  }
}
