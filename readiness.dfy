/** The wait before playback starts (stream_torrent.py:116-128): the loop polls the file on
    disk and the torrent's status until the file holds two pieces' worth of bytes, the torrent
    is seeding, or the transfer fails. */
module Readiness {

  /** What one pass of the loop observes: whether the file exists and its size (the loop
      condition), then the torrent's status: seeding, the handle's validity, an error code. */
  datatype Poll = Poll(fileExists: bool, fileSize: nat, seeding: bool, valid: bool, hasError: bool)

  /** How the wait ends: ready at poll `at` (through the size test, or because the torrent is
      seeding), aborted at poll `at` because the handle became invalid or the status carried an
      error, or still waiting when the observations run out. */
  datatype WaitOutcome =
    | Ready(at: nat, bySeeding: bool)
    | Invalidated(at: nat)
    | Failed(at: nat)
    | Waiting

  /** The loop condition is false: the file exists and holds at least two pieces. */
  predicate HasTwoPieces(p: Poll, pieceLength: nat)
  {
    p.fileExists && p.fileSize >= pieceLength * 2
  }

  /** A poll after which the loop sleeps and polls again. */
  predicate KeepsWaiting(p: Poll, pieceLength: nat)
  {
    !HasTwoPieces(p, pieceLength) && !p.seeding && p.valid && !p.hasError
  }

  /** The wait from poll i on: the size test first, then seeding, then validity, then the error. */
  function WaitFrom(polls: seq<Poll>, pieceLength: nat, i: nat): (r: WaitOutcome)
    requires i <= |polls|
    ensures r.Ready? || r.Invalidated? || r.Failed? ==> i <= r.at < |polls|
    decreases |polls| - i
  {
    if i == |polls| then Waiting
    else
      var p := polls[i];
      if HasTwoPieces(p, pieceLength) then Ready(i, false)
      else if p.seeding then Ready(i, true)
      else if !p.valid then Invalidated(i)
      else if p.hasError then Failed(i)
      else WaitFrom(polls, pieceLength, i + 1)
  }

  function Wait(polls: seq<Poll>, pieceLength: nat): WaitOutcome
  {
    WaitFrom(polls, pieceLength, 0)
  }

  /** Polls that keep waiting are passed over. */
  lemma {:induction false} WaitSkips(polls: seq<Poll>, pieceLength: nat, i: nat, j: nat)
    requires i <= j <= |polls|
    requires forall m :: i <= m < j ==> KeepsWaiting(polls[m], pieceLength)
    ensures WaitFrom(polls, pieceLength, i) == WaitFrom(polls, pieceLength, j)
    decreases j - i
  {
    if i < j {
      WaitSkips(polls, pieceLength, i + 1, j);
    }
  }

  /** The wait ends at the first poll that does not keep waiting. */
  lemma {:induction false} WaitEndsAt(polls: seq<Poll>, pieceLength: nat, k: nat)
    requires k <= |polls|
    requires forall m :: 0 <= m < k ==> KeepsWaiting(polls[m], pieceLength)
    requires k < |polls| ==> !KeepsWaiting(polls[k], pieceLength)
    ensures k == |polls| ==> Wait(polls, pieceLength) == Waiting
    ensures k < |polls| ==> Wait(polls, pieceLength) == WaitFrom(polls, pieceLength, k)
  {
    WaitSkips(polls, pieceLength, 0, k);
  }

  /** The first poll at or after i that does not keep waiting, or |polls| when there is none.
      Each loop of the script has a search of this shape over its own observations:
      Selection.FirstAccepted for the prompt, Supervisor.FirstStop for the streaming loop. */
  lemma {:induction false} FirstStop(polls: seq<Poll>, pieceLength: nat, i: nat) returns (k: nat)
    requires i <= |polls|
    requires forall m :: 0 <= m < i ==> KeepsWaiting(polls[m], pieceLength)
    ensures i <= k <= |polls|
    ensures forall m :: 0 <= m < k ==> KeepsWaiting(polls[m], pieceLength)
    ensures k < |polls| ==> !KeepsWaiting(polls[k], pieceLength)
    decreases |polls| - i
  {
    if i == |polls| || !KeepsWaiting(polls[i], pieceLength) {
      k := i;
    } else {
      k := FirstStop(polls, pieceLength, i + 1);
    }
  }

  /** Ready at poll k exactly when every earlier poll kept waiting and poll k found two pieces
      on disk or a seeding torrent; bySeeding tells which. So the wait never reports ready while
      the file is missing or shorter than two pieces, unless the torrent is seeding, and a
      seeding torrent is ready whatever the size. */
  lemma ReadyIff(polls: seq<Poll>, pieceLength: nat, k: nat, bySeeding: bool)
    ensures Wait(polls, pieceLength) == Ready(k, bySeeding) <==>
      && k < |polls|
      && (forall m :: 0 <= m < k ==> KeepsWaiting(polls[m], pieceLength))
      && (HasTwoPieces(polls[k], pieceLength) || polls[k].seeding)
      && bySeeding == !HasTwoPieces(polls[k], pieceLength)
  {
    var first := FirstStop(polls, pieceLength, 0);
    WaitEndsAt(polls, pieceLength, first);
  }

  /** Aborted because the handle is invalid at poll k exactly when every earlier poll kept
      waiting and poll k found the file short, the torrent not seeding and the handle invalid:
      seeding is checked before validity. */
  lemma InvalidatedIff(polls: seq<Poll>, pieceLength: nat, k: nat)
    ensures Wait(polls, pieceLength) == Invalidated(k) <==>
      && k < |polls|
      && (forall m :: 0 <= m < k ==> KeepsWaiting(polls[m], pieceLength))
      && !HasTwoPieces(polls[k], pieceLength) && !polls[k].seeding && !polls[k].valid
  {
    var first := FirstStop(polls, pieceLength, 0);
    WaitEndsAt(polls, pieceLength, first);
  }

  /** Aborted on an error at poll k exactly when every earlier poll kept waiting and poll k
      found the file short, the torrent not seeding, the handle valid and an error set:
      validity is checked before the error. */
  lemma FailedIff(polls: seq<Poll>, pieceLength: nat, k: nat)
    ensures Wait(polls, pieceLength) == Failed(k) <==>
      && k < |polls|
      && (forall m :: 0 <= m < k ==> KeepsWaiting(polls[m], pieceLength))
      && !HasTwoPieces(polls[k], pieceLength) && !polls[k].seeding && polls[k].valid && polls[k].hasError
  {
    var first := FirstStop(polls, pieceLength, 0);
    WaitEndsAt(polls, pieceLength, first);
  }

  /** Still waiting exactly when every poll kept waiting. */
  lemma WaitingIff(polls: seq<Poll>, pieceLength: nat)
    ensures Wait(polls, pieceLength) == Waiting <==>
      forall m :: 0 <= m < |polls| ==> KeepsWaiting(polls[m], pieceLength)
  {
    var first := FirstStop(polls, pieceLength, 0);
    WaitEndsAt(polls, pieceLength, first);
  }

  /** The loop of stream_torrent.py:116-128 over the observations in order. */
  method WaitUntilReady(polls: seq<Poll>, pieceLength: nat) returns (r: WaitOutcome)
    ensures r == Wait(polls, pieceLength)
  {
    var i := 0;
    while i < |polls| && !HasTwoPieces(polls[i], pieceLength)
      invariant i <= |polls|
      invariant WaitFrom(polls, pieceLength, i) == Wait(polls, pieceLength)
    {
      var p := polls[i];
      if p.seeding {
        return Ready(i, true);
      }
      if !p.valid {
        return Invalidated(i);
      }
      if p.hasError {
        return Failed(i);
      }
      i := i + 1;
    }
    if i == |polls| {
      return Waiting;
    }
    return Ready(i, false);
  }
}
