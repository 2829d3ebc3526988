/** The loop that keeps the script alive while the player plays and the torrent downloads
    (stream_torrent.py:136-169). */
module Supervisor {
  import opened Text

  /** The states a VLC media player reports. */
  datatype PlayerState = NothingSpecial | Opening | Buffering | Playing | Paused | Stopped | Ended | Error

  /** One pass of the loop: whether the user interrupted the sleep at its head (Ctrl-C raises
      KeyboardInterrupt there), then the torrent's status and the player's state. */
  datatype Tick = Tick(interrupted: bool, seeding: bool, player: PlayerState, valid: bool, hasError: bool)

  /** Why the loop ended. PlaybackOver records whether the torrent was seeding, which decides
      the message printed. */
  datatype StopReason = Interrupted | PlaybackOver(seeding: bool) | SeedingIdle | HandleLost | TransferError

  datatype StreamOutcome = Exited(at: nat, reason: StopReason) | Streaming

  predicate PlaybackDone(s: PlayerState)
  {
    s == Ended || s == Error
  }

  predicate PlayingOrPaused(s: PlayerState)
  {
    s == Playing || s == Paused
  }

  /** The checks of one pass, in the order of the source. A pass that stops the loop saw an
      interrupt, a finished player, a seeding torrent, an invalid handle or an error; while the
      torrent seeds and the player plays or pauses, only the handle or an error stops it. */
  function TickStep(t: Tick): (r: Option<StopReason>)
    ensures r.Some? ==> t.interrupted || PlaybackDone(t.player) || t.seeding || !t.valid || t.hasError
    ensures r.None? ==> t.valid && !t.hasError
    ensures !t.interrupted && t.seeding && PlayingOrPaused(t.player) ==> (r.Some? <==> !t.valid || t.hasError)
  {
    if t.interrupted then Some(Interrupted)
    else if PlaybackDone(t.player) then Some(PlaybackOver(t.seeding))
    else if t.seeding && !PlayingOrPaused(t.player) then Some(SeedingIdle)
    else if !t.valid then Some(HandleLost)
    else if t.hasError then Some(TransferError)
    else None
  }

  function StreamFrom(ticks: seq<Tick>, i: nat): (r: StreamOutcome)
    requires i <= |ticks|
    ensures r.Exited? ==> i <= r.at < |ticks| && TickStep(ticks[r.at]) == Some(r.reason)
    decreases |ticks| - i
  {
    if i == |ticks| then Streaming
    else match TickStep(ticks[i])
      case Some(reason) => Exited(i, reason)
      case None => StreamFrom(ticks, i + 1)
  }

  function Stream(ticks: seq<Tick>): StreamOutcome
  {
    StreamFrom(ticks, 0)
  }

  lemma {:induction false} StreamSkips(ticks: seq<Tick>, i: nat, j: nat)
    requires i <= j <= |ticks|
    requires forall m :: i <= m < j ==> TickStep(ticks[m]).None?
    ensures StreamFrom(ticks, i) == StreamFrom(ticks, j)
    decreases j - i
  {
    if i < j {
      StreamSkips(ticks, i + 1, j);
    }
  }

  /** The first tick at or after i whose checks fire, or |ticks| when there is none; the same
      search as Readiness.FirstStop and Selection.FirstAccepted, over ticks. */
  lemma {:induction false} FirstStop(ticks: seq<Tick>, i: nat) returns (k: nat)
    requires i <= |ticks|
    requires forall m :: 0 <= m < i ==> TickStep(ticks[m]).None?
    ensures i <= k <= |ticks|
    ensures forall m :: 0 <= m < k ==> TickStep(ticks[m]).None?
    ensures k < |ticks| ==> TickStep(ticks[k]).Some?
    decreases |ticks| - i
  {
    if i == |ticks| || TickStep(ticks[i]).Some? {
      k := i;
    } else {
      k := FirstStop(ticks, i + 1);
    }
  }

  /** The loop stops at tick k for a reason exactly when tick k is the first whose checks
      fire, and the reason is the first check that fires there. */
  lemma ExitedIff(ticks: seq<Tick>, k: nat, reason: StopReason)
    ensures Stream(ticks) == Exited(k, reason) <==>
      && k < |ticks|
      && (forall m :: 0 <= m < k ==> TickStep(ticks[m]).None?)
      && TickStep(ticks[k]) == Some(reason)
  {
    var first := FirstStop(ticks, 0);
    StreamSkips(ticks, 0, first);
  }

  /** The loop is still running exactly when no tick's checks fire. */
  lemma StreamingIff(ticks: seq<Tick>)
    ensures Stream(ticks) == Streaming <==> forall m :: 0 <= m < |ticks| ==> TickStep(ticks[m]).None?
  {
    var first := FirstStop(ticks, 0);
    StreamSkips(ticks, 0, first);
  }

  /** Which check fires on a tick: an interrupt; the player ended or failed; the torrent
      seeding while the player neither plays nor pauses; the handle invalid; an error. While
      the torrent seeds and the player plays or pauses, only the handle and the error stop
      the loop. */
  lemma TickStepCases(t: Tick)
    ensures TickStep(t) == Some(Interrupted) <==> t.interrupted
    ensures TickStep(t) == Some(PlaybackOver(t.seeding)) <==> !t.interrupted && PlaybackDone(t.player)
    ensures TickStep(t) == Some(SeedingIdle) <==> !t.interrupted && t.seeding && !PlayingOrPaused(t.player) && !PlaybackDone(t.player)
    ensures !t.interrupted && t.seeding && PlayingOrPaused(t.player) ==>
      TickStep(t) == if !t.valid then Some(HandleLost) else if t.hasError then Some(TransferError) else None
    ensures TickStep(t) == None <==>
      !t.interrupted && !PlaybackDone(t.player) && !(t.seeding && !PlayingOrPaused(t.player)) && t.valid && !t.hasError
  {
  }

  /** The loop of stream_torrent.py:137-166 over the observations in order. */
  method Supervise(ticks: seq<Tick>) returns (r: StreamOutcome)
    ensures r == Stream(ticks)
  {
    var i := 0;
    while i < |ticks|
      invariant i <= |ticks|
      invariant StreamFrom(ticks, i) == Stream(ticks)
    {
      var t := ticks[i];
      if t.interrupted {
        return Exited(i, Interrupted);
      }
      if PlaybackDone(t.player) {
        return Exited(i, PlaybackOver(t.seeding));
      }
      if t.seeding && !PlayingOrPaused(t.player) {
        return Exited(i, SeedingIdle);
      }
      if !t.valid {
        return Exited(i, HandleLost);
      }
      if t.hasError {
        return Exited(i, TransferError);
      }
      i := i + 1;
    }
    return Streaming;
  }
}
