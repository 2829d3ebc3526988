/** Choosing the file to stream among the candidates (stream_torrent.py:39-69). */
module Selection {
  import opened Text
  import opened Catalog

  /** A line the prompt accepts: int(line) succeeds with a value n such that 1 <= n <= count.
      Zero and negative numbers are not accepted: choice_index = n - 1 then matches no
      position of the enumerate scan. */
  predicate Accepts(line: string, count: nat)
  {
    var n := ParseInt(line);
    n.Some? && 1 <= n.value <= count
  }

  /** How the retry loop ends when it starts reading at inputs[i]: the zero-based choice and
      how many lines were read in all, or Closed when the input ends first. */
  datatype Prompted = Picked(choice: nat, consumed: nat) | Closed

  function PromptFrom(inputs: seq<string>, count: nat, i: nat): (r: Prompted)
    requires i <= |inputs|
    ensures r.Picked? ==> r.choice < count && i < r.consumed <= |inputs|
    decreases |inputs| - i
  {
    if i == |inputs| then Closed
    else if Accepts(inputs[i], count) then Picked(ParseInt(inputs[i]).value - 1, i + 1)
    else PromptFrom(inputs, count, i + 1)
  }

  /** Rejected lines are skipped: the loop goes on from the first line it does not reject. */
  lemma {:induction false} PromptSkips(inputs: seq<string>, count: nat, i: nat, j: nat)
    requires i <= j <= |inputs|
    requires forall m :: i <= m < j ==> !Accepts(inputs[m], count)
    ensures PromptFrom(inputs, count, i) == PromptFrom(inputs, count, j)
    decreases j - i
  {
    if i < j {
      PromptSkips(inputs, count, i + 1, j);
    }
  }

  /** The loop stops on the k-th line exactly when that line is the first one accepted, and
      picks the position that line names. */
  lemma PromptPickedIff(inputs: seq<string>, count: nat, choice: nat, k: nat)
    ensures PromptFrom(inputs, count, 0) == Picked(choice, k) <==>
      && 1 <= k <= |inputs|
      && Accepts(inputs[k - 1], count)
      && choice == ParseInt(inputs[k - 1]).value - 1
      && forall m :: 0 <= m < k - 1 ==> !Accepts(inputs[m], count)
  {
    var r := PromptFrom(inputs, count, 0);
    if r == Picked(choice, k) {
      var first := FirstAccepted(inputs, count, 0);
      PromptSkips(inputs, count, 0, first);
      if first == |inputs| {
        assert false;
      }
    }
    if 1 <= k <= |inputs| && Accepts(inputs[k - 1], count)
      && forall m :: 0 <= m < k - 1 ==> !Accepts(inputs[m], count)
    {
      PromptSkips(inputs, count, 0, k - 1);
    }
  }

  /** The loop reaches the end of the input exactly when no line is accepted. */
  lemma PromptClosedIff(inputs: seq<string>, count: nat)
    ensures PromptFrom(inputs, count, 0) == Closed <==>
      forall m :: 0 <= m < |inputs| ==> !Accepts(inputs[m], count)
  {
    var first := FirstAccepted(inputs, count, 0);
    PromptSkips(inputs, count, 0, first);
  }

  /** The index of the first accepted line at or after i, or |inputs| when there is none; the
      same search as Readiness.FirstStop and Supervisor.FirstStop, over typed lines. */
  lemma {:induction false} FirstAccepted(inputs: seq<string>, count: nat, i: nat) returns (first: nat)
    requires i <= |inputs|
    ensures i <= first <= |inputs|
    ensures forall m :: i <= m < first ==> !Accepts(inputs[m], count)
    ensures first < |inputs| ==> Accepts(inputs[first], count)
    decreases |inputs| - i
  {
    if i == |inputs| || Accepts(inputs[i], count) {
      first := i;
    } else {
      first := FirstAccepted(inputs, count, i + 1);
    }
  }

  /** The outcome of file selection: no video file (the run returns), the zero-based position
      chosen among the candidates with the index of that file in the full list and the
      number of lines read, or the end of the input (input() raises EOFError, which nothing
      catches). */
  datatype Selection = NoVideoFiles | Selected(choice: nat, file: nat, inputsRead: nat) | InputClosed

  function Choose(video: seq<Candidate>, inputs: seq<string>): (r: Selection)
    ensures video == [] <==> r == NoVideoFiles
    ensures r.Selected? ==> r.choice < |video| && r.file == video[r.choice].index && r.inputsRead <= |inputs|
    ensures |video| == 1 ==> r == Selected(0, video[0].index, 0)
  {
    if video == [] then NoVideoFiles
    else if |video| == 1 then Selected(0, video[0].index, 0)
    else
      match PromptFrom(inputs, |video|, 0)
      case Picked(choice, k) => Selected(choice, video[choice].index, k)
      case Closed => InputClosed
  }

  /** With two candidates, "abc" is not a number and 99 is out of range, so both are
      rejected and "2" selects the second candidate after three lines. */
  lemma RetryScenario(video: seq<Candidate>)
    requires |video| == 2
    ensures Choose(video, ["abc", "99", "2"]) == Selected(1, video[1].index, 3)
  {
    var inputs := ["abc", "99", "2"];
    assert ParseInt("abc") == None by {
      assert Strip("abc") == "abc";
    }
    assert ParseInt("99") == Some(99) by {
      assert Strip("99") == "99";
      assert RunValue("99") == 99 by {
        assert "99"[..1] == "9";
      }
    }
    assert ParseInt("2") == Some(2) by {
      assert Strip("2") == "2";
    }
    PromptSkips(inputs, 2, 0, 2);
  }

  /** Zero and negative numbers never name a candidate. */
  lemma {:induction false} RejectsNonPositive(line: string, count: nat)
    requires ParseInt(line).Some? && ParseInt(line).value <= 0
    ensures !Accepts(line, count)
  {
  }

  /** The enumerate scan of stream_torrent.py:52-58: the file index of the candidate at
      position choiceIndex, or -1 when no position equals choiceIndex. */
  method FindFileIndex(video: seq<Candidate>, choiceIndex: int) returns (fileIndex: int)
    ensures 0 <= choiceIndex < |video| ==> fileIndex == video[choiceIndex].index
    ensures !(0 <= choiceIndex < |video|) ==> fileIndex == -1
  {
    fileIndex := -1;
    for i := 0 to |video|
      invariant !(0 <= choiceIndex < i)
      invariant fileIndex == -1
    {
      if i == choiceIndex {
        fileIndex := video[i].index;
        break;
      }
    }
  }

  /** stream_torrent.py:39-69: no candidate returns at once, one candidate is taken without
      reading input, otherwise lines are read until one names a candidate. */
  method SelectFile(video: seq<Candidate>, inputs: seq<string>) returns (r: Selection)
    ensures r == Choose(video, inputs)
  {
    if video == [] {
      return NoVideoFiles;
    }
    if |video| == 1 {
      return Selected(0, video[0].index, 0);
    }
    var i := 0;
    while true
      invariant i <= |inputs|
      invariant PromptFrom(inputs, |video|, i) == PromptFrom(inputs, |video|, 0)
      decreases |inputs| - i
    {
      if i == |inputs| {
        return InputClosed;
      }
      var line := inputs[i];
      i := i + 1;
      var n := ParseInt(line);
      if n.Some? {
        var choiceIndex := n.value - 1;
        var fileIndex := FindFileIndex(video, choiceIndex);
        if fileIndex != -1 {
          return Selected(choiceIndex, fileIndex, i);
        }
      }
    }
  }
}
