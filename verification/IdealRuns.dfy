/** Whole profiles under an ideal clock: when they plan all the requests they have room for. */
module IdealRuns {
  import opened Pacing

  ghost predicate Sound(windows: seq<Window>) {
    forall s :: 0 <= s < |windows| ==> windows[s].interval > 0 && windows[s].start < windows[s].end
  }

  /** Segments paced one after the other, each entered when the one before it is left. */
  ghost predicate IdealRun(windows: seq<Window>, entry: int, logs: seq<seq<Tick>>) {
    && |logs| == |windows|
    && (windows != [] ==>
          && IdealLog(windows[0], entry, logs[0])
          && IdealRun(windows[1..], IdealExit(windows[0], entry, logs[0]), logs[1..]))
  }

  function PlannedTotal(logs: seq<seq<Tick>>): nat {
    if logs == [] then 0 else |logs[0]| + PlannedTotal(logs[1..])
  }

  /** Entered before the end and at most one interval late. */
  predicate Punctual(w: Window, entry: int) {
    entry < w.end && entry - w.start <= w.interval
  }

  /** Each segment's last wait, which ends at the first point of its schedule past its end,
      still enters the next segment punctually. */
  predicate OvershootFits(windows: seq<Window>)
    requires forall s :: 0 <= s < |windows| ==> windows[s].interval > 0
  {
    |windows| <= 1
    || (Punctual(windows[1], Grid(windows[0], Capacity(windows[0]))) && OvershootFits(windows[1..]))
  }

  lemma {:induction false} CapacityFromFront(windows: seq<Window>)
    requires Sound(windows) && windows != []
    ensures CapacityTotal(windows) == Capacity(windows[0]) + CapacityTotal(windows[1..])
  {
    var n := |windows| - 1;
    if n == 0 {
      assert windows[..0] == [] && windows[1..] == [];
    } else {
      CapacityFromFront(windows[..n]);
      assert windows[..n][1..] == windows[1..][..n - 1];
    }
  }

  lemma {:induction false} PlannedAtMost(windows: seq<Window>, entry: int, logs: seq<seq<Tick>>)
    requires Sound(windows) && IdealRun(windows, entry, logs)
    ensures PlannedTotal(logs) <= CapacityTotal(windows)
  {
    if windows != [] {
      PlannedAtMost(windows[1..], IdealExit(windows[0], entry, logs[0]), logs[1..]);
      PlannedBounded(windows[0], logs[0]);
      CapacityFromFront(windows);
    }
  }

  /** With an ideal clock a profile plans every request it has room for if and only if it is
      entered punctually and every segment's overshoot fits the segment after it. */
  lemma {:induction false} IdealTotal(windows: seq<Window>, entry: int, logs: seq<seq<Tick>>)
    requires Sound(windows) && IdealRun(windows, entry, logs)
    ensures PlannedTotal(logs) == CapacityTotal(windows)
      <==> windows == [] || (Punctual(windows[0], entry) && OvershootFits(windows))
  {
    if windows != [] {
      var w, rest, exit := windows[0], windows[1..], IdealExit(windows[0], entry, logs[0]);
      IdealTotal(rest, exit, logs[1..]);
      PlannedAtMost(rest, exit, logs[1..]);
      PlannedBounded(w, logs[0]);
      CapacityFromFront(windows);
      IdealCount(w, entry, logs[0]);
      if Punctual(w, entry) { PromptExit(w, entry, logs[0]); }
    }
  }
}
