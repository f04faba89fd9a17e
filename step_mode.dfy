/**
 * Step mode of the mini editor and the automatic playback of a run: a cursor
 * over the trace that the tracer returns, the rules for the "next" button and
 * the step badge, and which trace entry the variable panels show.
 */
module StepMode {
  import opened Wrappers
  import opened Text
  import Editor

  /** One line event of the tracer: the line number, the locals at that point and the line's text. */
  datatype TraceEntry = TraceEntry(line: int, locals: Option<seq<(string, string)>>, source: string)

  /** What a Python run hands back. */
  datatype RunResult = RunResult(
    status: string,
    trace: Option<seq<TraceEntry>>,
    output: Option<seq<string>>,
    error: Option<string>)

  /** What the output panel shows after "start step mode" is clicked. */
  datatype StartOutcome =
    | Entered
    | ShowError(hint: string, detail: Option<string>)
    | NothingToRun
    | AnalysisFailed

  /** A run that step mode can enter: status ok and a non-empty trace. */
  predicate Steppable(result: RunResult) {
    result.status == "ok" && result.trace.Some? && |result.trace.value| > 0
  }

  // ---------------------------------------------------------------------------
  // The cursor rules
  // ---------------------------------------------------------------------------

  /** The next button is disabled exactly on the last step or beyond. */
  predicate NextDisabled(index: int, length: nat) {
    index >= length - 1
  }

  /** The cursor after one click on "next". */
  function NextIndex(index: int, length: nat): (r: int)
    ensures r == index <==> NextDisabled(index, length)
    ensures r == index || r == index + 1
    ensures index < length ==> r < length
  {
    if index < length - 1 then index + 1 else index
  }

  /** The cursor after `k` clicks on "next". */
  function NextIndexTimes(index: int, length: nat, k: nat): int
    decreases k
  {
    if k == 0 then index else NextIndexTimes(NextIndex(index, length), length, k - 1)
  }

  /** Clicking "next" `k` times from step `i` stops on the last step. */
  lemma {:induction false} NextIndexTimesStopsAtLast(index: int, length: nat, k: nat)
    requires 0 <= index < length
    ensures NextIndexTimes(index, length, k) == if index + k < length - 1 then index + k else length - 1
    decreases k
  {
    if k > 0 {
      NextIndexTimesStopsAtLast(NextIndex(index, length), length, k - 1);
    }
  }

  /** The step badge: the one-based step number out of the trace length. */
  function Badge(index: int, length: nat): (r: string)
    requires index >= -1
    ensures StartsWith(r, BadgePrefix)
  {
    BadgePrefix + Decimal(index + 1) + BadgeSeparator + Decimal(length)
  }

  const BadgePrefix := "📍 스텝 "
  const BadgeSeparator := " / "

  /**
   * Reads a badge back: the prefix, a run of digits, ` / `, and digits up
   * to the end. `None` for any other text.
   */
  function ParseBadge(s: string): Option<(nat, nat)> {
    if !StartsWith(s, BadgePrefix) then None
    else
      var p := |BadgePrefix|;
      var k := SkipForward(s, IsDigit, p);
      if k + 3 <= |s| && s[k] == ' ' && s[k + 1] == '/' && s[k + 2] == ' ' &&
         SkipForward(s, IsDigit, k + 3) == |s|
      then Some((DigitsValue(s[p..k]), DigitsValue(s[k + 3..])))
      else None
  }

  /** The badge reads back as the one-based step number and the trace length. */
  lemma BadgeRoundTrip(index: int, length: nat)
    requires index >= -1
    ensures ParseBadge(Badge(index, length)) == Some((index + 1, length))
  {
    var d1, d2 := Decimal(index + 1), Decimal(length);
    var s := Badge(index, length);
    var p := |BadgePrefix|;
    var k := p + |d1|;
    assert s == BadgePrefix + d1 + BadgeSeparator + d2;
    assert s[..p] == BadgePrefix;
    assert s[p..k] == d1;
    assert s[k] == ' ' && s[k + 1] == '/' && s[k + 2] == ' ';
    assert s[k + 3..] == d2;
    SkipForwardStops(s, IsDigit, p, k);
    SkipForwardStops(s, IsDigit, k + 3, |s|);
  }

  /** Different steps or trace lengths give different badges. */
  lemma BadgeInjective(i: int, n: nat, j: int, m: nat)
    requires i >= -1 && j >= -1
    ensures Badge(i, n) == Badge(j, m) <==> i == j && n == m
  {
    BadgeRoundTrip(i, n);
    BadgeRoundTrip(j, m);
  }

  // ---------------------------------------------------------------------------
  // The variable panels
  // ---------------------------------------------------------------------------

  /** What a variable panel shows. */
  datatype VarsView =
    | Placeholder
    | NoVariables
    | Variables(entries: seq<(string, string)>)

  /** `renderVars`: the entry at `index`, or the last one when there is none at `index`. */
  function RenderVars(trace: seq<TraceEntry>, index: int): (r: VarsView)
    ensures r == Placeholder <==> |trace| == 0
    ensures 0 <= index < |trace| ==> r == EntryView(trace[index])
    ensures |trace| > 0 && !(0 <= index < |trace|) ==> r == EntryView(trace[|trace| - 1])
  {
    if 0 <= index < |trace| then EntryView(trace[index])
    else if |trace| > 0 then EntryView(trace[|trace| - 1])
    else Placeholder
  }

  /** The rows of one entry, absent locals counting as none. */
  function EntryView(entry: TraceEntry): (r: VarsView)
    ensures r != Placeholder
  {
    var rows := entry.locals.GetOr([]);
    if |rows| == 0 then NoVariables else Variables(rows)
  }

  /** `renderMiniVars`: the placeholder before the first step or for an empty trace. */
  function RenderMiniVars(trace: seq<TraceEntry>, index: int): (r: VarsView)
    ensures r == Placeholder <==> index < 0 || |trace| == 0
    ensures 0 <= index < |trace| ==> r == EntryView(trace[index])
    ensures index >= |trace| > 0 ==> r == NoVariables
  {
    if index < 0 || |trace| == 0 then Placeholder
    else if index >= |trace| then NoVariables
    else EntryView(trace[index])
  }

  /** On a step of the trace both panels show the same thing. */
  lemma PanelsAgreeOnSteps(trace: seq<TraceEntry>, index: int)
    requires 0 <= index < |trace|
    ensures RenderMiniVars(trace, index) == RenderVars(trace, index)
  {
  }

  /** They part ways off the trace: the main panel falls back to the last step. */
  lemma PanelsDifferPastTheEnd(trace: seq<TraceEntry>)
    requires |trace| > 0 && trace[|trace| - 1].locals == Some([("x", "1")])
    ensures RenderVars(trace, |trace|) == Variables([("x", "1")])
    ensures RenderMiniVars(trace, |trace|) == NoVariables
  {
  }

  // ---------------------------------------------------------------------------
  // The mini editor's step mode
  // ---------------------------------------------------------------------------

  class MiniStepper {
    var mode: bool
    var trace: seq<TraceEntry>
    var index: int
    var output: seq<string>
    var code: string

    /** In step mode the cursor is on a step of the trace; out of it, at -1 or further on. */
    predicate Valid()
      reads this
    {
      index >= -1 && (mode ==> 0 <= index < |trace|)
    }

    /**
     * The page's initial state: no step mode, an empty trace, the cursor at
     * -1 and the editor holding its sample program `starter`.
     */
    constructor (starter: string)
      ensures Valid()
      ensures !mode && trace == [] && index == -1 && output == [] && code == starter
    {
      mode := false;
      trace := [];
      index := -1;
      output := [];
      code := starter;
    }

    /**
     * "Start step mode": `result` is what running `newCode` gave, `None` when
     * the run failed to complete. Only a steppable run enters step mode. The
     * hint for an error is chosen with the keyword `zerodivision`, which
     * Python's division-by-zero message contains.
     */
    method Start(newCode: string, result: Option<RunResult>) returns (outcome: StartOutcome)
      requires Valid()
      modifies this
      ensures Valid()
      ensures code == newCode
      ensures outcome == Entered <==> result.Some? && Steppable(result.value)
      ensures outcome == Entered ==>
                mode && trace == result.value.trace.value && index == 0 &&
                output == result.value.output.GetOr([])
      ensures outcome != Entered ==>
                mode == old(mode) && trace == old(trace) && index == old(index) && output == old(output)
      ensures result.None? ==> outcome == AnalysisFailed
      ensures result.Some? && !Steppable(result.value) && result.value.status == "error" ==>
                outcome == ShowError(Editor.FriendlyExplainIntended(result.value.error), result.value.error)
      ensures result.Some? && !Steppable(result.value) && result.value.status != "error" ==>
                outcome == NothingToRun
    {
      code := newCode;
      if result.None? {
        outcome := AnalysisFailed;
      } else if Steppable(result.value) {
        trace := result.value.trace.value;
        output := result.value.output.GetOr([]);
        index := 0;
        mode := true;
        outcome := Entered;
      } else if result.value.status == "error" {
        outcome := ShowError(Editor.FriendlyExplainIntended(result.value.error), result.value.error);
      } else {
        outcome := NothingToRun;
      }
    }

    /** "Next": one step on, unless the cursor is already on the last step. */
    method Next()
      requires Valid()
      modifies this
      ensures Valid()
      ensures index == NextIndex(old(index), |trace|)
      ensures mode == old(mode) && trace == old(trace) && output == old(output) && code == old(code)
    {
      if index < |trace| - 1 {
        index := index + 1;
      }
    }

    /** "Back to the start": the first step. */
    method Reset()
      requires Valid()
      modifies this
      ensures Valid()
      ensures index == 0
      ensures mode == old(mode) && trace == old(trace) && output == old(output) && code == old(code)
    {
      index := 0;
    }

    /** "Leave step mode": an empty trace and the cursor before the first step. */
    method Exit()
      requires Valid()
      modifies this
      ensures Valid()
      ensures !mode && trace == [] && index == -1
      ensures output == old(output) && code == old(code)
    {
      mode := false;
      trace := [];
      index := -1;
    }

    /** The next button is disabled exactly when a click on it would not move the cursor. */
    function NextButtonDisabled(): (r: bool)
      reads this
      ensures r <==> NextIndex(index, |trace|) == index
    {
      index >= |trace| - 1
    }

    /**
     * The step badge, shown only in step mode: it names a step of the trace,
     * counted from one, out of the trace length.
     */
    function StepBadge(): (r: Option<string>)
      requires Valid()
      reads this
      ensures r.Some? <==> mode
      ensures r.Some? ==> ParseBadge(r.value) == Some((index + 1, |trace|)) && 1 <= index + 1 <= |trace|
    {
      if mode then
        BadgeRoundTrip(index, |trace|);
        Some(Badge(index, |trace|))
      else None
    }

    /** The line label beside the badge: shown when the cursor is on a step. */
    function StepLine(): (r: Option<int>)
      reads this
      ensures r.Some? <==> 0 <= index < |trace|
      ensures r.Some? ==> r.value == trace[index].line
    {
      if 0 <= index < |trace| then Some(trace[index].line) else None
    }
  }

  /** In step mode the panel the mini editor shows is the current step's. */
  lemma StepModePanelIsCurrentStep(trace: seq<TraceEntry>, index: int)
    requires 0 <= index < |trace|
    ensures RenderMiniVars(trace, index) == EntryView(trace[index])
    ensures !NextDisabled(index, |trace|) <==> index + 1 < |trace|
  {
  }

  // ---------------------------------------------------------------------------
  // Automatic playback
  // ---------------------------------------------------------------------------

  /** The state of a playback: the next index to show, whether the timer runs, and what was shown. */
  datatype PlayState = PlayState(index: int, running: bool, shown: seq<int>)

  /** `startPlayback`: index 0, timer running, nothing shown yet. */
  const PlayStart := PlayState(0, true, [])

  /** One timer tick: show the current index, move on, stop once the index reaches the length. */
  function PlayTick(s: PlayState, length: nat): (r: PlayState)
    ensures r.index == s.index + 1 && r.shown == s.shown + [s.index]
    ensures r.running <==> s.index + 1 < length
  {
    PlayState(s.index + 1, s.index + 1 < length, s.shown + [s.index])
  }

  /** The state after `k` ticks, the timer firing only while it runs. */
  function PlayTicks(s: PlayState, length: nat, k: nat): PlayState
    decreases k
  {
    if k == 0 || !s.running then s else PlayTicks(PlayTick(s, length), length, k - 1)
  }

  /** The indices `0 .. n-1` in order. */
  function Range(n: nat): (r: seq<int>)
    ensures |r| == n && forall i :: 0 <= i < n ==> r[i] == i
  {
    seq(n, i => i)
  }

  /** The number of ticks a playback of a trace of `length` entries lasts. */
  function PlayLength(length: nat): nat {
    if length == 0 then 1 else length
  }

  /** After `k` ticks, while the playback lasts, indices `0 .. k-1` have been shown. */
  lemma {:induction false} PlayTicksPrefix(length: nat, k: nat)
    requires k <= PlayLength(length)
    ensures PlayTicks(PlayStart, length, k) == PlayState(k, k < PlayLength(length), Range(k))
    decreases k
  {
    if k > 0 {
      PlayTicksPrefix(length, k - 1);
      PlayTicksSnoc(PlayStart, length, k - 1);
      assert Range(k - 1) + [k - 1] == Range(k);
    }
  }

  lemma {:induction false} PlayTicksSnoc(s: PlayState, length: nat, k: nat)
    requires PlayTicks(s, length, k).running
    ensures PlayTicks(s, length, k + 1) == PlayTick(PlayTicks(s, length, k), length)
    decreases k
  {
    if k > 0 {
      PlayTicksSnoc(PlayTick(s, length), length, k - 1);
    }
  }

  /**
   * A playback shows every step of the trace once, in order, and then stops;
   * an empty trace still gets one tick, at index 0.
   */
  lemma PlaybackShowsEveryStep(length: nat)
    ensures PlayTicks(PlayStart, length, PlayLength(length)) ==
              PlayState(PlayLength(length), false, Range(PlayLength(length)))
    ensures forall k :: 0 <= k < PlayLength(length) ==> PlayTicks(PlayStart, length, k).running
  {
    PlayTicksPrefix(length, PlayLength(length));
    forall k | 0 <= k < PlayLength(length) ensures PlayTicks(PlayStart, length, k).running {
      PlayTicksPrefix(length, k);
    }
  }

  /** While it plays, the variable panel shows the step being played. */
  lemma PlaybackPanelShowsStep(trace: seq<TraceEntry>, s: PlayState)
    requires s.running && 0 <= s.index < |trace|
    ensures RenderVars(trace, s.index) == EntryView(trace[s.index])
  {
  }

  /**
   * The playback timer and the page's `latestTrace`, which every tick reads
   * afresh. A run that completes replaces `latestTrace` whether or not a
   * timer is running; the environment may interleave completions and ticks.
   */
  class Playback {
    var latestTrace: seq<TraceEntry>
    var index: int
    var running: bool
    var shown: seq<int>

    function State(): PlayState
      reads this
    {
      PlayState(index, running, shown)
    }

    constructor ()
      ensures !running && latestTrace == [] && index == 0 && shown == []
    {
      latestTrace := [];
      index := 0;
      running := false;
      shown := [];
    }

    /** `stopPlayback`: clear the timer, if one runs. */
    method Stop()
      modifies this
      ensures !running
      ensures latestTrace == old(latestTrace) && index == old(index) && shown == old(shown)
    {
      running := false;
    }

    /** `startPlayback` over the current `latestTrace`. */
    method Start()
      modifies this
      ensures latestTrace == old(latestTrace) && State() == PlayStart
    {
      Stop();
      index := 0;
      shown := [];
      running := true;
    }

    /**
     * A run has completed with trace `newTrace`: `latestTrace` is replaced,
     * and playback starts only when the run succeeded. After a failed run a
     * timer that is still running keeps its state, and its next tick reads
     * the new trace.
     */
    method RunCompleted(newTrace: seq<TraceEntry>, succeeded: bool)
      modifies this
      ensures latestTrace == newTrace
      ensures succeeded ==> State() == PlayStart
      ensures !succeeded ==> State() == old(State())
    {
      latestTrace := newTrace;
      if succeeded {
        Start();
      }
    }

    /** One firing of the timer: render the current index of `latestTrace`, advance, stop at the end. */
    method Tick() returns (panel: VarsView)
      requires running
      modifies this
      ensures State() == PlayTick(old(State()), |latestTrace|)
      ensures latestTrace == old(latestTrace)
      ensures panel == RenderVars(latestTrace, old(index))
    {
      panel := RenderVars(latestTrace, index);
      shown := shown + [index];
      index := index + 1;
      if index >= |latestTrace| {
        Stop();
      }
    }
  }
}
