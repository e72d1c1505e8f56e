/** The round, score and timer logic of the quiz screen (src/screens/GameScreen.tsx).
    A round is started, counts down one tick per second from 30, and ends either when the
    countdown reaches 0 (a point) or when it is skipped (no point); the answer is then shown
    until the next round is started. The screen's state is the value `Screen`; the handlers
    of the component are the methods of `Game`, each proved to perform the pure step of the
    same name; the render's choice of panel, button and answer label are functions of the
    state. The playback service's calls are represented by how they settle. */
module GameScreen {
  import opened Async
  import opened SpotifyService

  /** Length of a round, in ticks of the one-second interval. */
  const RoundTicks := 30

  /** The component state, plus the live interval (`timerArmed`, with the countdown
      `timeRemaining` it closes over) and the outcome of the last round (`lastEarned`). */
  datatype Screen = Screen(
    round: int,
    score: int,
    timeLeft: int,
    isPlaying: bool,
    showAnswer: bool,
    track: Option<Track>,
    timerArmed: bool,
    timeRemaining: int,
    lastEarned: bool)

  /** The state the screen mounts with: round 1, no points, 30 seconds, nothing playing, no
      answer, no track, no interval. */
  function Initial(): (s: Screen)
    ensures Invariant(s) && Phase(s) == Ready
  {
    Screen(1, 0, RoundTicks, false, false, None, false, 0, false)
  }

  /** What holds in every state the handlers can reach. */
  predicate Invariant(s: Screen) {
    && s.round >= 1
    && 0 <= s.score <= s.round
    && (!s.showAnswer ==> s.score < s.round)
    && s.timerArmed == s.isPlaying
    && (s.isPlaying ==> !s.showAnswer && s.track.Some? && 0 < s.timeRemaining <= RoundTicks && s.timeLeft == s.timeRemaining)
    && (s.showAnswer ==> s.track.Some?)
  }

  // ---------------------------------------------------------------------------------------
  // The render

  datatype GamePhase = Ready | Playing | Answer

  /** The panel the game area shows. */
  function Phase(s: Screen): GamePhase {
    if !s.isPlaying && !s.showAnswer then Ready
    else if s.isPlaying then Playing
    else Answer
  }

  datatype RoundButton = StartButton | SkipButton | NextButton

  /** The one round button the controls show besides Logout. */
  function Button(s: Screen): RoundButton {
    match Phase(s)
    case Ready => StartButton
    case Playing => SkipButton
    case Answer => NextButton
  }

  /** The phase is read off the two flags: ready iff neither is set, playing iff `isPlaying`,
      and the answer otherwise; Start, Skip and Next are each offered in exactly one phase. */
  lemma PhaseFromFlags(s: Screen)
    ensures Phase(s) == Ready <==> !s.isPlaying && !s.showAnswer
    ensures Phase(s) == Playing <==> s.isPlaying
    ensures Phase(s) == Answer <==> !s.isPlaying && s.showAnswer
    ensures Button(s) == StartButton <==> Phase(s) == Ready
    ensures Button(s) == SkipButton <==> Phase(s) == Playing
    ensures Button(s) == NextButton <==> Phase(s) == Answer
  {
  }

  datatype AnswerLabel = Correct | Skipped

  /** The label of the answer panel as the render writes it: "Correct" iff
      `score >= round - 1`. */
  function AnswerLabelAsWritten(s: Screen): AnswerLabel {
    if s.score >= s.round - 1 then Correct else Skipped
  }

  /** The label the answer panel means to show: whether the round just ended earned its
      point. */
  function ResultLabel(s: Screen): AnswerLabel {
    if s.lastEarned then Correct else Skipped
  }

  // ---------------------------------------------------------------------------------------
  // The handlers, as steps on the state

  /** `endRound(earned)`: playback stops, the point is added iff it was earned, and the
      answer is shown. */
  function End(s: Screen, earned: bool): Screen {
    s.(isPlaying := false, score := if earned then s.score + 1 else s.score,
       showAnswer := true, lastEarned := earned)
  }

  /** `startRound()`: hides the answer and resets the clock, then fetches a track and plays
      it; only when both succeed is the round playing and the interval armed. A failure is
      caught and leaves the round ready to start again. */
  function Start(s: Screen, fetched: Settled<Track>, played: Settled<()>): Screen {
    var reset := s.(showAnswer := false, timeLeft := RoundTicks);
    if fetched.Rejected? then reset
    else
      var loaded := reset.(track := Some(fetched.value));
      if played.Rejected? then loaded
      else loaded.(isPlaying := true, timerArmed := true, timeRemaining := RoundTicks)
  }

  /** One firing of the interval: the countdown drops by one and is shown; at 0 the interval
      is cleared and the round ends with a point. */
  function Tick(s: Screen): Screen {
    var r := s.timeRemaining - 1;
    var counted := s.(timeRemaining := r, timeLeft := r);
    if r <= 0 then End(counted.(timerArmed := false), true) else counted
  }

  /** `skipRound()`: clears the interval and ends the round without a point. */
  function Skip(s: Screen): Screen {
    End(s.(timerArmed := false), false)
  }

  /** `nextRound()`: the next round number, the answer hidden, and a new start. */
  function Next(s: Screen, fetched: Settled<Track>, played: Settled<()>): Screen {
    Start(s.(round := s.round + 1, showAnswer := false), fetched, played)
  }

  /** The interval firing `k` times, or until it is cleared. */
  function RunTicks(s: Screen, k: nat): Screen
    decreases k
  {
    if k == 0 || !s.timerArmed then s else RunTicks(Tick(s), k - 1)
  }

  // ---------------------------------------------------------------------------------------
  // Properties of the steps

  /** `startRound` always hides the answer and shows 30 seconds; it plays and arms the
      interval exactly when the fetch and the play both succeed; round and score stay. */
  lemma StartOutcome(s: Screen, fetched: Settled<Track>, played: Settled<()>)
    requires Invariant(s) && Phase(s) == Ready
    ensures var t := Start(s, fetched, played);
      && !t.showAnswer && t.timeLeft == RoundTicks
      && t.round == s.round && t.score == s.score
      && (t.isPlaying <==> fetched.Resolved? && played.Resolved?)
      && (t.timerArmed <==> fetched.Resolved? && played.Resolved?)
      && (fetched.Resolved? ==> t.track == Some(fetched.value))
      && (fetched.Rejected? ==> t.track == s.track)
      && Invariant(t)
      && Phase(t) == (if fetched.Resolved? && played.Resolved? then Playing else Ready)
  {
  }

  /** `endRound` stops the round, shows the answer and adds a point iff one was earned;
      round and track are kept. */
  lemma EndOutcome(s: Screen, earned: bool)
    ensures var t := End(s, earned);
      && !t.isPlaying && t.showAnswer
      && t.score == s.score + (if earned then 1 else 0)
      && t.round == s.round && t.track == s.track
      && Phase(t) == Answer
      && ResultLabel(t) == (if earned then Correct else Skipped)
  {
  }

  /** A skip clears the interval and ends the round with no point, and keeps the invariant. */
  lemma SkipOutcome(s: Screen)
    requires Invariant(s) && Phase(s) == Playing
    ensures var t := Skip(s);
      !t.timerArmed && t.score == s.score && Phase(t) == Answer && Invariant(t)
  {
  }

  /** `nextRound` advances the round by exactly one, and then behaves as a start. */
  lemma NextOutcome(s: Screen, fetched: Settled<Track>, played: Settled<()>)
    requires Invariant(s) && Phase(s) == Answer
    ensures var t := Next(s, fetched, played);
      && t.round == s.round + 1 && t.score == s.score && !t.showAnswer
      && (Phase(t) == Playing <==> fetched.Resolved? && played.Resolved?)
      && Invariant(t)
  {
    var u := s.(round := s.round + 1, showAnswer := false);
    assert Invariant(u) && Phase(u) == Ready;
    StartOutcome(u, fetched, played);
  }

  /** Every tick takes exactly one second off the countdown and shows it; the tick that
      reaches 0 clears the interval and ends the round with a point. */
  lemma TickOutcome(s: Screen)
    requires Invariant(s) && s.timerArmed
    ensures var t := Tick(s);
      && t.timeRemaining == s.timeRemaining - 1 && t.timeLeft == t.timeRemaining
      && Invariant(t)
      && (s.timeRemaining > 1 ==> Phase(t) == Playing && t.score == s.score && t.timerArmed)
      && (s.timeRemaining == 1 ==> Phase(t) == Answer && t.score == s.score + 1 && !t.timerArmed && t.lastEarned)
  {
  }

  /** While fewer ticks than remain have fired, the round is playing and shows what is
      left. */
  lemma {:induction false} TicksWhilePlaying(s: Screen, k: nat)
    requires Invariant(s) && s.isPlaying && k < s.timeRemaining
    ensures RunTicks(s, k) == s.(timeRemaining := s.timeRemaining - k, timeLeft := s.timeRemaining - k)
    decreases k
  {
    if k > 0 {
      TickOutcome(s);
      TicksWhilePlaying(Tick(s), k - 1);
    }
  }

  /** The tick that empties the countdown ends the round with a point; the cleared interval
      fires no more. */
  lemma {:induction false} TicksToEnd(s: Screen, k: nat)
    requires Invariant(s) && s.isPlaying && k >= s.timeRemaining
    ensures RunTicks(s, k) == End(s.(timeRemaining := 0, timeLeft := 0, timerArmed := false), true)
    decreases k
  {
    var n := s.timeRemaining;
    TicksWhilePlaying(s, n - 1);
    var last := RunTicks(s, n - 1);
    assert RunTicks(s, k) == RunTicks(last, k - (n - 1)) by {
      RunTicksSplit(s, n - 1, k - (n - 1));
    }
    var ended := Tick(last);
    assert ended == End(s.(timeRemaining := 0, timeLeft := 0, timerArmed := false), true);
    assert RunTicks(last, k - (n - 1)) == RunTicks(ended, k - n);
  }

  lemma {:induction false} RunTicksSplit(s: Screen, a: nat, b: nat)
    ensures RunTicks(s, a + b) == RunTicks(RunTicks(s, a), b)
    decreases a
  {
    if a > 0 && s.timerArmed {
      RunTicksSplit(Tick(s), a - 1, b);
    } else if a > 0 {
      assert RunTicks(s, a) == s;
      assert RunTicks(s, a + b) == s;
      assert RunTicks(s, b) == s;
    }
  }

  /** A started round lasts exactly 30 ticks: before the 30th it is playing and shows
      30 minus the ticks so far; the 30th ends it with a point. */
  lemma RoundLastsThirtyTicks(s: Screen, track: Track, k: nat)
    requires Invariant(s) && Phase(s) == Ready
    ensures var p := Start(s, Resolved(track), Resolved(()));
      && (k < RoundTicks ==> Phase(RunTicks(p, k)) == Playing && RunTicks(p, k).timeLeft == RoundTicks - k)
      && (k >= RoundTicks ==> Phase(RunTicks(p, k)) == Answer && RunTicks(p, k).score == s.score + 1)
  {
    var p := Start(s, Resolved(track), Resolved(()));
    StartOutcome(s, Resolved(track), Resolved(()));
    if k < RoundTicks {
      TicksWhilePlaying(p, k);
    } else {
      TicksToEnd(p, k);
    }
  }

  // ---------------------------------------------------------------------------------------
  // Sequences of events

  /** What can happen to the screen: a button press (with how the service calls it makes
      settle) or a firing of the interval. */
  datatype Event =
    | StartPressed(fetched: Settled<Track>, played: Settled<()>)
    | TimerFired
    | SkipPressed
    | NextPressed(fetched: Settled<Track>, played: Settled<()>)

  /** An event; a press of a button that is not shown, or a firing of a cleared interval,
      does nothing. */
  function Apply(s: Screen, e: Event): Screen {
    match e
    case StartPressed(f, p) => if Phase(s) == Ready then Start(s, f, p) else s
    case TimerFired => if s.timerArmed then Tick(s) else s
    case SkipPressed => if Phase(s) == Playing then Skip(s) else s
    case NextPressed(f, p) => if Phase(s) == Answer then Next(s, f, p) else s
  }

  function Run(s: Screen, events: seq<Event>): Screen
    decreases |events|
  {
    if events == [] then s else Run(Apply(s, events[0]), events[1..])
  }

  lemma ApplyKeepsInvariant(s: Screen, e: Event)
    requires Invariant(s)
    ensures Invariant(Apply(s, e))
  {
    match e
    case StartPressed(f, p) =>
      if Phase(s) == Ready { StartOutcome(s, f, p); }
    case TimerFired =>
      if s.timerArmed { TickOutcome(s); }
    case SkipPressed =>
      if Phase(s) == Playing { SkipOutcome(s); }
    case NextPressed(f, p) =>
      if Phase(s) == Answer { NextOutcome(s, f, p); }
  }

  /** Whatever happens, each round adds at most one point: the score never exceeds the round
      number, and before the answer is shown it is below it. */
  lemma {:induction false} RunKeepsInvariant(s: Screen, events: seq<Event>)
    requires Invariant(s)
    ensures Invariant(Run(s, events))
    ensures Run(s, events).score <= Run(s, events).round
    decreases |events|
  {
    if events != [] {
      ApplyKeepsInvariant(s, events[0]);
      RunKeepsInvariant(Apply(s, events[0]), events[1..]);
    }
  }

  // ---------------------------------------------------------------------------------------
  // The answer label

  const SomeTrack := Track("spotify:track:xyz", "Song", ["Artist"])

  /** A round skipped right after mounting is labelled "Correct" by the label as written,
      although it earned nothing; the intended label says "Skipped". */
  lemma AnswerLabelAfterFirstSkip()
    ensures var t := Skip(Start(Initial(), Resolved(SomeTrack), Resolved(())));
      && Phase(t) == Answer && t.score == 0 && t.round == 1
      && AnswerLabelAsWritten(t) == Correct
      && ResultLabel(t) == Skipped
  {
  }

  /** Two skipped rounds followed by one that runs out the clock: the label as written says
      "Skipped" although the round earned its point; the intended label says "Correct". */
  lemma AnswerLabelAfterTwoSkips()
    ensures var play := Resolved(());
      var r1 := Skip(Start(Initial(), Resolved(SomeTrack), play));
      var r2 := Skip(Next(r1, Resolved(SomeTrack), play));
      var r3 := Next(r2, Resolved(SomeTrack), play);
      var t := RunTicks(r3, RoundTicks);
      && Phase(t) == Answer && t.round == 3 && t.score == 1
      && AnswerLabelAsWritten(t) == Skipped
      && ResultLabel(t) == Correct
  {
    var play := Resolved(());
    var r1 := Skip(Start(Initial(), Resolved(SomeTrack), play));
    var r2 := Skip(Next(r1, Resolved(SomeTrack), play));
    var r3 := Next(r2, Resolved(SomeTrack), play);
    assert Invariant(r3) && r3.isPlaying && r3.timeRemaining == RoundTicks;
    TicksToEnd(r3, RoundTicks);
  }

  // ---------------------------------------------------------------------------------------
  // The component

  class Game {
    var round: int
    var score: int
    var timeLeft: int
    var isPlaying: bool
    var showAnswer: bool
    var currentTrack: Option<Track>
    /** Whether the interval stored in `timerRef` is live, and the countdown it closes over. */
    var timerArmed: bool
    var timeRemaining: int
    /** Set by `endRound`: whether the round that ended earned its point. */
    var lastEarned: bool

    function State(): Screen
      reads this
    {
      Screen(round, score, timeLeft, isPlaying, showAnswer, currentTrack, timerArmed, timeRemaining, lastEarned)
    }

    constructor ()
      ensures State() == Initial()
    {
      round, score, timeLeft := 1, 0, RoundTicks;
      isPlaying, showAnswer, currentTrack := false, false, None;
      timerArmed, timeRemaining, lastEarned := false, 0, false;
    }

    /** `startRound`, pressed from the ready panel or called by `nextRound`. */
    method StartRound(fetched: Settled<Track>, played: Settled<()>)
      modifies this
      ensures State() == Start(old(State()), fetched, played)
    {
      showAnswer := false;
      timeLeft := RoundTicks;
      if fetched.Rejected? {
        return;
      }
      currentTrack := Some(fetched.value);
      if played.Rejected? {
        return;
      }
      isPlaying := true;
      StartTimer();
    }

    /** `startTimer`: arms the interval with a fresh countdown of 30. */
    method StartTimer()
      modifies this
      ensures State() == old(State()).(timerArmed := true, timeRemaining := RoundTicks)
    {
      timeRemaining := RoundTicks;
      timerArmed := true;
    }

    /** The interval's callback. */
    method IntervalFired()
      requires timerArmed
      modifies this
      ensures State() == Tick(old(State()))
    {
      timeRemaining := timeRemaining - 1;
      timeLeft := timeRemaining;
      if timeRemaining <= 0 {
        timerArmed := false;
        EndRound(true);
      }
    }

    method SkipRound()
      modifies this
      ensures State() == Skip(old(State()))
    {
      timerArmed := false;
      EndRound(false);
    }

    method EndRound(earned: bool)
      modifies this
      ensures State() == End(old(State()), earned)
    {
      isPlaying := false;
      if earned {
        score := score + 1;
      }
      showAnswer := true;
      lastEarned := earned;
    }

    method NextRound(fetched: Settled<Track>, played: Settled<()>)
      modifies this
      ensures State() == Next(old(State()), fetched, played)
    {
      round := round + 1;
      showAnswer := false;
      StartRound(fetched, played);
    }
  }
}
