/**
 * Temporal stabiliser, dispatch gate and per-frame driver of the gesture
 * controller (gesture_controller.py:13-41, 223-271, 317-415).
 *
 * The pure part (Push, Stabilize, GatePasses, Step, Run) is the
 * specification; the class GestureController holds the state the source
 * keeps in its fields and its methods are proved to follow Step.
 */
module GestureControl {
  import opened Wrappers
  import opened Config
  import opened HandGeometry

  /** Capacity of the history deque (gesture_controller.py:39). */
  const HISTORY_SIZE := 10
  /** Samples needed before anything is reported (gesture_controller.py:230). */
  const MIN_SAMPLES := 5

  /** A raw per-frame classification; None when the hand shows no gesture. */
  type Label = Option<Gesture>

  /** What the controller hands to the gesture callback. */
  datatype Event = Event(gesture: Gesture, action: Action)

  // ---------------------------------------------------------------------
  // History buffer

  /** The last n entries of s (all of s when it is shorter). */
  function Newest(s: seq<Label>, n: nat): seq<Label>
  {
    if |s| <= n then s else s[|s| - n..]
  }

  /** Appending to the bounded deque: the oldest entry drops out once ten are held. */
  function Push(h: seq<Label>, g: Label): (r: seq<Label>)
    requires |h| <= HISTORY_SIZE
    ensures r == Newest(h + [g], HISTORY_SIZE)
    ensures 0 < |r| <= HISTORY_SIZE && r[|r| - 1] == g
  {
    if |h| < HISTORY_SIZE then h + [g] else h[1..] + [g]
  }

  /** Pushing a whole run of labels, one per frame. */
  function PushAll(h: seq<Label>, gs: seq<Label>): (r: seq<Label>)
    requires |h| <= HISTORY_SIZE
    ensures |r| <= HISTORY_SIZE
    decreases |gs|
  {
    if gs == [] then h else PushAll(Push(h, gs[0]), gs[1..])
  }

  lemma NewestOfNewest(s: seq<Label>, t: seq<Label>, n: nat)
    ensures Newest(Newest(s, n) + t, n) == Newest(s + t, n)
  {
    if |s| > n {
      var s' := s[|s| - n..];
      assert s' + t == (s + t)[|s| - n..];
    }
  }

  /**
   * The history always holds the most recent labels, None included, in the
   * order they arrived: after any run of frames it is the last ten of
   * everything received since it was last empty.
   */
  lemma {:induction false} PushAllKeepsNewest(h: seq<Label>, gs: seq<Label>)
    requires |h| <= HISTORY_SIZE
    ensures PushAll(h, gs) == Newest(h + gs, HISTORY_SIZE)
    decreases |gs|
  {
    if gs == [] {
      assert h + gs == h;
    } else {
      PushAllKeepsNewest(Push(h, gs[0]), gs[1..]);
      NewestOfNewest(h + [gs[0]], gs[1..], HISTORY_SIZE);
      assert h + [gs[0]] + gs[1..] == h + gs;
    }
  }

  // ---------------------------------------------------------------------
  // Majority vote

  /** Number of occurrences of l in s. */
  function Count(s: seq<Label>, l: Label): nat
  {
    if s == [] then 0
    else Count(s[..|s| - 1], l) + (if s[|s| - 1] == l then 1 else 0)
  }

  /** g holds at least 60% of the history: count >= 0.6 * len, in exact integers. */
  predicate Qualifies(h: seq<Label>, g: Gesture)
  {
    5 * Count(h, Some(g)) >= 3 * |h|
  }

  /**
   * The stabilised label: nothing before five samples, otherwise the label
   * that holds at least 60% of the history, if there is one.
   */
  ghost function Stabilize(h: seq<Label>): Label
  {
    if |h| < MIN_SAMPLES then None
    else if exists g :: Qualifies(h, g) then Some(var g :| Qualifies(h, g); g)
    else None
  }

  /** Two different labels never hold more entries together than the history has. */
  lemma {:induction false} CountsDisjoint(s: seq<Label>, a: Label, b: Label)
    requires a != b
    ensures Count(s, a) + Count(s, b) <= |s|
  {
    if s != [] {
      CountsDisjoint(s[..|s| - 1], a, b);
    }
  }

  /** A 60% share is a strict majority over every other label, None included. */
  lemma QualifiedIsStrictMajority(h: seq<Label>, g: Gesture, l: Label)
    requires |h| > 0 && Qualifies(h, g) && l != Some(g)
    ensures Count(h, l) < Count(h, Some(g))
  {
    CountsDisjoint(h, Some(g), l);
  }

  /** At most one label can hold a 60% share of a non-empty history. */
  lemma QualifiedUnique(h: seq<Label>, g: Gesture, g': Gesture)
    requires |h| > 0 && Qualifies(h, g) && Qualifies(h, g')
    ensures g == g'
  {
    if g != g' {
      CountsDisjoint(h, Some(g), Some(g'));
    }
  }

  /**
   * Once five samples are held, the stabiliser reports g exactly when g holds
   * at least 60% of the history, so the tie-break of the maximum never shows.
   */
  lemma StabilizeIff(h: seq<Label>, g: Gesture)
    requires |h| >= MIN_SAMPLES
    ensures Stabilize(h) == Some(g) <==> Qualifies(h, g)
  {
    if Qualifies(h, g) {
      var w :| Qualifies(h, w) && Stabilize(h) == Some(w);
      QualifiedUnique(h, g, w);
    }
  }

  /** A reported label outnumbers every other label in the history. */
  lemma StabilizeIsStrictMajority(h: seq<Label>, l: Label)
    requires Stabilize(h).Some? && l != Stabilize(h)
    ensures |h| >= MIN_SAMPLES && Count(h, l) < Count(h, Stabilize(h))
  {
    QualifiedIsStrictMajority(h, Stabilize(h).value, l);
  }

  /** Six of ten entries are enough, five of ten are not, whatever the rest hold. */
  lemma SixOfTenStabilizes(h: seq<Label>, g: Gesture)
    requires |h| == HISTORY_SIZE
    ensures Count(h, Some(g)) == 6 ==> Stabilize(h) == Some(g)
    ensures Count(h, Some(g)) == 5 ==> Stabilize(h) == None
  {
    StabilizeIff(h, g);
    if Count(h, Some(g)) == 5 && Stabilize(h).Some? {
      var w := Stabilize(h).value;
      StabilizeIff(h, w);
      CountsDisjoint(h, Some(g), Some(w));
    }
  }

  lemma CountAppend(s: seq<Label>, x: Label, l: Label)
    ensures Count(s + [x], l) == Count(s, l) + (if x == l then 1 else 0)
  {
    assert (s + [x])[..|s|] == s;
  }

  /**
   * The counting loop and the maximum of the source (gesture_controller.py:234-244):
   * labels are counted into a dictionary whose keys keep the order of first
   * appearance, and the first key with the highest count wins.
   */
  method MostCommon(h: seq<Label>) returns (best: Option<Gesture>, count: nat)
    ensures best.None? <==> forall i :: 0 <= i < |h| ==> h[i].None?
    ensures best.Some? ==> count == Count(h, best) && count > 0
    ensures best.Some? ==> forall g :: Count(h, Some(g)) <= count
  {
    var counts: map<Gesture, nat> := map[];
    var keys: seq<Gesture> := [];
    var i := 0;
    while i < |h|
      invariant 0 <= i <= |h|
      invariant forall g :: g in counts <==> g in keys
      invariant forall g :: g in counts ==> counts[g] == Count(h[..i], Some(g)) && counts[g] > 0
      invariant forall g :: g !in counts ==> Count(h[..i], Some(g)) == 0
      invariant keys == [] <==> forall k :: 0 <= k < i ==> h[k].None?
    {
      CountAppend(h[..i], h[i], h[i]);
      forall g ensures Count(h[..i + 1], Some(g)) == Count(h[..i], Some(g)) + (if h[i] == Some(g) then 1 else 0) {
        CountAppend(h[..i], h[i], Some(g));
        assert h[..i + 1] == h[..i] + [h[i]];
      }
      if h[i].Some? {
        var g := h[i].value;
        if g in counts {
          counts := counts[g := counts[g] + 1];
        } else {
          counts := counts[g := 1];
          keys := keys + [g];
        }
      }
      i := i + 1;
    }
    assert h[..i] == h;

    best, count := None, 0;
    var j := 0;
    while j < |keys|
      invariant 0 <= j <= |keys|
      invariant best.None? <==> j == 0
      invariant best.Some? ==> best.value in counts && count == counts[best.value]
      invariant forall k :: 0 <= k < j ==> counts[keys[k]] <= count
    {
      var g := keys[j];
      if best.None? || counts[g] > count {
        best, count := Some(g), counts[g];
      }
      j := j + 1;
    }
    if best.Some? {
      forall g ensures Count(h, Some(g)) <= count {
        if g in counts {
          var k :| 0 <= k < |keys| && keys[k] == g;
        }
      }
    }
  }

  // ---------------------------------------------------------------------
  // Dispatch gate

  /**
   * The gate lets g through when the cooldown has elapsed since the last
   * dispatch and g is not the label dispatched last.
   */
  predicate GatePasses(lastTriggered: Label, lastTime: real, cooldown: real, g: Gesture, now: real)
  {
    !(now - lastTime < cooldown) && Some(g) != lastTriggered
  }

  /** The callback fires for a dispatched gesture when one is registered. */
  function EventFor(fired: Label, hasCallback: bool): Option<Event>
  {
    if fired.Some? && hasCallback then Some(Event(fired.value, ActionFor(fired.value))) else None
  }

  // ---------------------------------------------------------------------
  // Per-frame step

  /** The controller's state: the history deque and the dispatch memory. */
  datatype ControllerState = ControllerState(history: seq<Label>, lastTriggered: Label, lastTime: real)

  /**
   * What one poll of the camera yields: nothing (camera not running or the
   * read failed), a frame without a hand, or one hand's landmarks.
   */
  datatype Frame = Unavailable | NoHand | Hand(landmarks: seq<Point>)

  predicate WellFormed(f: Frame)
  {
    f.Hand? ==> IsHand(f.landmarks)
  }

  /** The new state, the stabilised label, and the gesture the gate let through, if any. */
  datatype StepResult = StepResult(next: ControllerState, stable: Label, fired: Label)

  ghost function Step(c: ControllerState, cooldown: real, frame: Frame, now: real): StepResult
    requires |c.history| <= HISTORY_SIZE && WellFormed(frame)
  {
    match frame
    case Unavailable => StepResult(c, None, None)
    case NoHand => StepResult(c.(history := [], lastTriggered := None), None, None)
    case Hand(lm) =>
      var h := Push(c.history, Detect(lm));
      var s := Stabilize(h);
      if s.Some? && GatePasses(c.lastTriggered, c.lastTime, cooldown, s.value, now) then
        StepResult(ControllerState(h, s, now), s, s)
      else
        StepResult(c.(history := h), s, None)
  }

  /**
   * The state effects of one frame: an unavailable frame changes nothing; a
   * frame without a hand empties the history and forgets the last dispatched
   * label but keeps its time; a frame whose stabilised label is None never
   * reaches the gate; a dispatch records the label and the time.
   */
  lemma StepEffects(c: ControllerState, cooldown: real, frame: Frame, now: real)
    requires |c.history| <= HISTORY_SIZE && WellFormed(frame)
    ensures var r := Step(c, cooldown, frame, now);
      && |r.next.history| <= HISTORY_SIZE
      && (frame.Unavailable? ==> r.next == c && r.stable == None && r.fired == None)
      && (frame.NoHand? ==> r.next == ControllerState([], None, c.lastTime) && r.fired == None)
      && (frame.Hand? ==> r.next.history == Push(c.history, Detect(frame.landmarks)))
      && (r.stable == None ==> r.fired == None)
      && (r.stable == None && !frame.NoHand? ==> r.next.lastTriggered == c.lastTriggered)
      && (r.fired == None ==> r.next.lastTime == c.lastTime)
      && (r.fired.Some? ==> r.stable == r.fired && r.next.lastTriggered == r.fired && r.next.lastTime == now
                            && GatePasses(c.lastTriggered, c.lastTime, cooldown, r.fired.value, now))
  {
  }

  // ---------------------------------------------------------------------
  // Runs of frames

  datatype Tick = Tick(frame: Frame, now: real)

  /** A dispatched gesture and the time it was dispatched at. */
  datatype Dispatch = Dispatch(gesture: Gesture, time: real)

  datatype Trace = Trace(final: ControllerState, stables: seq<Label>, dispatches: seq<Dispatch>)

  predicate WellFormedTicks(ticks: seq<Tick>)
  {
    forall i :: 0 <= i < |ticks| ==> WellFormed(ticks[i].frame)
  }

  /** Feeding frames one by one: the final state, each frame's stabilised label, and the dispatches in order. */
  ghost function Run(c: ControllerState, cooldown: real, ticks: seq<Tick>): Trace
    requires |c.history| <= HISTORY_SIZE && WellFormedTicks(ticks)
    decreases |ticks|
  {
    if ticks == [] then Trace(c, [], [])
    else
      var r := Step(c, cooldown, ticks[0].frame, ticks[0].now);
      var rest := Run(r.next, cooldown, ticks[1..]);
      Trace(rest.final, [r.stable] + rest.stables,
            (if r.fired.Some? then [Dispatch(r.fired.value, ticks[0].now)] else []) + rest.dispatches)
  }

  /**
   * Two dispatches are always at least the cooldown apart, and the first is at
   * least the cooldown after the last dispatch before the run; frames without
   * a hand do not shorten the wait.
   */
  lemma {:induction false} RunRespectsCooldown(c: ControllerState, cooldown: real, ticks: seq<Tick>)
    requires |c.history| <= HISTORY_SIZE && WellFormedTicks(ticks)
    ensures var d := Run(c, cooldown, ticks).dispatches;
      && (|d| > 0 ==> d[0].time - c.lastTime >= cooldown)
      && (forall k :: 0 <= k < |d| - 1 ==> d[k + 1].time - d[k].time >= cooldown)
    decreases |ticks|
  {
    if ticks != [] {
      var r := Step(c, cooldown, ticks[0].frame, ticks[0].now);
      StepEffects(c, cooldown, ticks[0].frame, ticks[0].now);
      RunRespectsCooldown(r.next, cooldown, ticks[1..]);
    }
  }

  predicate NoHandLoss(ticks: seq<Tick>)
  {
    forall i :: 0 <= i < |ticks| ==> !ticks[i].frame.NoHand?
  }

  /**
   * Without a frame that loses the hand, the same gesture is never dispatched
   * twice in a row, and the first dispatch differs from the one before the run.
   */
  lemma {:induction false} RunNeverRepeats(c: ControllerState, cooldown: real, ticks: seq<Tick>)
    requires |c.history| <= HISTORY_SIZE && WellFormedTicks(ticks) && NoHandLoss(ticks)
    ensures var d := Run(c, cooldown, ticks).dispatches;
      && (|d| > 0 ==> Some(d[0].gesture) != c.lastTriggered)
      && (forall k :: 0 <= k < |d| - 1 ==> d[k].gesture != d[k + 1].gesture)
    decreases |ticks|
  {
    if ticks != [] {
      var r := Step(c, cooldown, ticks[0].frame, ticks[0].now);
      StepEffects(c, cooldown, ticks[0].frame, ticks[0].now);
      assert NoHandLoss(ticks[1..]) by {
        forall i | 0 <= i < |ticks| - 1 ensures !ticks[1..][i].frame.NoHand? {
          assert ticks[1..][i] == ticks[i + 1];
        }
      }
      RunNeverRepeats(r.next, cooldown, ticks[1..]);
    }
  }

  /**
   * While fewer than five labels can have been collected, every frame's
   * stabilised label is None and nothing is dispatched.
   */
  lemma {:induction false} RunColdStart(c: ControllerState, cooldown: real, ticks: seq<Tick>)
    requires |c.history| + |ticks| < MIN_SAMPLES && WellFormedTicks(ticks)
    ensures var t := Run(c, cooldown, ticks);
      && t.dispatches == []
      && (forall i :: 0 <= i < |t.stables| ==> t.stables[i] == None)
    decreases |ticks|
  {
    if ticks != [] {
      var r := Step(c, cooldown, ticks[0].frame, ticks[0].now);
      StepEffects(c, cooldown, ticks[0].frame, ticks[0].now);
      assert |r.next.history| <= |c.history| + 1;
      RunColdStart(r.next, cooldown, ticks[1..]);
    }
  }

  /**
   * A frame without a hand resets the stabiliser hard: the four frames after
   * it report nothing, whatever gesture the hand showed before.
   */
  lemma HandLossRestartsCold(c: ControllerState, cooldown: real, ticks: seq<Tick>)
    requires |c.history| <= HISTORY_SIZE && WellFormedTicks(ticks)
    requires |ticks| <= MIN_SAMPLES && ticks != [] && ticks[0].frame.NoHand?
    ensures var t := Run(c, cooldown, ticks);
      && t.dispatches == []
      && (forall i :: 0 <= i < |t.stables| ==> t.stables[i] == None)
  {
    var r := Step(c, cooldown, ticks[0].frame, ticks[0].now);
    assert WellFormedTicks(ticks[1..]) by {
      forall i | 0 <= i < |ticks| - 1 ensures WellFormed(ticks[1..][i].frame) {
        assert ticks[1..][i] == ticks[i + 1];
      }
    }
    RunColdStart(r.next, cooldown, ticks[1..]);
  }

  // ---------------------------------------------------------------------
  // The controller object

  class GestureController {
    var history: seq<Label>
    var lastTriggered: Label
    var lastGestureTime: real
    const cooldown: real
    /** Whether a gesture callback was registered (gesture_controller.py:18, 270). */
    const hasCallback: bool

    ghost predicate Valid()
      reads this
    {
      |history| <= HISTORY_SIZE
    }

    function State(): ControllerState
      reads this
    {
      ControllerState(history, lastTriggered, lastGestureTime)
    }

    constructor (hasCallback: bool)
      ensures Valid()
      ensures State() == ControllerState([], None, 0.0)
      ensures cooldown == GESTURE_COOLDOWN && this.hasCallback == hasCallback
    {
      history := [];
      lastTriggered := None;
      lastGestureTime := 0.0;
      cooldown := GESTURE_COOLDOWN;
      this.hasCallback := hasCallback;
    }

    /** Records a raw label and returns the stabilised one (gesture_controller.py:223-250). */
    method StableGesture(current: Label) returns (stable: Label)
      requires Valid()
      modifies this`history
      ensures Valid()
      ensures history == Push(old(history), current)
      ensures stable == Stabilize(history)
    {
      history := Push(history, current);
      if |history| < MIN_SAMPLES {
        return None;
      }
      var best, count := MostCommon(history);
      if best.None? {
        forall g ensures !Qualifies(history, g) {
          CountNone(history, Some(g));
        }
        return None;
      }
      if 5 * count >= 3 * |history| {
        StabilizeIff(history, best.value);
        return best;
      }
      forall g ensures !Qualifies(history, g) {
      }
      return None;
    }

    /** The dispatch gate (gesture_controller.py:252-271), with the clock passed in as now. */
    method TriggerGesture(g: Gesture, now: real) returns (event: Option<Event>)
      modifies this`lastTriggered, this`lastGestureTime
      ensures GatePasses(old(lastTriggered), old(lastGestureTime), cooldown, g, now) ==>
                lastTriggered == Some(g) && lastGestureTime == now
      ensures !GatePasses(old(lastTriggered), old(lastGestureTime), cooldown, g, now) ==>
                lastTriggered == old(lastTriggered) && lastGestureTime == old(lastGestureTime)
      ensures event == EventFor(if GatePasses(old(lastTriggered), old(lastGestureTime), cooldown, g, now)
                                then Some(g) else None, hasCallback)
    {
      if now - lastGestureTime < cooldown {
        return None;
      }
      if Some(g) == lastTriggered {
        return None;
      }
      lastTriggered := Some(g);
      lastGestureTime := now;
      var action := ActionFor(g);
      event := if hasCallback then Some(Event(g, action)) else None;
    }

    /**
     * The state-relevant part of one poll (gesture_controller.py:317-324,
     * 335-353, 393-409): classify, stabilise, gate; or reset on a frame
     * without a hand.
     */
    method ProcessFrame(frame: Frame, now: real) returns (stable: Label, event: Option<Event>)
      requires Valid() && WellFormed(frame)
      modifies this`history, this`lastTriggered, this`lastGestureTime
      ensures Valid()
      ensures var r := Step(old(State()), cooldown, frame, now);
        State() == r.next && stable == r.stable && event == EventFor(r.fired, hasCallback)
    {
      stable, event := None, None;
      match frame
      case Unavailable =>
        return;
      case NoHand =>
        history := [];
        lastTriggered := None;
      case Hand(lm) =>
        var detected := Detect(lm);
        stable := StableGesture(detected);
        if stable.Some? {
          event := TriggerGesture(stable.value, now);
        }
    }
  }

  lemma {:induction false} CountNone(s: seq<Label>, l: Label)
    requires l.Some? && forall i :: 0 <= i < |s| ==> s[i].None?
    ensures Count(s, l) == 0
  {
    if s != [] {
      CountNone(s[..|s| - 1], l);
    }
  }
}
