/** The simulation's state as a value, and what each event of the main
    loop does to it. The class in module Simulation updates its fields in
    place and is specified by these functions; the lemmas here state what
    the loop promises over one event, one frame and any run of events. */
module Transitions {
  import opened Geometry
  import opened Sampler
  import opened Estimator

  /** The keys the loop distinguishes: only the space bar does anything. */
  datatype Key = Space | OtherKey

  /** One event taken from the queue. A sample tick (the fast timer) carries
      what is read while handling it: the mouse position and the two values
      the random source would draw. In debug mode the program draws nothing
      and the two values are unused; they must still lie in range, which
      any placeholder in `[0, ScreenSideSize]` does. Quit, which ends the process, is not
      modelled; every other kind of event is ignored by the loop. */
  datatype Event =
    | KeyDown(key: Key)
    | SampleTick(mouse: Point, drawX: int, drawY: int)
    | RefreshTick
    | Ignored

  /** The random draws carried by an event are ones the source can produce. */
  predicate WellDrawn(e: Event)
  {
    e.SampleTick? ==> IsDraw(e.drawX) && IsDraw(e.drawY)
  }

  predicate AllWellDrawn(events: seq<Event>)
  {
    forall i :: 0 <= i < |events| ==> WellDrawn(events[i])
  }

  /** Everything the loop keeps between events: the run and debug flags,
      the two counters, the recorded points, the pending-refresh flag and
      the displayed estimate. */
  datatype Sim = Sim(
    play: bool,
    debug: bool,
    inside: nat,
    outside: nat,
    history: seq<Point>,
    refresh: bool,
    estimate: real)

  /** The bookkeeping invariant: the outside counter, seeded with 1, never
      drops below 1, so the estimate's denominator is never 0; every
      recorded point is counted once beside that seed; the estimate is
      always within [0, 4]. */
  predicate Inv(s: Sim)
  {
    && s.outside >= 1
    && |s.history| == s.inside + s.outside - 1
    && 0.0 <= s.estimate <= 4.0
  }

  /** The counters agree with the recorded points: `inside` is the number
      of recorded points inside the reference circle (with `Inv`, the
      outside counter is then the number of the others plus 1). */
  predicate Agrees(s: Sim)
  {
    s.inside == InsideCount(s.history, ReferenceCircle())
  }

  /** The state before the first event: playing, nothing recorded, outside
      seeded to 1, no refresh pending, estimate 0. */
  function Initial(debug: bool): (s: Sim)
    ensures Inv(s) && Agrees(s)
    ensures s.play && s.debug == debug && !s.refresh
    ensures s.history == [] && s.outside == 1
    ensures s.estimate == 0.0 == Estimate(s.inside, s.outside)
  {
    Sim(true, debug, 0, 1, [], false, 0.0)
  }

  /** A key press: the space bar flips `play`, any other key does nothing. */
  function PressKey(s: Sim, key: Key): (t: Sim)
    ensures t.play == (if key == Space then !s.play else s.play)
    ensures t.(play := s.play) == s
  {
    if key == Space then s.(play := !s.play) else s
  }

  /** Appending a sample point and counting it on the side its
      classification says. */
  function Record(s: Sim, p: Point): (t: Sim)
    ensures t.history == s.history + [p]
    ensures t.inside + t.outside == s.inside + s.outside + 1
    ensures t.inside == s.inside + 1 <==> PointInCircle(p, ReferenceCircle())
    ensures t.outside == s.outside + 1 <==> !PointInCircle(p, ReferenceCircle())
    ensures t.(history := s.history, inside := s.inside, outside := s.outside) == s
  {
    if PointInCircle(p, ReferenceCircle()) then
      s.(history := s.history + [p], inside := s.inside + 1)
    else
      s.(history := s.history + [p], outside := s.outside + 1)
  }

  /** The point a sample tick records: the mouse position in debug mode,
      a random point otherwise. */
  function SamplePoint(s: Sim, mouse: Point, drawX: int, drawY: int): (p: Point)
    requires IsDraw(drawX) && IsDraw(drawY)
    ensures !s.debug ==> InSquare(p)
    ensures p == mouse || p == Point(drawX, drawY)
  {
    if s.debug then mouse else ChooseRandomPoint(drawX, drawY)
  }

  /** A sample tick records one point while playing and nothing while paused. */
  function Tick(s: Sim, mouse: Point, drawX: int, drawY: int): (t: Sim)
    requires IsDraw(drawX) && IsDraw(drawY)
    ensures |t.history| == |s.history| + (if s.play then 1 else 0)
    ensures t.inside + t.outside == s.inside + s.outside + (if s.play then 1 else 0)
    ensures t.play == s.play && t.debug == s.debug
    ensures t.refresh == s.refresh && t.estimate == s.estimate
  {
    if s.play then Record(s, SamplePoint(s, mouse, drawX, drawY)) else s
  }

  /** A refresh tick (the slow timer) only asks for a new estimate. */
  function RequestRefresh(s: Sim): (t: Sim)
    ensures t.refresh
    ensures t.(refresh := s.refresh) == s
  {
    s.(refresh := true)
  }

  /** The end of a frame: if a refresh was requested, the estimate is
      recomputed from the counters and the request is cleared. */
  function EndFrame(s: Sim): (t: Sim)
    requires s.refresh ==> s.inside + s.outside > 0
    ensures !t.refresh
    ensures t.(estimate := s.estimate, refresh := s.refresh) == s
    ensures t.estimate == if s.refresh then Estimate(s.inside, s.outside) else s.estimate
  {
    if s.refresh then
      s.(estimate := Estimate(s.inside, s.outside), refresh := false)
    else
      s
  }

  /** One event of the queue. */
  function Handle(s: Sim, e: Event): (t: Sim)
    requires WellDrawn(e)
    ensures s.history <= t.history && |t.history| <= |s.history| + 1
    ensures s.inside <= t.inside && s.outside <= t.outside
    ensures t.debug == s.debug && t.estimate == s.estimate
  {
    match e
    case KeyDown(key) => PressKey(s, key)
    case SampleTick(mouse, drawX, drawY) => Tick(s, mouse, drawX, drawY)
    case RefreshTick => RequestRefresh(s)
    case Ignored => s
  }

  /** The events of one frame, handled in queue order. */
  function HandleAll(s: Sim, events: seq<Event>): (t: Sim)
    requires AllWellDrawn(events)
    ensures |t.history| <= |s.history| + |events|
  {
    if events == [] then s
    else Handle(HandleAll(s, events[..|events| - 1]), events[|events| - 1])
  }

  /** A whole frame: its events, then the end-of-frame step. */
  function Frame(s: Sim, events: seq<Event>): (t: Sim)
    requires Inv(s) && AllWellDrawn(events)
    ensures Inv(t) && !t.refresh
    ensures |t.history| <= |s.history| + |events|
  {
    HandleAllPreservesInv(s, events);
    EndFrame(HandleAll(s, events))
  }

  // ---------------------------------------------------------------------
  // Invariant

  /** Recording a point keeps both invariants. */
  lemma RecordPreservesInv(s: Sim, p: Point)
    requires Inv(s)
    ensures Inv(Record(s, p))
    ensures Agrees(s) ==> Agrees(Record(s, p))
  {
    InsideCountAppend(s.history, p, ReferenceCircle());
  }

  /** Every event keeps both invariants. */
  lemma HandlePreservesInv(s: Sim, e: Event)
    requires Inv(s) && WellDrawn(e)
    ensures Inv(Handle(s, e))
    ensures Agrees(s) ==> Agrees(Handle(s, e))
  {
    if e.SampleTick? && s.play {
      RecordPreservesInv(s, SamplePoint(s, e.mouse, e.drawX, e.drawY));
    }
  }

  /** Every run of events keeps both invariants. */
  lemma {:induction false} HandleAllPreservesInv(s: Sim, events: seq<Event>)
    requires Inv(s) && AllWellDrawn(events)
    ensures Inv(HandleAll(s, events))
    ensures Agrees(s) ==> Agrees(HandleAll(s, events))
  {
    if events != [] {
      var init := events[..|events| - 1];
      HandleAllPreservesInv(s, init);
      HandlePreservesInv(HandleAll(s, init), events[|events| - 1]);
    }
  }

  /** The end of a frame keeps both invariants. */
  lemma EndFramePreservesInv(s: Sim)
    requires Inv(s)
    ensures Inv(EndFrame(s))
    ensures Agrees(s) ==> Agrees(EndFrame(s))
  {
  }

  // ---------------------------------------------------------------------
  // Single events

  /** The space bar flips `play` and changes nothing else; pressing it
      twice restores the state. */
  lemma SpaceToggles(s: Sim)
    ensures PressKey(s, Space).play == !s.play
    ensures PressKey(s, Space).(play := s.play) == s
    ensures PressKey(PressKey(s, Space), Space) == s
  {
  }

  /** A sample tick while playing records exactly one point, the mouse
      position in debug mode and the random point otherwise, and adds
      exactly 1 to exactly one counter: `inside` when the point is inside
      the reference circle, `outside` when it is not. */
  lemma PlayingTickRecordsOne(s: Sim, mouse: Point, drawX: int, drawY: int)
    requires s.play && IsDraw(drawX) && IsDraw(drawY)
    ensures var t := Tick(s, mouse, drawX, drawY);
      var p := if s.debug then mouse else Point(drawX, drawY);
      && t.history == s.history + [p]
      && (PointInCircle(p, ReferenceCircle()) ==> t.inside == s.inside + 1 && t.outside == s.outside)
      && (!PointInCircle(p, ReferenceCircle()) ==> t.inside == s.inside && t.outside == s.outside + 1)
      && t.(history := s.history, inside := s.inside, outside := s.outside) == s
  {
  }

  /** A sample tick while paused changes nothing. */
  lemma PausedTickChangesNothing(s: Sim, mouse: Point, drawX: int, drawY: int)
    requires !s.play && IsDraw(drawX) && IsDraw(drawY)
    ensures Tick(s, mouse, drawX, drawY) == s
  {
  }

  /** No event changes the estimate; the end of a frame changes it only
      when a refresh is pending, sets it to the estimate of the current
      counters then, and always leaves no refresh pending. */
  lemma EstimateChangesOnlyOnRefresh(s: Sim, e: Event)
    requires WellDrawn(e) && Inv(s)
    ensures Handle(s, e).estimate == s.estimate
    ensures EndFrame(s).estimate != s.estimate ==> s.refresh
    ensures s.refresh ==> EndFrame(s).estimate == Estimate(s.inside, s.outside)
    ensures !EndFrame(s).refresh
  {
  }

  /** Recomputing the estimate with unchanged counters gives the same value. */
  lemma RefreshIsIdempotent(s: Sim)
    requires Inv(s)
    ensures EndFrame(RequestRefresh(EndFrame(RequestRefresh(s)))) == EndFrame(RequestRefresh(s))
  {
  }

  // ---------------------------------------------------------------------
  // Runs of events

  /** Handling a run of events never changes the estimate, and leaves a
      refresh pending exactly when one was pending before or the run held
      a refresh tick. */
  lemma {:induction false} RunKeepsEstimate(s: Sim, events: seq<Event>)
    requires AllWellDrawn(events)
    ensures HandleAll(s, events).estimate == s.estimate
    ensures HandleAll(s, events).refresh <==> s.refresh || RefreshTick in events
  {
    if events != [] {
      var init := events[..|events| - 1];
      assert events == init + [events[|events| - 1]];
      RunKeepsEstimate(s, init);
    }
  }

  /** The refresh cadence over a whole frame: the estimate can change only
      on a frame that starts with a refresh pending or holds a refresh
      tick; on such a frame it becomes the estimate of the counters after
      the frame's samples. No refresh is pending after any frame. */
  lemma FrameCadence(s: Sim, events: seq<Event>)
    requires Inv(s) && AllWellDrawn(events)
    ensures Frame(s, events).estimate != s.estimate ==> s.refresh || RefreshTick in events
    ensures s.refresh || RefreshTick in events ==>
      var t := HandleAll(s, events);
      t.inside + t.outside > 0 && Frame(s, events).estimate == Estimate(t.inside, t.outside)
    ensures !Frame(s, events).refresh
  {
    RunKeepsEstimate(s, events);
    HandleAllPreservesInv(s, events);
  }

  lemma {:induction false} HandleAllAppend(s: Sim, a: seq<Event>, b: seq<Event>)
    requires AllWellDrawn(a) && AllWellDrawn(b)
    ensures AllWellDrawn(a + b)
    ensures HandleAll(s, a + b) == HandleAll(HandleAll(s, a), b)
  {
    if b != [] {
      var init := b[..|b| - 1];
      assert (a + b)[..|a + b| - 1] == a + init;
      assert (a + b)[|a + b| - 1] == b[|b| - 1];
      HandleAllAppend(s, a, init);
    } else {
      assert a + b == a;
    }
  }

  /** Over any run of events the counters never decrease, the recorded
      points only grow at the end, and the debug flag is fixed. */
  lemma {:induction false} CountersNeverDecrease(s: Sim, events: seq<Event>)
    requires AllWellDrawn(events)
    ensures var t := HandleAll(s, events);
      && s.inside <= t.inside && s.outside <= t.outside
      && s.history <= t.history
      && t.debug == s.debug
  {
    if events != [] {
      CountersNeverDecrease(s, events[..|events| - 1]);
    }
  }

  /** While paused, events other than the space bar record nothing and
      leave the counters, the points and the estimate as they were. */
  lemma {:induction false} PausedRunRecordsNothing(s: Sim, events: seq<Event>)
    requires !s.play && AllWellDrawn(events)
    requires forall i :: 0 <= i < |events| ==> events[i] != KeyDown(Space)
    ensures var t := HandleAll(s, events);
      && !t.play
      && t.inside == s.inside && t.outside == s.outside
      && t.history == s.history && t.estimate == s.estimate
  {
    if events != [] {
      PausedRunRecordsNothing(s, events[..|events| - 1]);
    }
  }

  /** Pausing, letting any events but the space bar pass, and resuming
      leaves the counters, the recorded points and the estimate unchanged
      and the simulation playing again. */
  lemma PauseThenResume(s: Sim, paused: seq<Event>)
    requires s.play && AllWellDrawn(paused)
    requires forall i :: 0 <= i < |paused| ==> paused[i] != KeyDown(Space)
    ensures AllWellDrawn([KeyDown(Space)] + paused + [KeyDown(Space)])
    ensures var t := HandleAll(s, [KeyDown(Space)] + paused + [KeyDown(Space)]);
      && t.play
      && t.inside == s.inside && t.outside == s.outside
      && t.history == s.history && t.estimate == s.estimate
  {
    var space := [KeyDown(Space)];
    HandleAllAppend(s, space, paused);
    HandleAllAppend(s, space + paused, space);
    assert HandleAll(s, space) == PressKey(s, Space) by {
      assert space[..0] == [];
    }
    PausedRunRecordsNothing(PressKey(s, Space), paused);
    var u := HandleAll(s, space + paused);
    assert HandleAll(u, space) == PressKey(u, Space) by {
      assert space[..0] == [];
    }
  }

  /** The worked example, run as one frame of the loop in random mode:
      sample ticks drawing three points inside and one outside, then a
      refresh tick, give counters 3 and 2 and the estimate 4 * 3 / 5. */
  lemma ThreeInsideOneOutside()
    ensures var events := [SampleTick(Point(0, 0), 450, 450), SampleTick(Point(0, 0), 450, 450),
                           SampleTick(Point(0, 0), 900, 450), SampleTick(Point(0, 0), 0, 0),
                           RefreshTick];
      && AllWellDrawn(events)
      && var t := Frame(Initial(false), events);
      && t.history == [Point(450, 450), Point(450, 450), Point(900, 450), Point(0, 0)]
      && t.inside == 3 && t.outside == 2
      && t.estimate == 2.4
  {
    var events := [SampleTick(Point(0, 0), 450, 450), SampleTick(Point(0, 0), 450, 450),
                   SampleTick(Point(0, 0), 900, 450), SampleTick(Point(0, 0), 0, 0),
                   RefreshTick];
    var c, m, o := Point(450, 450), Point(900, 450), Point(0, 0);
    var s0 := Initial(false);
    var s4 := s0.(history := [c, c, m, o], inside := 3, outside := 2);
    assert HandleAll(s0, events[..4]) == s4 by {
      ReferenceCircleExamples();
      var s1 := s0.(history := [c], inside := 1);
      var s2 := s0.(history := [c, c], inside := 2);
      var s3 := s0.(history := [c, c, m], inside := 3);
      assert HandleAll(s0, events[..1]) == s1 by {
        assert events[..1][..0] == [];
      }
      assert HandleAll(s0, events[..2]) == s2 by {
        assert events[..2][..1] == events[..1];
      }
      assert HandleAll(s0, events[..3]) == s3 by {
        assert events[..3][..2] == events[..2];
      }
      assert events[..4][..3] == events[..3];
    }
    assert HandleAll(s0, events) == s4.(refresh := true) by {
      assert events[..|events| - 1] == events[..4];
    }
    assert Estimate(3, 2) == 2.4;
  }
}
