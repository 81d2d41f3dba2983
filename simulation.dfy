/** The main loop's state as the program keeps it: fields updated in place
    by one method per kind of event and one for the end of a frame. Each
    method's new state is the corresponding function of module Transitions
    applied to the old state. */
module Simulation {
  import opened Geometry
  import opened Sampler
  import opened Estimator
  import opened Transitions

  class SimulationState {
    var play: bool
    var debug: bool
    var pointsInCircle: nat
    var pointsOutsideCircle: nat
    var pointArray: seq<Point>
    var updateEstimateThisFrame: bool
    var piEstimate: real

    /** The fields as one value. */
    function State(): Sim
      reads this
    {
      Sim(play, debug, pointsInCircle, pointsOutsideCircle, pointArray,
          updateEstimateThisFrame, piEstimate)
    }

    predicate Valid()
      reads this
    {
      Inv(State()) && Agrees(State())
    }

    /** The state the loop starts from; `debug` places each sample at the
        mouse position instead of drawing it at random. */
    constructor (debug: bool)
      ensures Valid() && State() == Initial(debug)
    {
      play := true;
      this.debug := debug;
      pointsInCircle := 0;
      pointsOutsideCircle := 1;
      pointArray := [];
      updateEstimateThisFrame := false;
      piEstimate := 0.0;
    }

    /** A key press: the space bar pauses or resumes sampling. */
    method KeyDown(key: Key)
      requires Valid()
      modifies this
      ensures Valid() && State() == PressKey(old(State()), key)
      ensures play == (if key == Space then !old(play) else old(play))
    {
      if key == Space {
        play := !play;
      }
    }

    /** Appends a point to the history and counts it on its side. */
    method RecordPoint(p: Point)
      requires Valid()
      modifies this
      ensures Valid() && State() == Record(old(State()), p)
    {
      RecordPreservesInv(State(), p);
      pointArray := pointArray + [p];
      if PointInCircle(p, ReferenceCircle()) {
        pointsInCircle := pointsInCircle + 1;
      } else {
        pointsOutsideCircle := pointsOutsideCircle + 1;
      }
    }

    /** The fast timer's tick. As in the program, the debug and the random
        case are two separate tests, not an if-else; they cannot both hold,
        so at most one point is recorded. */
    method SampleTick(mouse: Point, drawX: int, drawY: int)
      requires Valid() && IsDraw(drawX) && IsDraw(drawY)
      modifies this
      ensures Valid() && State() == Tick(old(State()), mouse, drawX, drawY)
      ensures |pointArray| == |old(pointArray)| + (if old(play) then 1 else 0)
    {
      if play && debug {
        var newPoint := mouse;
        RecordPoint(newPoint);
      }
      if play && !debug {
        var newPoint := ChooseRandomPoint(drawX, drawY);
        RecordPoint(newPoint);
      }
    }

    /** The slow timer's tick: ask for the estimate to be recomputed. */
    method RefreshTick()
      requires Valid()
      modifies this
      ensures Valid() && State() == RequestRefresh(old(State()))
      ensures updateEstimateThisFrame
    {
      updateEstimateThisFrame := true;
    }

    /** One event from the queue. */
    method HandleEvent(e: Event)
      requires Valid() && WellDrawn(e)
      modifies this
      ensures Valid() && State() == Handle(old(State()), e)
    {
      match e
      case KeyDown(key) => KeyDown(key);
      case SampleTick(mouse, drawX, drawY) => SampleTick(mouse, drawX, drawY);
      case RefreshTick => RefreshTick();
      case Ignored =>
    }

    /** The end of a frame: recompute the estimate if a refresh is pending. */
    method FrameEnd()
      requires Valid()
      modifies this
      ensures Valid() && State() == EndFrame(old(State()))
      ensures !updateEstimateThisFrame
      ensures piEstimate
           == if old(updateEstimateThisFrame) then Estimate(pointsInCircle, pointsOutsideCircle)
              else old(piEstimate)
    {
      if updateEstimateThisFrame {
        piEstimate := Estimate(pointsInCircle, pointsOutsideCircle);
        updateEstimateThisFrame := false;
      }
    }

    /** One pass of the main loop: every queued event in order, then the
        end of the frame (drawing in between only reads the state). */
    method RunFrame(events: seq<Event>)
      requires Valid() && AllWellDrawn(events)
      modifies this
      ensures Valid() && State() == Frame(old(State()), events)
    {
      for i := 0 to |events|
        invariant Valid()
        invariant State() == HandleAll(old(State()), events[..i])
      {
        assert events[..i + 1][..i] == events[..i];
        HandleEvent(events[i]);
      }
      assert events[..|events|] == events;
      FrameEnd();
    }
  }
}
