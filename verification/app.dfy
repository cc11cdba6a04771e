/**
 * The application context, by the one piece of state the password screen
 * reads: whether Shift is held. The display and the event queue are not
 * modelled; `FetchEvent` takes the event the queue yields.
 */
module App {
  import opened UiEvent

  /** `AppCtx` */
  datatype AppCtx = AppCtx(shift: bool)

  /** `AppCtx::create_with_display`: Shift starts released. */
  function CreateWithDisplay(): (ctx: AppCtx)
    ensures !ctx.shift
  {
    AppCtx(false)
  }

  /**
   * `fetch_event`, given the event popped from the queue: the context after
   * the event, and the event paired with the flag after the update.
   */
  function FetchEvent(ctx: AppCtx, ev: Event): (r: (AppCtx, (Event, bool)))
    ensures r.1.0 == ev && r.1.1 == r.0.shift
    ensures ev == KeyDown(Shift) ==> r.0.shift
    ensures ev == KeyUp(Shift) ==> !r.0.shift
    ensures !IsShiftEvent(ev) ==> r.0 == ctx
  {
    match ev
    case KeyDown(Shift) => (AppCtx(true), (ev, true))
    case KeyUp(Shift) => (AppCtx(false), (ev, false))
    case _ => (ctx, (ev, ctx.shift))
  }

  /** The context after fetching each of `events` in turn. */
  function FetchAll(ctx: AppCtx, events: seq<Event>): AppCtx
  {
    if |events| == 0 then ctx
    else FetchEvent(FetchAll(ctx, events[..|events| - 1]), events[|events| - 1]).0
  }

  /** Some press of Shift in `events` is followed by no other Shift event. */
  ghost predicate ShiftHeld(events: seq<Event>)
  {
    exists i :: 0 <= i < |events| && events[i] == KeyDown(Shift)
      && forall j :: i < j < |events| ==> !IsShiftEvent(events[j])
  }

  /** From a fresh context, Shift is held exactly when the last Shift event was a press. */
  lemma {:induction false} ShiftTracksLastShiftEvent(events: seq<Event>)
    ensures FetchAll(CreateWithDisplay(), events).shift <==> ShiftHeld(events)
  {
    if |events| > 0 {
      var n := |events| - 1;
      var init := events[..n];
      ShiftTracksLastShiftEvent(init);
      var ev := events[n];
      if ev == KeyDown(Shift) {
        assert events[n] == KeyDown(Shift);
      } else if ev == KeyUp(Shift) {
        assert IsShiftEvent(events[n]);
      } else {
        if ShiftHeld(init) {
          var i :| 0 <= i < n && init[i] == KeyDown(Shift)
            && forall j :: i < j < n ==> !IsShiftEvent(init[j]);
          assert events[i] == KeyDown(Shift) && forall j :: i < j < |events| ==> !IsShiftEvent(events[j]);
        }
        if ShiftHeld(events) {
          var i :| 0 <= i < |events| && events[i] == KeyDown(Shift)
            && forall j :: i < j < |events| ==> !IsShiftEvent(events[j]);
          assert i < n && init[i] == KeyDown(Shift) && forall j :: i < j < n ==> !IsShiftEvent(init[j]);
        }
      }
    }
  }
}
