/**
 * Keyboard and mouse button state (client/src/input.rs). Each kind of
 * button keeps the set of buttons held down and the sets of buttons that
 * went down or up during the current frame; `process_events` starts a
 * frame by clearing the per-frame sets and then applies the frame's events
 * in order.
 */
module Inputs {
  import opened Wrappers

  /** `ElementState`. */
  datatype ElementState = Pressed | Released

  /** A keyboard or mouse button event: which button, and whether it went down or up. */
  datatype ButtonEvent<T> = ButtonEvent(code: T, state: ElementState)

  /** `VirtualKeyCode`, by its discriminant. */
  datatype Key = Key(code: nat)

  /** `MouseButton`, by its discriminant. */
  datatype MouseButton = MouseButton(id: nat)

  /** `glam::Vec2`; it is only copied here, never computed with. */
  datatype Vec2 = Vec2(x: real, y: real)

  /** `Vec2::ZERO`. */
  const ZERO: Vec2 := Vec2(0.0, 0.0)

  /** The three sets of an `InputState`, as a value. */
  datatype Buttons<T> = Buttons(pressed: set<T>, justPressed: set<T>, justReleased: set<T>)

  /** The effect of one event: `press` or `release` of its button. */
  function Apply<T(==,!new)>(b: Buttons<T>, e: ButtonEvent<T>): (r: Buttons<T>)
    ensures e.state == Pressed ==> e.code in r.pressed && e.code in r.justPressed
    ensures e.state == Released ==> e.code !in r.pressed && e.code in r.justReleased
    ensures forall c | c != e.code ::
      && (c in r.pressed <==> c in b.pressed)
      && (c in r.justPressed <==> c in b.justPressed)
      && (c in r.justReleased <==> c in b.justReleased)
  {
    match e.state
    case Pressed => Buttons(b.pressed + {e.code}, b.justPressed + {e.code}, b.justReleased)
    case Released => Buttons(b.pressed - {e.code}, b.justPressed, b.justReleased + {e.code})
  }

  /** The events applied in order. */
  function ApplyAll<T(==,!new)>(b: Buttons<T>, es: seq<ButtonEvent<T>>): Buttons<T> {
    if es == [] then b else Apply(ApplyAll(b, es[..|es| - 1]), es[|es| - 1])
  }

  /** The start of a frame: nothing went down or up yet. */
  function Cleared<T>(b: Buttons<T>): (r: Buttons<T>)
    ensures r.pressed == b.pressed && r.justPressed == {} && r.justReleased == {}
  {
    Buttons(b.pressed, {}, {})
  }

  /** The state of the last event for `code` in `es`, if there is one. */
  function LastState<T(==)>(es: seq<ButtonEvent<T>>, code: T): (s: Option<ElementState>)
    ensures s.None? <==> forall j | 0 <= j < |es| :: es[j].code != code
    ensures s.Some? ==> exists j | 0 <= j < |es| :: es[j] == ButtonEvent(code, s.value)
  {
    if es == [] then None
    else if es[|es| - 1].code == code then Some(es[|es| - 1].state)
    else
      var s := LastState(es[..|es| - 1], code);
      assert forall j | 0 <= j < |es| - 1 :: es[..|es| - 1][j] == es[j];
      s
  }

  /**
   * The state `LastState` finds is that of the last event naming the code:
   * no later event names it.
   */
  lemma {:induction false} LastStateIsLast<T(!new)>(es: seq<ButtonEvent<T>>, code: T, st: ElementState)
    requires LastState(es, code) == Some(st)
    ensures exists j | 0 <= j < |es| ::
      es[j] == ButtonEvent(code, st) && forall k | j < k < |es| :: es[k].code != code
  {
    var n := |es| - 1;
    if es[n].code == code {
      assert es[n] == ButtonEvent(code, st);
    } else {
      var init := es[..n];
      assert LastState(init, code) == Some(st);
      LastStateIsLast(init, code, st);
      var j :| 0 <= j < |init| && init[j] == ButtonEvent(code, st) && forall k | j < k < |init| :: init[k].code != code;
      forall k | j < k < |es|
        ensures es[k].code != code
      {
        if k < n {
          assert es[k] == init[k];
        }
      }
      assert es[j] == init[j];
    }
  }

  /**
   * After a run of events, a button is held down exactly as its last event
   * says, or as before if no event named it.
   */
  lemma {:induction false} HeldFollowsLastEvent<T(!new)>(b: Buttons<T>, es: seq<ButtonEvent<T>>, code: T)
    ensures code in ApplyAll(b, es).pressed <==>
      match LastState(es, code)
      case None => code in b.pressed
      case Some(s) => s == Pressed
  {
    if es != [] {
      HeldFollowsLastEvent(b, es[..|es| - 1], code);
    }
  }

  /**
   * After a run of events, a button is in the just-pressed (just-released)
   * set exactly when it was there before or some event pressed (released) it.
   */
  lemma {:induction false} JustSetsCollectEvents<T(!new)>(b: Buttons<T>, es: seq<ButtonEvent<T>>, code: T)
    ensures code in ApplyAll(b, es).justPressed <==>
      code in b.justPressed || exists j | 0 <= j < |es| :: es[j] == ButtonEvent(code, Pressed)
    ensures code in ApplyAll(b, es).justReleased <==>
      code in b.justReleased || exists j | 0 <= j < |es| :: es[j] == ButtonEvent(code, Released)
  {
    if es != [] {
      var init := es[..|es| - 1];
      JustSetsCollectEvents(b, init, code);
      assert forall j | 0 <= j < |init| :: init[j] == es[j];
      assert es == init + [es[|es| - 1]];
    }
  }

  /**
   * One frame of events from a cleared state: a button is held as its last
   * event says, and it just went down (up) exactly when some event of the
   * frame pressed (released) it.
   */
  lemma FrameOfEvents<T(!new)>(b: Buttons<T>, es: seq<ButtonEvent<T>>, code: T)
    ensures var r := ApplyAll(Cleared(b), es);
      && (code in r.pressed <==> if LastState(es, code).Some? then LastState(es, code) == Some(Pressed) else code in b.pressed)
      && (code in r.justPressed <==> exists j | 0 <= j < |es| :: es[j] == ButtonEvent(code, Pressed))
      && (code in r.justReleased <==> exists j | 0 <= j < |es| :: es[j] == ButtonEvent(code, Released))
  {
    HeldFollowsLastEvent(Cleared(b), es, code);
    JustSetsCollectEvents(Cleared(b), es, code);
  }

  /** `InputState<T>`: the held, just-pressed and just-released sets of one kind of button. */
  class InputState<T(==,!new)> {
    var pressed: set<T>
    var justPressed: set<T>
    var justReleased: set<T>

    /** The three sets as a value. */
    function State(): Buttons<T>
      reads this
    {
      Buttons(pressed, justPressed, justReleased)
    }

    /** `InputState::default`: all three sets empty. */
    constructor ()
      ensures pressed == {} && justPressed == {} && justReleased == {}
    {
      pressed := {};
      justPressed := {};
      justReleased := {};
    }

    /** `press`: the button is held and just went down; the just-released set is unchanged. */
    method Press(code: T)
      modifies this
      ensures pressed == old(pressed) + {code}
      ensures justPressed == old(justPressed) + {code}
      ensures justReleased == old(justReleased)
      ensures State() == Apply(old(State()), ButtonEvent(code, Pressed))
    {
      pressed := pressed + {code};
      justPressed := justPressed + {code};
    }

    /** `release`: the button is no longer held and just went up; the just-pressed set is unchanged. */
    method Release(code: T)
      modifies this
      ensures pressed == old(pressed) - {code}
      ensures justPressed == old(justPressed)
      ensures justReleased == old(justReleased) + {code}
      ensures State() == Apply(old(State()), ButtonEvent(code, Released))
    {
      pressed := pressed - {code};
      justReleased := justReleased + {code};
    }

    /** `clear`: forget the frame's presses and releases, keep what is held. */
    method Clear()
      modifies this
      ensures pressed == old(pressed) && justPressed == {} && justReleased == {}
      ensures State() == Cleared(old(State()))
    {
      justPressed := {};
      justReleased := {};
    }

    /** Apply a frame's events for this kind of button, in order. */
    method ApplyEvents(events: seq<ButtonEvent<T>>)
      modifies this
      ensures State() == ApplyAll(old(State()), events)
    {
      for i := 0 to |events|
        invariant State() == ApplyAll(old(State()), events[..i])
      {
        assert events[..i + 1][..i] == events[..i];
        match events[i].state
        case Pressed => Press(events[i].code);
        case Released => Release(events[i].code);
      }
      assert events[..|events|] == events;
    }
  }

  /** The `Input` resource: keyboard state, mouse button state and the frame's mouse motion. */
  class Input {
    const keyState: InputState<Key>
    const mouseState: InputState<MouseButton>
    var mouseOffset: Vec2

    /** `Input::default`: nothing held, nothing just pressed or released, no motion. */
    constructor ()
      ensures fresh(keyState) && fresh(mouseState)
      ensures keyState.State() == Buttons({}, {}, {}) && mouseState.State() == Buttons({}, {}, {})
      ensures mouseOffset == ZERO
    {
      keyState := new InputState();
      mouseState := new InputState();
      mouseOffset := ZERO;
    }

    /** `is_key_pressed`: the key is held. */
    predicate IsKeyPressed(key: Key)
      reads this, keyState
    {
      key in keyState.pressed
    }

    /** `is_key_just_pressed`: the key went down this frame. */
    predicate IsKeyJustPressed(key: Key)
      reads this, keyState
    {
      key in keyState.justPressed
    }

    /**
     * `process_events`: start a frame and apply its keyboard, mouse button
     * and mouse motion events, each stream in order. The keyboard state
     * depends only on keyboard events and the mouse state only on mouse
     * button events; the mouse offset is the last motion's delta, or zero.
     */
    method ProcessEvents(keyEvents: seq<ButtonEvent<Key>>, mouseEvents: seq<ButtonEvent<MouseButton>>,
                         motions: seq<Vec2>)
      modifies this, keyState, mouseState
      ensures keyState.State() == ApplyAll(Cleared(old(keyState.State())), keyEvents)
      ensures mouseState.State() == ApplyAll(Cleared(old(mouseState.State())), mouseEvents)
      ensures mouseOffset == if motions == [] then ZERO else motions[|motions| - 1]
    {
      mouseOffset := ZERO;
      keyState.Clear();
      mouseState.Clear();
      keyState.ApplyEvents(keyEvents);
      mouseState.ApplyEvents(mouseEvents);
      for i := 0 to |motions|
        modifies this
        invariant mouseOffset == if i == 0 then ZERO else motions[i - 1]
      {
        mouseOffset := motions[i];
      }
    }

    /**
     * After `process_events`, `is_key_pressed` follows the key's last event
     * of the frame (or what it was before, with no event), and
     * `is_key_just_pressed` holds exactly when some event of the frame
     * pressed the key.
     */
    lemma KeyQueriesAfterFrame(before: Buttons<Key>, keyEvents: seq<ButtonEvent<Key>>, key: Key)
      requires keyState.State() == ApplyAll(Cleared(before), keyEvents)
      ensures IsKeyPressed(key) <==>
        if LastState(keyEvents, key).Some? then LastState(keyEvents, key) == Some(Pressed) else key in before.pressed
      ensures IsKeyJustPressed(key) <==> exists j | 0 <= j < |keyEvents| :: keyEvents[j] == ButtonEvent(key, Pressed)
    {
      FrameOfEvents(before, keyEvents, key);
    }
  }
}
