/** The success modal (script.js:185-238): an overlay built on first use
    (`initSuccessModal`), shown with a message and a 5000 ms auto-dismiss
    timer (`showSuccessModal`), and hidden by its buttons, by a click on the
    overlay itself or by the timer (`hideModal`).

    Host callbacks are explicit events: `AnimationFrame` runs the
    `requestAnimationFrame` callback, `TransitionEnd` the `transitionend`
    listeners, `TimerFires(id)` the timer `id`. Timer handles are numbers
    handed out by the modal itself, standing in for `setTimeout`'s. */
module Modal {
  import opened Wrappers

  /** The set of timers `overlay._timeout` refers to. */
  function TimerSet(handle: Option<nat>): (r: set<nat>)
    ensures |r| <= 1
  {
    match handle
    case None => {}
    case Some(id) => {id}
  }

  class SuccessModal {
    /** `modalInitialized`. */
    var initialized: bool
    /** Number of `.modal-overlay` elements appended to the document. */
    var overlays: nat
    /** The `innerHTML` of `.modal-text`. */
    var text: string
    /** `overlay.style.display` is `'flex'` (true) or `'none'` (false). */
    var displayed: bool
    /** The overlay carries the `show` class. */
    var visible: bool
    /** A `requestAnimationFrame` callback that adds `show` is waiting. */
    var framePending: bool
    /** `transitionend` listeners added by `hideModal` that have not run. */
    var endListeners: nat
    /** `overlay._timeout`: the handle of the last auto-dismiss timer. */
    var timeout: Option<nat>
    /** Auto-dismiss timers scheduled and neither cleared nor fired. */
    var pendingTimers: set<nat>
    /** The handle the next `setTimeout` returns. */
    var nextTimer: nat

    /** The overlay exists at most once; the pending timers are exactly the
        one `_timeout` names, which was handed out before `nextTimer`; and
        nothing is on screen before the overlay exists. */
    ghost predicate Valid()
      reads this
    {
      && overlays == (if initialized then 1 else 0)
      && pendingTimers == TimerSet(timeout)
      && (timeout.Some? ==> timeout.value < nextTimer)
      && (!initialized ==>
            !displayed && !visible && !framePending && endListeners == 0 && timeout == None)
    }

    constructor ()
      ensures Valid()
      ensures !initialized && overlays == 0 && pendingTimers == {}
    {
      initialized, overlays, text := false, 0, "";
      displayed, visible, framePending, endListeners := false, false, false, 0;
      timeout, pendingTimers, nextTimer := None, {}, 0;
    }

    /** `initSuccessModal`: the first time only, builds the overlay, hidden
        and with an empty `.modal-text`. */
    method Init()
      requires Valid()
      modifies this`initialized, this`overlays, this`displayed, this`text
      ensures Valid() && initialized && overlays == 1
      ensures old(initialized) ==> displayed == old(displayed) && text == old(text)
      ensures !old(initialized) ==> !displayed && text == ""
    {
      if initialized {
        return;
      }
      initialized := true;
      overlays := overlays + 1;
      displayed := false;
      text := "";
    }

    /** `showSuccessModal(message)`: puts the message in, displays the
        overlay, asks for the `show` class on the next frame, cancels the
        pending auto-dismiss timer and schedules a new one, whose handle is
        returned. */
    method Show(message: string) returns (id: nat)
      requires Valid()
      modifies this
      ensures Valid()
      ensures initialized && overlays == 1
      ensures text == message && displayed && framePending
      ensures visible == old(visible) && endListeners == old(endListeners)
      ensures id !in old(pendingTimers)
      ensures timeout == Some(id) && pendingTimers == {id}
    {
      Init();
      text := message;
      displayed := true;
      framePending := true;
      ClearTimeout(timeout);
      assert pendingTimers == {};
      id := nextTimer;
      nextTimer := nextTimer + 1;
      timeout := Some(id);
      pendingTimers := pendingTimers + {id};
      assert pendingTimers == {id} == TimerSet(timeout);
    }

    /** `clearTimeout(handle)`: cancels that timer if it is pending. */
    method ClearTimeout(handle: Option<nat>)
      modifies this`pendingTimers
      ensures pendingTimers == old(pendingTimers) - TimerSet(handle)
    {
      if handle.Some? {
        pendingTimers := pendingTimers - {handle.value};
      }
    }

    /** `hideModal`: a no-op when the overlay was never built; otherwise it
        drops `show`, cancels the pending timer, forgets the handle and adds a
        `transitionend` listener that will set `display: none`. */
    method Hide()
      requires Valid()
      modifies this
      ensures Valid()
      ensures !old(initialized) ==> unchanged(this)
      ensures old(initialized) ==>
        && !visible && timeout == None && pendingTimers == {}
        && endListeners == old(endListeners) + 1
        && initialized && overlays == 1 && text == old(text)
        && displayed == old(displayed) && framePending == old(framePending)
    {
      if !initialized {
        return;
      }
      visible := false;
      ClearTimeout(timeout);
      timeout := None;
      endListeners := endListeners + 1;
    }

    /** A click on the overlay: only a click whose target is the overlay
        itself, not its content, hides the modal. The close and OK buttons
        call `Hide` directly. */
    method OverlayClick(onOverlay: bool)
      requires Valid()
      modifies this
      ensures Valid()
      ensures !(onOverlay && old(initialized)) ==> unchanged(this)
      ensures onOverlay && old(initialized) ==>
        && !visible && timeout == None && pendingTimers == {}
        && endListeners == old(endListeners) + 1
        && initialized && overlays == 1 && text == old(text)
        && displayed == old(displayed) && framePending == old(framePending)
    {
      if initialized && onOverlay {
        Hide();
      }
    }

    /** The next animation frame: a waiting callback adds `show`. */
    method AnimationFrame()
      requires Valid()
      modifies this
      ensures Valid()
      ensures visible == (old(visible) || old(framePending)) && !framePending
      ensures initialized == old(initialized) && overlays == old(overlays) && text == old(text)
      ensures displayed == old(displayed) && timeout == old(timeout)
      ensures pendingTimers == old(pendingTimers) && endListeners == old(endListeners)
      ensures nextTimer == old(nextTimer)
    {
      if framePending {
        visible := true;
        framePending := false;
      }
    }

    /** A `transitionend` on the overlay: every listener `hideModal` added
        sets `display: none` and removes itself. */
    method TransitionEnd()
      requires Valid()
      modifies this
      ensures Valid()
      ensures endListeners == 0
      ensures displayed == (old(displayed) && old(endListeners) == 0)
      ensures initialized == old(initialized) && overlays == old(overlays) && text == old(text)
      ensures visible == old(visible) && framePending == old(framePending)
      ensures timeout == old(timeout) && pendingTimers == old(pendingTimers)
      ensures nextTimer == old(nextTimer)
    {
      if endListeners > 0 {
        displayed := false;
        endListeners := 0;
      }
    }

    /** The host runs timer `id`. A cleared or already fired timer never
        runs; a pending one calls `hideModal`. */
    method TimerFires(id: nat)
      requires Valid()
      modifies this
      ensures Valid()
      ensures id !in old(pendingTimers) ==> unchanged(this)
      ensures id in old(pendingTimers) ==>
        && !visible && timeout == None && pendingTimers == {}
        && endListeners == old(endListeners) + 1
        && initialized && overlays == 1 && text == old(text)
        && displayed == old(displayed) && framePending == old(framePending)
    {
      if id in pendingTimers {
        Hide();
      }
    }
  }

  /** Showing the modal a second time restarts the countdown: when the
      first timer's 5000 ms would have run out the modal is still showing,
      and it goes only when the second timer fires. */
  method ShowTwiceRestartsCountdown() returns (shownAfterFirst: bool, shownAfterSecond: bool)
    ensures shownAfterFirst && !shownAfterSecond
  {
    var m := new SuccessModal();
    var first := m.Show("sent");
    m.AnimationFrame();
    var second := m.Show("sent");
    m.TimerFires(first);
    shownAfterFirst := m.visible && m.displayed;
    m.TimerFires(second);
    shownAfterSecond := m.visible;
  }
}
