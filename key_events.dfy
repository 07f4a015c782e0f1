/**
  Keyboard waits over the X event queue (`wait_any_key` and `wait_for_key` of
  lib/qexperiment.cc).  The queue is a finite sequence of events and a wait
  reads it from a position on, one `XNextEvent` per event: where the source
  blocks for ever, the model reports that the queue ran out without a
  qualifying key.
*/
module KeyEvents {
  import opened Wrappers

  /** X11 key symbols of the two answer keys. */
  const XK_Up: int := 0xff52
  const XK_Down: int := 0xff54

  /** The answer keys of a trial, Up first, in the order they are tried. */
  const AnswerKeys: seq<int> := [XK_Up, XK_Down]

  /** An X event: a key press carrying the key symbol `XLookupString` gives, or anything else. */
  datatype Event = KeyPress(keysym: int) | OtherEvent

  /** Index of the first key press, of any key, at or after `from`. */
  function NextKeyPress(events: seq<Event>, from: nat): (r: Option<nat>)
    requires from <= |events|
    ensures r.Some? ==> from <= r.value < |events| && events[r.value].KeyPress?
    decreases |events| - from
  {
    if from == |events| then None
    else if events[from].KeyPress? then Some(from)
    else NextKeyPress(events, from + 1)
  }

  /** `NextKeyPress` skips no key press, and finds none only when there is none. */
  lemma {:induction false} NextKeyPressIsFirst(events: seq<Event>, from: nat)
    requires from <= |events|
    ensures NextKeyPress(events, from).Some? ==>
      forall j :: from <= j < NextKeyPress(events, from).value ==> !events[j].KeyPress?
    ensures NextKeyPress(events, from).None? ==> forall j :: from <= j < |events| ==> !events[j].KeyPress?
    decreases |events| - from
  {
    if from < |events| && !events[from].KeyPress? {
      NextKeyPressIsFirst(events, from + 1);
    }
  }

  predicate Accepts(e: Event, accepted: seq<int>) {
    e.KeyPress? && e.keysym in accepted
  }

  /** Index of the first press of one of the `accepted` keys at or after `from`; every other event is skipped. */
  function NextAccepted(events: seq<Event>, from: nat, accepted: seq<int>): (r: Option<nat>)
    requires from <= |events|
    ensures r.Some? ==> from <= r.value < |events| && Accepts(events[r.value], accepted)
    decreases |events| - from
  {
    if from == |events| then None
    else if Accepts(events[from], accepted) then Some(from)
    else NextAccepted(events, from + 1, accepted)
  }

  /** `NextAccepted` skips only events that are not accepted key presses. */
  lemma {:induction false} NextAcceptedIsFirst(events: seq<Event>, from: nat, accepted: seq<int>)
    requires from <= |events|
    ensures NextAccepted(events, from, accepted).Some? ==>
      forall j :: from <= j < NextAccepted(events, from, accepted).value ==> !Accepts(events[j], accepted)
    ensures NextAccepted(events, from, accepted).None? ==> forall j :: from <= j < |events| ==> !Accepts(events[j], accepted)
    decreases |events| - from
  {
    if from < |events| && !Accepts(events[from], accepted) {
      NextAcceptedIsFirst(events, from + 1, accepted);
    }
  }

  /**
    Wait for any key: reads events from position `from` until one is a key
    press.  `next` is the position after the last event read.
  */
  method WaitAnyKey(events: seq<Event>, from: nat) returns (pressed: bool, next: nat)
    requires from <= |events|
    ensures from <= next <= |events|
    ensures pressed <==> NextKeyPress(events, from).Some?
    ensures pressed ==> next == NextKeyPress(events, from).value + 1
    ensures !pressed ==> next == |events|
  {
    pressed := false;
    next := from;
    while !pressed && next < |events|
      invariant from <= next <= |events|
      invariant pressed ==> NextKeyPress(events, from) == Some(next - 1)
      invariant !pressed ==> NextKeyPress(events, from) == NextKeyPress(events, next)
    {
      var evt := events[next];
      next := next + 1;
      if evt.KeyPress? {
        pressed := true;
      }
    }
  }

  /**
    Wait for one of the `accepted` keys: on every key press the accepted keys
    are scanned in order; the first match ends the wait and is returned.
  */
  method WaitForKey(events: seq<Event>, from: nat, accepted: seq<int>) returns (found: bool, key: int, next: nat)
    requires from <= |events|
    ensures from <= next <= |events|
    ensures found <==> NextAccepted(events, from, accepted).Some?
    ensures found ==> next == NextAccepted(events, from, accepted).value + 1
    ensures found ==> key == events[next - 1].keysym && key in accepted
    ensures !found ==> next == |events|
  {
    found := false;
    key := 0;
    next := from;
    while !found && next < |events|
      invariant from <= next <= |events|
      invariant found ==> NextAccepted(events, from, accepted) == Some(next - 1)
      invariant found ==> key == events[next - 1].keysym && key in accepted
      invariant !found ==> NextAccepted(events, from, accepted) == NextAccepted(events, next, accepted)
    {
      var evt := events[next];
      next := next + 1;
      if evt.KeyPress? {
        var keysym := evt.keysym;
        var i := 0;
        while i < |accepted| && !found
          invariant 0 <= i <= |accepted|
          invariant !found ==> keysym !in accepted[..i]
          invariant found ==> key == keysym && keysym in accepted
        {
          if accepted[i] == keysym {
            found := true;
            key := keysym;
          }
          i := i + 1;
        }
        assert !found ==> accepted[..i] == accepted;
      }
    }
  }
}
