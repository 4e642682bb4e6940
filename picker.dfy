/**
 * The template picker: a list with a selected index that `j`/Down and
 * `k`/Up move cyclically, and the key loop of `run_app` that ends on `q`
 * or Enter. Drawing, polling and terminal setup are not modelled; the
 * events the loop reads are given as a sequence.
 */
module Picker {
  import opened Wrappers

  /** The index `next` selects. `len - 1` is only computed when an index is already selected. */
  function NextIndex(selected: Option<nat>, len: nat): (i: nat)
    requires selected.Some? ==> len > 0
    ensures len > 0 ==> i < len
    ensures selected.Some? && selected.value < len - 1 ==> i == selected.value + 1
    ensures selected.None? || selected.value >= len - 1 ==> i == 0
  {
    match selected
    case None => 0
    case Some(i) => if i >= len - 1 then 0 else i + 1
  }

  /** The index `previous` selects; from no selection it is the first item, not the last. */
  function PreviousIndex(selected: Option<nat>, len: nat): (i: nat)
    requires selected.Some? ==> len > 0
    ensures len > 0 && (selected.Some? ==> selected.value <= len) ==> i < len
    ensures selected.Some? && 0 < selected.value ==> i == selected.value - 1
    ensures selected == Some(0) ==> i == len - 1
    ensures selected.None? ==> i == 0
  {
    match selected
    case None => 0
    case Some(i) => if i == 0 then len - 1 else i - 1
  }

  /** `StatefulList`: the items and the list state's selected index. */
  class StatefulList<T> {
    var items: seq<T>
    var selected: Option<nat>

    /** `with_items`: nothing is selected yet. */
    constructor WithItems(items: seq<T>)
      ensures this.items == items && selected == None
    {
      this.items := items;
      selected := None;
    }

    method Next()
      requires selected.Some? ==> |items| > 0
      modifies this
      ensures items == old(items)
      ensures selected == Some(NextIndex(old(selected), |items|))
    {
      var i: nat;
      match selected {
        case Some(s) =>
          if s >= |items| - 1 {
            i := 0;
          } else {
            i := s + 1;
          }
        case None =>
          i := 0;
      }
      selected := Some(i);
    }

    method Previous()
      requires selected.Some? ==> |items| > 0
      modifies this
      ensures items == old(items)
      ensures selected == Some(PreviousIndex(old(selected), |items|))
    {
      var i: nat;
      match selected {
        case Some(s) =>
          if s == 0 {
            i := |items| - 1;
          } else {
            i := s - 1;
          }
        case None =>
          i := 0;
      }
      selected := Some(i);
    }
  }

  lemma NextThenPrevious(i: nat, len: nat)
    requires i < len
    ensures PreviousIndex(Some(NextIndex(Some(i), len)), len) == i
  {
  }

  lemma PreviousThenNext(i: nat, len: nat)
    requires i < len
    ensures NextIndex(Some(PreviousIndex(Some(i), len)), len) == i
  {
  }

  /** The index after `k` successive `next` calls from `i`. */
  function NextTimes(i: nat, len: nat, k: nat): (r: nat)
    requires len > 0
  {
    if k == 0 then i else NextIndex(Some(NextTimes(i, len, k - 1)), len)
  }

  /** Before the end of the list, `k` successive `next` calls advance the index by `k`. */
  lemma {:induction false} NextTimesAdvances(i: nat, len: nat, k: nat)
    requires i + k < len
    ensures NextTimes(i, len, k) == i + k
  {
    if k > 0 {
      NextTimesAdvances(i, len, k - 1);
    }
  }

  /** `a + b` successive `next` calls are `a` calls followed by `b` calls. */
  lemma {:induction false} NextTimesCompose(i: nat, len: nat, a: nat, b: nat)
    requires len > 0
    ensures NextTimes(i, len, a + b) == NextTimes(NextTimes(i, len, a), len, b)
  {
    if b > 0 {
      NextTimesCompose(i, len, a, b - 1);
    }
  }

  /** `len` successive `next` calls from an index in range come back to it. */
  lemma NextFullCircle(i: nat, len: nat)
    requires i < len
    ensures NextTimes(i, len, len) == i
  {
    NextTimesAdvances(i, len, len - i - 1);
    assert NextTimes(i, len, len - i) == 0;
    NextTimesCompose(i, len, len - i, i);
    if i > 0 {
      NextTimesAdvances(0, len, i - 1);
      assert NextTimes(0, len, i) == i;
    }
  }

  datatype KeyCode = Char(c: char) | Enter | Up | Down | OtherKey

  datatype KeyEventKind = Press | Repeat | Release

  datatype Event = Key(code: KeyCode, kind: KeyEventKind) | OtherEvent

  /** How `run_app` ends: a returned name (`""` on `q`), a panic, or still waiting for keys. */
  datatype PickerOutcome = Returned(name: string) | Panicked | Waiting

  datatype KeyResult = Continue(selected: Option<nat>) | Finish(outcome: PickerOutcome)

  /** A navigation key: with an empty list and a selection, `len() - 1` underflows. */
  function Move(items: seq<string>, selected: Option<nat>, forward: bool): KeyResult
  {
    if selected.Some? && |items| == 0 then Finish(Panicked)
    else if forward then Continue(Some(NextIndex(selected, |items|)))
    else Continue(Some(PreviousIndex(selected, |items|)))
  }

  /** The `match key.code` of `run_app` for one event. */
  function HandleEvent(items: seq<string>, selected: Option<nat>, event: Event): KeyResult
  {
    match event
    case OtherEvent => Continue(selected)
    case Key(code, kind) =>
      if kind != Press then Continue(selected)
      else match code
        case Char(c) =>
          if c == 'q' then Finish(Returned(""))
          else if c == 'j' then Move(items, selected, true)
          else if c == 'k' then Move(items, selected, false)
          else Continue(selected)
        case Enter =>
          if selected.None? then Continue(selected)
          else if selected.value < |items| then Finish(Returned(items[selected.value]))
          else Finish(Panicked)
        case Down => Move(items, selected, true)
        case Up => Move(items, selected, false)
        case OtherKey => Continue(selected)
  }

  /** The key loop from a given selection over the events still to come. */
  function Dispatch(items: seq<string>, selected: Option<nat>, events: seq<Event>): PickerOutcome
    decreases |events|
  {
    if events == [] then Waiting
    else match HandleEvent(items, selected, events[0])
      case Continue(s) => Dispatch(items, s, events[1..])
      case Finish(o) => o
  }

  /** `run_app`: the first item is selected before any key is read. */
  function PickerRun(items: seq<string>, events: seq<Event>): PickerOutcome
  {
    Dispatch(items, Some(NextIndex(None, |items|)), events)
  }

  /** `run_app` over a list built from `names` (the drawing and the tick timing left out). */
  method RunApp(names: seq<string>, events: seq<Event>) returns (outcome: PickerOutcome)
    ensures outcome == PickerRun(names, events)
  {
    var app := new StatefulList.WithItems(names);
    app.Next();
    var i := 0;
    while i < |events|
      invariant 0 <= i <= |events|
      invariant app.items == names
      invariant PickerRun(names, events) == Dispatch(names, app.selected, events[i..])
    {
      var event := events[i];
      assert events[i..][0] == event && events[i..][1..] == events[i + 1..];
      if event.Key? && event.kind == Press {
        var forward: Option<bool> := None;
        match event.code {
          case Char(c) =>
            if c == 'q' {
              return Returned("");
            } else if c == 'j' {
              forward := Some(true);
            } else if c == 'k' {
              forward := Some(false);
            }
          case Enter =>
            if app.selected.Some? {
              if app.selected.value >= |app.items| {
                return Panicked;
              }
              return Returned(app.items[app.selected.value]);
            }
          case Down =>
            forward := Some(true);
          case Up =>
            forward := Some(false);
          case OtherKey =>
        }
        if forward.Some? {
          if app.selected.Some? && |app.items| == 0 {
            return Panicked;
          }
          if forward.value {
            app.Next();
          } else {
            app.Previous();
          }
        }
      }
      i := i + 1;
    }
    outcome := Waiting;
  }

  predicate InRange(selected: Option<nat>, len: nat) {
    selected.Some? ==> selected.value < len
  }

  /**
   * With a non-empty list the picker never panics, and what it returns is
   * either `""` (quit) or one of the items.
   */
  lemma {:induction false} DispatchReturnsItem(items: seq<string>, selected: Option<nat>, events: seq<Event>)
    requires |items| > 0 && InRange(selected, |items|)
    ensures Dispatch(items, selected, events) != Panicked
    ensures Dispatch(items, selected, events).Returned? ==>
              Dispatch(items, selected, events).name == "" || Dispatch(items, selected, events).name in items
    decreases |events|
  {
    if events != [] {
      match HandleEvent(items, selected, events[0])
      case Continue(s) =>
        DispatchReturnsItem(items, s, events[1..]);
      case Finish(o) =>
    }
  }

  lemma PickerReturnsItem(items: seq<string>, events: seq<Event>)
    requires |items| > 0
    ensures PickerRun(items, events) != Panicked
    ensures PickerRun(items, events).Returned? ==>
              PickerRun(items, events).name == "" || PickerRun(items, events).name in items
  {
    DispatchReturnsItem(items, Some(0), events);
  }

  /** With an empty list, any navigation key or Enter panics. */
  lemma EmptyListPanics(code: KeyCode, rest: seq<Event>)
    requires code.Enter? || code.Up? || code.Down? || code == Char('j') || code == Char('k')
    ensures PickerRun([], [Key(code, Press)] + rest) == Panicked
  {
  }

  /** Events other than key presses, and keys without a binding, leave the selection as it was. */
  lemma UnboundEventsIgnored(items: seq<string>, selected: Option<nat>, event: Event, rest: seq<Event>)
    requires event.OtherEvent? || event.kind != Press || event.code.OtherKey?
             || (event.code.Char? && event.code.c !in {'q', 'j', 'k'})
    ensures Dispatch(items, selected, [event] + rest) == Dispatch(items, selected, rest)
  {
    assert ([event] + rest)[1..] == rest;
  }

  /**
   * The key bindings: `q` quits with `""`, Enter returns the selected
   * item (and does nothing without a selection), `j`/Down select the next
   * index and `k`/Up the previous one.
   */
  lemma HandleEventKeys(items: seq<string>, selected: Option<nat>)
    ensures HandleEvent(items, selected, Key(Char('q'), Press)) == Finish(Returned(""))
    ensures selected.Some? && selected.value < |items| ==>
              HandleEvent(items, selected, Key(Enter, Press)) == Finish(Returned(items[selected.value]))
    ensures selected.None? ==> HandleEvent(items, selected, Key(Enter, Press)) == Continue(None)
    ensures |items| > 0 || selected.None? ==>
              && HandleEvent(items, selected, Key(Char('j'), Press)) == Continue(Some(NextIndex(selected, |items|)))
              && HandleEvent(items, selected, Key(Down, Press)) == Continue(Some(NextIndex(selected, |items|)))
              && HandleEvent(items, selected, Key(Char('k'), Press)) == Continue(Some(PreviousIndex(selected, |items|)))
              && HandleEvent(items, selected, Key(Up, Press)) == Continue(Some(PreviousIndex(selected, |items|)))
  {
  }

  /** Pressing Enter right away returns the first item of a non-empty list. */
  lemma EnterPicksFirst(items: seq<string>, rest: seq<Event>)
    requires |items| > 0
    ensures PickerRun(items, [Key(Enter, Press)] + rest) == Returned(items[0])
  {
  }
}
