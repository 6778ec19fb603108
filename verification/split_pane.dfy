/**
 * The split-pane drag controller: a two-state machine (idle / dragging) that
 * turns pointer positions into a chat width, applies it live to the chat pane,
 * and persists it once when the drag ends.
 */
module SplitPane {
  import opened Wrappers
  import opened WidthStore

  /** Pixels between the pointer and the chat pane, for the divider's own width. */
  const HandleOffset := 4

  /** The takeover root's bounding rectangle, as far as the drag reads it. */
  datatype Rect = Rect(right: int, width: int)

  /** The events the controller listens to. */
  datatype Event =
    | MouseDown                           // press on the divider
    | MouseMove(clientX: int, rect: Rect) // move over the overlay or the document
    | MouseUp                             // release over the overlay or the document
    | MouseLeave                          // the pointer leaves the document
    | Blur                                // the window loses focus

  predicate IsStop(e: Event)
  {
    e.MouseUp? || e.MouseLeave? || e.Blur?
  }

  /**
   * The controller's state: whether a drag is in progress, the in-memory chat width,
   * the flex-basis the chat pane currently shows, the storage slot, and every
   * width handed to `saveChatWidth` so far, in order.
   */
  datatype Pane = Pane(dragging: bool, chatWidth: int, chatBasis: int, store: Storage, saves: seq<int>)

  /** Width the chat pane asks for when the pointer is at `clientX`. */
  function Requested(rect: Rect, clientX: int): int
  {
    rect.right - clientX - HandleOffset
  }

  /** Widest chat pane that still leaves the video pane its minimum. */
  function MaxChatWidth(rect: Rect): int
  {
    rect.width - MinChatPx
  }

  /** The chat width a move produces: the request cut to the ceiling, then raised to the floor. */
  function DragWidth(rect: Rect, clientX: int): (r: int)
    ensures r >= MinChatPx
    ensures rect.width >= 2 * MinChatPx ==> MinChatPx <= r <= MaxChatWidth(rect)
    ensures rect.width < 2 * MinChatPx ==> r == MinChatPx
    ensures MinChatPx <= Requested(rect, clientX) <= MaxChatWidth(rect) ==> r == Requested(rect, clientX)
  {
    var capped := if Requested(rect, clientX) < MaxChatWidth(rect) then Requested(rect, clientX) else MaxChatWidth(rect);
    if capped < MinChatPx then MinChatPx else capped
  }

  /** Distance between two integers. */
  function Dist(a: int, b: int): nat
  {
    if a < b then b - a else a - b
  }

  /** Of all admissible widths, the drag picks the one closest to the requested width. */
  lemma {:induction false} DragWidthIsNearest(rect: Rect, clientX: int, w: int)
    requires MinChatPx <= w <= MaxChatWidth(rect)
    ensures Dist(DragWidth(rect, clientX), Requested(rect, clientX)) <= Dist(w, Requested(rect, clientX))
  {
  }

  /** Moving the pointer to the right never widens the chat pane. */
  lemma {:induction false} DragWidthMonotone(rect: Rect, x1: int, x2: int)
    requires x1 <= x2
    ensures DragWidth(rect, x2) <= DragWidth(rect, x1)
  {
  }

  /** State right after the static layout is applied: idle, showing the loaded width, nothing saved. */
  function Setup(st: Storage, innerWidth: int): (p: Pane)
    ensures !p.dragging && p.saves == [] && p.store == st
    ensures p.chatWidth == p.chatBasis == Load(st, innerWidth)
    ensures p.chatWidth >= MinChatPx
  {
    var w := Load(st, innerWidth);
    Pane(false, w, w, st, [])
  }

  /** One event. Presses start a drag, moves resize only while dragging, stops end the drag and save once. */
  function Step(p: Pane, e: Event): (q: Pane)
    ensures e.MouseDown? ==> q == p.(dragging := true)
    ensures e.MouseMove? && !p.dragging ==> q == p
    ensures e.MouseMove? && p.dragging ==>
      q == p.(chatWidth := DragWidth(e.rect, e.clientX), chatBasis := DragWidth(e.rect, e.clientX))
    ensures IsStop(e) && !p.dragging ==> q == p
    ensures IsStop(e) && p.dragging ==>
      && !q.dragging && q.chatWidth == p.chatWidth && q.chatBasis == p.chatBasis
      && q.saves == p.saves + [p.chatWidth] && q.store == Save(p.store, p.chatWidth)
  {
    match e
    case MouseDown => p.(dragging := true)
    case MouseMove(x, rect) =>
      if !p.dragging then p
      else
        var w := DragWidth(rect, x);
        p.(chatWidth := w, chatBasis := w)
    case _ =>
      if !p.dragging then p
      else p.(dragging := false, store := Save(p.store, p.chatWidth), saves := p.saves + [p.chatWidth])
  }

  /** A sequence of events, in order. */
  function Run(p: Pane, events: seq<Event>): Pane
    decreases |events|
  {
    if |events| == 0 then p else Run(Step(p, events[0]), events[1..])
  }

  /** What every reachable state satisfies: the pane shows the remembered width, and no width below the minimum is ever shown or saved. */
  predicate Valid(p: Pane)
  {
    && p.chatWidth >= MinChatPx
    && p.chatBasis == p.chatWidth
    && forall i :: 0 <= i < |p.saves| ==> p.saves[i] >= MinChatPx
  }

  lemma {:induction false} SetupValid(st: Storage, innerWidth: int)
    ensures Valid(Setup(st, innerWidth))
  {
  }

  lemma {:induction false} RunPreservesValid(p: Pane, events: seq<Event>)
    requires Valid(p)
    ensures Valid(Run(p, events))
    decreases |events|
  {
    if |events| > 0 {
      var q := Step(p, events[0]);
      assert Valid(q);
      RunPreservesValid(q, events[1..]);
    }
  }

  /** Number of presses in `events`. */
  function Presses(events: seq<Event>): nat
  {
    if |events| == 0 then 0 else (if events[0].MouseDown? then 1 else 0) + Presses(events[1..])
  }

  /** Every save extends the log, and there are never more saves than drags that were started. */
  lemma {:induction false} SavesBoundedByPresses(p: Pane, events: seq<Event>)
    ensures p.saves <= Run(p, events).saves
    ensures |Run(p, events).saves| <= |p.saves| + Presses(events) + (if p.dragging then 1 else 0)
    decreases |events|
  {
    if |events| > 0 {
      SavesBoundedByPresses(Step(p, events[0]), events[1..]);
    }
  }

  /** Moves alone never touch storage and never change whether a drag is in progress. */
  lemma {:induction false} MovesNeverSave(p: Pane, events: seq<Event>)
    requires forall i :: 0 <= i < |events| ==> events[i].MouseMove?
    ensures Run(p, events).saves == p.saves && Run(p, events).store == p.store
    ensures Run(p, events).dragging == p.dragging
    decreases |events|
  {
    if |events| > 0 {
      MovesNeverSave(Step(p, events[0]), events[1..]);
    }
  }

  /** Stop events arriving together (mouseup, mouseleave, blur) end a drag and save exactly one value. */
  lemma {:induction false} StopsSaveOnce(p: Pane, stops: seq<Event>)
    requires p.dragging && |stops| > 0
    requires forall i :: 0 <= i < |stops| ==> IsStop(stops[i])
    ensures !Run(p, stops).dragging
    ensures Run(p, stops).saves == p.saves + [p.chatWidth]
    ensures Run(p, stops).store == Save(p.store, p.chatWidth)
  {
    var q := Step(p, stops[0]);
    IdleStopsDoNothing(q, stops[1..]);
  }

  /** Stop events while idle do nothing at all. */
  lemma {:induction false} IdleStopsDoNothing(p: Pane, stops: seq<Event>)
    requires !p.dragging
    requires forall i :: 0 <= i < |stops| ==> IsStop(stops[i])
    ensures Run(p, stops) == p
    decreases |stops|
  {
    if |stops| > 0 {
      IdleStopsDoNothing(Step(p, stops[0]), stops[1..]);
    }
  }

  /** While dragging, a run of moves leaves the width of the last move (and the width it started with when there are none). */
  lemma {:induction false} LastMoveWins(p: Pane, moves: seq<Event>)
    requires p.dragging
    requires forall i :: 0 <= i < |moves| ==> moves[i].MouseMove?
    ensures Run(p, moves).chatWidth ==
      if |moves| == 0 then p.chatWidth
      else DragWidth(moves[|moves| - 1].rect, moves[|moves| - 1].clientX)
    decreases |moves|
  {
    if |moves| > 0 {
      var q := Step(p, moves[0]);
      LastMoveWins(q, moves[1..]);
    }
  }

  /**
   * One whole drag from idle: a press, some moves, then one or more stop events.
   * Exactly one width is saved: that of the last move, or the width before the drag
   * when there were no moves. The machine is idle again.
   */
  lemma {:induction false} DragSessionSavesOnce(p: Pane, moves: seq<Event>, stops: seq<Event>)
    requires !p.dragging && |stops| > 0
    requires forall i :: 0 <= i < |moves| ==> moves[i].MouseMove?
    requires forall i :: 0 <= i < |stops| ==> IsStop(stops[i])
    ensures var q := Run(p, [MouseDown] + moves + stops);
      && !q.dragging
      && q.saves == p.saves + [
        if |moves| == 0 then p.chatWidth
        else DragWidth(moves[|moves| - 1].rect, moves[|moves| - 1].clientX)]
  {
    var pressed := p.(dragging := true);
    RunAppend(p, [MouseDown], moves + stops);
    assert ([MouseDown] + moves + stops) == [MouseDown] + (moves + stops);
    RunAppend(pressed, moves, stops);
    MovesNeverSave(pressed, moves);
    LastMoveWins(pressed, moves);
    StopsSaveOnce(Run(pressed, moves), stops);
  }

  /** Running two event sequences one after the other is running their concatenation. */
  lemma {:induction false} RunAppend(p: Pane, a: seq<Event>, b: seq<Event>)
    ensures Run(p, a + b) == Run(Run(p, a), b)
    decreases |a|
  {
    if |a| > 0 {
      assert (a + b)[0] == a[0];
      assert (a + b)[1..] == a[1..] + b;
      RunAppend(Step(p, a[0]), a[1..], b);
    } else {
      assert a + b == b;
    }
  }

  /** The overlay and the document both deliver the same move: handling it twice is handling it once. */
  lemma {:induction false} DuplicateMoveIdempotent(p: Pane, x: int, rect: Rect)
    ensures Step(Step(p, MouseMove(x, rect)), MouseMove(x, rect)) == Step(p, MouseMove(x, rect))
  {
  }

  /** After a drag ends, the next page load shows the width the drag ended at. */
  lemma {:induction false} SavedWidthReloads(p: Pane, stop: Event, innerWidth: int)
    requires Valid(p) && p.dragging && IsStop(stop)
    requires p.store.readable && p.store.writable
    ensures Load(Step(p, stop).store, innerWidth) == p.chatWidth
  {
    LoadAfterSave(p.store, p.chatWidth, innerWidth);
  }

  /** Dragging to x = 950 in a 1000-pixel container whose right edge is at 1000 asks for 46 pixels, gets 150, and 150 is what reloads. */
  lemma {:induction false} NarrowDragReloadsMinimum(st: Storage, innerWidth: int)
    requires st.readable && st.writable
    ensures var p := Run(Setup(st, innerWidth), [MouseDown, MouseMove(950, Rect(1000, 1000)), MouseUp]);
      && p.chatWidth == MinChatPx
      && Load(p.store, innerWidth) == MinChatPx
  {
    var p0 := Setup(st, innerWidth);
    var p1 := Step(p0, MouseDown);
    var p2 := Step(p1, MouseMove(950, Rect(1000, 1000)));
    assert Requested(Rect(1000, 1000), 950) == 46;
    assert p2.chatWidth == MinChatPx;
    SavedWidthReloads(p2, MouseUp, innerWidth);
    assert Run(p0, [MouseDown, MouseMove(950, Rect(1000, 1000)), MouseUp]) == Step(p2, MouseUp);
  }
}
