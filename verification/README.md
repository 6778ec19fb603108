# Video/chat theatre mode — a Dafny model of the content script

The browser extension "cathodeTheatreMode" injects one content script
(`content.js`) into supported pages. The script recognises the site from its
hostname, waits for the page's wrapper element, decides which of the page's
iframes is the video and which is the chat, promotes one node to a fullscreen
flex container while hiding the rest of the page, and installs a draggable
divider between the two panes. The divider's position (the chat width) is kept
in `localStorage` under the key `cathode-chat-width`.

This project models the decision logic of that script as pure Dafny functions,
methods and lemmas:

- `Sites` — the site registry and first-match hostname resolution (`getCurrentSiteConfig`).
- `Decimal` — `parseInt(s, 10)` and `String(n)` on integers, with the round trip between them.
- `WidthStore` — `clamp`, the viewport default, `loadChatWidth` and `saveChatWidth` over a storage slot that may be missing or may throw.
- `SplitPane` — the drag state machine of `applyStaticLayout`: press, move, and the three stop events, with the width computation of `handleMouseMove` and the single save of `stopDragging`.
- `Iframes` — `pickIframes`: the positional rule inside the wrapper and the pattern-based fallback over the whole document.
- `Takeover` — `makeFullscreen`: the climb to the topmost ancestor below `body` (or a new container when the wrapper is `body`) and the hiding of every other child of `body`.
- `Activation` — the top-level site gate and activation flag, and the re-run guard of the wrapper callback.
- `Strings`, `Seqs`, `Wrappers` — substring search (`includes`, literal regular expressions), first-match search (`for … of` with early return, `Array.prototype.find`) and `Option`.

Browser inputs become parameters: the hostname is a string, the storage slot is
`Storage(item, readable, writable)` (a read or a write that throws is
`readable == false` / `writable == false`), the viewport width, pointer
position and the container's bounding rectangle are integers, iframes are
`Frame(id, src)` values listed in document order (`src` being the serialized
URL the `src` property returns), and the DOM is a parent map
over element numbers in document order, so that a parent always precedes its
children.

Behaviours of the code a reader might not expect:

- The fallback iframe patterns are matched case-sensitively: the regular
  expressions in `content.js` carry no `i` flag. They are tested against the
  `src` property, which is the serialized URL (scheme and host already lower
  case, relative URLs resolved against the page), so the case matters in the
  path and query only (`Iframes.PatternsAreCaseSensitive`).
- The chat fallback does not skip the frame already chosen as video, so one
  frame can receive both roles even when a second frame exists
  (`Iframes.FallbackMayGiveBothRolesToOneFrame`).
- A loaded chat width is bounded only from below: a stored width larger than the
  container is used as it is (`WidthStore.LoadedWidthUnbounded`). Only the drag
  enforces the upper bound `containerWidth − 150`, and only when the container is
  at least 300 pixels wide.
- "Saving what was loaded changes nothing" holds for the width, not for the
  stored text: `" 200px"` loads as 200 and is written back as `"200"`
  (`WidthStore.SaveLoadedIsStable`).

## Model

| member | source | states |
|---|---|---|
| Strings.ContainsIffOccurs | content.js:19 | `includes` succeeds exactly when the needle occurs at some offset of the hostname (both directions) |
| Strings.SuperstringContains | content.js:19 | any string built as prefix + domain + suffix contains the domain |
| Seqs.FirstIndex | content.js:18-23 | the index returned satisfies the test and every earlier element fails it; no index exactly when no element passes |
| Sites.Resolve | content.js:16-24 | the result is absent exactly when no registry domain occurs in the hostname; otherwise it is the configuration of a matching entry with no earlier matching entry |
| Sites.FirstMatchWins | content.js:18-21 | when entry i matches and no earlier entry does, resolution returns entry i's configuration |
| Sites.CathodeHostsResolve | content.js:9-24 | every hostname containing "cathodetv.com" resolves to the `.wrapper`, wait-for-container configuration |
| Sites.OtherHostsUnsupported | content.js:9-24 | a hostname without "cathodetv.com" is unsupported |
| Decimal.ParseToDecimal | content.js:159-168 | `parseInt(String(n), 10)` gives back n for every integer n |
| Decimal.ParseDecimalPrefix | content.js:159 | text after the number that does not start with a digit is ignored by `parseInt` ("320px" reads as 320) |
| Decimal.ParseRejectsNonNumeric | content.js:159-160 | a string starting with a character that is not white space, a sign or a digit ("abc") reads as NaN |
| WidthStore.Clamp | content.js:69-71 | the result is never below 150 and equals the input when the input is at least 150 |
| WidthStore.RoundQuarter | content.js:163 | `Math.round(w * 0.25)` is the integer r with 4r − 2 ≤ w < 4r + 2 |
| WidthStore.DefaultWidth | content.js:163 | the default lies in [150, 520] and is the rounded quarter of the viewport when that is inside the range, else the nearer bound |
| WidthStore.Load | content.js:155-164 | the loaded width is at least 150; it is the clamped stored number when the slot can be read, is non-empty and parses, and the viewport default otherwise |
| WidthStore.Save | content.js:166-170 | a writable slot afterwards holds text that parses back to the saved width; a slot whose write throws is left unchanged |
| WidthStore.LoadAfterSave | content.js:155-170 | after saving w to a working slot, loading returns max(150, w), whatever was stored before |
| WidthStore.SaveLoadedIsStable | content.js:155-170 | saving the loaded width and loading again returns the same width, also when reading or writing the slot throws |
| WidthStore.NonNumericFallsBack | content.js:157-163 | a stored non-numeric string falls back to the viewport default |
| WidthStore.LoadedWidthUnbounded | content.js:160 | any stored number of at least 150 is loaded unchanged: there is no upper bound |
| SplitPane.DragWidth | content.js:247-250 | the drag width is at least 150; at most width − 150 when the container is at least 300 wide; exactly 150 when narrower; the requested width when it is admissible |
| SplitPane.DragWidthIsNearest | content.js:247-250 | among all admissible widths, the drag width is the one nearest to the requested width `right − clientX − 4` |
| SplitPane.DragWidthMonotone | content.js:249-250 | moving the pointer right never widens the chat pane |
| SplitPane.Setup | content.js:199-209 | the controller starts idle, with nothing saved, showing the loaded width as the chat pane's basis |
| SplitPane.Step | content.js:233-265 | a press starts a drag; a move while idle and a stop while idle change nothing; a move while dragging sets the width and the shown basis and saves nothing; a stop while dragging ends the drag and saves the current width once |
| SplitPane.RunPreservesValid | content.js:231-274 | along any event sequence the shown basis equals the remembered width, and no width below 150 is ever held or saved |
| SplitPane.SetupValid | content.js:199-209 | the initial state satisfies that invariant |
| SplitPane.SavesBoundedByPresses | content.js:233-274 | saves only append to the log, and there are never more of them than presses (plus one for a drag already under way) |
| SplitPane.MovesNeverSave | content.js:244-255 | moves alone never write storage and never start or end a drag |
| SplitPane.StopsSaveOnce | content.js:233-242 | mouseup, mouseleave and blur arriving together after a drag save exactly one width and leave the machine idle |
| SplitPane.IdleStopsDoNothing | content.js:233-234 | stop events while idle leave the whole state unchanged |
| SplitPane.LastMoveWins | content.js:244-255 | while dragging, a run of moves leaves the width computed from the last move, or the starting width when there is no move |
| SplitPane.DragSessionSavesOnce | content.js:233-274 | a press, any moves, then any non-empty burst of stops saves exactly one value: the drag width of the last move, or the width before the drag when there was no move |
| SplitPane.DuplicateMoveIdempotent | content.js:267-269 | one pointer move delivered to both the overlay and the document has the effect of one delivery |
| SplitPane.SavedWidthReloads | content.js:233-242 | after a drag ends with a working slot, the next load returns the width the drag ended at |
| SplitPane.NarrowDragReloadsMinimum | content.js:244-258 | a drag to x = 950 in a 1000-wide container ending at 1000 asks for 46, sets 150, and 150 reloads |
| Iframes.FindOr | content.js:125-126 | with a frame passing the test, the result is the first such frame of the list; with none, it is the fallback |
| Iframes.Pick | content.js:114-129 | two or more frames in the wrapper give (first, second); otherwise no frames in the document gives (null, null) and any frame gives two non-null roles taken from the document |
| Iframes.FallbackVideoFirstMatch | content.js:125 | when the wrapper has fewer than two frames, the video is the first document frame whose source names a video host |
| Iframes.FallbackVideoDefault | content.js:125 | when no source names a video host, the video is the first document frame |
| Iframes.FallbackChatFirstMatch | content.js:126 | when the wrapper has fewer than two frames, the chat is the first document frame whose source names a chat, even if that frame is the video |
| Iframes.FallbackChatDefault | content.js:126 | when no source names a chat, the chat is the second document frame, or the first when there is only one |
| Iframes.PositionalRuleIgnoresSources | content.js:115-118 | a wrapper with frames A, B, C gives video A and chat B whatever their sources |
| Iframes.FallbackMayGiveBothRolesToOneFrame | content.js:125-128 | a frame whose source names both a video host and "chat" takes both roles although another frame exists |
| Iframes.PatternsAreCaseSensitive | content.js:125 | a source whose path spells the video token in capitals ("https://a.b/VIDEOEMBED") is not recognised as video |
| Takeover.Climb | content.js:83-84 | the result is the wrapper or an ancestor of it, is a child of `body` or has no parent, and no node between the wrapper and it has either property |
| Takeover.HideOthers | content.js:107-109 | exactly the children of `body` other than the takeover root are hidden |
| Takeover.Promote | content.js:73-111 | a `body` wrapper gets a new last child of `body` as root; any other wrapper gets its nearest ancestor-or-self below `body`; exactly the other children of `body` are hidden, and neither the wrapper nor any node enclosing it is |
| Activation.Start | content.js:277-290 | an unsupported site neither activates nor sets the flag; a supported one activates with its configuration only when the flag is unset, and sets it |
| Activation.SecondStartDoesNothing | content.js:285-290 | running the script twice on one page never activates the second time |
| Activation.CathodeActivates | content.js:278-290 | "www.cathodetv.com" activates on the first run with the `.wrapper` configuration |
| Activation.OnWrapperAsWritten | content.js:294-309 | the callback leaves the page unchanged when the container id exists or classification fails; otherwise it counts one takeover and marks the page only for a `body` wrapper |
| Activation.SelectorModeTakesOverTwice | content.js:49-66 | two callback calls with the same located wrapper in selector mode take the page over twice |
| Activation.IframeModeTakesOverAtMostOnce | content.js:294-298 | when every call's wrapper is `body`, the guard as written allows at most one takeover |
| Activation.OnWrapper | content.js:294-309 | with the corrected guard, a takeover always marks the page, and a marked page or failed classification is left unchanged |
| Activation.TakesOverAtMostOnce | content.js:294-298 | with the corrected guard, any sequence of callback calls takes the page over at most once |

## Findings

| source | as written | input that shows it | evidently intended | confidence | as-written member | corrected member |
|---|---|---|---|---|---|---|
| content.js:294-298 | the re-run guard looks for the element id `video-chat-resizer-container`, which only the `body` branch of `makeFullscreen` creates (lines 77-80) | on cathodetv.com (selector mode), `.wrapper` appears after the script starts and before 4000 ms: the mutation observer (lines 52-58) and the timeout (lines 60-66) both call the callback, and the second call installs a second divider, overlay and listener set | the callback takes over the page once, in both modes | medium; not executed | Activation.SelectorModeTakesOverTwice | Activation.TakesOverAtMostOnce |

## Left out

- `waitForWrapper` (content.js:26-67): the mutation observer and the 4000 ms timer are asynchronous browser plumbing. The model keeps only its consequence for the callback, which may be called more than once (see Findings); it does not claim the wrapper is located exactly once.
- Styles: the fullscreen style set (content.js:88-104), the iframe and pane styles (content.js:179-209), the divider's look and hover colours (`createResizeHandle`, content.js:131-153), the overlay's display, the body cursor and text selection are not modelled; the split pane keeps only the chat pane's flex basis.
- Re-parenting the classified iframes into the takeover root (content.js:311-317) and inserting the divider before the chat frame (content.js:213): both move nodes in document order, which the model's node numbering does not renumber.
- The `applyStaticLayout` guard for missing frames (content.js:173-176) repeats the callback's own check (content.js:303-306), which `Activation.BothFound` models.
- Event-listener registration, `preventDefault` and `stopPropagation`: the model receives the events the listeners would receive.
- Console logging and warnings.
- Floating point: rectangle coordinates, the pointer position and the viewport width are integers. In the source an unrounded drag width can be saved and is truncated by `parseInt` on the next load; the model saves and loads integers only.
- Decimal.ParseInt: does not model loss of precision beyond 2^53.
- Decimal.ToDecimal: writes every integer in plain digits; `String(n)` switches to exponent notation from 10^21 on.
- The storage key is a constant; other keys and other origins' storage are not modelled.
