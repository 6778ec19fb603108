/**
 * Activation: the script's top level, and the callback that runs once the
 * wrapper is located. The site gate and the page-wide flag make a second run of
 * the script a no-op; the callback guards itself against being called again.
 */
module Activation {
  import opened Wrappers
  import opened Sites
  import opened Iframes

  datatype Outcome = Unsupported | AlreadyActive | Activated(config: SiteConfig)

  /** The top level: an unsupported site does nothing (and leaves the flag alone); otherwise the flag lets only the first run through. */
  function Start(hostname: string, activated: bool): (r: (Outcome, bool))
    ensures r.0.Unsupported? <==> Resolve(hostname, Registry).None?
    ensures r.0.Unsupported? ==> r.1 == activated
    ensures r.0.Activated? <==> Resolve(hostname, Registry).Some? && !activated
    ensures r.0.Activated? ==> r.0.config == Resolve(hostname, Registry).value
    ensures !r.0.Unsupported? ==> r.1
  {
    match Resolve(hostname, Registry)
    case None => (Unsupported, activated)
    case Some(config) => if activated then (AlreadyActive, true) else (Activated(config), true)
  }

  /** Running the script a second time on the same page never activates again. */
  lemma {:induction false} SecondStartDoesNothing(hostname: string, activated: bool)
    ensures !Start(hostname, Start(hostname, activated).1).0.Activated?
  {
  }

  /** The cathodetv.com page activates with its `.wrapper` selector the first time. */
  lemma {:induction false} CathodeActivates()
    ensures Start("www.cathodetv.com", false) == (Activated(CathodeConfig), true)
  {
    assert "www.cathodetv.com" == "www." + "cathodetv.com" + "";
    CathodeHostsResolve("www.", "");
  }

  /**
   * What the wrapper callback leaves on the page: whether an element carrying the
   * container id exists, and how many takeovers (each with its own divider,
   * overlay and listener set) have been installed.
   */
  datatype Page = Page(containerMarked: bool, takeovers: nat)

  /** One call of the wrapper callback: the wrapper found, and the frames inside it and in the whole document. */
  datatype Call = Call(wrapperIsBody: bool, scope: seq<Frame>, all: seq<Frame>)

  predicate BothFound(c: Call)
  {
    var pair := Pick(c.scope, c.all);
    pair.video.Some? && pair.chat.Some?
  }

  /**
   * The callback as written: it skips when the container id is present, aborts when
   * classification fails, and otherwise takes over; only the body branch of the
   * takeover creates an element with the container id.
   */
  function OnWrapperAsWritten(p: Page, c: Call): (q: Page)
    ensures p.containerMarked || !BothFound(c) ==> q == p
    ensures !p.containerMarked && BothFound(c) ==> q.takeovers == p.takeovers + 1 && q.containerMarked == c.wrapperIsBody
  {
    if p.containerMarked then p
    else if !BothFound(c) then p
    else Page(c.wrapperIsBody, p.takeovers + 1)
  }

  /** The callback with the guard it evidently intends: every takeover marks the page, whichever branch promoted the root. */
  function OnWrapper(p: Page, c: Call): (q: Page)
    ensures p.containerMarked || !BothFound(c) ==> q == p
    ensures !p.containerMarked && BothFound(c) ==> q == Page(true, p.takeovers + 1)
  {
    if p.containerMarked then p
    else if !BothFound(c) then p
    else Page(true, p.takeovers + 1)
  }

  function RunAsWritten(p: Page, calls: seq<Call>): Page
    decreases |calls|
  {
    if |calls| == 0 then p else RunAsWritten(OnWrapperAsWritten(p, calls[0]), calls[1..])
  }

  function RunCallbacks(p: Page, calls: seq<Call>): Page
    decreases |calls|
  {
    if |calls| == 0 then p else RunCallbacks(OnWrapper(p, calls[0]), calls[1..])
  }

  /** Before any takeover, or after one that marked the page. */
  predicate Guarded(p: Page)
  {
    p.takeovers == 0 || (p.takeovers == 1 && p.containerMarked)
  }

  /**
   * As written, selector mode is not protected: when the container appears after
   * the script starts, the mutation observer and the 4000 ms timeout both call the
   * callback with it, and the page is taken over twice.
   */
  lemma {:induction false} SelectorModeTakesOverTwice(video: Frame, chat: Frame)
    ensures var c := Call(false, [video, chat], [video, chat]);
      RunAsWritten(Page(false, 0), [c, c]).takeovers == 2
  {
    var c := Call(false, [video, chat], [video, chat]);
    assert BothFound(c);
    var p1 := OnWrapperAsWritten(Page(false, 0), c);
    assert p1 == Page(false, 1);
    var p2 := OnWrapperAsWritten(p1, c);
    assert p2 == Page(false, 2);
    assert [c, c][1..] == [c];
    assert RunAsWritten(p1, [c]) == RunAsWritten(p2, []);
  }

  /** As written, the guard does hold in iframe-count mode, where the wrapper is the body. */
  lemma {:induction false} IframeModeTakesOverAtMostOnce(p: Page, calls: seq<Call>)
    requires Guarded(p)
    requires forall i :: 0 <= i < |calls| ==> calls[i].wrapperIsBody
    ensures Guarded(RunAsWritten(p, calls))
    ensures RunAsWritten(p, calls).takeovers <= 1
    decreases |calls|
  {
    if |calls| > 0 {
      IframeModeTakesOverAtMostOnce(OnWrapperAsWritten(p, calls[0]), calls[1..]);
    }
  }

  /** With the corrected guard, however often and with whatever the callback is called, the page is taken over at most once. */
  lemma {:induction false} TakesOverAtMostOnce(p: Page, calls: seq<Call>)
    requires Guarded(p)
    ensures Guarded(RunCallbacks(p, calls))
    ensures RunCallbacks(p, calls).takeovers <= 1
    decreases |calls|
  {
    if |calls| > 0 {
      TakesOverAtMostOnce(OnWrapper(p, calls[0]), calls[1..]);
    }
  }
}
