/**
 * Chat-width persistence. The browser's `localStorage` slot under the key
 * "cathode-chat-width" is modelled as one optional string; either access to it
 * may throw, and both failures are swallowed by the code that uses it.
 */
module WidthStore {
  import opened Wrappers
  import opened Decimal

  const MinChatPx := 150
  const DefaultChatPx := 520

  /** The stored slot: its string if any, and whether reading / writing it throws. */
  datatype Storage = Storage(item: Option<string>, readable: bool, writable: bool)

  /** `clamp`: a width is never narrower than the minimum chat width. */
  function Clamp(v: int): (r: int)
    ensures r >= MinChatPx
    ensures v >= MinChatPx ==> r == v
    ensures v < MinChatPx ==> r == MinChatPx
  {
    if v < MinChatPx then MinChatPx else v
  }

  /** `Math.round(w * 0.25)` for an integral viewport width `w` (halves round up). */
  function RoundQuarter(w: int): (r: int)
    ensures 4 * r - 2 <= w < 4 * r + 2
  {
    (w + 2) / 4
  }

  /** The width used when nothing valid is stored: a quarter of the viewport, kept within [MinChatPx, DefaultChatPx]. */
  function DefaultWidth(innerWidth: int): (r: int)
    ensures MinChatPx <= r <= DefaultChatPx
    ensures MinChatPx <= RoundQuarter(innerWidth) <= DefaultChatPx ==> r == RoundQuarter(innerWidth)
    ensures RoundQuarter(innerWidth) < MinChatPx ==> r == MinChatPx
    ensures RoundQuarter(innerWidth) > DefaultChatPx ==> r == DefaultChatPx
  {
    var q := RoundQuarter(innerWidth);
    if q > DefaultChatPx then DefaultChatPx
    else if q < MinChatPx then MinChatPx
    else q
  }

  /** The number stored in the slot, when it can be read, is non-empty and parses. */
  function StoredWidth(st: Storage): Option<int>
  {
    if !st.readable then None
    else match st.item
      case None => None
      case Some(s) => if s == "" then None else ParseInt(s)
  }

  /** `loadChatWidth`: the stored number clamped from below, else the viewport default. */
  function Load(st: Storage, innerWidth: int): (r: int)
    ensures r >= MinChatPx
    ensures StoredWidth(st).Some? ==> r == Clamp(StoredWidth(st).value)
    ensures StoredWidth(st).None? ==> r == DefaultWidth(innerWidth)
  {
    if !st.readable then DefaultWidth(innerWidth)
    else match st.item
      case None => DefaultWidth(innerWidth)
      case Some(s) =>
        if s == "" then DefaultWidth(innerWidth)
        else match ParseInt(s)
          case None => DefaultWidth(innerWidth)
          case Some(n) => Clamp(n)
  }

  /** `saveChatWidth`: writes the decimal form of `width`, or leaves the slot alone when writing throws. */
  function Save(st: Storage, width: int): (r: Storage)
    ensures r.readable == st.readable && r.writable == st.writable
    ensures st.writable ==> r.item.Some? && ParseInt(r.item.value) == Some(width)
    ensures !st.writable ==> r == st
  {
    ParseToDecimal(width);
    if st.writable then st.(item := Some(ToDecimal(width))) else st
  }

  /** Loading after saving `w` gives back `w` clamped from below, whatever was stored before. */
  lemma {:induction false} LoadAfterSave(st: Storage, w: int, innerWidth: int)
    requires st.readable && st.writable
    ensures Load(Save(st, w), innerWidth) == Clamp(w)
  {
    var s := ToDecimal(w);
    assert s != "" by {
      assert |Digits(if w < 0 then -w else w)| > 0;
    }
  }

  /** Saving what was just loaded does not change what the next load returns. */
  lemma {:induction false} SaveLoadedIsStable(st: Storage, innerWidth: int)
    ensures Load(Save(st, Load(st, innerWidth)), innerWidth) == Load(st, innerWidth)
  {
    if st.readable && st.writable {
      LoadAfterSave(st, Load(st, innerWidth), innerWidth);
    }
  }

  /** A stored string that is not a number ("abc") falls back to the viewport default. */
  lemma {:induction false} NonNumericFallsBack(s: string, innerWidth: int)
    requires |s| > 0 && !IsSpace(s[0]) && !IsDigit(s[0]) && s[0] != '-' && s[0] != '+'
    ensures Load(Storage(Some(s), true, true), innerWidth) == DefaultWidth(innerWidth)
  {
    ParseRejectsNonNumeric(s);
  }

  /** A loaded width has no upper bound: any stored number above the minimum is used as it is. */
  lemma {:induction false} LoadedWidthUnbounded(n: int, innerWidth: int)
    requires n >= MinChatPx
    ensures Load(Storage(Some(ToDecimal(n)), true, true), innerWidth) == n
  {
    ParseToDecimal(n);
    assert |Digits(n)| > 0;
  }
}
