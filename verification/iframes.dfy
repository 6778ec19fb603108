/**
 * Iframe role classification (`pickIframes`): which embedded frame is the video
 * and which is the chat. Frames are listed in document order.
 */
module Iframes {
  import opened Wrappers
  import opened Strings
  import opened Seqs

  /**
   * An iframe element: its identity and the value of its `src` property. That value
   * is the serialized URL: scheme and host are lower case, and a relative URL is
   * already resolved against the page. The path keeps its case.
   */
  datatype Frame = Frame(id: nat, src: string)

  /** The roles picked; `None` is JavaScript's `null`. */
  datatype Pair = Pair(video: Option<Frame>, chat: Option<Frame>)

  /** Literal alternatives of the video-host pattern `ok\.ru|vk\.com|vkcdn|videoembed` (case-sensitive). */
  const VideoPatterns: seq<string> := ["ok.ru", "vk.com", "vkcdn", "videoembed"]
  /** Literal alternatives of the chat pattern `minnit|chat|twitch|discordapp` (case-sensitive). */
  const ChatPatterns: seq<string> := ["minnit", "chat", "twitch", "discordapp"]

  predicate IsVideoSrc(f: Frame)
  {
    ContainsAny(f.src, VideoPatterns)
  }

  predicate IsChatSrc(f: Frame)
  {
    ContainsAny(f.src, ChatPatterns)
  }

  /** `all.find(p) || fallback`: the first frame satisfying `p`, else `fallback`. */
  function FindOr(all: seq<Frame>, p: Frame -> bool, fallback: Option<Frame>): (r: Option<Frame>)
    ensures (exists i :: 0 <= i < |all| && p(all[i])) ==> r.Some? && r.value in all && p(r.value)
    ensures forall k :: 0 <= k < |all| && p(all[k]) && (forall j :: 0 <= j < k ==> !p(all[j])) ==> r == Some(all[k])
    ensures (forall i :: 0 <= i < |all| ==> !p(all[i])) ==> r == fallback
  {
    match FirstIndex(all, p)
    case Some(i) => Some(all[i])
    case None => fallback
  }

  /**
   * `pickIframes`: the first two frames of the wrapper when it has two, otherwise
   * a pattern-based guess over every frame of the document.
   */
  function Pick(scope: seq<Frame>, all: seq<Frame>): (r: Pair)
    ensures |scope| >= 2 ==> r == Pair(Some(scope[0]), Some(scope[1]))
    ensures |scope| < 2 && |all| == 0 ==> r == Pair(None, None)
    ensures |scope| < 2 && |all| > 0 ==>
      && r.video.Some? && r.video.value in all
      && r.chat.Some? && r.chat.value in all
  {
    if |scope| >= 2 then Pair(Some(scope[0]), Some(scope[1]))
    else if |all| == 0 then Pair(None, None)
    else
      var video := FindOr(all, IsVideoSrc, Some(all[0]));
      var chat := FindOr(all, IsChatSrc, if |all| > 1 then Some(all[1]) else Some(all[0]));
      Pair(video, chat)
  }

  /** Index of the first frame satisfying `p` (a reference definition of "first match"). */
  ghost predicate FirstSatisfying(all: seq<Frame>, p: Frame -> bool, k: int)
  {
    0 <= k < |all| && p(all[k]) && forall j :: 0 <= j < k ==> !p(all[j])
  }

  /** Fallback video role: the first frame whose `src` names a video host. */
  lemma {:induction false} FallbackVideoFirstMatch(scope: seq<Frame>, all: seq<Frame>, k: nat)
    requires |scope| < 2 && FirstSatisfying(all, IsVideoSrc, k)
    ensures Pick(scope, all).video == Some(all[k])
  {
    var f := FirstIndex(all, IsVideoSrc);
    assert f.Some? && f.value == k;
  }

  /** Fallback video role when no `src` names a video host: the first frame. */
  lemma {:induction false} FallbackVideoDefault(scope: seq<Frame>, all: seq<Frame>)
    requires |scope| < 2 && |all| > 0
    requires forall i :: 0 <= i < |all| ==> !IsVideoSrc(all[i])
    ensures Pick(scope, all).video == Some(all[0])
  {
  }

  /** Fallback chat role: the first frame whose `src` names a chat. */
  lemma {:induction false} FallbackChatFirstMatch(scope: seq<Frame>, all: seq<Frame>, k: nat)
    requires |scope| < 2 && FirstSatisfying(all, IsChatSrc, k)
    ensures Pick(scope, all).chat == Some(all[k])
  {
    var f := FirstIndex(all, IsChatSrc);
    assert f.Some? && f.value == k;
  }

  /** Fallback chat role when no `src` names a chat: the second frame, or the first when it is alone. */
  lemma {:induction false} FallbackChatDefault(scope: seq<Frame>, all: seq<Frame>)
    requires |scope| < 2 && |all| > 0
    requires forall i :: 0 <= i < |all| ==> !IsChatSrc(all[i])
    ensures Pick(scope, all).chat == Some(if |all| > 1 then all[1] else all[0])
  {
  }

  /** Three frames A, B, C in the wrapper: A is the video and B the chat, whatever their sources say. */
  lemma {:induction false} PositionalRuleIgnoresSources(a: Frame, b: Frame, c: Frame, all: seq<Frame>)
    ensures Pick([a, b, c], all) == Pair(Some(a), Some(b))
  {
  }

  /**
   * The fallback does not keep the chat apart from the video: a single frame whose
   * `src` mentions both a video host and "chat" gets both roles even when another
   * frame is available.
   */
  lemma {:induction false} FallbackMayGiveBothRolesToOneFrame()
    ensures var a := Frame(0, "https://vk.com/chat");
      var b := Frame(1, "https://player.example/");
      Pick([], [a, b]) == Pair(Some(a), Some(a))
  {
    var a := Frame(0, "https://vk.com/chat");
    assert a.src == "https://" + "vk.com" + "/chat";
    SuperstringContains("https://", "vk.com", "/chat");
    assert IsVideoSrc(a) by { assert Contains(a.src, VideoPatterns[1]); }
    SuperstringContains("https://vk.com/", "chat", "");
    assert a.src == "https://vk.com/" + "chat" + "";
    assert IsChatSrc(a) by { assert Contains(a.src, ChatPatterns[1]); }
  }

  /** A needle whose first character appears nowhere in `hay` does not occur in it. */
  lemma {:induction false} FirstCharAbsentNoMatch(hay: string, needle: string)
    requires |needle| > 0
    requires needle[0] !in hay
    ensures !Contains(hay, needle)
    decreases |hay|
  {
    if |hay| > 0 {
      assert hay[0] in hay;
      assert needle[0] !in hay[1..] by {
        forall c | c in hay[1..] ensures c in hay {
          var i :| 0 <= i < |hay[1..]| && hay[1..][i] == c;
          assert hay[i + 1] == c;
        }
      }
      FirstCharAbsentNoMatch(hay[1..], needle);
    }
  }

  /**
   * Patterns are matched case-sensitively: a source whose path spells the video
   * token in capitals ("https://a.b/VIDEOEMBED") is not recognised as video.
   */
  lemma {:induction false} PatternsAreCaseSensitive()
    ensures !IsVideoSrc(Frame(0, "https://a.b/VIDEOEMBED"))
  {
    var src := "https://a.b/VIDEOEMBED";
    assert 'o' !in src && 'v' !in src;
    forall k | 0 <= k < |VideoPatterns|
      ensures !Contains(src, VideoPatterns[k])
    {
      assert VideoPatterns[k][0] == 'o' || VideoPatterns[k][0] == 'v';
      FirstCharAbsentNoMatch(src, VideoPatterns[k]);
    }
  }
}
