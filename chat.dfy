/** `ChatSection`: a scripted chat feed whose history is a sliding window of the
    last 20 messages. */
module ChatSection {
  import opened RandomDraw

  /** `slice(-20)`: how many messages the feed keeps. */
  const MaxMessages: nat := 20

  const BotMessages: seq<string> := [
    "Great goal! The striker's positioning was perfect.",
    "Did you see that save? Absolutely incredible!",
    "The midfield is really controlling the game now.",
    "VAR check in progress...",
    "That was a clear foul, should have been a yellow card.",
    "The crowd is going wild after that play!",
    "Substitution coming up - looks like they're bringing on fresh legs.",
    "Tactical change from the manager, switching to a 4-3-3 formation.",
    "Corner kick coming up - this could be dangerous!",
    "Half-time stats: 65% possession, 8 shots on target."
  ]

  const BotUsers: seq<string> := ["Ahed", "Kamal", "Tanishq"]

  const JustNow: string := "Just now"

  /** Milliseconds between two draws of a follow-up delay. */
  const FollowUpPeriod: nat := 10000

  datatype ChatMessage = ChatMessage(id: int, user: string, message: string, timestamp: string)

  const InitialMessages: seq<ChatMessage> := [
    ChatMessage(1, "Ahed", "What a goal by Al-Buraikan! \U{1F525}", "2m ago"),
    ChatMessage(2, "Tanishq", "Iran needs to step up their defense", "1m ago"),
    ChatMessage(3, "Kamal", "The atmosphere in the stadium is electric!", "Just now")
  ]

  function Min(a: int, b: int): int {
    if a <= b then a else b
  }

  /** `Array.prototype.slice(start)`: a negative start counts from the end. */
  function Slice<T>(s: seq<T>, start: int): (r: seq<T>)
    ensures |r| == if start < 0 then Min(-start, |s|) else if start <= |s| then |s| - start else 0
    ensures r == s[|s| - |r|..]
  {
    var from := if start < 0 then (if |s| + start < 0 then 0 else |s| + start)
                else Min(start, |s|);
    s[from..]
  }

  /** The state updater of `addBotMessage`: append, then keep the last 20. */
  function Append(prev: seq<ChatMessage>, m: ChatMessage): (r: seq<ChatMessage>)
    ensures |r| == Min(|prev| + 1, MaxMessages)
    ensures r[|r| - 1] == m
    ensures r == (prev + [m])[|prev| + 1 - |r|..]
    ensures |prev| < MaxMessages ==> r == prev + [m]
    ensures |prev| == MaxMessages ==> r == prev[1..] + [m]
  {
    Slice(prev + [m], -(MaxMessages as int))
  }

  /** `addBotMessage()` with `Math.random()` returning `uMessage` and then `uUser`,
      at clock reading `now`. */
  function AddBotMessage(prev: seq<ChatMessage>, uMessage: real, uUser: real, now: int): (r: seq<ChatMessage>)
    requires IsUnit(uMessage) && IsUnit(uUser)
    ensures |r| == Min(|prev| + 1, MaxMessages)
    ensures r[|r| - 1].message in BotMessages && r[|r| - 1].user in BotUsers
    ensures r[|r| - 1].timestamp == JustNow && r[|r| - 1].id == now
    ensures r[..|r| - 1] == prev[|prev| + 1 - |r|..]
  {
    var message := BotMessages[FloorIndex(uMessage, |BotMessages|)];
    var user := BotUsers[FloorIndex(uUser, |BotUsers|)];
    var r := Append(prev, ChatMessage(now, user, message, JustNow));
    assert r[..|r| - 1] == prev[|prev| + 1 - |r|..];
    r
  }

  /** The feed after appending `ms` one by one: a feed of at most 20 stays so,
      and the last message added is last. */
  function AppendAll(start: seq<ChatMessage>, ms: seq<ChatMessage>): (r: seq<ChatMessage>)
    ensures |start| <= MaxMessages ==> |r| <= MaxMessages
    ensures ms != [] ==> |r| > 0 && r[|r| - 1] == ms[|ms| - 1]
    decreases |ms|
  {
    if ms == [] then start else Append(AppendAll(start, ms[..|ms| - 1]), ms[|ms| - 1])
  }

  /** The last `min(|s|, 20)` messages of `s`. */
  function Window(s: seq<ChatMessage>): (w: seq<ChatMessage>)
    ensures |w| <= MaxMessages && (|s| <= MaxMessages ==> w == s)
    ensures forall k :: 0 <= k < |w| ==> w[k] == s[|s| - |w| + k]
  {
    s[|s| - Min(|s|, MaxMessages)..]
  }

  /** Appending to the window of a history gives the window of the longer history. */
  lemma AppendToWindow(s: seq<ChatMessage>, m: ChatMessage)
    ensures Append(Window(s), m) == Window(s + [m])
  {
    var w := Window(s);
    if |s| < MaxMessages {
      assert w == s;
      assert Window(s + [m]) == s + [m];
    } else {
      assert |w| == MaxMessages;
      assert Append(w, m) == w[1..] + [m];
      assert w[1..] == s[|s| + 1 - MaxMessages..];
      assert Window(s + [m]) == (s + [m])[|s| + 1 - MaxMessages..];
      assert (s + [m])[|s| + 1 - MaxMessages..] == s[|s| + 1 - MaxMessages..] + [m];
    }
  }

  /** The feed is always the last `min(n, 20)` of everything ever shown, in order:
      the initial messages followed by every added one. */
  lemma {:induction false} SlidingWindow(start: seq<ChatMessage>, ms: seq<ChatMessage>)
    requires |start| <= MaxMessages
    ensures AppendAll(start, ms) == Window(start + ms)
    decreases |ms|
  {
    if ms == [] {
      assert start + ms == start;
      assert Min(|start|, MaxMessages) == |start|;
    } else {
      var init, m := ms[..|ms| - 1], ms[|ms| - 1];
      calc {
        AppendAll(start, ms);
        Append(AppendAll(start, init), m);
        { SlidingWindow(start, init); }
        Append(Window(start + init), m);
        { AppendToWindow(start + init, m); }
        Window(start + init + [m]);
        { assert start + init + [m] == start + ms by { assert init + [m] == ms; } }
        Window(start + ms);
      }
    }
  }

  /** The feed never holds more than 20 messages. */
  lemma FeedBounded(ms: seq<ChatMessage>)
    ensures |AppendAll(InitialMessages, ms)| <= MaxMessages
  {
    SlidingWindow(InitialMessages, ms);
  }

  /** `Array.from({ length: 3 }, (_, i) => (i + 1) * 2000)`: the delays of the
      three initial bot messages. */
  function InitialDelays(): (ds: seq<nat>)
    ensures ds == [2000, 4000, 6000]
  {
    seq(3, i requires 0 <= i < 3 => (i + 1) * 2000)
  }

  /** `Math.floor(Math.random() * 5000) + 3000`: the delay of a follow-up message. */
  function FollowUpDelay(u: real): (d: int)
    requires IsUnit(u)
    ensures 3000 <= d <= 7999
  {
    FloorIndex(u, 5000) + 3000
  }
}
