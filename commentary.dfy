/** `LivePlayCommentary`: scripted commentary lines that become visible once the
    video reaches their start time, newest first. Times are only compared, so
    they are exact reals here. */
module LivePlayCommentary {
  import opened Wrappers

  datatype Item = Item(start: real, end: real, text: string)

  const CommentaryItems: seq<Item> := [
    Item(0.0, 7.62, "While legends dominate the field, the electrifying crowd atmosphere steals the show."),
    Item(8.12, 9.62, "The ball returns again to Bento."),
    Item(21.18, 22.8, "Bento to Boushal."),
    Item(23.9, 26.94, "A header finds Sadio Mane."),
    Item(27.08, 29.94, "He keeps possession. Down the left, danger loomsâ€”it's Boushal."),
    Item(30.0, 32.06, "A dangerous run from Al-Nassr."),
    Item(32.34, 36.58, "Boushal pushes forward, waiting for support, and the ball is in a threatening position."),
    Item(37.06, 39.2, "But there's no one there to finish that move.")
  ]

  /** Every item ends after it starts, and ends before the next one starts. */
  predicate Scheduled(items: seq<Item>) {
    && (forall k :: 0 <= k < |items| ==> items[k].start < items[k].end)
    && (forall k :: 0 <= k < |items| - 1 ==> items[k].end < items[k + 1].start)
  }

  /** The starts strictly increase. */
  predicate StartsIncrease(items: seq<Item>) {
    forall a, b :: 0 <= a < b < |items| ==> items[a].start < items[b].start
  }

  /** The script is well scheduled. */
  lemma ScriptScheduled()
    ensures Scheduled(CommentaryItems)
  {
  }

  lemma {:induction false} ScheduledStartsIncrease(items: seq<Item>)
    requires Scheduled(items)
    ensures StartsIncrease(items)
    decreases |items|
  {
    if |items| > 1 {
      ScheduledStartsIncrease(items[1..]);
      assert items[0].start < items[1].start;
      forall a, b | 0 <= a < b < |items| ensures items[a].start < items[b].start {
        if a > 0 {
          assert items[a] == items[1..][a - 1] && items[b] == items[1..][b - 1];
        } else if b > 1 {
          assert items[b] == items[1..][b - 1] && items[1] == items[1..][0];
        }
      }
    }
  }

  /** `items.map((_, index) => index).filter(index => items[index].start <= t)`,
      over the first `n` indices. */
  function Started(items: seq<Item>, t: real, n: nat): (r: seq<nat>)
    requires n <= |items|
    ensures |r| <= n
    ensures forall k :: 0 <= k < |r| ==> r[k] < n && items[r[k]].start <= t
  {
    if n == 0 then []
    else Started(items, t, n - 1) + (if items[n - 1].start <= t then [n - 1] else [])
  }

  /** The indices of the items visible at time `t`. */
  function VisibleAt(items: seq<Item>, t: real): (r: seq<nat>)
    ensures |r| <= |items|
    ensures forall k :: 0 <= k < |r| ==> r[k] < |items| && items[r[k]].start <= t
  {
    Started(items, t, |items|)
  }

  /** `0, 1, ..., c - 1` */
  function Prefix(c: nat): (p: seq<nat>)
    ensures |p| == c && forall k :: 0 <= k < c ==> p[k] == k
  {
    seq(c, k requires 0 <= k < c => k)
  }

  lemma PrefixMember(c: nat, k: int)
    ensures k in Prefix(c) <==> 0 <= k < c
  {
    if 0 <= k < c {
      assert Prefix(c)[k] == k;
    }
  }

  lemma {:induction false} StartedMember(items: seq<Item>, t: real, n: nat, k: nat)
    requires n <= |items|
    ensures k in Started(items, t, n) <==> k < n && items[k].start <= t
  {
    if n > 0 {
      StartedMember(items, t, n - 1, k);
    }
  }

  lemma {:induction false} StartedAscending(items: seq<Item>, t: real, n: nat)
    requires n <= |items|
    ensures forall a, b :: 0 <= a < b < |Started(items, t, n)| ==> Started(items, t, n)[a] < Started(items, t, n)[b]
    ensures forall a :: 0 <= a < |Started(items, t, n)| ==> Started(items, t, n)[a] < n
  {
    if n > 0 {
      StartedAscending(items, t, n - 1);
    }
  }

  /** The visible indices are exactly those whose start is at most `t`, in
      ascending order. */
  lemma VisibleExactly(items: seq<Item>, t: real)
    ensures forall k: nat :: k in VisibleAt(items, t) <==> k < |items| && items[k].start <= t
    ensures forall a, b :: 0 <= a < b < |VisibleAt(items, t)| ==> VisibleAt(items, t)[a] < VisibleAt(items, t)[b]
  {
    forall k: nat ensures k in VisibleAt(items, t) <==> k < |items| && items[k].start <= t {
      StartedMember(items, t, |items|, k);
    }
    StartedAscending(items, t, |items|);
  }

  /** With increasing starts, what has started is a prefix `0 .. c - 1`. */
  lemma {:induction false} StartedIsPrefix(items: seq<Item>, t: real, n: nat)
    requires n <= |items| && StartsIncrease(items)
    ensures |Started(items, t, n)| <= n
    ensures Started(items, t, n) == Prefix(|Started(items, t, n)|)
    ensures forall k :: |Started(items, t, n)| <= k < n ==> t < items[k].start
  {
    if n > 0 {
      StartedIsPrefix(items, t, n - 1);
      var before := Started(items, t, n - 1);
      if items[n - 1].start <= t {
        assert |before| == n - 1;
        assert before + [n - 1] == Prefix(n);
      }
    }
  }

  /** The visible set at any time is a prefix of the script. */
  lemma VisibleIsPrefix(t: real)
    ensures VisibleAt(CommentaryItems, t) == Prefix(|VisibleAt(CommentaryItems, t)|)
  {
    ScriptScheduled();
    ScheduledStartsIncrease(CommentaryItems);
    StartedIsPrefix(CommentaryItems, t, |CommentaryItems|);
  }

  /** Visibility is monotone in time: what is visible stays visible. */
  lemma VisibleMonotone(items: seq<Item>, t1: real, t2: real, k: nat)
    requires t1 <= t2 && k in VisibleAt(items, t1)
    ensures k in VisibleAt(items, t2)
  {
    StartedMember(items, t1, |items|, k);
    StartedMember(items, t2, |items|, k);
  }

  /** Two prefixes of the same length are the same: comparing counts loses nothing. */
  lemma SameCountSameSet(t: real, visible: seq<nat>)
    requires visible == Prefix(|visible|)
    requires |visible| == |VisibleAt(CommentaryItems, t)|
    ensures visible == VisibleAt(CommentaryItems, t)
  {
    VisibleIsPrefix(t);
  }

  /** The items in `visible` taken in script order and reversed: latest first. */
  function Rendered(items: seq<Item>, visible: seq<nat>): (r: seq<Item>)
    ensures |r| <= |items|
    ensures forall k :: 0 <= k < |r| ==> r[k] in items
  {
    var shown := FilterIn(items, visible, |items|);
    assert items[..|items|] == items;
    assert forall k :: 0 <= k < |Reverse(shown)| ==> Reverse(shown)[k] in multiset(shown);
    Reverse(shown)
  }

  /** `items.filter((_, index) => visible.includes(index))` over the first `n` items. */
  function FilterIn(items: seq<Item>, visible: seq<nat>, n: nat): (r: seq<Item>)
    requires n <= |items|
    ensures |r| <= n
    ensures forall k :: 0 <= k < |r| ==> r[k] in items[..n]
  {
    if n == 0 then []
    else FilterIn(items, visible, n - 1) + (if n - 1 in visible then [items[n - 1]] else [])
  }

  /** `reverse()`: the same items, in the opposite order. */
  function Reverse(s: seq<Item>): (r: seq<Item>)
    ensures |r| == |s|
    ensures multiset(r) == multiset(s)
  {
    if s == [] then []
    else
      assert s == [s[0]] + s[1..];
      Reverse(s[1..]) + [s[0]]
  }

  lemma {:induction false} ReverseAt(s: seq<Item>, k: nat)
    requires k < |s|
    ensures Reverse(s)[k] == s[|s| - 1 - k]
  {
    if k < |s| - 1 {
      ReverseAt(s[1..], k);
    }
  }

  lemma {:induction false} FilterPrefix(items: seq<Item>, c: nat, n: nat)
    requires c <= n <= |items|
    ensures FilterIn(items, Prefix(c), n) == items[..c]
  {
    if n > c {
      FilterPrefix(items, c, n - 1);
      PrefixMember(c, n - 1);
    } else if n > 0 {
      FilterPrefix(items, n - 1, n - 1);
      forall k | 0 <= k < n - 1 ensures k in Prefix(n - 1) <==> k in Prefix(n) {
        PrefixMember(n - 1, k);
        PrefixMember(n, k);
      }
      FilterSame(items, Prefix(n - 1), Prefix(n), n - 1);
      PrefixMember(n, n - 1);
      assert items[..n - 1] + [items[n - 1]] == items[..n];
    }
  }

  lemma {:induction false} FilterSame(items: seq<Item>, v: seq<nat>, w: seq<nat>, n: nat)
    requires n <= |items|
    requires forall k :: 0 <= k < n ==> (k in v <==> k in w)
    ensures FilterIn(items, v, n) == FilterIn(items, w, n)
  {
    if n > 0 {
      FilterSame(items, v, w, n - 1);
    }
  }

  /** For a visible prefix of `c` items, the display shows item `c - 1 - k` at
      position `k`: latest first. */
  lemma RenderedLatestFirst(items: seq<Item>, c: nat, k: nat)
    requires c <= |items| && k < c
    ensures |Rendered(items, Prefix(c))| == c
    ensures Rendered(items, Prefix(c))[k] == items[c - 1 - k]
  {
    FilterPrefix(items, c, |items|);
    ReverseAt(items[..c], k);
  }

  /** The component's output: nothing while the video is paused. */
  function Render(isPlaying: bool, visible: seq<nat>): (out: Option<seq<Item>>)
    ensures out.None? <==> !isPlaying
  {
    if isPlaying then Some(Rendered(CommentaryItems, visible)) else None
  }

  /** The `visibleItems` state slot and the effect that maintains it. */
  class CommentaryPanel {
    var visibleItems: seq<nat>

    /** The slot only ever holds a prefix of the script. */
    ghost predicate Valid()
      reads this
    {
      visibleItems == Prefix(|visibleItems|)
    }

    constructor ()
      ensures Valid() && visibleItems == []
    {
      visibleItems := [];
    }

    /** The effect run on a change of `currentTime` or `isPlaying`. When paused the
        slot is cleared; when playing the visible indices are computed, and the slot
        is replaced only when their count differs. Either way it ends up holding
        exactly the indices visible at `currentTime`. */
    method Effect(isPlaying: bool, currentTime: real) returns (replaced: bool)
      requires Valid()
      modifies this
      ensures Valid()
      ensures !isPlaying ==> visibleItems == [] && replaced
      ensures isPlaying ==> visibleItems == VisibleAt(CommentaryItems, currentTime)
      ensures isPlaying ==> (replaced <==> |old(visibleItems)| != |visibleItems|)
    {
      if !isPlaying {
        visibleItems := [];
        return true;
      }
      var newVisibleItems := VisibleAt(CommentaryItems, currentTime);
      VisibleIsPrefix(currentTime);
      replaced := |newVisibleItems| != |visibleItems|;
      if replaced {
        visibleItems := newVisibleItems;
      } else {
        SameCountSameSet(currentTime, visibleItems);
      }
    }
  }
}
