/** Median time past: the median of the last eleven block times, the mint's only clock. */
module MedianClocks {
  import opened Basics

  const MTP_WINDOW: nat := 11
  /** A header is at most this many seconds past the preceding median. */
  const MAX_TIME_SINCE_MEDIAN: int := 90 * 60

  type Window = seq<(Height, nat)>

  function Times(w: Window): seq<nat> {
    seq(|w|, i requires 0 <= i < |w| => w[i].1)
  }

  function Insert(x: nat, s: seq<nat>): (r: seq<nat>)
    ensures |r| == |s| + 1
  {
    if s == [] || x <= s[0] then [x] + s else [s[0]] + Insert(x, s[1..])
  }

  function Sorted(s: seq<nat>): (r: seq<nat>)
    ensures |r| == |s|
  {
    if s == [] then [] else Insert(s[0], Sorted(s[1..]))
  }

  function Median(s: seq<nat>): nat
    requires s != []
  {
    Sorted(s)[|s| / 2]
  }

  function Current(w: Window): Option<nat> {
    if w == [] then None else Some(Median(Times(w)))
  }

  function Push(w: Window, height: Height, time: nat): Window {
    (if |w| >= MTP_WINDOW then w[1..] else w) + [(height, time)]
  }

  datatype HeaderVerdict = HeaderOk | MedianUnavailable | NotAfterMedian | TooFarPastMedian

  function HeaderTime(w: Window, time: nat): HeaderVerdict {
    match Current(w)
    case None => MedianUnavailable
    case Some(median) =>
      if time <= median then NotAfterMedian
      else if time > median + MAX_TIME_SINCE_MEDIAN then TooFarPastMedian
      else HeaderOk
  }

  // ---------------------------------------------------------------------------
  // The median, by rank
  // ---------------------------------------------------------------------------

  /** How many entries are strictly below `m`. */
  function Below(s: seq<nat>, m: nat): nat {
    if s == [] then 0 else (if s[0] < m then 1 else 0) + Below(s[1..], m)
  }

  ghost predicate IsSorted(s: seq<nat>) {
    forall i, j | 0 <= i < j < |s| :: s[i] <= s[j]
  }

  lemma {:induction false} InsertSorts(x: nat, s: seq<nat>, m: nat)
    requires IsSorted(s)
    ensures IsSorted(Insert(x, s))
    ensures forall y :: y in Insert(x, s) <==> y == x || y in s
    ensures Below(Insert(x, s), m) == Below(s, m) + if x < m then 1 else 0
  {
    if s == [] || x <= s[0] {
      assert ([x] + s)[1..] == s;
    } else {
      InsertSorts(x, s[1..], m);
      var r := Insert(x, s[1..]);
      assert ([s[0]] + r)[1..] == r;
      assert s == [s[0]] + s[1..];
      forall i | 0 <= i < |r| ensures s[0] <= r[i] {
        assert r[i] in r;
      }
    }
  }

  lemma {:induction false} SortSorts(s: seq<nat>, m: nat)
    ensures IsSorted(Sorted(s))
    ensures forall y :: y in Sorted(s) <==> y in s
    ensures Below(Sorted(s), m) == Below(s, m)
  {
    if s != [] {
      SortSorts(s[1..], m);
      InsertSorts(s[0], Sorted(s[1..]), m);
      assert s == [s[0]] + s[1..];
    }
  }

  lemma {:induction false} NoneBelow(s: seq<nat>, m: nat)
    requires forall i | 0 <= i < |s| :: s[i] >= m
    ensures Below(s, m) == 0
  {
    if s != [] { NoneBelow(s[1..], m); }
  }

  lemma {:induction false} RankInSorted(s: seq<nat>, m: nat, k: nat)
    requires IsSorted(s) && k < |s|
    ensures s[k] < m <==> Below(s, m) > k
  {
    if s[0] >= m {
      NoneBelow(s, m);
    } else if k > 0 {
      RankInSorted(s[1..], m, k - 1);
    }
  }

  /** The median is an entry of the window, and is below `m` iff more than half of the entries are. */
  lemma MedianByRank(s: seq<nat>, m: nat)
    requires s != []
    ensures Median(s) in s
    ensures Median(s) < m <==> Below(s, m) > |s| / 2
  {
    SortSorts(s, m);
    RankInSorted(Sorted(s), m, |s| / 2);
    assert Sorted(s)[|s| / 2] in Sorted(s);
  }

  lemma {:induction false} BelowConcat(a: seq<nat>, b: seq<nat>, m: nat)
    ensures Below(a + b, m) == Below(a, m) + Below(b, m)
  {
    if a == [] {
      assert a + b == b;
    } else {
      assert (a + b)[1..] == a[1..] + b;
      BelowConcat(a[1..], b, m);
    }
  }

  /**
   The header check by rank: it passes iff more than half of the window lies strictly
   before the new time, and at most half strictly before the ninety minutes that end
   at it. Without a window there is no median to check against.
   */
  lemma HeaderByRank(w: Window, time: nat)
    ensures HeaderTime(w, time) == MedianUnavailable <==> w == []
    ensures w != [] ==>
      && (HeaderTime(w, time) == NotAfterMedian <==> Below(Times(w), time) <= |w| / 2)
      && (HeaderTime(w, time) == TooFarPastMedian <==> time >= 5400 && Below(Times(w), time - 5400) > |w| / 2)
  {
    if w != [] {
      MedianByRank(Times(w), time);
      if time >= 5400 {
        MedianByRank(Times(w), time - 5400);
        BelowGrows(Times(w), time - 5400, time);
      }
    }
  }

  lemma {:induction false} BelowGrows(s: seq<nat>, m: nat, n: nat)
    requires m <= n
    ensures Below(s, m) <= Below(s, n)
  {
    if s != [] { BelowGrows(s[1..], m, n); }
  }

  /** A header the mint accepts never lowers the median, for every window it can hold. */
  lemma AcceptedHeaderNeverLowers(w: Window, height: Height, time: nat)
    requires 1 <= |w| <= MTP_WINDOW && HeaderTime(w, time) == HeaderOk
    ensures Median(Times(w)) <= Median(Times(Push(w, height, time)))
    ensures 1 <= |Push(w, height, time)| <= MTP_WINDOW
  {
    var m := Median(Times(w));
    var kept := if |w| >= MTP_WINDOW then w[1..] else w;
    MedianByRank(Times(w), m);
    assert Times(Push(w, height, time)) == Times(kept) + [time];
    BelowConcat(Times(kept), [time], m);
    assert Below([time], m) == 0;
    assert Below(Times(kept), m) <= Below(Times(w), m) by {
      if |w| >= MTP_WINDOW {
        assert Times(kept) == Times(w)[1..];
      }
    }
    MedianByRank(Times(Push(w, height, time)), m);
  }

  // ---------------------------------------------------------------------------
  // The window of a chain
  // ---------------------------------------------------------------------------

  function Oldest(height: Height): Height {
    if height < MTP_WINDOW then 0 else height + 1 - MTP_WINDOW
  }

  /** The window a full node sees at `height`: its last eleven block times. */
  function WindowAt(chain: Height -> nat, height: Height): Window {
    seq(height + 1 - Oldest(height), i requires i >= 0 => (Oldest(height) + i, chain(Oldest(height) + i)))
  }

  /** The last eleven heights, or all there are, oldest first. */
  lemma WindowIs(chain: Height -> nat, height: Height)
    ensures var w := WindowAt(chain, height);
      && |w| == (if height < 10 then height + 1 else 11)
      && forall i | 0 <= i < |w| :: w[i] == (height + 1 - |w| + i, chain(height + 1 - |w| + i))
  {
  }

  /** Appending the next header to a node's window gives the next height's window. */
  lemma WindowGrows(chain: Height -> nat, height: Height)
    ensures Push(WindowAt(chain, height), height + 1, chain(height + 1)) == WindowAt(chain, height + 1)
  {
  }

  ghost predicate HeadersOk(chain: Height -> nat, first: Height, last: Height) {
    forall h: Height | first <= h < last :: HeaderTime(WindowAt(chain, h), chain(h + 1)) == HeaderOk
  }

  /** The clock at a height of a chain. */
  function ClockAt(chain: Height -> nat, h: Height): nat {
    Median(Times(WindowAt(chain, h)))
  }

  /** Along every accepted chain the clock never goes back. */
  lemma {:induction false} ClockNeverFalls(chain: Height -> nat, first: Height, last: Height)
    requires first <= last && HeadersOk(chain, first, last)
    ensures ClockAt(chain, first) <= ClockAt(chain, last)
    decreases last
  {
    if first < last {
      ClockNeverFalls(chain, first, last - 1);
      OneBlockNeverLowers(chain, first, last, last - 1);
    }
  }

  lemma OneBlockNeverLowers(chain: Height -> nat, first: Height, last: Height, h: Height)
    requires HeadersOk(chain, first, last) && first <= h < last
    ensures ClockAt(chain, h) <= ClockAt(chain, h + 1)
  {
    WindowGrows(chain, h);
    AcceptedHeaderNeverLowers(WindowAt(chain, h), h + 1, chain(h + 1));
  }

  /** The tracker the mint keeps, updated block by block and rebuilt after a reorganisation. */
  class MtpTracker {
    var blocktimes: Window

    constructor ()
      ensures blocktimes == []
    {
      blocktimes := [];
    }

    method Update(height: Height, time: nat)
      modifies this
      ensures blocktimes == Push(old(blocktimes), height, time)
    {
      if |blocktimes| >= MTP_WINDOW {
        blocktimes := blocktimes[1..];
      }
      blocktimes := blocktimes + [(height, time)];
    }

    /** Fills an empty tracker with the headers ending at `till`: the same window a run of updates keeps. */
    method Backfill(till: Height, fetch: Height -> nat)
      requires blocktimes == []
      modifies this
      ensures blocktimes == WindowAt(fetch, till)
    {
      var start := if till < MTP_WINDOW - 1 then 0 else till - (MTP_WINDOW - 1);
      for h := start to till + 1
        invariant |blocktimes| == h - start
        invariant forall i | 0 <= i < |blocktimes| :: blocktimes[i] == (start + i, fetch(start + i))
      {
        Update(h, fetch(h));
      }
      assert start == Oldest(till);
    }

    /** After the next accepted header the tracker holds the next height's window and a clock no earlier. */
    method Accept(height: Height, chain: Height -> nat) returns (verdict: HeaderVerdict)
      requires blocktimes == WindowAt(chain, height)
      modifies this
      ensures verdict == HeaderTime(old(blocktimes), chain(height + 1))
      ensures verdict == HeaderOk ==> blocktimes == WindowAt(chain, height + 1)
      ensures verdict == HeaderOk ==> Median(Times(old(blocktimes))) <= Median(Times(blocktimes))
      ensures verdict != HeaderOk ==> blocktimes == old(blocktimes)
    {
      verdict := HeaderTime(blocktimes, chain(height + 1));
      if verdict == HeaderOk {
        AcceptedHeaderNeverLowers(blocktimes, height + 1, chain(height + 1));
        WindowGrows(chain, height);
        Update(height + 1, chain(height + 1));
      }
    }
  }
}
