/** The median-time rule: a block must be stamped after the upper median of the window of
    up to eleven blocks before it. */
module MedianTime {
  import opened Words

  const WINDOW: nat := 11

  // ----- sorting and the upper median -----

  function Insert(x: nat, s: seq<nat>): (r: seq<nat>)
    ensures |r| == |s| + 1
  {
    if s == [] || x <= s[0] then [x] + s else [s[0]] + Insert(x, s[1..])
  }

  function Sort(s: seq<nat>): (r: seq<nat>)
    ensures |r| == |s|
  {
    if s == [] then [] else Insert(s[0], Sort(s[1..]))
  }

  function Median(s: seq<nat>): nat
    requires s != []
  {
    Sort(s)[|s| / 2]
  }

  /** How many stamps are at most `m`. */
  function AtMost(s: seq<nat>, m: int): nat {
    if s == [] then 0 else (if s[0] <= m then 1 else 0) + AtMost(s[1..], m)
  }

  predicate Sorted(s: seq<nat>) {
    forall i, j :: 0 <= i < j < |s| ==> s[i] <= s[j]
  }

  lemma {:induction false} InsertMembers(x: nat, s: seq<nat>)
    ensures forall y :: y in Insert(x, s) <==> y == x || y in s
  {
    if s != [] && x > s[0] { InsertMembers(x, s[1..]); }
  }

  lemma {:induction false} InsertSorted(x: nat, s: seq<nat>)
    requires Sorted(s)
    ensures Sorted(Insert(x, s))
  {
    if s != [] && x > s[0] {
      InsertSorted(x, s[1..]);
      InsertMembers(x, s[1..]);
      var r := Insert(x, s[1..]);
      forall j | 0 <= j < |r|
        ensures s[0] <= r[j]
      {
        assert r[j] in r;
      }
    }
  }

  lemma {:induction false} InsertCounts(x: nat, s: seq<nat>, m: int)
    ensures AtMost(Insert(x, s), m) == AtMost(s, m) + if x <= m then 1 else 0
  {
    if s != [] && x > s[0] {
      InsertCounts(x, s[1..], m);
      assert Insert(x, s)[1..] == Insert(x, s[1..]);
    } else {
      assert Insert(x, s)[1..] == s;
    }
  }

  lemma {:induction false} SortKeeps(s: seq<nat>, m: int)
    ensures Sorted(Sort(s)) && AtMost(Sort(s), m) == AtMost(s, m)
  {
    if s != [] {
      SortKeeps(s[1..], m);
      InsertSorted(s[0], Sort(s[1..]));
      InsertCounts(s[0], Sort(s[1..]), m);
    }
  }

  lemma {:induction false} AtMostRange(s: seq<nat>, m: int, n: int)
    requires m <= n
    ensures AtMost(s, m) <= AtMost(s, n) <= |s|
  {
    if s != [] { AtMostRange(s[1..], m, n); }
  }

  lemma {:induction false} AtMostConcat(s: seq<nat>, t: seq<nat>, m: int)
    ensures AtMost(s + t, m) == AtMost(s, m) + AtMost(t, m)
  {
    if s == [] {
      assert s + t == t;
    } else {
      AtMostConcat(s[1..], t, m);
      assert (s + t)[1..] == s[1..] + t;
    }
  }

  lemma {:induction false} AtMostNone(s: seq<nat>, m: int)
    requires forall i :: 0 <= i < |s| ==> s[i] > m
    ensures AtMost(s, m) == 0
  {
    if s != [] { AtMostNone(s[1..], m); }
  }

  /** In a sorted list, more than `k` stamps are at most `m` exactly when stamp `k` is. */
  lemma {:induction false} SortedRank(s: seq<nat>, k: nat, m: int)
    requires Sorted(s) && k < |s|
    ensures AtMost(s, m) > k <==> s[k] <= m
  {
    if s[0] > m {
      AtMostNone(s, m);
    } else if k > 0 {
      SortedRank(s[1..], k - 1, m);
    }
  }

  /** The median is at most `m` exactly when more than half of the stamps are. */
  lemma {:induction false} MedianRank(s: seq<nat>, m: int)
    requires s != []
    ensures Median(s) <= m <==> AtMost(s, m) > |s| / 2
  {
    SortKeeps(s, m);
    SortedRank(Sort(s), |s| / 2, m);
  }

  // ----- the rule -----

  function Low(height: nat): nat {
    if height > WINDOW then height - WINDOW else 1
  }

  /** Timestamps of the heights in [low, height) that the chain has, in height order. */
  function Recent(chain: Chain, low: nat, height: nat): seq<nat>
    decreases height
  {
    if height <= low then []
    else
      var before := Recent(chain, low, height - 1);
      if height - 1 in chain then before + [chain[height - 1].header.blob.timestamp] else before
  }

  predicate Accepts(chain: Chain, height: nat, timestamp: nat) {
    height > 1 ==>
      var recent := Recent(chain, Low(height), height);
      recent != [] ==> timestamp > Median(recent)
  }

  /** The heights in [low, height) that the chain has, and those of them stamped at `m` or
      earlier. */
  function Present(chain: Chain, low: nat, height: nat): set<nat> {
    set h | low <= h < height && h in chain
  }

  function Earlier(chain: Chain, low: nat, height: nat, m: int): set<nat> {
    set h | low <= h < height && h in chain && chain[h].header.blob.timestamp <= m
  }

  lemma {:induction false} PresentNext(chain: Chain, low: nat, n: nat)
    requires low <= n
    ensures |Present(chain, low, n + 1)| == |Present(chain, low, n)| + if n in chain then 1 else 0
  {
    var p := Present(chain, low, n);
    assert Present(chain, low, n + 1) == if n in chain then p + {n} else p;
  }

  lemma {:induction false} EarlierNext(chain: Chain, low: nat, n: nat, m: int)
    requires low <= n
    ensures |Earlier(chain, low, n + 1, m)| ==
            |Earlier(chain, low, n, m)| + if n in chain && chain[n].header.blob.timestamp <= m then 1 else 0
  {
    var q := Earlier(chain, low, n, m);
    assert Earlier(chain, low, n + 1, m) ==
           if n in chain && chain[n].header.blob.timestamp <= m then q + {n} else q;
  }

  lemma {:induction false} RecentCounts(chain: Chain, low: nat, height: nat, m: int)
    ensures |Recent(chain, low, height)| == |Present(chain, low, height)|
    ensures AtMost(Recent(chain, low, height), m) == |Earlier(chain, low, height, m)|
    decreases height
  {
    if height <= low {
      assert Present(chain, low, height) == {} && Earlier(chain, low, height, m) == {};
    } else {
      hide Present, Earlier;
      var n := height - 1;
      RecentCounts(chain, low, n, m);
      PresentNext(chain, low, n);
      EarlierNext(chain, low, n, m);
      if n in chain { AtMostConcat(Recent(chain, low, n), [chain[n].header.blob.timestamp], m); }
    }
  }

  /** The rule in counts: of the blocks up to eleven heights below, none exist or more than half
      are stamped strictly earlier. */
  lemma {:induction false} AcceptsExactly(chain: Chain, height: nat, timestamp: nat)
    ensures Accepts(chain, height, timestamp) <==>
            || height <= 1
            || var window := set h | 1 <= h < height <= h + 11 && h in chain;
               || window == {}
               || |set h | h in window && chain[h].header.blob.timestamp < timestamp| > |window| / 2
  {
    if height > 1 {
      var low, recent := Low(height), Recent(chain, Low(height), height);
      var window := set h | 1 <= h < height <= h + 11 && h in chain;
      RecentCounts(chain, low, height, timestamp - 1);
      assert window == Present(chain, low, height);
      assert (set h | h in window && chain[h].header.blob.timestamp < timestamp) ==
             Earlier(chain, low, height, timestamp - 1);
      if recent != [] { MedianRank(recent, timestamp - 1); }
      hide Recent, Median;
      if window == {} { assert |window| == 0; }
      if recent == [] { assert |window| == 0; }
    }
  }

  /** A stamp is accepted exactly when none of the blocks up to eleven heights below exist or
      more than half of them are stamped strictly earlier. */
  method ValidateTimestamp(chain: Chain, height: nat, timestamp: nat) returns (ok: bool)
    ensures ok == Accepts(chain, height, timestamp)
    ensures ok <==>
            || height <= 1
            || var window := set h | 1 <= h < height <= h + 11 && h in chain;
               || window == {}
               || |set h | h in window && chain[h].header.blob.timestamp < timestamp| > |window| / 2
  {
    AcceptsExactly(chain, height, timestamp);
    hide AtMost;
    if height > 1 {
      var low := if height > WINDOW then height - WINDOW else 1;
      var recent: seq<nat> := [];
      var h := low;
      while h < height
        invariant low <= h <= height
        invariant recent == Recent(chain, low, h)
      {
        if h in chain { recent := recent + [chain[h].header.blob.timestamp]; }
        h := h + 1;
      }
      if recent != [] {
        var sorted := Sort(recent);
        var median := sorted[|sorted| / 2];
        if timestamp <= median { return false; }
      }
    }
    return true;
  }

  // ----- along a chain -----

  /** Heights 1..n are present and each from 2 on passes the rule. */
  predicate Timely(chain: Chain, n: nat) {
    && (forall h :: 1 <= h <= n ==> h in chain)
    && (forall h {:trigger Accepts(chain, h, chain[h].header.blob.timestamp)} ::
          2 <= h <= n ==> Accepts(chain, h, chain[h].header.blob.timestamp))
  }

  function Stamp(chain: Chain, h: nat): nat
    requires h in chain
  {
    chain[h].header.blob.timestamp
  }

  lemma {:induction false} RecentDense(chain: Chain, low: nat, height: nat)
    requires 1 <= low <= height
    requires forall h :: low <= h < height ==> h in chain
    ensures |Recent(chain, low, height)| == height - low
    ensures forall h :: low <= h < height ==> Recent(chain, low, height)[h - low] == Stamp(chain, h)
    decreases height
  {
    if low < height { RecentDense(chain, low, height - 1); }
  }

  function Window(chain: Chain, height: nat): seq<nat> {
    Recent(chain, Low(height), height)
  }

  lemma {:induction false} WindowSize(chain: Chain, n: nat, height: nat)
    requires forall h :: 1 <= h <= n ==> h in chain
    requires 2 <= height <= n + 1
    ensures |Window(chain, height)| == height - Low(height)
    ensures Window(chain, height) != []
  {
    RecentDense(chain, Low(height), height);
  }

  function MedianAt(chain: Chain, height: nat): nat
    requires Window(chain, height) != []
  {
    Median(Window(chain, height))
  }

  /** The window slides by at most one: the new stamp enters, the oldest may leave. */
  lemma {:induction false} WindowSlides(chain: Chain, n: nat, h: nat)
    requires forall k :: 1 <= k <= n ==> k in chain
    requires 2 <= h <= n
    ensures var w, v := Window(chain, h), Window(chain, h + 1);
            && |w| <= |v|
            && (v == w + [Stamp(chain, h)] || (w != [] && v == w[1..] + [Stamp(chain, h)]))
  {
    var w, v := Window(chain, h), Window(chain, h + 1);
    RecentDense(chain, Low(h), h);
    RecentDense(chain, Low(h + 1), h + 1);
    if Low(h + 1) == Low(h) {
      assert v == w + [Stamp(chain, h)];
    } else {
      assert Low(h + 1) == Low(h) + 1;
      forall i | 0 <= i < |v|
        ensures v[i] == (w[1..] + [Stamp(chain, h)])[i]
      {
        assert v[i] == Stamp(chain, i + Low(h + 1));
        if i + 1 < |w| { assert w[i + 1] == Stamp(chain, i + 1 + Low(h)); }
      }
      assert v == w[1..] + [Stamp(chain, h)];
    }
  }

  /** A stamp above the median that enters, while one stamp at most leaves, keeps the median. */
  lemma {:induction false} MedianSlides(w: seq<nat>, v: seq<nat>, t: nat)
    requires w != [] && |w| <= |v| && (v == w + [t] || v == w[1..] + [t]) && t > Median(w)
    ensures Median(w) <= Median(v)
  {
    var m: int := Median(w) - 1;
    MedianRank(w, m);
    MedianRank(v, m);
    hide Median;
    AtMostConcat(w, [t], m);
    AtMostConcat(w[1..], [t], m);
    AtMostNone([t], m);
  }

  /** One block on, the median has not fallen. */
  lemma {:induction false} MedianStep(chain: Chain, n: nat, h: nat)
    requires Timely(chain, n) && 2 <= h <= n
    ensures Window(chain, h) != [] && Window(chain, h + 1) != []
    ensures MedianAt(chain, h) <= MedianAt(chain, h + 1)
  {
    hide Median, Recent;
    WindowSize(chain, n, h);
    WindowSlides(chain, n, h);
    assert Accepts(chain, h, chain[h].header.blob.timestamp);
    MedianSlides(Window(chain, h), Window(chain, h + 1), Stamp(chain, h));
  }

  /** The window median never decreases along the chain. */
  lemma {:induction false} MedianNeverFalls(chain: Chain, n: nat, g: nat, h: nat)
    requires Timely(chain, n) && 2 <= g <= h <= n + 1
    ensures Window(chain, g) != [] && Window(chain, h) != []
    ensures MedianAt(chain, g) <= MedianAt(chain, h)
    decreases h
  {
    WindowSize(chain, n, g);
    if g < h {
      MedianNeverFalls(chain, n, g, h - 1);
      MedianStep(chain, n, h - 1);
    }
  }

  /** Six blocks on, it has strictly risen, short bootstrap windows included. */
  lemma {:induction false} MedianRisesInSix(chain: Chain, n: nat, h: nat)
    requires Timely(chain, n) && 2 <= h && h + 6 <= n + 1
    ensures Window(chain, h) != [] && Window(chain, h + 6) != []
    ensures MedianAt(chain, h) < MedianAt(chain, h + 6)
  {
    WindowSize(chain, n, h);
    WindowSize(chain, n, h + 6);
    var w, m := Window(chain, h + 6), MedianAt(chain, h);
    RecentDense(chain, Low(h + 6), h + 6);
    var earlier, new6 := w[..|w| - 6], w[|w| - 6..];
    forall i | 0 <= i < 6
      ensures new6[i] > m
    {
      var k := h + i;
      assert new6[i] == w[k - Low(h + 6)] == Stamp(chain, k);
      MedianNeverFalls(chain, n, h, k);
      assert Accepts(chain, k, chain[k].header.blob.timestamp);
    }
    AtMostNone(new6, m);
    AtMostConcat(earlier, new6, m);
    assert w == earlier + new6;
    AtMostRange(earlier, m, m);
    MedianRank(w, m);
  }

  /** Every later block is stamped after genesis. */
  lemma {:induction false} AfterGenesis(chain: Chain, n: nat, h: nat)
    requires Timely(chain, n) && 2 <= h <= n
    ensures Stamp(chain, h) > Stamp(chain, 1)
  {
    MedianNeverFalls(chain, n, 2, h);
    assert Window(chain, 2) == [Stamp(chain, 1)];
    assert Sort([Stamp(chain, 1)]) == [Stamp(chain, 1)];
    assert Accepts(chain, h, chain[h].header.blob.timestamp);
  }
}
