/** The loop-prevention cache: two maps with batch eviction, refining a first-in first-out window. */
module RecentBuffer {
  import opened Bytes

  const CACHE_SIZE := 4096
  const CACHE_DISCOUNT := 1024
  const MAX_INT32 := 0x7fff_ffff

  /** The window after a hash arrives, oldest first. */
  function After(w: seq<uint32>, h: uint32): seq<uint32> {
    if h in w then w
    else if |w| + 1 == CACHE_SIZE then (w + [h])[CACHE_DISCOUNT..]
    else w + [h]
  }

  /**
   * The two maps are inverse to each other, and the live counters are the |w| numbers just below counter, in
   * the order of the window.
   */
  ghost predicate Windowed(recent: map<uint32, int>, reverse: map<int, uint32>, counter: int, w: seq<uint32>) {
    var base := counter - |w|;
    && 0 <= base && counter <= MAX_INT32
    && (forall i | 0 <= i < |w| :: w[i] in recent && recent[w[i]] == base + i)
    && (forall h | h in recent :: base <= recent[h] < counter && w[recent[h] - base] == h)
    && (forall k | k in reverse :: base <= k < counter && reverse[k] == w[k - base])
    && (forall k | base <= k < counter :: k in reverse)
  }

  lemma InsertNew(recent: map<uint32, int>, reverse: map<int, uint32>, counter: int, w: seq<uint32>, h: uint32)
    requires Windowed(recent, reverse, counter, w) && h !in recent && counter < MAX_INT32
    ensures Windowed(recent[h := counter], reverse[counter := h], counter + 1, w + [h])
  {}

  lemma EvictOldest(recent: map<uint32, int>, reverse: map<int, uint32>, counter: int, w: seq<uint32>)
    requires Windowed(recent, reverse, counter, w) && w != []
    ensures Windowed(recent - {w[0]}, reverse - {counter - |w|}, counter, w[1..])
  {
    assert forall i | 0 <= i < |w| - 1 :: w[1..][i] == w[i + 1];
  }

  lemma {:induction false} WindowedSize(recent: map<uint32, int>, reverse: map<int, uint32>, counter: int,
                                        w: seq<uint32>)
    requires Windowed(recent, reverse, counter, w)
    ensures |recent| == |w|
    decreases w
  {
    if w == [] {
      assert recent == map[];
    } else {
      EvictOldest(recent, reverse, counter, w);
      WindowedSize(recent - {w[0]}, reverse - {counter - |w|}, counter, w[1..]);
      assert (recent - {w[0]}).Keys == recent.Keys - {w[0]};
      assert w[0] in recent.Keys && |recent.Keys| == |recent|;
    }
  }

  // sort.Slice on the counters

  ghost predicate Ascending(s: seq<int>) {
    forall i, j | 0 <= i < j < |s| :: s[i] <= s[j]
  }

  function Insert(x: int, s: seq<int>): (r: seq<int>)
    ensures |r| == |s| + 1 && forall y :: y in r <==> y == x || y in s
  {
    if s == [] || x <= s[0] then [x] + s else [s[0]] + Insert(x, s[1..])
  }

  function Sort(s: seq<int>): (r: seq<int>)
    ensures |r| == |s| && forall y :: y in r <==> y in s
  {
    if s == [] then [] else Insert(s[0], Sort(s[1..]))
  }

  lemma {:induction false} InsertAscending(x: int, s: seq<int>)
    requires Ascending(s)
    ensures Ascending(Insert(x, s))
  {
    if s == [] || x <= s[0] {
    } else {
      InsertAscending(x, s[1..]);
      var r := Insert(x, s[1..]);
      forall j | 0 <= j < |r| ensures s[0] <= r[j] {
        assert r[j] in r;
        assert forall y | y in s[1..] :: s[0] <= y;
      }
    }
  }

  lemma {:induction false} SortAscending(s: seq<int>)
    ensures Ascending(Sort(s))
  {
    if s == [] {
    } else {
      SortAscending(s[1..]);
      InsertAscending(s[0], Sort(s[1..]));
    }
  }

  /** Ascending numbers as many as an interval has, and none of the interval missing, are the interval. */
  lemma {:induction false} AscendingCover(r: seq<int>, lo: int)
    requires Ascending(r) && forall k | lo <= k < lo + |r| :: k in r
    ensures forall i | 0 <= i < |r| :: r[i] == lo + i
  {
    if r == [] {
    } else {
      assert lo in r && r[0] <= lo;
      forall k | lo + 1 <= k < lo + |r| ensures k in r[1..] {
        assert k in r && k != r[0];
      }
      AscendingCover(r[1..], lo + 1);
      assert forall i | 0 < i < |r| :: r[i] == r[1..][i - 1];
    }
  }

  class RecentBuffer {
    const crc: bytes -> uint32  // crc32.ChecksumIEEE
    var recentBuffer: map<uint32, int>
    var reverseBuffer: map<int, uint32>
    var counter: int
    ghost var window: seq<uint32>

    ghost predicate Valid()
      reads this
    {
      && |window| < CACHE_SIZE
      && Windowed(recentBuffer, reverseBuffer, counter, window)
    }

    constructor (crc: bytes -> uint32)
      ensures Valid() && window == [] && counter == 0 && this.crc == crc
    {
      this.crc := crc;
      recentBuffer, reverseBuffer, counter, window := map[], map[], 0, [];
    }

    /** Before the counter's reset, that is for fewer than 2^31 new hashes. */
    method SeenRecently(nonce: bytes) returns (seen: bool)
      requires Valid() && counter < MAX_INT32
      modifies this
      ensures Valid()
      ensures seen <==> crc(nonce) in old(window)
      ensures window == After(old(window), crc(nonce))
      ensures counter == old(counter) + if seen then 0 else 1
    {
      hide Windowed;
      var nonceHash := crc(nonce);
      seen := nonceHash in recentBuffer;
      KeysAreWindow(recentBuffer, reverseBuffer, counter, window);
      if !seen {
        InsertNew(recentBuffer, reverseBuffer, counter, window, nonceHash);
        recentBuffer := recentBuffer[nonceHash := counter];
        reverseBuffer := reverseBuffer[counter := nonceHash];
        counter := if counter == MAX_INT32 then 0 else counter + 1;
        window := window + [nonceHash];
      }
      CollectGarbage();
    }

    /** Runs at exactly the cache size, and then deletes precisely the oldest entries. */
    method CollectGarbage()
      requires Windowed(recentBuffer, reverseBuffer, counter, window) && |window| <= CACHE_SIZE
      modifies this
      ensures Valid() && counter == old(counter)
      ensures window == if |old(window)| == CACHE_SIZE then old(window)[CACHE_DISCOUNT..] else old(window)
    {
      hide Windowed;
      WindowedSize(recentBuffer, reverseBuffer, counter, window);
      var m := |recentBuffer|;
      if m >= CACHE_SIZE {
        var values := SortedCounters();
        var discount := (CACHE_SIZE - m) + CACHE_DISCOUNT;
        ghost var full := window;
        for i := 0 to discount
          invariant window == full[i..] && counter == old(counter)
          invariant Windowed(recentBuffer, reverseBuffer, counter, window)
        {
          EvictOldest(recentBuffer, reverseBuffer, counter, window);
          OldestCounter(recentBuffer, reverseBuffer, counter, window);
          assert values[i] == counter - |window|;
          var nh := reverseBuffer[values[i]];
          reverseBuffer := reverseBuffer - {values[i]};
          recentBuffer := recentBuffer - {nh};
          window := window[1..];
        }
      }
    }

    /** The live counters, collected in whatever order the map yields them and then sorted. */
    method SortedCounters() returns (values: seq<int>)
      requires Windowed(recentBuffer, reverseBuffer, counter, window)
      ensures |values| == |window|
      ensures forall i | 0 <= i < |values| :: values[i] == counter - |window| + i
    {
      var keys := recentBuffer.Keys;
      ghost var n := |keys|;
      values := [];
      while keys != {}
        invariant keys <= recentBuffer.Keys && |values| + |keys| == n
        invariant forall h | h in recentBuffer.Keys - keys :: recentBuffer[h] in values
        decreases |keys|
      {
        var h :| h in keys;
        values := values + [recentBuffer[h]];
        keys := keys - {h};
      }
      WindowedSize(recentBuffer, reverseBuffer, counter, window);
      assert n == |recentBuffer|;
      AllCounters(recentBuffer, reverseBuffer, counter, window, values);
      SortAscending(values);
      values := Sort(values);
      AscendingCover(values, counter - |window|);
    }
  }

  lemma AllCounters(recent: map<uint32, int>, reverse: map<int, uint32>, counter: int, w: seq<uint32>,
                    values: seq<int>)
    requires Windowed(recent, reverse, counter, w)
    requires forall h | h in recent :: recent[h] in values
    ensures forall k | counter - |w| <= k < counter :: k in values
  {
    forall k | counter - |w| <= k < counter ensures k in values {
      assert w[k - (counter - |w|)] in recent;
    }
  }

  lemma KeysAreWindow(recent: map<uint32, int>, reverse: map<int, uint32>, counter: int, w: seq<uint32>)
    requires Windowed(recent, reverse, counter, w)
    ensures forall h :: h in recent <==> h in w
  {}

  lemma OldestCounter(recent: map<uint32, int>, reverse: map<int, uint32>, counter: int, w: seq<uint32>)
    requires Windowed(recent, reverse, counter, w) && w != []
    ensures counter - |w| in reverse && reverse[counter - |w|] == w[0]
  {}

  // Runs

  /** The window after the first n of the hashes have arrived. */
  function WindowAt(w: seq<uint32>, hs: seq<uint32>, n: nat): seq<uint32>
    requires n <= |hs|
  {
    if n == 0 then w else After(WindowAt(w, hs, n - 1), hs[n - 1])
  }

  /** The arrival number i is answered "not seen". */
  predicate Unseen(w: seq<uint32>, hs: seq<uint32>, i: nat)
    requires i < |hs|
  {
    hs[i] !in WindowAt(w, hs, i)
  }

  /** How many hashes other than h are newly inserted strictly between the arrivals i and j. */
  function FreshOthers(w: seq<uint32>, hs: seq<uint32>, h: uint32, i: nat, j: nat): nat
    requires i < j <= |hs|
  {
    if j == i + 1 then 0
    else FreshOthers(w, hs, h, i, j - 1) + if Unseen(w, hs, j - 1) && hs[j - 1] != h then 1 else 0
  }

  const GUARANTEE := CACHE_SIZE - CACHE_DISCOUNT

  ghost predicate Sound(w: seq<uint32>) {
    |w| < CACHE_SIZE && forall i, j | 0 <= i < j < |w| :: w[i] != w[j]
  }

  lemma {:induction false} WindowSound(w: seq<uint32>, hs: seq<uint32>, n: nat)
    requires Sound(w) && n <= |hs|
    ensures Sound(WindowAt(w, hs, n))
  {
    if n == 0 {
    } else {
      WindowSound(w, hs, n - 1);
    }
  }

  /** h is in the window with just k entries behind it. */
  ghost predicate Behind(w: seq<uint32>, h: uint32, k: nat) {
    k < |w| && w[|w| - 1 - k] == h
  }

  /** An arrival moves an entry back by one if its hash is new, and never out of the last 3072. */
  lemma ArrivalRetains(w: seq<uint32>, h: uint32, k: nat, g: uint32)
    requires Sound(w) && Behind(w, h, k) && (g !in w ==> k + 1 < GUARANTEE)
    ensures Sound(After(w, g)) && Behind(After(w, g), h, if g in w then k else k + 1)
  {}

  /** A hash inserted at i stays in the window, as far from its end as others were inserted after it. */
  lemma {:induction false} Retained(w: seq<uint32>, hs: seq<uint32>, i: nat, m: nat)
    requires Sound(w) && i < m <= |hs| && Unseen(w, hs, i)
    requires FreshOthers(w, hs, hs[i], i, m) < GUARANTEE
    ensures Behind(WindowAt(w, hs, m), hs[i], FreshOthers(w, hs, hs[i], i, m))
    decreases m
  {
    WindowSound(w, hs, m - 1);
    if m <= i + 1 {
    } else {
      Retained(w, hs, i, m - 1);
      ArrivalRetains(WindowAt(w, hs, m - 1), hs[i], FreshOthers(w, hs, hs[i], i, m - 1), hs[m - 1]);
    }
  }

  /** Between two arrivals of a hash that are both answered "not seen" at least 3072 others were inserted. */
  lemma LoopPrevention(w: seq<uint32>, hs: seq<uint32>, i: nat, j: nat)
    requires Sound(w) && i < j < |hs| && hs[i] == hs[j]
    requires Unseen(w, hs, i) && Unseen(w, hs, j)
    ensures FreshOthers(w, hs, hs[i], i, j) >= GUARANTEE == 3072
  {
    if FreshOthers(w, hs, hs[i], i, j) < GUARANTEE {
      Retained(w, hs, i, j);
    }
  }

  /** The entry at p of the window got there by an arrival after which exactly the later entries were inserted. */
  lemma {:induction false} Inserted(hs: seq<uint32>, n: nat, p: nat) returns (i: nat)
    requires n <= |hs| && p < |WindowAt([], hs, n)|
    ensures i < n && Unseen([], hs, i) && hs[i] == WindowAt([], hs, n)[p]
    ensures FreshOthers([], hs, hs[i], i, n) == |WindowAt([], hs, n)| - 1 - p
    decreases n
  {
    var before, now := WindowAt([], hs, n - 1), WindowAt([], hs, n);
    WindowSound([], hs, n);
    if hs[n - 1] in before {
      i := Inserted(hs, n - 1, p);
    } else if p == |now| - 1 {
      i := n - 1;
    } else {
      i := Inserted(hs, n - 1, p + |before| + 1 - |now|);
    }
  }

  /** "Seen" is answered exactly for a hash inserted before and still among the entries of the window. */
  lemma SeenIff(hs: seq<uint32>, j: nat)
    requires j < |hs|
    ensures !Unseen([], hs, j) <==>
      exists i :: 0 <= i < j && Unseen([], hs, i) && hs[i] == hs[j]
                  && FreshOthers([], hs, hs[i], i, j) < |WindowAt([], hs, j)|
                  && WindowAt([], hs, j)[|WindowAt([], hs, j)| - 1 - FreshOthers([], hs, hs[i], i, j)] == hs[i]
  {
    if !Unseen([], hs, j) {
      var w := WindowAt([], hs, j);
      var p :| 0 <= p < |w| && w[p] == hs[j];
      var i := Inserted(hs, j, p);
    }
  }

  // The bound is tight: a run over fresh numbers with exactly 3072 between the two arrivals.

  function Range(a: nat, b: nat): (s: seq<uint32>)
    requires a <= b <= TWO_32
    ensures |s| == b - a && forall i | 0 <= i < |s| :: s[i] == a + i
  {
    seq(b - a, i requires 0 <= i < b - a => a + i)
  }

  function TightRun(): (hs: seq<uint32>)
    ensures |hs| == 7169 && hs[7168] == 4095 && forall i | 0 <= i < 7168 :: hs[i] == i
  {
    Range(0, 7168) + [4095]
  }

  function Low(k: nat): nat {
    if k < GUARANTEE then 0 else (k - GUARANTEE) / CACHE_DISCOUNT * CACHE_DISCOUNT
  }

  lemma LowStep(k: nat)
    requires 0 < k <= 7168
    ensures Low(k - 1) < k <= Low(k - 1) + CACHE_SIZE
    ensures Low(k) == Low(k - 1) + if k == Low(k - 1) + CACHE_SIZE then CACHE_DISCOUNT else 0
  {}

  lemma {:induction false} TightWindow(k: nat)
    requires k <= 7168
    ensures Low(k) <= k && WindowAt([], TightRun(), k) == Range(Low(k), k)
  {
    if k == 0 {
    } else {
      TightWindow(k - 1);
      LowStep(k);
      hide Low;
      var w := Range(Low(k - 1), k - 1);
      assert w + [k - 1] == Range(Low(k - 1), k);
    }
  }

  lemma {:induction false} TightCount(j: nat)
    requires 4096 <= j <= 7168
    ensures FreshOthers([], TightRun(), 4095, 4095, j) == j - 4096
  {
    if j <= 4096 {
    } else {
      TightCount(j - 1);
      TightWindow(j - 1);
    }
  }

  lemma LoopPreventionTight()
    ensures var hs := TightRun();
      && hs[4095] == hs[7168] && Unseen([], hs, 4095) && Unseen([], hs, 7168)
      && FreshOthers([], hs, hs[4095], 4095, 7168) == 3072
  {
    TightWindow(4095);
    TightWindow(7168);
    TightCount(7168);
  }

  // How much is remembered

  ghost predicate Distinct(hs: seq<uint32>) {
    forall i, j | 0 <= i < j < |hs| :: hs[i] != hs[j]
  }

  lemma {:induction false} FillsUp(hs: seq<uint32>, n: nat)
    requires Distinct(hs) && n <= |hs| && n < 4096
    ensures WindowAt([], hs, n) == hs[..n]
  {
    if n == 0 {
    } else {
      FillsUp(hs, n - 1);
      assert hs[..n] == hs[..n - 1] + [hs[n - 1]];
    }
  }

  /** The cache remembers the last 4095 new hashes; the next new one makes it forget the 1024 oldest. */
  lemma Remembers4095(hs: seq<uint32>)
    requires Distinct(hs) && |hs| == 4096
    ensures WindowAt([], hs, 4095) == hs[..4095]
    ensures WindowAt([], hs, 4096) == hs[1024..]
  {
    FillsUp(hs, 4095);
    assert hs[..4095] + [hs[4095]] == hs;
    assert hs[4095] !in hs[..4095];
  }
}
