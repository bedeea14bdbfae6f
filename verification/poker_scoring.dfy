/**
 * Seven-card poker hand scoring of the server
 * (sp/server/src/PokerScoring.hpp). Cards are numbers `0..51`; rank is
 * `card % 13` (0 = deuce, 12 = ace) and suit `card / 13`. A score is a
 * category (0 = high card ... 8 = straight flush) and five tie-breaker
 * ranks, compared lexicographically.
 */
module PokerScoring {
  import opened Wrappers

  const RANKS: nat := 13
  const SUITS: nat := 4

  predicate IsCard(c: int) {
    0 <= c < 52
  }

  predicate AllCards(cards: seq<int>) {
    forall i | 0 <= i < |cards| :: IsCard(cards[i])
  }

  /** `rank_of`. */
  function RankOf(c: int): (r: int)
    requires IsCard(c)
    ensures 0 <= r < RANKS && c == 13 * (c / 13) + r
  {
    c % 13
  }

  /** `suit_of`. */
  function SuitOf(c: int): (s: int)
    requires IsCard(c)
    ensures 0 <= s < SUITS && c == 13 * s + RankOf(c)
  {
    c / 13
  }

  /** `PokerScore`. */
  datatype PokerScore = PokerScore(category: int, tieBreakers: seq<int>)

  /** `std::array`'s `<`: lexicographic. */
  predicate LexLess(a: seq<int>, b: seq<int>)
    decreases |a|
  {
    if |a| == 0 || |b| == 0 then |a| < |b|
    else if a[0] != b[0] then a[0] < b[0]
    else LexLess(a[1..], b[1..])
  }

  /** `PokerScore::operator<`: category first, then the tie-breakers. */
  predicate Less(a: PokerScore, b: PokerScore) {
    if a.category != b.category then a.category < b.category
    else LexLess(a.tieBreakers, b.tieBreakers)
  }

  /** `PokerScore::operator>`. */
  predicate Greater(a: PokerScore, b: PokerScore) {
    Less(b, a)
  }

  lemma {:induction false} LexLessIrreflexive(a: seq<int>)
    ensures !LexLess(a, a)
    decreases |a|
  {
    if |a| > 0 {
      LexLessIrreflexive(a[1..]);
    }
  }

  lemma {:induction false} LexLessTransitive(a: seq<int>, b: seq<int>, c: seq<int>)
    requires LexLess(a, b) && LexLess(b, c)
    ensures LexLess(a, c)
    decreases |a|
  {
    if |a| > 0 && |b| > 0 && |c| > 0 && a[0] == b[0] && b[0] == c[0] {
      LexLessTransitive(a[1..], b[1..], c[1..]);
    }
  }

  lemma {:induction false} LexLessTotal(a: seq<int>, b: seq<int>)
    requires a != b
    ensures LexLess(a, b) || LexLess(b, a)
    decreases |a|
  {
    if |a| > 0 && |b| > 0 && a[0] == b[0] {
      assert a == [a[0]] + a[1..] && b == [b[0]] + b[1..];
      LexLessTotal(a[1..], b[1..]);
    }
  }

  /**
   * The score order is a strict total order whose equality is fieldwise,
   * and `>` is its converse.
   */
  lemma ScoreOrder(a: PokerScore, b: PokerScore, c: PokerScore)
    ensures !Less(a, a)
    ensures Less(a, b) && Less(b, c) ==> Less(a, c)
    ensures a != b ==> Less(a, b) || Less(b, a)
    ensures Greater(a, b) <==> Less(b, a)
    ensures !(Less(a, b) && Less(b, a))
  {
    LexLessIrreflexive(a.tieBreakers);
    if Less(a, b) && Less(b, c) && a.category == b.category == c.category {
      LexLessTransitive(a.tieBreakers, b.tieBreakers, c.tieBreakers);
    }
    if a != b && a.category == b.category {
      LexLessTotal(a.tieBreakers, b.tieBreakers);
    }
    if Less(a, b) && Less(b, a) && a.category == b.category {
      LexLessTransitive(a.tieBreakers, b.tieBreakers, a.tieBreakers);
    }
  }

  /** How many of `cards` have rank `r`. */
  function RankCount(cards: seq<int>, r: int): (n: nat)
    requires AllCards(cards)
    ensures n <= |cards|
  {
    if |cards| == 0 then 0
    else RankCount(cards[..|cards| - 1], r) + (if RankOf(cards[|cards| - 1]) == r then 1 else 0)
  }

  /** How many of `cards` have suit `s`. */
  function SuitCount(cards: seq<int>, s: int): (n: nat)
    requires AllCards(cards)
    ensures n <= |cards|
  {
    if |cards| == 0 then 0
    else SuitCount(cards[..|cards| - 1], s) + (if SuitOf(cards[|cards| - 1]) == s then 1 else 0)
  }

  /** How many entries of `tally` equal `k`. */
  function CountEqual(tally: seq<int>, k: int): (n: nat)
    ensures n <= |tally|
  {
    if |tally| == 0 then 0
    else CountEqual(tally[..|tally| - 1], k) + (if tally[|tally| - 1] == k then 1 else 0)
  }

  function Sum(s: seq<int>): int {
    if |s| == 0 then 0 else Sum(s[..|s| - 1]) + s[|s| - 1]
  }

  /** `Counts`: tallies per rank and per suit, and `freq[k]` = ranks held exactly `k` times (k = 2..4). */
  datatype Counts = Counts(rank: seq<int>, suit: seq<int>, freq: seq<int>)

  /** The first loop of the `Counts` constructor: one increment per card, in card order. */
  function Tally(cards: seq<int>): (t: (seq<int>, seq<int>))
    requires AllCards(cards)
    ensures |t.0| == RANKS && |t.1| == SUITS
    ensures forall r | 0 <= r < RANKS :: t.0[r] == RankCount(cards, r)
    ensures forall s | 0 <= s < SUITS :: t.1[s] == SuitCount(cards, s)
    ensures Sum(t.0) == |cards| && Sum(t.1) == |cards|
  {
    if |cards| == 0 then
      assert Sum(seq(13, _ => 0)) == 0 by { ZeroSum(13); }
      assert Sum(seq(4, _ => 0)) == 0 by { ZeroSum(4); }
      (seq(13, _ => 0), seq(4, _ => 0))
    else
      var c := cards[|cards| - 1];
      var (rank, suit) := Tally(cards[..|cards| - 1]);
      SumIncrement(rank, RankOf(c));
      SumIncrement(suit, SuitOf(c));
      (rank[RankOf(c) := rank[RankOf(c)] + 1], suit[SuitOf(c) := suit[SuitOf(c)] + 1])
  }

  lemma {:induction false} ZeroSum(n: nat)
    ensures Sum(seq(n, _ => 0)) == 0
  {
    if n > 0 {
      assert seq(n, _ => 0)[..n - 1] == seq(n - 1, _ => 0);
      ZeroSum(n - 1);
    }
  }

  lemma {:induction false} SumIncrement(t: seq<int>, i: int)
    requires 0 <= i < |t|
    ensures Sum(t[i := t[i] + 1]) == Sum(t) + 1
  {
    var u := t[i := t[i] + 1];
    if i < |t| - 1 {
      assert u[..|u| - 1] == t[..|t| - 1][i := t[i] + 1];
      SumIncrement(t[..|t| - 1], i);
    } else {
      assert u[..|u| - 1] == t[..|t| - 1];
    }
  }

  /** The second loop of the `Counts` constructor, over ranks `0..n-1`. */
  function Frequencies(rank: seq<int>, n: nat): (f: seq<int>)
    requires n <= |rank|
    ensures |f| == 5
    ensures forall k | 0 <= k < 5 :: f[k] == if 2 <= k <= 4 then CountEqual(rank[..n], k) else 0
  {
    if n == 0 then seq(5, _ => 0)
    else
      var f := Frequencies(rank, n - 1);
      assert rank[..n][..n - 1] == rank[..n - 1];
      if 2 <= rank[n - 1] <= 4 then f[rank[n - 1] := f[rank[n - 1]] + 1] else f
  }

  /** `Counts(cards)`. */
  function MakeCounts(cards: seq<int>): (c: Counts)
    requires AllCards(cards)
    ensures |c.rank| == RANKS && |c.suit| == SUITS && |c.freq| == 5
    ensures forall r | 0 <= r < RANKS :: c.rank[r] == RankCount(cards, r)
    ensures forall s | 0 <= s < SUITS :: c.suit[s] == SuitCount(cards, s)
    ensures forall k | 2 <= k <= 4 :: c.freq[k] == CountEqual(c.rank, k)
    ensures Sum(c.rank) == |cards| && Sum(c.suit) == |cards|
  {
    var (rank, suit) := Tally(cards);
    assert rank[..RANKS] == rank;
    Counts(rank, suit, Frequencies(rank, RANKS))
  }

  /**
   * The scans `for (int r = top; r >= 0; --r) if (p(r)) ...` that recur in
   * the scorer: the highest `r <= top` satisfying `p`, or -1.
   */
  function ScanDown(top: int, p: int -> bool): (k: int)
    requires -1 <= top
    ensures -1 <= k <= top
    ensures k >= 0 ==> p(k)
    ensures forall j | k < j <= top && j >= 0 :: !p(j)
    decreases top + 1
  {
    if top < 0 then -1 else if p(top) then top else ScanDown(top - 1, p)
  }

  /** Ranks `h-4..h` are all held: a straight with high card `h`. */
  predicate RunAt(rc: seq<int>, h: int) {
    |rc| == RANKS && 4 <= h <= 12 && forall k | h - 4 <= k <= h :: rc[k] != 0
  }

  /** Ace, 2, 3, 4, 5: the wheel, whose high card is the five (rank 3). */
  predicate Wheel(rc: seq<int>) {
    |rc| == RANKS && rc[12] != 0 && rc[0] != 0 && rc[1] != 0 && rc[2] != 0 && rc[3] != 0
  }

  /**
   * The loop of `find_straight_high` from rank `r` down, with the current
   * `streak` of consecutive held ranks and its `high` end.
   */
  function StraightScan(rc: seq<int>, r: int, streak: nat, high: int): Option<int>
    requires |rc| == RANKS && -1 <= r <= 12
    decreases r + 1
  {
    if r < 0 then None
    else if rc[r] == 0 then
      if r < 4 then None else StraightScan(rc, r - 1, 0, high)
    else if streak == 0 then StraightScan(rc, r - 1, 1, r)
    else if r == high - streak then
      if streak + 1 == 5 then Some(high) else StraightScan(rc, r - 1, streak + 1, high)
    else if r < 4 then None
    else StraightScan(rc, r - 1, 1, r)
  }

  /** The loop finds the highest straight among ranks it has not yet ruled out. */
  lemma {:induction false} StraightScanFindsHighest(rc: seq<int>, r: int, streak: nat, high: int)
    requires |rc| == RANKS && -1 <= r <= 12
    requires streak <= 4 && r + streak <= 12
    requires streak > 0 ==> high == r + streak
    requires forall k | r < k <= r + streak :: rc[k] != 0
    requires r + streak + 1 <= 12 ==> rc[r + streak + 1] == 0
    requires forall h | r + 4 < h <= 12 :: !RunAt(rc, h)
    ensures var res := StraightScan(rc, r, streak, high);
      && (res.Some? ==> RunAt(rc, res.value) && forall h | res.value < h <= 12 :: !RunAt(rc, h))
      && (res.None? ==> forall h | 4 <= h <= 12 :: !RunAt(rc, h))
    decreases r + 1
  {
    if r < 0 {
    } else if rc[r] == 0 {
      if r < 4 {
        assert forall h | 4 <= h <= 12 :: !RunAt(rc, h) by {
          forall h | 4 <= h <= 12 ensures !RunAt(rc, h) {
            if h <= r + 4 {
              assert rc[r] == 0 && h - 4 <= r <= h;
            }
          }
        }
      } else {
        assert !RunAt(rc, r + 4) by { assert rc[r] == 0; }
        StraightScanFindsHighest(rc, r - 1, 0, high);
      }
    } else if streak == 0 {
      assert !RunAt(rc, r + 4) by {
        if r + 4 <= 12 { assert rc[r + 1] == 0; }
      }
      StraightScanFindsHighest(rc, r - 1, 1, r);
    } else {
      assert r == high - streak;
      if streak + 1 == 5 {
        assert RunAt(rc, high);
      } else {
        assert !RunAt(rc, r + 4) by {
          if r + 4 <= 12 { assert rc[r + streak + 1] == 0 && r + streak + 1 <= r + 4; }
        }
        StraightScanFindsHighest(rc, r - 1, streak + 1, high);
      }
    }
  }

  /**
   * `find_straight_high`: the highest `h` with ranks `h-4..h` all held;
   * failing that 3 (five-high) for the wheel; otherwise none.
   */
  function FindStraightHigh(rc: seq<int>): (r: Option<int>)
    requires |rc| == RANKS
    ensures r.Some? && r.value >= 4 ==> RunAt(rc, r.value) && forall h | r.value < h <= 12 :: !RunAt(rc, h)
    ensures r.Some? && r.value < 4 ==> r.value == 3 && Wheel(rc) && forall h | 4 <= h <= 12 :: !RunAt(rc, h)
    ensures r.None? ==> !Wheel(rc) && forall h | 4 <= h <= 12 :: !RunAt(rc, h)
  {
    StraightScanFindsHighest(rc, 12, 0, 0);
    match StraightScan(rc, 12, 0, 0)
    case Some(h) => Some(h)
    case None => if rc[12] != 0 && rc[0] != 0 && rc[1] != 0 && rc[2] != 0 && rc[3] != 0 then Some(3) else None
  }

  /** The cards of suit `fs`, in their original order. */
  function OfSuit(cards: seq<int>, fs: int): (r: seq<int>)
    requires AllCards(cards)
    ensures AllCards(r) && |r| == SuitCount(cards, fs)
    ensures forall i | 0 <= i < |r| :: SuitOf(r[i]) == fs
  {
    if |cards| == 0 then []
    else
      var c := cards[|cards| - 1];
      OfSuit(cards[..|cards| - 1], fs) + (if SuitOf(c) == fs then [c] else [])
  }

  /** The ranks of `cards`, in order. */
  function Ranks(cards: seq<int>): (r: seq<int>)
    requires AllCards(cards)
    ensures |r| == |cards|
    ensures forall i | 0 <= i < |r| :: r[i] == RankOf(cards[i])
  {
    seq(|cards|, i requires 0 <= i < |cards| => RankOf(cards[i]))
  }

  predicate Descending(s: seq<int>) {
    forall i, j | 0 <= i < j < |s| :: s[i] >= s[j]
  }

  /** Insert `x` into a descending sequence. */
  function InsertDesc(x: int, s: seq<int>): (r: seq<int>)
    requires Descending(s)
    ensures Descending(r) && multiset(r) == multiset(s) + multiset{x} && |r| == |s| + 1
    ensures r[0] == if |s| == 0 || x >= s[0] then x else s[0]
    decreases |s|
  {
    if |s| == 0 || x >= s[0] then [x] + s
    else
      var t := InsertDesc(x, s[1..]);
      var r := [s[0]] + t;
      assert t[0] <= s[0];
      forall i, j | 0 <= i < j < |r| ensures r[i] >= r[j] {
        assert r[j] == t[j - 1] <= t[0];
        if i > 0 {
          assert r[i] == t[i - 1];
        }
      }
      assert s == [s[0]] + s[1..];
      r
  }

  /** `std::sort(..., std::greater<u8>())`: the descending rearrangement. */
  function SortDesc(s: seq<int>): (r: seq<int>)
    ensures Descending(r) && multiset(r) == multiset(s) && |r| == |s|
  {
    if |s| == 0 then []
    else
      assert s == s[..|s| - 1] + [s[|s| - 1]];
      InsertDesc(s[|s| - 1], SortDesc(s[..|s| - 1]))
  }

  /**
   * The kicker loops `for (r = 12; r >= 0 && i < n; --r) if (r != excl &&
   * rank[r] > 0) tb[i++] = r`: up to `need` held ranks other than `excl`,
   * scanning down from `r`.
   */
  function Fill(rank: seq<int>, r: int, need: nat, excl: int): (s: seq<int>)
    requires |rank| == RANKS && -1 <= r <= 12
    ensures |s| <= need
    ensures forall i | 0 <= i < |s| :: 0 <= s[i] <= r && s[i] != excl && rank[s[i]] > 0
    ensures forall i, j | 0 <= i < j < |s| :: s[i] > s[j]
    decreases r + 1
  {
    if r < 0 || need == 0 then []
    else if r != excl && rank[r] > 0 then [r] + Fill(rank, r - 1, need - 1, excl)
    else Fill(rank, r - 1, need, excl)
  }

  /** `need` ranks taken, all of them above `k`. */
  predicate FullAbove(s: seq<int>, need: nat, k: int) {
    |s| == need && (|s| > 0 ==> k < s[|s| - 1])
  }

  /** A held rank the kicker loop skipped lies below everything it took, and the loop was full. */
  lemma {:induction false} FillTakesHighest(rank: seq<int>, r: int, need: nat, excl: int, k: int)
    requires |rank| == RANKS && -1 <= r <= 12
    requires 0 <= k <= r && k != excl && rank[k] > 0 && k !in Fill(rank, r, need, excl)
    ensures FullAbove(Fill(rank, r, need, excl), need, k)
    decreases r + 1, 1
  {
    if need > 0 {
      if r != excl && rank[r] > 0 {
        FillTakeStep(rank, r, need, excl, k);
      } else {
        assert Fill(rank, r, need, excl) == Fill(rank, r - 1, need, excl);
        FillTakesHighest(rank, r - 1, need, excl, k);
      }
    }
  }

  lemma {:induction false} FillTakeStep(rank: seq<int>, r: int, need: nat, excl: int, k: int)
    requires |rank| == RANKS && 0 <= r <= 12 && need > 0 && r != excl && rank[r] > 0
    requires 0 <= k <= r && k != excl && rank[k] > 0 && k !in Fill(rank, r, need, excl)
    ensures FullAbove(Fill(rank, r, need, excl), need, k)
    decreases r + 1, 0
  {
    var s := Fill(rank, r, need, excl);
    var rest := Fill(rank, r - 1, need - 1, excl);
    assert s == [r] + rest;
    assert k != r && k !in rest;
    FillTakesHighest(rank, r - 1, need - 1, excl, k);
    assert s[|s| - 1] == if |rest| > 0 then rest[|rest| - 1] else r;
  }

  /** The unset tie-breakers of a `PokerScore` stay 0. */
  function Pad(s: seq<int>): (t: seq<int>)
    requires |s| <= 5
    ensures |t| == 5 && t[..|s|] == s
    ensures forall i | |s| <= i < 5 :: t[i] == 0
  {
    s + seq(5 - |s|, _ => 0)
  }

  /** The first suit held at least five times (`4` when there is none). */
  function FlushSuit(c: Counts): (fs: int)
    requires |c.suit| == SUITS
    ensures 0 <= fs <= 4
    ensures fs < 4 ==> c.suit[fs] >= 5
    ensures forall s | 0 <= s < fs :: c.suit[s] < 5
  {
    if c.suit[0] >= 5 then 0
    else if c.suit[1] >= 5 then 1
    else if c.suit[2] >= 5 then 2
    else if c.suit[3] >= 5 then 3
    else 4
  }

  /** `try_straight_flush`: a straight among the cards of the flush suit. */
  function TryStraightFlush(cards: seq<int>, c: Counts): (r: Option<PokerScore>)
    requires AllCards(cards) && |c.suit| == SUITS
    ensures r.Some? <==> FlushSuit(c) < 4 && FindStraightHigh(Tally(OfSuit(cards, FlushSuit(c))).0).Some?
    ensures r.Some? ==> r.value == PokerScore(8, Pad([FindStraightHigh(Tally(OfSuit(cards, FlushSuit(c))).0).value]))
  {
    var fs := FlushSuit(c);
    if fs == 4 then None
    else
      match FindStraightHigh(Tally(OfSuit(cards, fs)).0)
      case Some(h) => Some(PokerScore(8, Pad([h])))
      case None => None
  }

  /** The highest held rank other than `q` and `q2` (the kicker scans), or -1. */
  function Kicker(rank: seq<int>, q: int, q2: int): (k: int)
    requires |rank| == RANKS
    ensures -1 <= k < 13
    ensures k >= 0 ==> k != q && k != q2 && rank[k] > 0
    ensures forall j | k < j < 13 && j != q && j != q2 :: rank[j] <= 0
  {
    var held := k => 0 <= k < 13 && k != q && k != q2 && rank[k] > 0;
    var k := ScanDown(12, held);
    forall j | k < j < 13 && j != q && j != q2 ensures rank[j] <= 0 {
      assert !held(j);
    }
    k
  }

  /** `try_four_of_a_kind`: the highest quad that has a kicker, with the highest kicker. */
  function TryFourOfAKind(c: Counts): (r: Option<PokerScore>)
    requires |c.rank| == RANKS
    ensures r.Some? ==> r.value.category == 7 && |r.value.tieBreakers| == 5
    ensures r.Some? ==> var q := r.value.tieBreakers[0]; var k := r.value.tieBreakers[1];
      && 0 <= q < 13 && c.rank[q] == 4
      && 0 <= k < 13 && k != q && c.rank[k] > 0
      && (forall j | k < j < 13 && j != q :: c.rank[j] <= 0)
    ensures r.None? ==> forall q | 0 <= q < 13 && c.rank[q] == 4 :: Kicker(c.rank, q, q) < 0
  {
    var q := ScanDown(12, q => 0 <= q < 13 && c.rank[q] == 4 && Kicker(c.rank, q, q) >= 0);
    if q < 0 then None
    else Some(PokerScore(7, Pad([q, Kicker(c.rank, q, q)])))
  }

  /** The loop of `try_full_house`, from rank `r` down, with the `trips` and `pair` found so far. */
  function FullHouseScan(rank: seq<int>, r: int, trips: int, pair: int): (tp: (int, int))
    requires |rank| == RANKS && -1 <= r <= 12
    decreases r + 1
  {
    if r < 0 then (trips, pair)
    else if rank[r] >= 3 && trips == -1 then FullHouseScan(rank, r - 1, r, pair)
    else if rank[r] >= 2 && pair == -1 then FullHouseScan(rank, r - 1, trips, r)
    else FullHouseScan(rank, r - 1, trips, pair)
  }

  /** The highest rank held at least `n` times other than `excl`, or -1. */
  function HighestWith(rank: seq<int>, n: int, excl: int): (k: int)
    requires |rank| == RANKS
    ensures -1 <= k < 13
    ensures k >= 0 ==> k != excl && rank[k] >= n
    ensures forall j | k < j < 13 && j != excl :: rank[j] < n
  {
    var held := k => 0 <= k < 13 && k != excl && rank[k] >= n;
    var k := ScanDown(12, held);
    forall j | k < j < 13 && j != excl ensures rank[j] < n {
      assert !held(j);
    }
    k
  }

  /**
   * The scan settles on the highest rank held three times as `trips` and the
   * highest other rank held twice as `pair`.
   */
  lemma {:induction false} FullHouseScanSpec(rank: seq<int>, r: int, trips: int, pair: int)
    requires |rank| == RANKS && -1 <= r <= 12
    requires trips == -1 ==> forall j | r < j < 13 :: rank[j] < 3
    requires trips != -1 ==> r < trips < 13 && rank[trips] >= 3 && forall j | trips < j < 13 :: rank[j] < 3
    requires pair == -1 ==> forall j | r < j < 13 && j != trips :: rank[j] < 2
    requires pair != -1 ==>
      (r < pair < 13 && pair != trips && rank[pair] >= 2 && forall j | pair < j < 13 && j != trips :: rank[j] < 2)
    ensures var (t, p) := FullHouseScan(rank, r, trips, pair);
      t == HighestWith(rank, 3, -1) && p == HighestWith(rank, 2, t)
    decreases r + 1
  {
    if r < 0 {
      var t := HighestWith(rank, 3, -1);
      assert t == trips;
      assert pair == HighestWith(rank, 2, t);
    } else if rank[r] >= 3 && trips == -1 {
      FullHouseScanSpec(rank, r - 1, r, pair);
    } else if rank[r] >= 2 && pair == -1 {
      FullHouseScanSpec(rank, r - 1, trips, r);
    } else {
      FullHouseScanSpec(rank, r - 1, trips, pair);
    }
  }

  /** `try_full_house`: the highest trips and the highest other pair. */
  function TryFullHouse(c: Counts): (r: Option<PokerScore>)
    requires |c.rank| == RANKS
    ensures var t := HighestWith(c.rank, 3, -1);
      && (r.Some? <==> t >= 0 && HighestWith(c.rank, 2, t) >= 0)
      && (r.Some? ==> r.value == PokerScore(6, Pad([t, HighestWith(c.rank, 2, t)])))
  {
    FullHouseScanSpec(c.rank, 12, -1, -1);
    var (trips, pair) := FullHouseScan(c.rank, 12, -1, -1);
    if trips >= 0 && pair >= 0 then Some(PokerScore(6, Pad([trips, pair]))) else None
  }

  /** `try_flush`: the five highest ranks of the flush suit, highest first. */
  function TryFlush(cards: seq<int>, c: Counts): (r: Option<PokerScore>)
    requires AllCards(cards) && |c.suit| == SUITS
    requires forall s | 0 <= s < SUITS :: c.suit[s] == SuitCount(cards, s)
    ensures r.Some? <==> FlushSuit(c) < 4
    ensures r.Some? ==> r.value.category == 5 && |r.value.tieBreakers| == 5
    ensures r.Some? ==> var fr := Ranks(OfSuit(cards, FlushSuit(c)));
      && Descending(r.value.tieBreakers)
      && multiset(r.value.tieBreakers) <= multiset(fr)
      && (forall x | x in multiset(fr) - multiset(r.value.tieBreakers) :: x <= r.value.tieBreakers[4])
  {
    var fs := FlushSuit(c);
    if fs == 4 then None
    else
      var sorted := SortDesc(Ranks(OfSuit(cards, fs)));
      var top := sorted[..5];
      TopOfSorted(sorted, 5);
      Some(PokerScore(5, top))
  }

  /** The first `n` of a descending sequence are its `n` largest. */
  lemma TopOfSorted(s: seq<int>, n: nat)
    requires Descending(s) && 1 <= n <= |s|
    ensures Descending(s[..n]) && multiset(s[..n]) <= multiset(s)
    ensures forall x | x in multiset(s) - multiset(s[..n]) :: x <= s[n - 1]
  {
    assert s == s[..n] + s[n..];
    assert multiset(s) - multiset(s[..n]) == multiset(s[n..]);
    forall x | x in multiset(s[n..]) ensures x <= s[n - 1] {
      var i :| 0 <= i < |s[n..]| && s[n..][i] == x;
      assert s[n + i] == x;
    }
  }

  /** `try_straight`. */
  function TryStraight(c: Counts): (r: Option<PokerScore>)
    requires |c.rank| == RANKS
    ensures r.Some? <==> FindStraightHigh(c.rank).Some?
    ensures r.Some? ==> r.value == PokerScore(4, Pad([FindStraightHigh(c.rank).value]))
  {
    match FindStraightHigh(c.rank)
    case Some(h) => Some(PokerScore(4, Pad([h])))
    case None => None
  }

  /** `try_three_of_a_kind`: the highest rank held exactly three times and two kickers. */
  function TryThreeOfAKind(c: Counts): (r: Option<PokerScore>)
    requires |c.rank| == RANKS
    ensures r.Some? <==> exists t | 0 <= t < 13 :: c.rank[t] == 3
    ensures r.Some? ==> r.value.category == 3 && |r.value.tieBreakers| == 5
    ensures r.Some? ==> var t := r.value.tieBreakers[0];
      && 0 <= t < 13 && c.rank[t] == 3 && (forall j | t < j < 13 :: c.rank[j] != 3)
      && r.value.tieBreakers == Pad([t] + Fill(c.rank, 12, 2, t))
  {
    var three := t => 0 <= t < 13 && c.rank[t] == 3;
    var t := ScanDown(12, three);
    if t == -1 then
      forall j | 0 <= j < 13 ensures c.rank[j] != 3 {
        assert !three(j);
      }
      None
    else
      var s := [t] + Fill(c.rank, 12, 2, t);
      var tb := Pad(s);
      assert three(t) && tb[..|s|] == s;
      assert tb[0] == s[0] == t;
      Some(PokerScore(3, tb))
  }

  /** The second pair scan of `try_two_pair`: the highest rank below `p1` held at least twice. */
  function SecondPair(rank: seq<int>, p1: int): (p2: int)
    requires |rank| == RANKS && 0 <= p1 < 13
    ensures -1 <= p2 < p1
    ensures p2 >= 0 ==> rank[p2] >= 2
    ensures forall j | p2 < j < p1 :: rank[j] < 2
  {
    var held := k => 0 <= k < 13 && rank[k] >= 2;
    var p2 := ScanDown(p1 - 1, held);
    forall j | p2 < j < p1 ensures rank[j] < 2 {
      assert !held(j);
    }
    p2
  }

  /** `try_two_pair`: needs two ranks held exactly twice; the two highest pairs and a kicker. */
  function TryTwoPair(c: Counts): (r: Option<PokerScore>)
    requires |c.rank| == RANKS && |c.freq| == 5
    ensures c.freq[2] < 2 ==> r.None?
    ensures r.Some? ==> r.value.category == 2 && |r.value.tieBreakers| == 5
    ensures r.Some? ==>
      var p1 := HighestWith(c.rank, 2, -1);
      && p1 >= 0 && SecondPair(c.rank, p1) >= 0
      && r.value.tieBreakers == Pad([p1, SecondPair(c.rank, p1), Kicker(c.rank, p1, SecondPair(c.rank, p1))])
      && Kicker(c.rank, p1, SecondPair(c.rank, p1)) >= 0
  {
    if c.freq[2] < 2 then None
    else
      var p1 := HighestWith(c.rank, 2, -1);
      if p1 == -1 then None
      else
        var p2 := SecondPair(c.rank, p1);
        if p2 == -1 then None
        else
          var k := Kicker(c.rank, p1, p2);
          if k == -1 then None else Some(PokerScore(2, Pad([p1, p2, k])))
  }

  /** Two different ranks held at least twice each, and a third rank held at all. */
  predicate TwoPairsAndKicker(rank: seq<int>)
    requires |rank| == RANKS
  {
    exists a, b, k | 0 <= b < a < 13 && 0 <= k < 13 && k != a && k != b :: rank[a] >= 2 && rank[b] >= 2 && rank[k] > 0
  }

  /**
   * `try_two_pair` scores exactly when two ranks are counted as exact
   * pairs and some two pairs with a kicker beside them are held; the scan
   * for the highest two pairs then always finds a kicker too.
   */
  lemma TwoPairExactly(c: Counts)
    requires |c.rank| == RANKS && |c.freq| == 5
    ensures TryTwoPair(c).Some? <==> c.freq[2] >= 2 && TwoPairsAndKicker(c.rank)
  {
    var p1 := HighestWith(c.rank, 2, -1);
    if TryTwoPair(c).Some? {
      var p2 := SecondPair(c.rank, p1);
      var k := Kicker(c.rank, p1, p2);
      assert 0 <= p2 < p1 && 0 <= k && c.rank[p1] >= 2 && c.rank[p2] >= 2 && c.rank[k] > 0;
    }
    if c.freq[2] >= 2 && TwoPairsAndKicker(c.rank) {
      var a, b, k :| 0 <= b < a < 13 && 0 <= k < 13 && k != a && k != b && c.rank[a] >= 2 && c.rank[b] >= 2 && c.rank[k] > 0;
      assert p1 >= a;
      var p2 := SecondPair(c.rank, p1);
      assert p2 >= b;
      assert Kicker(c.rank, p1, p2) >= 0 by {
        assert c.rank[a] > 0 && c.rank[b] > 0 && c.rank[k] > 0;
      }
    }
  }

  /** `try_one_pair`: the highest pair and three kickers. */
  function TryOnePair(c: Counts): (r: Option<PokerScore>)
    requires |c.rank| == RANKS
    ensures r.Some? <==> HighestWith(c.rank, 2, -1) >= 0
    ensures r.Some? ==> var p := HighestWith(c.rank, 2, -1);
      r.value == PokerScore(1, Pad([p] + Fill(c.rank, 12, 3, p)))
  {
    var p := HighestWith(c.rank, 2, -1);
    if p == -1 then None else Some(PokerScore(1, Pad([p] + Fill(c.rank, 12, 3, p))))
  }

  /** `evaluate_poker_hand`: the first category that matches, strongest first. */
  function Evaluate(hand: seq<int>, river: seq<int>): (s: PokerScore)
    requires |hand| == 2 && |river| == 5 && AllCards(hand + river)
    ensures 0 <= s.category <= 8 && |s.tieBreakers| == 5
  {
    var cards := hand + river;
    var c := MakeCounts(cards);
    var sf := TryStraightFlush(cards, c);
    if sf.Some? then sf.value else
    var fk := TryFourOfAKind(c);
    if fk.Some? then fk.value else
    var fh := TryFullHouse(c);
    if fh.Some? then fh.value else
    var f := TryFlush(cards, c);
    if f.Some? then f.value else
    var st := TryStraight(c);
    if st.Some? then st.value else
    var tk := TryThreeOfAKind(c);
    if tk.Some? then tk.value else
    var tp := TryTwoPair(c);
    if tp.Some? then tp.value else
    var op := TryOnePair(c);
    if op.Some? then op.value else
    PokerScore(0, Pad(Fill(c.rank, 12, 5, -1)))
  }

  /**
   * `evaluate_poker_hand` never scores below a category whose scorer
   * accepts the cards: the strongest such category wins.
   */
  lemma EvaluateAtLeastMatch(hand: seq<int>, river: seq<int>)
    requires |hand| == 2 && |river| == 5 && AllCards(hand + river)
    ensures var cards := hand + river; var c := MakeCounts(cards); var s := Evaluate(hand, river);
      && (TryStraightFlush(cards, c).Some? ==> s.category >= 8)
      && (TryFourOfAKind(c).Some? ==> s.category >= 7)
      && (TryFullHouse(c).Some? ==> s.category >= 6)
      && (TryFlush(cards, c).Some? ==> s.category >= 5)
      && (TryStraight(c).Some? ==> s.category >= 4)
      && (TryThreeOfAKind(c).Some? ==> s.category >= 3)
      && (TryTwoPair(c).Some? ==> s.category >= 2)
      && (TryOnePair(c).Some? ==> s.category >= 1)
  {
  }

  /** Above high card, the score is exactly what its own category's scorer gives. */
  lemma EvaluateIsCategoryScore(hand: seq<int>, river: seq<int>)
    requires |hand| == 2 && |river| == 5 && AllCards(hand + river)
    ensures var cards := hand + river; var c := MakeCounts(cards); var s := Evaluate(hand, river);
      && (s.category == 8 ==> TryStraightFlush(cards, c) == Some(s))
      && (s.category == 7 ==> TryFourOfAKind(c) == Some(s))
      && (s.category == 6 ==> TryFullHouse(c) == Some(s))
      && (s.category == 5 ==> TryFlush(cards, c) == Some(s))
      && (s.category == 4 ==> TryStraight(c) == Some(s))
      && (s.category == 3 ==> TryThreeOfAKind(c) == Some(s))
      && (s.category == 2 ==> TryTwoPair(c) == Some(s))
      && (s.category == 1 ==> TryOnePair(c) == Some(s))
  {
    var cards := hand + river;
    var c := MakeCounts(cards);
    var s := Evaluate(hand, river);
    if TryStraightFlush(cards, c).Some? {
      assert s == TryStraightFlush(cards, c).value;
    } else if TryFourOfAKind(c).Some? {
      assert s == TryFourOfAKind(c).value;
    } else if TryFullHouse(c).Some? {
      assert s == TryFullHouse(c).value;
    } else if TryFlush(cards, c).Some? {
      assert s == TryFlush(cards, c).value;
    } else if TryStraight(c).Some? {
      assert s == TryStraight(c).value;
    } else if TryThreeOfAKind(c).Some? {
      assert s == TryThreeOfAKind(c).value;
    } else if TryTwoPair(c).Some? {
      assert s == TryTwoPair(c).value;
    } else if TryOnePair(c).Some? {
      assert s == TryOnePair(c).value;
    } else {
      assert s.category == 0;
    }
  }

  /**
   * High card is scored exactly when no rank is held twice, no suit five
   * times and no straight is present; its tie-breakers are then the five
   * highest ranks, highest first.
   */
  lemma HighCardIffNothing(hand: seq<int>, river: seq<int>)
    requires |hand| == 2 && |river| == 5 && AllCards(hand + river)
    ensures var c := MakeCounts(hand + river);
      Evaluate(hand, river).category == 0 <==>
        && (forall r | 0 <= r < RANKS :: c.rank[r] <= 1)
        && (forall s | 0 <= s < SUITS :: c.suit[s] < 5)
        && FindStraightHigh(c.rank).None?
    ensures Evaluate(hand, river).category == 0 ==>
      Evaluate(hand, river).tieBreakers == Pad(Fill(MakeCounts(hand + river).rank, 12, 5, -1))
  {
    var cards := hand + river;
    var c := MakeCounts(cards);
    HighCardIsLastResort(hand, river);
    NoCategoryIff(cards, c);
  }

  /** No category of `evaluate_poker_hand` above high card matches. */
  predicate NoCategory(cards: seq<int>, c: Counts)
    requires AllCards(cards) && |c.rank| == RANKS && |c.suit| == SUITS && |c.freq| == 5
    requires forall s | 0 <= s < SUITS :: c.suit[s] == SuitCount(cards, s)
  {
    && TryStraightFlush(cards, c).None? && TryFourOfAKind(c).None? && TryFullHouse(c).None?
    && TryFlush(cards, c).None? && TryStraight(c).None? && TryThreeOfAKind(c).None?
    && TryTwoPair(c).None? && TryOnePair(c).None?
  }

  /** High card is what `evaluate_poker_hand` falls through to, and only then. */
  lemma HighCardIsLastResort(hand: seq<int>, river: seq<int>)
    requires |hand| == 2 && |river| == 5 && AllCards(hand + river)
    ensures var c := MakeCounts(hand + river);
      && (Evaluate(hand, river).category == 0 <==> NoCategory(hand + river, c))
      && (Evaluate(hand, river).category == 0 ==> Evaluate(hand, river).tieBreakers == Pad(Fill(c.rank, 12, 5, -1)))
  {
  }

  /** Nothing above high card matches exactly when no rank is held twice, no suit five times and no straight is present. */
  lemma NoCategoryIff(cards: seq<int>, c: Counts)
    requires AllCards(cards) && |c.rank| == RANKS && |c.suit| == SUITS && |c.freq| == 5
    requires forall s | 0 <= s < SUITS :: c.suit[s] == SuitCount(cards, s)
    ensures NoCategory(cards, c) <==>
      && (forall r | 0 <= r < RANKS :: c.rank[r] <= 1)
      && (forall s | 0 <= s < SUITS :: c.suit[s] < 5)
      && FindStraightHigh(c.rank).None?
  {
    if NoCategory(cards, c) {
      NoCategoryLimits(cards, c);
    }
    if (forall r | 0 <= r < RANKS :: c.rank[r] <= 1) && (forall s | 0 <= s < SUITS :: c.suit[s] < 5) {
      NoPairNoFlush(cards, c);
    }
  }

  lemma NoCategoryLimits(cards: seq<int>, c: Counts)
    requires AllCards(cards) && |c.rank| == RANKS && |c.suit| == SUITS && |c.freq| == 5
    requires forall s | 0 <= s < SUITS :: c.suit[s] == SuitCount(cards, s)
    requires NoCategory(cards, c)
    ensures forall r | 0 <= r < RANKS :: c.rank[r] <= 1
    ensures forall s | 0 <= s < SUITS :: c.suit[s] < 5
    ensures FindStraightHigh(c.rank).None?
  {
    assert TryOnePair(c).None? && TryFlush(cards, c).None? && TryStraight(c).None?;
  }

  lemma NoPairNoFlush(cards: seq<int>, c: Counts)
    requires AllCards(cards) && |c.rank| == RANKS && |c.suit| == SUITS && |c.freq| == 5
    requires forall s | 0 <= s < SUITS :: c.suit[s] == SuitCount(cards, s)
    requires forall r | 0 <= r < RANKS :: c.rank[r] <= 1
    requires forall s | 0 <= s < SUITS :: c.suit[s] < 5
    ensures TryStraightFlush(cards, c).None? && TryFourOfAKind(c).None? && TryFullHouse(c).None?
    ensures TryFlush(cards, c).None? && TryThreeOfAKind(c).None? && TryTwoPair(c).None? && TryOnePair(c).None?
  {
    assert FlushSuit(c) == 4;
    assert HighestWith(c.rank, 3, -1) == -1;
    assert HighestWith(c.rank, 2, -1) == -1;
    assert TryFourOfAKind(c).None?;
    assert TryThreeOfAKind(c).None?;
  }

  /** A rank held four times among seven cards always scores at least four of a kind. */
  lemma QuadsDetected(hand: seq<int>, river: seq<int>, q: int)
    requires |hand| == 2 && |river| == 5 && AllCards(hand + river)
    requires 0 <= q < RANKS && MakeCounts(hand + river).rank[q] == 4
    ensures Evaluate(hand, river).category >= 7
  {
    var c := MakeCounts(hand + river);
    OtherRankHeld(c.rank, q);
    assert Kicker(c.rank, q, q) >= 0;
  }

  /** Tallies summing to more than `t[q]` hold some other index. */
  lemma OtherRankHeld(t: seq<int>, q: int)
    requires |t| == RANKS && 0 <= q < RANKS && Sum(t) > t[q]
    requires forall r | 0 <= r < RANKS :: t[r] >= 0
    ensures exists k | 0 <= k < RANKS :: k != q && t[k] > 0
  {
    assert t[..|t|] == t;
    SumOfSingle(t, q, |t|);
  }

  lemma {:induction false} SumOfSingle(t: seq<int>, q: int, n: nat)
    requires n <= |t| && 0 <= q < |t|
    ensures (forall k | 0 <= k < |t| && k != q :: t[k] <= 0) ==>
      Sum(t[..n]) <= if q < n then t[q] else 0
  {
    if n > 0 {
      assert t[..n][..n - 1] == t[..n - 1];
      SumOfSingle(t, q, n - 1);
    }
  }
}
