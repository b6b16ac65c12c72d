/**
 * What `calculateRank` computes: the array sorted by descending score with
 * `arr.sort((a, b) => b.score - a.score)`, the first index of this player's
 * id in it (`findIndex`), and the text `Rank: ${rank} / ${arr.length}`.
 *
 * ECMAScript (2019 and later) requires `Array.prototype.sort` to be stable,
 * so the sorted order is determined by the input: `SortByScore` is the
 * stable insertion sort that the in-place method below carries out.
 */
module Ranking {
  import opened Records
  import opened Decimal
  import opened Wrappers

  /** Scores never increase from left to right. */
  predicate NonIncreasing(s: seq<PlayerData>) {
    forall i, j :: 0 <= i < j < |s| ==> s[i].score >= s[j].score
  }

  /**
   * Places `p` behind the last element whose score is at least `p.score`:
   * that is where the comparator `b.score - a.score` lets it stop.
   */
  function InsertByScore(s: seq<PlayerData>, p: PlayerData): seq<PlayerData>
  {
    if s == [] || s[|s| - 1].score >= p.score then s + [p]
    else InsertByScore(s[..|s| - 1], p) + [s[|s| - 1]]
  }

  /** The stable sort by descending score. */
  function SortByScore(s: seq<PlayerData>): seq<PlayerData>
  {
    if s == [] then [] else InsertByScore(SortByScore(s[..|s| - 1]), s[|s| - 1])
  }

  lemma {:induction false} InsertByScorePermutes(s: seq<PlayerData>, p: PlayerData)
    ensures multiset(InsertByScore(s, p)) == multiset(s) + multiset{p}
  {
    if s != [] && s[|s| - 1].score < p.score {
      InsertByScorePermutes(s[..|s| - 1], p);
      assert s == s[..|s| - 1] + [s[|s| - 1]];
    }
  }

  lemma {:induction false} InsertByScoreSorted(s: seq<PlayerData>, p: PlayerData)
    requires NonIncreasing(s)
    ensures NonIncreasing(InsertByScore(s, p))
  {
    if s != [] && s[|s| - 1].score < p.score {
      var init, last := s[..|s| - 1], s[|s| - 1];
      InsertByScoreSorted(init, p);
      InsertByScorePermutes(init, p);
      var r := InsertByScore(init, p);
      forall i | 0 <= i < |r| ensures r[i].score >= last.score {
        assert r[i] in multiset(r);
        assert r[i] in multiset(init) || r[i] == p;
        if r[i] != p {
          var k :| 0 <= k < |init| && init[k] == r[i];
          assert s[k] == init[k];
        }
      }
    }
  }

  /** The sort yields a non-increasing permutation of its input, of the same length. */
  lemma {:induction false} SortByScoreCorrect(s: seq<PlayerData>)
    ensures NonIncreasing(SortByScore(s))
    ensures multiset(SortByScore(s)) == multiset(s)
    ensures |SortByScore(s)| == |s|
  {
    if s != [] {
      var init := s[..|s| - 1];
      SortByScoreCorrect(init);
      InsertByScoreSorted(SortByScore(init), s[|s| - 1]);
      InsertByScorePermutes(SortByScore(init), s[|s| - 1]);
      assert s == init + [s[|s| - 1]];
    }
    assert |multiset(SortByScore(s))| == |multiset(s)|;
  }

  /** An array already ordered by descending score is left exactly as it is. */
  lemma {:induction false} SortByScoreOfSorted(s: seq<PlayerData>)
    requires NonIncreasing(s)
    ensures SortByScore(s) == s
  {
    if s != [] {
      var init := s[..|s| - 1];
      assert NonIncreasing(init);
      SortByScoreOfSorted(init);
      assert s == init + [s[|s| - 1]];
    }
  }

  /** Sorting twice is sorting once. */
  lemma SortByScoreIdempotent(s: seq<PlayerData>)
    ensures SortByScore(SortByScore(s)) == SortByScore(s)
  {
    SortByScoreCorrect(s);
    SortByScoreOfSorted(SortByScore(s));
  }

  /** `findIndex(player => player.id === id)`: the first index holding `id`, or -1. */
  function FirstIndexOf(s: seq<PlayerData>, id: string): (r: int)
    ensures -1 <= r < |s|
    ensures r >= 0 ==> s[r].id == id && forall k :: 0 <= k < r ==> s[k].id != id
    ensures r == -1 <==> forall k :: 0 <= k < |s| ==> s[k].id != id
  {
    if s == [] then -1
    else if s[0].id == id then 0
    else
      var r := FirstIndexOf(s[1..], id);
      if r == -1 then -1 else r + 1
  }

  /**
   * `p` lands at `j` when the element before `j` scores at least as much and
   * every element from `j` on scores less.
   */
  lemma {:induction false} InsertByScoreAt(sorted: seq<PlayerData>, p: PlayerData, j: nat)
    requires j <= |sorted| && (j == 0 || sorted[j - 1].score >= p.score)
    requires forall k :: j <= k < |sorted| ==> sorted[k].score < p.score
    ensures InsertByScore(sorted, p) == sorted[..j] + [p] + sorted[j..]
    decreases |sorted|
  {
    if j < |sorted| {
      var init := sorted[..|sorted| - 1];
      InsertByScoreAt(init, p, j);
      assert init[..j] == sorted[..j];
      assert init[j..] + [sorted[|sorted| - 1]] == sorted[j..];
    }
  }

  lemma Placed(placed: seq<PlayerData>, sorted: seq<PlayerData>, p: PlayerData, j: nat)
    requires j <= |sorted| && |placed| == |sorted| + 1
    requires forall k :: 0 <= k < j ==> placed[k] == sorted[k]
    requires placed[j] == p
    requires forall k :: j < k < |placed| ==> placed[k] == sorted[k - 1]
    ensures placed == sorted[..j] + [p] + sorted[j..]
  {
  }

  /** Moves `a[i]` leftwards into the prefix `a[..i]`, past every element that scores less. */
  method InsertAt(a: array<PlayerData>, i: nat)
    requires i < a.Length
    modifies a
    ensures a[..i + 1] == InsertByScore(old(a[..i]), old(a[i]))
    ensures forall k :: i < k < a.Length ==> a[k] == old(a[k])
  {
    ghost var sorted := a[..i];
    var p := a[i];
    var j := i;
    while j > 0 && a[j - 1].score < p.score
      invariant 0 <= j <= i
      invariant forall k :: 0 <= k < j ==> a[k] == sorted[k]
      invariant forall k :: j < k <= i ==> a[k] == sorted[k - 1]
      invariant forall k :: i < k < a.Length ==> a[k] == old(a[k])
      invariant forall k :: j <= k < i ==> sorted[k].score < p.score
    {
      a[j] := a[j - 1];
      j := j - 1;
    }
    a[j] := p;
    InsertByScoreAt(sorted, p, j);
    Placed(a[..i + 1], sorted, p, j);
  }

  /** Sorts `a` in place by descending score, keeping equal scores in their old order. */
  method SortByScoreInPlace(a: array<PlayerData>)
    modifies a
    ensures a[..] == SortByScore(old(a[..]))
  {
    ghost var input := a[..];
    var i := 0;
    while i < a.Length
      invariant 0 <= i <= a.Length
      invariant a[..i] == SortByScore(input[..i])
      invariant forall k :: i <= k < a.Length ==> a[k] == input[k]
    {
      InsertAt(a, i);
      assert input[..i + 1] == input[..i] + [input[i]];
      i := i + 1;
    }
    assert a[..] == a[..a.Length];
    assert input == input[..a.Length];
  }

  /** The linear search `findIndex` carries out. */
  method FindIndex(a: array<PlayerData>, id: string) returns (index: int)
    ensures index == FirstIndexOf(a[..], id)
  {
    index := 0;
    while index < a.Length && a[index].id != id
      invariant 0 <= index <= a.Length
      invariant forall k :: 0 <= k < index ==> a[k].id != id
    {
      index := index + 1;
    }
    if index == a.Length {
      index := -1;
    }
  }

  /** The rank of the player with `id` among `s`: 1-based, 0 when absent. */
  function Rank(s: seq<PlayerData>, id: string): int
  {
    FirstIndexOf(SortByScore(s), id) + 1
  }

  lemma HasIdOfPermutation(s: seq<PlayerData>, t: seq<PlayerData>, id: string)
    requires multiset(s) == multiset(t)
    ensures HasId(s, id) ==> HasId(t, id)
  {
    if HasId(s, id) {
      var k :| 0 <= k < |s| && s[k].id == id;
      assert s[k] in multiset(t);
      var m :| 0 <= m < |t| && t[m] == s[k];
    }
  }

  /**
   * A player present in `s` has a rank from 1 to |s|, which is one plus the
   * index of the first entry with that id in the sorted order; an absent
   * player has rank 0.
   */
  lemma RankBounds(s: seq<PlayerData>, id: string)
    ensures 0 <= Rank(s, id) <= |s|
    ensures Rank(s, id) == 0 <==> !HasId(s, id)
    ensures Rank(s, id) >= 1 ==> SortByScore(s)[Rank(s, id) - 1].id == id
  {
    SortByScoreCorrect(s);
    HasIdOfPermutation(s, SortByScore(s), id);
    HasIdOfPermutation(SortByScore(s), s, id);
  }

  const RankPrefix := "Rank: "
  const RankSeparator := " / "

  /** `Rank: ${rank} / ${arr.length}`. */
  function RankText(rank: nat, total: nat): string
  {
    RankPrefix + NatToString(rank) + RankSeparator + NatToString(total)
  }

  /** The length of the run of digits that `s` starts with. */
  function DigitRun(s: string): (k: nat)
    ensures k <= |s| && AllDigits(s[..k])
    ensures k < |s| ==> !IsDigit(s[k])
  {
    if s == [] || !IsDigit(s[0]) then 0
    else
      var k := DigitRun(s[1..]);
      assert s[..k + 1] == [s[0]] + s[1..][..k];
      k + 1
  }

  /** Reads a rank text back into its rank and total; None if it is not one. */
  function ParseRankText(t: string): Option<(nat, nat)>
  {
    if |t| < |RankPrefix| || t[..|RankPrefix|] != RankPrefix then None
    else
      var rest := t[|RankPrefix|..];
      var k := DigitRun(rest);
      if k == 0 || |rest| < k + |RankSeparator| || rest[k..k + |RankSeparator|] != RankSeparator then None
      else
        var tail := rest[k + |RankSeparator|..];
        if tail == [] || !AllDigits(tail) then None
        else Some((DigitsValue(rest[..k]), DigitsValue(tail)))
  }

  lemma {:induction false} DigitRunOfDigits(d: string, t: string)
    requires AllDigits(d)
    requires t != [] && !IsDigit(t[0])
    ensures DigitRun(d + t) == |d|
  {
    if d != [] {
      assert (d + t)[1..] == d[1..] + t;
      DigitRunOfDigits(d[1..], t);
    } else {
      assert d + t == t;
    }
  }

  /** The rank text determines the rank and the total it was made from. */
  lemma RankTextRoundTrip(rank: nat, total: nat)
    ensures ParseRankText(RankText(rank, total)) == Some((rank, total))
  {
    var r, n := NatToString(rank), NatToString(total);
    var t := RankText(rank, total);
    assert t[..|RankPrefix|] == RankPrefix;
    var rest := t[|RankPrefix|..];
    assert rest == r + (RankSeparator + n);
    DigitRunOfDigits(r, RankSeparator + n);
    assert rest[..|r|] == r;
    assert rest[|r|..|r| + |RankSeparator|] == RankSeparator;
    assert rest[|r| + |RankSeparator|..] == n;
    DigitsValueOfNatToString(rank);
    DigitsValueOfNatToString(total);
  }
}
