/**
 * The label smoother: `Counter(window).most_common(1)[0][0]`.
 *
 * A `Counter` keeps its keys in first-insertion order, and `most_common(1)`
 * returns the first key of maximal count in that order. So the winner is a
 * label of maximal count in the window and, among labels tied at that count,
 * the one whose first occurrence (scanning oldest to newest) is earliest.
 */
module Smoothing {
  import BoundedDeque

  /** Default `buffer_length` of the label window. */
  const DefaultBufferLength: nat := 4

  /** How many times `x` occurs in `s` (the `Counter` value of `x`). */
  function Count<T(==)>(s: seq<T>, x: T): nat
  {
    multiset(s)[x]
  }

  /** Position of the first occurrence of `x` in `s`: its rank among the `Counter`'s keys. */
  function FirstIndex<T(==)>(s: seq<T>, x: T): (r: nat)
    requires x in s
    ensures r < |s| && s[r] == x
    ensures forall j :: 0 <= j < r ==> s[j] != x
  {
    if s[0] == x then 0 else 1 + FirstIndex(s[1..], x)
  }

  /** The voting rule, stated without saying how the winner is found. */
  ghost predicate IsVoteWinner<T>(s: seq<T>, r: T)
  {
    && r in s
    && (forall y | y in s :: Count(s, y) <= Count(s, r))
    && (forall y | y in s && Count(s, y) == Count(s, r) :: FirstIndex(s, r) <= FirstIndex(s, y))
  }

  /** `best` wins among `s[..i]`, stated position by position. */
  ghost predicate LeadsPrefix<T>(s: seq<T>, i: nat, best: T)
    requires i <= |s|
  {
    && best in s[..i]
    && (forall j | 0 <= j < i :: Count(s, s[j]) <= Count(s, best))
    && (forall j | 0 <= j < i && Count(s, s[j]) == Count(s, best) :: FirstIndex(s, best) <= j)
  }

  /**
   * Scans `s[i..]` oldest to newest, replacing the current leader only by a
   * label of strictly greater count, as `max` does over the `Counter`'s items.
   */
  function Scan<T(==)>(s: seq<T>, i: nat, best: T): (r: T)
    requires i <= |s|
    requires LeadsPrefix(s, i, best)
    ensures LeadsPrefix(s, |s|, r)
    decreases |s| - i
  {
    if i == |s| then best
    else
      var y := s[i];
      assert s[..i + 1] == s[..i] + [y];
      if Count(s, y) > Count(s, best) then
        assert FirstIndex(s, y) <= i;
        Scan(s, i + 1, y)
      else
        assert best in s[..i];
        assert FirstIndex(s, best) < i;
        Scan(s, i + 1, best)
  }

  /** Turns the positional form of the rule into the label form. */
  lemma LeadsAllIsWinner<T>(s: seq<T>, r: T)
    requires LeadsPrefix(s, |s|, r)
    ensures IsVoteWinner(s, r)
  {
    assert s[..|s|] == s;
    forall y | y in s
      ensures Count(s, y) <= Count(s, r)
      ensures Count(s, y) == Count(s, r) ==> FirstIndex(s, r) <= FirstIndex(s, y)
    {
      var j := FirstIndex(s, y);
      assert s[j] == y;
    }
  }

  /** `Counter(s).most_common(1)[0][0]`; the window is never empty when it is asked. */
  function MostCommon<T(==)>(s: seq<T>): (r: T)
    requires |s| > 0
    ensures r in s
  {
    assert s[..1] == [s[0]];
    Scan(s, 1, s[0])
  }

  /** The label `MostCommon` picks is the winner under the voting rule. */
  lemma MostCommonWins<T>(s: seq<T>)
    requires |s| > 0
    ensures IsVoteWinner(s, MostCommon(s))
  {
    assert s[..1] == [s[0]];
    LeadsAllIsWinner(s, Scan(s, 1, s[0]));
  }

  /** The voting rule picks exactly one label, and `MostCommon` is it. */
  lemma {:induction false} VoteWinnerUnique<T>(s: seq<T>, r: T)
    requires |s| > 0
    ensures IsVoteWinner(s, r) <==> r == MostCommon(s)
  {
    MostCommonWins(s);
    if IsVoteWinner(s, r) {
      var m := MostCommon(s);
      assert Count(s, r) == Count(s, m);
      assert FirstIndex(s, r) == FirstIndex(s, m);
    }
  }

  /** A window whose oldest label has a count no other label beats is won by that label. */
  lemma OldestMaximalWins<T>(s: seq<T>)
    requires |s| > 0
    requires forall j | 0 <= j < |s| :: Count(s, s[j]) <= Count(s, s[0])
    ensures MostCommon(s) == s[0]
  {
    forall y | y in s
      ensures Count(s, y) <= Count(s, s[0])
    {
      var j := FirstIndex(s, y);
    }
    VoteWinnerUnique(s, s[0]);
  }

  /** Ties go to the label seen first: `[A, A, B, B]` gives A and `[B, A, A, B]` gives B. */
  lemma TieGoesToFirstSeen<T>(a: T, b: T)
    requires a != b
    ensures MostCommon([a, a, b, b]) == a
    ensures MostCommon([b, a, a, b]) == b
  {
    assert multiset([a, a, b, b]) == multiset{a, a, b, b};
    OldestMaximalWins([a, a, b, b]);
    assert multiset([b, a, a, b]) == multiset{a, a, b, b};
    OldestMaximalWins([b, a, a, b]);
  }

  /** A fifth label pushed into a window of the default length four evicts the first one. */
  lemma FifthLabelEvictsFirst<T>(a: T, b: T, c: T)
    ensures BoundedDeque.AppendAll([], DefaultBufferLength, [b, a, a, b, c]) == [a, a, b, c]
  {
    var pushed := [b, a, a, b, c];
    BoundedDeque.AppendAllKeepsNewest([], DefaultBufferLength, pushed);
    assert [] + pushed == pushed;
    assert pushed[1..] == [a, a, b, c];
  }

  /** Over all five of B, A, A, B, C, the tie between B and A goes to B. */
  lemma FiveLabelVote<T>(a: T, b: T, c: T)
    requires a != b && b != c && a != c
    ensures MostCommon([b, a, a, b, c]) == b
  {
    var pushed := [b, a, a, b, c];
    var m := multiset(pushed);
    assert m == multiset{a, a, b, b, c};
    assert m[a] == 2 && m[b] == 2 && m[c] == 1;
    forall j | 0 <= j < |pushed|
      ensures Count(pushed, pushed[j]) <= Count(pushed, pushed[0])
    {
      assert pushed[j] in {a, b, c};
    }
    OldestMaximalWins(pushed);
  }

  /**
   * The evicted label no longer votes: pushing B, A, A, B, C into a window of
   * four gives A, although B would win over all five.
   */
  lemma EvictedLabelDoesNotVote<T>(a: T, b: T, c: T)
    requires a != b && b != c && a != c
    ensures MostCommon(BoundedDeque.AppendAll([], DefaultBufferLength, [b, a, a, b, c])) == a
    ensures MostCommon([b, a, a, b, c]) == b
  {
    FifthLabelEvictsFirst(a, b, c);
    var window := [a, a, b, c];
    assert multiset(window) == multiset{a, a, b, c};
    OldestMaximalWins(window);
    FiveLabelVote(a, b, c);
  }
}
