/**
 * A `collections.deque(maxlen = cap)` seen as a value: `append` puts the new
 * item at the right end and, once the deque would hold more than `cap` items,
 * drops items from the left end.
 */
module BoundedDeque {

  /** The last `cap` items of `s` (all of `s` when it is shorter). */
  function Newest<T>(s: seq<T>, cap: nat): (r: seq<T>)
    ensures |r| == if |s| <= cap then |s| else cap
  {
    if |s| <= cap then s else s[|s| - cap..]
  }

  /** `deque.append(x)` on a deque of capacity `cap`. */
  function Append<T>(w: seq<T>, cap: nat, x: T): (r: seq<T>)
    requires |w| <= cap
    ensures |r| <= cap
    ensures cap > 0 ==> |r| > 0 && r[|r| - 1] == x
    ensures |w| < cap ==> r == w + [x]
    ensures |w| == cap > 0 ==> r == w[1..] + [x]
  {
    Newest(w + [x], cap)
  }

  /** Appending each item of `xs` in turn. */
  function AppendAll<T>(w: seq<T>, cap: nat, xs: seq<T>): (r: seq<T>)
    requires |w| <= cap
    ensures |r| <= cap
    decreases |xs|
  {
    if xs == [] then w else Append(AppendAll(w, cap, xs[..|xs| - 1]), cap, xs[|xs| - 1])
  }

  /** Evicting before or after appending one more item gives the same deque. */
  lemma NewestAppend<T>(s: seq<T>, cap: nat, x: T)
    ensures Newest(Newest(s, cap) + [x], cap) == Newest(s + [x], cap)
  {
    if |s| > cap {
      var n := Newest(s, cap);
      assert n == s[|s| - cap..];
      if cap == 0 {
      } else {
        assert Newest(n + [x], cap) == (n + [x])[1..];
        assert (n + [x])[1..] == s[|s| - cap + 1..] + [x];
        assert Newest(s + [x], cap) == (s + [x])[|s| + 1 - cap..];
        assert (s + [x])[|s| + 1 - cap..] == s[|s| + 1 - cap..] + [x];
      }
    }
  }

  /**
   * Whatever was appended, the deque holds exactly the newest `cap` items of
   * everything it has seen, oldest first: older items are evicted, never
   * reordered or duplicated.
   */
  lemma {:induction false} AppendAllKeepsNewest<T>(w: seq<T>, cap: nat, xs: seq<T>)
    requires |w| <= cap
    ensures AppendAll(w, cap, xs) == Newest(w + xs, cap)
    decreases |xs|
  {
    if xs == [] {
      assert w + xs == w;
    } else {
      var init, x := xs[..|xs| - 1], xs[|xs| - 1];
      assert AppendAll(w, cap, xs) == Newest(AppendAll(w, cap, init) + [x], cap);
      assert AppendAll(w, cap, init) == Newest(w + init, cap) by {
        AppendAllKeepsNewest(w, cap, init);
      }
      assert Newest(Newest(w + init, cap) + [x], cap) == Newest((w + init) + [x], cap) by {
        NewestAppend(w + init, cap, x);
      }
      assert (w + init) + [x] == w + xs by {
        assert xs == init + [x];
      }
    }
  }
}
