/** The per-RTU history: `push` followed by one `shift` once the array passes its capacity. */
module Buffer {

  /** The number of readings kept per RTU. */
  const Capacity: nat := 1000

  /**
   * One store step: the new reading goes last; when the array then holds more
   * than `Capacity` readings, exactly the oldest one is dropped.
   */
  function Retain<T>(buf: seq<T>, x: T): (r: seq<T>)
    ensures |r| > 0 && r[|r| - 1] == x
    ensures |buf| < Capacity ==> r == buf + [x]
    ensures |buf| >= Capacity ==> r == buf[1..] + [x]
  {
    var pushed := buf + [x];
    if |pushed| > Capacity then pushed[1..] else pushed
  }

  /** A buffer within capacity stays within capacity. */
  lemma RetainBounded<T>(buf: seq<T>, x: T)
    requires |buf| <= Capacity
    ensures 0 < |Retain(buf, x)| <= Capacity
    ensures |buf| == Capacity ==> |Retain(buf, x)| == Capacity
  {
  }

  /** Every element of a retained buffer but the newest is an element of the old buffer, in the same order. */
  lemma RetainFrom<T>(buf: seq<T>, x: T)
    ensures forall k :: 0 <= k < |Retain(buf, x)| - 1 ==> Retain(buf, x)[k] == buf[k + |buf| + 1 - |Retain(buf, x)|]
  {
  }

  /** The last `n` elements of `s` (all of them when there are fewer). */
  function Newest<T>(s: seq<T>, n: nat): (r: seq<T>)
    ensures |r| == if |s| <= n then |s| else n
  {
    if |s| <= n then s else s[|s| - n..]
  }

  /** Storing the readings `xs` one after another. */
  function RetainAll<T>(buf: seq<T>, xs: seq<T>): seq<T>
    decreases |xs|
  {
    if xs == [] then buf else RetainAll(Retain(buf, xs[0]), xs[1..])
  }

  lemma NewestOfNewest<T>(a: seq<T>, b: seq<T>, n: nat)
    ensures Newest(Newest(a, n) + b, n) == Newest(a + b, n)
  {
    if |a| > n {
      var a' := a[|a| - n..];
      var lhs := Newest(a' + b, n);
      var rhs := Newest(a + b, n);
      assert rhs == (a + b)[|a| + |b| - n..];
      assert lhs == (a' + b)[|b|..];
      assert |lhs| == |rhs| == n;
      forall i | 0 <= i < n
        ensures lhs[i] == rhs[i]
      {
        if |b| + i < n {
          assert lhs[i] == a'[|b| + i] == a[|a| - n + |b| + i];
          assert rhs[i] == a[|a| + |b| - n + i];
        } else {
          assert lhs[i] == b[|b| + i - n];
          assert rhs[i] == b[|b| + i - n];
        }
      }
    }
  }

  /**
   * Bounded retention: starting from a buffer within capacity, after any number
   * of stores the buffer holds exactly the most recent `Capacity` readings, in
   * arrival order.
   */
  lemma {:induction false} RetainAllKeepsNewest<T>(buf: seq<T>, xs: seq<T>)
    requires |buf| <= Capacity
    ensures RetainAll(buf, xs) == Newest(buf + xs, Capacity)
    decreases |xs|
  {
    if xs == [] {
      assert buf + xs == buf;
    } else {
      var next := Retain(buf, xs[0]);
      assert next == Newest(buf + [xs[0]], Capacity);
      RetainAllKeepsNewest(next, xs[1..]);
      NewestOfNewest(buf + [xs[0]], xs[1..], Capacity);
      assert buf + [xs[0]] + xs[1..] == buf + xs;
    }
  }

  /** After more than `Capacity` stores into an empty buffer, exactly the last `Capacity` remain. */
  lemma RetainManyKeepsLastThousand<T>(xs: seq<T>)
    requires |xs| > Capacity
    ensures RetainAll([], xs) == xs[|xs| - Capacity..]
  {
    RetainAllKeepsNewest([], xs);
    assert [] + xs == xs;
  }
}
