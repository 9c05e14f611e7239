/**
 * `CircularBuffer` of backend/eupnea.py: a FIFO over `deque(maxlen=...)`.
 * Appending to a full buffer evicts the oldest sample.
 */
module CircularBuffers {
  import opened Wrappers

  /** The last `n` elements of `s`, in order (all of `s` when it is shorter). */
  function LastN<T>(s: seq<T>, n: nat): (r: seq<T>)
    ensures |r| == if |s| <= n then |s| else n
  {
    if |s| <= n then s else s[|s| - n..]
  }

  /** What `deque.append` leaves in a deque of capacity `cap` holding `s`. */
  function PushBounded<T>(s: seq<T>, x: T, cap: nat): (r: seq<T>)
    ensures |s| < cap ==> r == s + [x]
    ensures 0 < |s| == cap ==> r == s[1..] + [x]
    ensures cap == 0 ==> r == []
    ensures |s| <= cap ==> |r| == if |s| < cap then |s| + 1 else cap
    ensures 0 < cap ==> r != [] && r[|r| - 1] == x
  {
    LastN(s + [x], cap)
  }

  /** The first element, as `get_oldest` returns it; `None` when empty. */
  function Oldest<T>(s: seq<T>): (r: Option<T>)
    ensures r.None? <==> s == []
    ensures r.Some? ==> r.value == s[0]
  {
    if s == [] then None else Some(s[0])
  }

  /** The last element, as `get_newest` returns it; `None` when empty. */
  function Newest<T>(s: seq<T>): (r: Option<T>)
    ensures r.None? <==> s == []
    ensures r.Some? ==> r.value == s[|s| - 1]
  {
    if s == [] then None else Some(s[|s| - 1])
  }

  /** Appends every element of `xs` in turn. */
  function AppendAll<T>(s: seq<T>, xs: seq<T>, cap: nat): seq<T>
    decreases |xs|
  {
    if xs == [] then s else AppendAll(PushBounded(s, xs[0], cap), xs[1..], cap)
  }

  /** Keeping the last `n` of a history and pushing is keeping the last `n` of the longer history. */
  lemma LastNPush<T>(h: seq<T>, x: T, n: nat)
    ensures PushBounded(LastN(h, n), x, n) == LastN(h + [x], n)
  {
    var k := LastN(h, n);
    if |h| >= n && n > 0 {
      assert k + [x] == (h + [x])[|h| - n..];
      assert (k + [x])[1..] == (h + [x])[|h| + 1 - n..];
    }
  }

  /** After any sequence of appends the buffer holds the last `cap` values appended, in order. */
  lemma {:induction false} AppendAllKeepsLastN<T>(h: seq<T>, xs: seq<T>, cap: nat)
    ensures AppendAll(LastN(h, cap), xs, cap) == LastN(h + xs, cap)
    decreases |xs|
  {
    if xs == [] {
      assert h + xs == h;
    } else {
      LastNPush(h, xs[0], cap);
      AppendAllKeepsLastN(h + [xs[0]], xs[1..], cap);
      assert h + [xs[0]] + xs[1..] == h + xs;
    }
  }

  /** Starting empty, the buffer's contents are exactly the last `cap` values ever appended. */
  lemma FromEmptyKeepsLastN<T>(xs: seq<T>, cap: nat)
    ensures AppendAll([], xs, cap) == LastN(xs, cap)
    ensures |AppendAll([], xs, cap)| <= cap
  {
    AppendAllKeepsLastN([], xs, cap);
    assert [] + xs == xs;
  }

  /**
   * Once `cap` values have been retained, each append moves the oldest
   * retained value forward by exactly one position in the history.
   */
  lemma OldestSlides<T>(h: seq<T>, x: T, cap: nat)
    requires 0 < cap <= |h|
    ensures Oldest(LastN(h, cap)) == Some(h[|h| - cap])
    ensures cap > 1 ==> Oldest(PushBounded(LastN(h, cap), x, cap)) == Some(h[|h| - cap + 1])
    ensures cap == 1 ==> Oldest(PushBounded(LastN(h, cap), x, cap)) == Some(x)
  {
    LastNPush(h, x, cap);
    assert (h + [x])[|h| + 1 - cap..][0] == (h + [x])[|h| + 1 - cap];
  }

  /** A bounded FIFO of samples; `appended` records every value ever appended. */
  class CircularBuffer<T> {
    var data: seq<T>
    const maxlen: nat
    ghost var appended: seq<T>

    ghost predicate Valid()
      reads this
    {
      data == LastN(appended, maxlen)
    }

    constructor (maxlen: nat)
      ensures Valid()
      ensures this.maxlen == maxlen && data == [] && appended == []
    {
      this.maxlen := maxlen;
      data := [];
      appended := [];
    }

    method Append(x: T)
      modifies this
      ensures old(Valid()) ==> Valid()
      ensures appended == old(appended) + [x]
      ensures data == PushBounded(old(data), x, maxlen)
    {
      LastNPush(appended, x, maxlen);
      data := PushBounded(data, x, maxlen);
      appended := appended + [x];
    }

    /** The oldest retained value: once the history is longer than `maxlen`, not the first ever appended. */
    function GetOldest(): (r: Option<T>)
      reads this
      ensures r == Oldest(data)
      ensures Valid() && 0 < maxlen && appended != [] ==> r == Some(appended[|appended| - |data|])
    {
      if data == [] then None else Some(data[0])
    }

    /** The most recently appended value, when there is one. */
    function GetNewest(): (r: Option<T>)
      reads this
      ensures r == Newest(data)
      ensures Valid() && 0 < maxlen && appended != [] ==> r == Some(appended[|appended| - 1])
    {
      if data == [] then None else Some(data[|data| - 1])
    }
  }
}
