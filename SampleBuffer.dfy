/** The bounded rolling window kept for speed and for direction samples.

    Recording a sample into a buffer is two steps: while the buffer holds at
    least `max` elements, remove the element at index 0 (the oldest); then
    append the new value.  Removing index 0 from an empty buffer throws, which
    is what happens when the limit is zero or negative. */
module SampleBuffer {
  import opened Wrappers

  function Min(a: int, b: int): int
  {
    if a < b then a else b
  }

  /** What the eviction loop leaves.  `None` is the out-of-range exception
      that removing from an empty buffer raises; it happens exactly when the
      limit is below one, because then no length stops the loop.  Otherwise
      the loop stops at the first length below the limit: the buffer is kept
      whole when it is already shorter, and cut to its newest `max - 1`
      elements otherwise. */
  function Evict<T>(buf: seq<T>, max: int): (r: Option<seq<T>>)
    ensures r.None? <==> max < 1
    ensures r.Some? ==> |r.value| <= |buf| && |r.value| < max && r.value == buf[|buf| - |r.value|..]
    ensures r.Some? && |buf| < max ==> r.value == buf
    ensures r.Some? && |buf| >= max ==> |r.value| == max - 1
  {
    if max < 1 then None
    else if |buf| < max then Some(buf)
    else Some(buf[|buf| - (max - 1)..])
  }

  /** How the eviction loop ends: a newest part `kept` of `buf` that is
      below the limit and that is either all of `buf` or one short of the
      limit is what `Evict` leaves. */
  lemma EvictLeaves<T>(buf: seq<T>, kept: seq<T>, max: int)
    requires |kept| <= |buf| && kept == buf[|buf| - |kept|..]
    requires |kept| < max && (|kept| == |buf| || |kept| + 1 >= max)
    ensures Evict(buf, max) == Some(kept)
  {
  }

  /** Evict, then append `x`.  With a limit of at least one the result ends in
      `x`, is at most `max` long, and what precedes `x` is the newest part of
      the old buffer in its original order; it grows by one when the buffer
      was below the limit and is exactly `max` long otherwise, including when
      the limit was lowered below the buffer's length. */
  function Record<T>(buf: seq<T>, max: int, x: T): (r: Option<seq<T>>)
    ensures r.None? <==> max < 1
    ensures r.Some? ==> 1 <= |r.value| <= max && |r.value| <= |buf| + 1 && r.value[|r.value| - 1] == x
    ensures r.Some? ==> r.value[..|r.value| - 1] == buf[|buf| - (|r.value| - 1)..]
    ensures r.Some? ==> |r.value| == if |buf| < max then |buf| + 1 else max
  {
    match Evict(buf, max)
    case None => None
    case Some(rest) =>
      assert (rest + [x])[..|rest|] == rest;
      Some(rest + [x])
  }

  /** Recording the values `xs` one after the other with a fixed limit. */
  function RecordAll<T>(buf: seq<T>, max: int, xs: seq<T>): (r: seq<T>)
    requires max >= 1
    decreases |xs|
    ensures xs == [] ==> r == buf
    ensures xs != [] ==> 1 <= |r| <= max && r[|r| - 1] == xs[|xs| - 1]
  {
    if xs == [] then buf
    else if |xs| == 1 then
      assert xs[1..] == [];
      Record(buf, max, xs[0]).value
    else
      var rest := xs[1..];
      assert rest[|rest| - 1] == xs[|xs| - 1];
      RecordAll(Record(buf, max, xs[0]).value, max, rest)
  }

  /** Two buffers of equal length given the same limit stay of equal length,
      whatever values are recorded into them. */
  lemma RecordKeepsLockstep<T>(a: seq<T>, b: seq<T>, max: int, x: T, y: T)
    requires |a| == |b| && max >= 1
    ensures |Record(a, max, x).value| == |Record(b, max, y).value|
  {
  }

  /** The newest `n` elements of `s`, or all of `s` when it is shorter. */
  function Newest<T>(s: seq<T>, n: nat): (r: seq<T>)
    ensures |r| == Min(|s|, n)
  {
    s[|s| - Min(|s|, n)..]
  }

  /** A suffix of a suffix of `t` is the suffix of `t` of the same length. */
  lemma SuffixOfSuffix<T>(s: seq<T>, t: seq<T>, n: nat)
    requires |s| <= |t| && s == t[|t| - |s|..] && n <= |s|
    ensures s[|s| - n..] == t[|t| - n..]
  {
    assert t[|t| - |s|..][|s| - n..] == t[|t| - n..];
  }

  /** Appending the same values to a suffix of `t` and to `t` keeps the
      suffix relation. */
  lemma SuffixAppend<T>(s: seq<T>, t: seq<T>, u: seq<T>)
    requires |s| <= |t| && s == t[|t| - |s|..]
    ensures s + u == (t + u)[|t + u| - |s + u|..]
  {
    assert (t + u)[|t + u| - |s + u|..] == t[|t| - |s|..] + u;
  }

  /** Recording one value gives the newest `max` elements of the old buffer
      followed by the value. */
  lemma RecordIsWindow<T>(buf: seq<T>, max: int, x: T)
    requires max >= 1
    ensures Record(buf, max, x).value == Newest(buf + [x], max)
  {
    var r := Record(buf, max, x).value;
    var all := buf + [x];
    assert r == r[..|r| - 1] + [r[|r| - 1]];
    assert all[|all| - |r|..] == buf[|buf| - (|r| - 1)..] + [x];
  }

  /** Taking the newest `n` of `s` first does not change the newest `n` of
      what follows when more values are appended. */
  lemma NewestAppend<T>(s: seq<T>, u: seq<T>, n: nat)
    ensures Newest(Newest(s, n) + u, n) == Newest(s + u, n)
  {
    var k := Newest(s, n);
    SuffixAppend(k, s, u);
    SuffixOfSuffix(k + u, s + u, Min(|k + u|, n));
    assert Min(|k + u|, n) == Min(|s + u|, n);
  }

  /** Unfolding `RecordAll` once. */
  lemma RecordAllFirst<T>(buf: seq<T>, max: int, xs: seq<T>)
    requires max >= 1 && xs != []
    ensures RecordAll(buf, max, xs) == RecordAll(Newest(buf + [xs[0]], max), max, xs[1..])
  {
    RecordIsWindow(buf, max, xs[0]);
  }

  /** The last step of a run of recordings. */
  lemma RecordAllLast<T>(buf: seq<T>, max: int, xs: seq<T>)
    requires max >= 1 && |xs| == 1
    ensures RecordAll(Newest(buf + [xs[0]], max), max, xs[1..]) == Newest(buf + xs, max)
  {
    assert xs[1..] == [] && buf + xs == buf + [xs[0]];
  }

  /** The window after the first value of a run, extended by the rest of the
      run, has the same newest elements as the whole. */
  lemma NewestFirstThenRest<T>(buf: seq<T>, max: nat, xs: seq<T>)
    requires xs != []
    ensures Newest(Newest(buf + [xs[0]], max) + xs[1..], max) == Newest(buf + xs, max)
  {
    NewestAppend(buf + [xs[0]], xs[1..], max);
    assert buf + xs == (buf + [xs[0]]) + xs[1..];
  }

  /** The sliding-window property: after recording a non-empty run of values
      with a fixed limit, the buffer holds the newest `max` of all values
      seen, old and new, in the order they arrived. */
  lemma {:induction false} RecordAllIsWindow<T>(buf: seq<T>, max: int, xs: seq<T>)
    requires max >= 1 && xs != []
    decreases |xs|
    ensures RecordAll(buf, max, xs) == Newest(buf + xs, max)
  {
    RecordAllFirst(buf, max, xs);
    if |xs| == 1 {
      RecordAllLast(buf, max, xs);
    } else {
      RecordAllIsWindow(Newest(buf + [xs[0]], max), max, xs[1..]);
      NewestFirstThenRest(buf, max, xs);
    }
  }
}
