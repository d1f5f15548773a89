/**
 Bounded first-in first-out queues as values, the oldest element first.
*/
module BoundedQueueSpec {
  import opened Options

  function Just<V>(out: Option<V>): seq<V> {
    if out.Some? then [out.value] else []
  }

  /** A push that makes room by taking out the oldest element. */
  function PushOver<V>(n: nat, s: seq<V>, v: V): (r: (seq<V>, Option<V>))
    ensures s + [v] == Just(r.1) + r.0
    ensures r.1.None? <==> |s| < n
  {
    if |s| < n then (s + [v], None) else ((s + [v])[1..], Some((s + [v])[0]))
  }

  /** A push that fails when there is no room. */
  function TryPush<V>(n: nat, s: seq<V>, v: V): (r: (seq<V>, bool))
    ensures r.0 == s + if |s| < n then [v] else []
    ensures r.1 <==> |r.0| > |s|
  {
    if |s| < n then (s + [v], true) else (s, false)
  }

  function PopFront<V>(s: seq<V>): (r: (seq<V>, Option<V>))
    ensures s == Just(r.1) + r.0
    ensures r.1.None? <==> |s| == 0
  {
    if s == [] then (s, None) else (s[1..], Some(s[0]))
  }

  /** How many elements have to go for a capacity of `n`: none that fit. */
  function Excess<V>(n: nat, s: seq<V>): (k: nat)
    ensures k <= |s| && |s| - k <= n && (k > 0 ==> |s| - k == n)
  {
    if |s| <= n then 0 else |s| - n
  }

  /** What the overwriting push takes out before it stores. */
  function MakeRoom<V>(n: nat, s: seq<V>): (seq<V>, Option<V>) {
    if |s| < n then (s, None) else PopFront(s)
  }

  lemma RoomThenPush<V>(n: nat, s: seq<V>, v: V)
    requires n >= 1
    ensures PushOver(n, s, v) == (MakeRoom(n, s).0 + [v], MakeRoom(n, s).1)
  {
    if |s| >= n { assert (s + [v])[1..] == s[1..] + [v]; }
  }
}
