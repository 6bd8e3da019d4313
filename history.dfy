// A room's chat backlog: `messages.push(entry)` followed by `shift()` once it exceeds 50 entries.
module History {
  import opened Protocol

  /** The last `n` elements of `s`, or all of `s` when it is shorter. */
  function Last<T>(s: seq<T>, n: nat): (r: seq<T>)
    ensures |r| == if |s| < n then |s| else n
  {
    if |s| <= n then s else s[|s| - n..]
  }

  /** Append `e` to history `h`, dropping the oldest entry when the limit is exceeded. */
  function Append(h: seq<ChatEntry>, e: ChatEntry): (r: seq<ChatEntry>)
    ensures |r| > 0 && r[|r| - 1] == e
    ensures |h| <= HISTORY_LIMIT ==> r == Last(h + [e], HISTORY_LIMIT)
    ensures |h| <= HISTORY_LIMIT ==> |r| <= HISTORY_LIMIT
  {
    var l := h + [e];
    if |l| > HISTORY_LIMIT then l[1..] else l
  }

  /** A history after a whole series of appends, oldest first. */
  function AppendAll(h: seq<ChatEntry>, es: seq<ChatEntry>): seq<ChatEntry>
    decreases |es|
  {
    if es == [] then h else AppendAll(Append(h, es[0]), es[1..])
  }

  /** Keeping the last `n` twice is keeping the last `n` once. */
  lemma LastConcat<T>(a: seq<T>, b: seq<T>, n: nat)
    ensures Last(Last(a, n) + b, n) == Last(a + b, n)
  {
  }

  /**
   * After any series of appends to a history within the limit, it holds exactly the most
   * recent `HISTORY_LIMIT` entries of everything appended, in append order.
   */
  lemma {:induction false} AppendAllKeepsRecent(h: seq<ChatEntry>, es: seq<ChatEntry>)
    requires |h| <= HISTORY_LIMIT
    ensures AppendAll(h, es) == Last(h + es, HISTORY_LIMIT)
    ensures |AppendAll(h, es)| <= HISTORY_LIMIT
    decreases |es|
  {
    if es == [] {
      assert h + es == h;
    } else {
      var h1 := Append(h, es[0]);
      assert h1 == Last(h + [es[0]], HISTORY_LIMIT);
      assert AppendAll(h, es) == AppendAll(h1, es[1..]);
      AppendAllKeepsRecent(h1, es[1..]);
      LastConcat(h + [es[0]], es[1..], HISTORY_LIMIT);
      assert h + [es[0]] + es[1..] == h + es;
    }
  }
}
