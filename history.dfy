/** The bounded `messages` history: the newest messages, at most `MaxHistory` of them. */
module History {
  import opened ChatTypes

  /** "Keep only last 100 messages in memory". */
  const MaxHistory: nat := 100

  /** The last `n` elements of `s` (all of `s` when it is shorter). */
  function LastN<T>(s: seq<T>, n: nat): seq<T> {
    if |s| <= n then s else s[|s| - n..]
  }

  /** `messages.push(m)`, then `messages.shift()` when the history has grown past `MaxHistory`. */
  function Append(h: seq<Message>, m: Message): (r: seq<Message>)
    ensures |r| > 0 && r[|r| - 1] == m
    ensures |h| <= MaxHistory ==> |r| <= MaxHistory && r == LastN(h + [m], MaxHistory)
    ensures |h| < MaxHistory ==> r == h + [m]
    ensures |h| == MaxHistory ==> r == h[1..] + [m]
  {
    var pushed := h + [m];
    if |pushed| > MaxHistory then pushed[1..] else pushed
  }

  /** The history after the messages `ms` are posted one by one. */
  function AppendAll(h: seq<Message>, ms: seq<Message>): seq<Message>
    decreases |ms|
  {
    if ms == [] then h else AppendAll(Append(h, ms[0]), ms[1..])
  }

  /**
   * Whatever sequence of messages is posted, the history is the last `MaxHistory` of everything it
   * held and everything posted since, oldest first.
   */
  lemma {:induction false} AppendAllKeepsLastWindow(h: seq<Message>, ms: seq<Message>)
    requires |h| <= MaxHistory
    ensures AppendAll(h, ms) == LastN(h + ms, MaxHistory)
    decreases |ms|
  {
    if ms != [] {
      var h' := Append(h, ms[0]);
      AppendAllKeepsLastWindow(h', ms[1..]);
      LastNOfLastN(h + [ms[0]], ms[1..], MaxHistory);
      assert h + ms == (h + [ms[0]]) + ms[1..];
    }
  }

  /** Cutting to the last `n` before appending does not change the last `n` after it. */
  lemma LastNOfLastN<T>(a: seq<T>, b: seq<T>, n: nat)
    ensures LastN(LastN(a, n) + b, n) == LastN(a + b, n)
  {
    if |a| > n {
      var a' := a[|a| - n..];
      var l, r := LastN(a' + b, n), LastN(a + b, n);
      assert |l| == n == |r|;
      forall k | 0 <= k < n ensures l[k] == r[k] {
        if |b| + k < n {
          assert l[k] == a'[|b| + k] == a[|a| - n + |b| + k] == r[k];
        } else {
          assert l[k] == b[|b| + k - n] == r[k];
        }
      }
    }
  }

  /** Once `MaxHistory` messages have been posted the history stays exactly `MaxHistory` long. */
  lemma HistoryFillsUp(ms: seq<Message>)
    ensures |AppendAll([], ms)| == if |ms| <= MaxHistory then |ms| else MaxHistory
  {
    AppendAllKeepsLastWindow([], ms);
  }
}
