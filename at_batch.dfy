/** The fail-fast batch of AT commands run by exec_all_AT: which commands reach the
    modem, whether the batch succeeds, and what the answers leave in the buffer. */
module AtBatch {

  /** What one exec_AT_verbose call does, as seen from outside: the value it returns
      (-1 for a failure) and the characters of the answer it copies into the buffer. */
  datatype Exchange = Exchange(result: int, written: seq<char>)

  /** The buffer after an answer was copied over its start, cut at the buffer's end. */
  function Overlay(buf: seq<char>, w: seq<char>): (r: seq<char>)
    ensures |r| == |buf|
    ensures forall k :: 0 <= k < |buf| ==> r[k] == (if k < |w| then w[k] else buf[k])
  {
    if |w| >= |buf| then w[..|buf|] else w + buf[|w|..]
  }

  /** The buffer after the answers of `exs`, in order. */
  function Replay(buf: seq<char>, exs: seq<Exchange>): (r: seq<char>)
    ensures |r| == |buf|
  {
    if exs == [] then buf
    else Overlay(Replay(buf, exs[..|exs| - 1]), exs[|exs| - 1].written)
  }

  /** A batch succeeds when no exchange reports -1. */
  predicate BatchOk(exs: seq<Exchange>) {
    forall k :: 0 <= k < |exs| ==> exs[k].result != -1
  }

  /** How many commands the batch sends: all of them, or up to and including the
      first one whose exchange reports -1. */
  function CommandsRun(exs: seq<Exchange>): (n: nat)
    ensures n <= |exs|
    ensures forall k :: 0 <= k < n - 1 ==> exs[k].result != -1
    ensures (n > 0 && exs[n - 1].result == -1) || (n == |exs| && BatchOk(exs))
  {
    if exs == [] then 0
    else if exs[0].result == -1 then 1
    else 1 + CommandsRun(exs[1..])
  }

  /** The batch succeeds exactly when every command ran and the last did not fail. */
  lemma BatchOkIffAllRan(exs: seq<Exchange>)
    ensures BatchOk(exs) <==> CommandsRun(exs) == |exs| && (exs == [] || exs[|exs| - 1].result != -1)
  {
  }

  /** After the first failure nothing runs: answers past it play no part. */
  lemma {:induction false} FailureStopsBatch(exs: seq<Exchange>, more: seq<Exchange>)
    requires !BatchOk(exs)
    ensures CommandsRun(exs + more) == CommandsRun(exs)
  {
    assert exs != [];
    if exs[0].result != -1 {
      assert (exs + more)[1..] == exs[1..] + more;
      assert !BatchOk(exs[1..]) by {
        var k :| 0 <= k < |exs| && exs[k].result == -1;
        assert exs[1..][k - 1] == exs[k];
      }
      FailureStopsBatch(exs[1..], more);
    }
  }

  /** The exchanges that ran are a prefix: the first `i` passed and the next failed, so
      exactly `i + 1` commands were sent. */
  lemma FirstFailure(exs: seq<Exchange>, i: nat)
    requires i < |exs| && exs[i].result == -1
    requires forall k :: 0 <= k < i ==> exs[k].result != -1
    ensures CommandsRun(exs) == i + 1
  {
  }

  /** Replaying one more answer overlays it on what the earlier ones left. */
  lemma ReplayStep(buf: seq<char>, exs: seq<Exchange>, i: nat)
    requires i < |exs|
    ensures Replay(buf, exs[..i + 1]) == Overlay(Replay(buf, exs[..i]), exs[i].written)
  {
    assert exs[..i + 1][..i] == exs[..i];
  }

  /** A longer answer hides a shorter earlier one completely. */
  lemma OverlayHides(buf: seq<char>, w1: seq<char>, w2: seq<char>)
    requires |w1| <= |w2|
    ensures Overlay(Overlay(buf, w1), w2) == Overlay(buf, w2)
  {
  }

  /** A buffer of `n` NUL characters, as memset leaves it. */
  function Zeros(n: nat): (r: seq<char>)
    ensures |r| == n && forall k :: 0 <= k < n ==> r[k] == '\0'
  {
    seq(n, _ => '\0')
  }
}
