/**
 * The activity log the manager shows beside the forest: newest entry first,
 * each entry tagged with a running index, at most 50 entries kept.
 */
module AppLog {

  /** The messages the manager logs; their rendering as text is not modelled. */
  datatype Message =
    | ReadingPins             // 'reading all pinned refs'
    | GotRefs(count: nat)     // 'got <count> refs'
    | Fetching(ref: string)   // 'fetching <ref>'
    | FinishedReading         // 'finished reading refs'

  /** One line of the log: `<index>: <message>`. */
  datatype Entry = Entry(index: nat, message: Message)

  /** The number of entries the log keeps. */
  const Capacity: nat := 50

  function Min(a: int, b: int): int {
    if a < b then a else b
  }

  /** The log after `log(m)` when the running index is `index`. */
  function Logged(log: seq<Entry>, index: nat, m: Message): (r: seq<Entry>)
    ensures |r| == Min(|log| + 1, Capacity)
    ensures r[0] == Entry(index, m)
  {
    var shifted := [Entry(index, m)] + log;
    if |shifted| <= Capacity then shifted else shifted[..Capacity]
  }

  /** Behind the new entry, `log(m)` keeps the old entries in order, as many as fit. */
  lemma LoggedShifts(log: seq<Entry>, index: nat, m: Message)
    ensures forall i :: 0 < i < |Logged(log, index, m)| ==> Logged(log, index, m)[i] == log[i - 1]
  {
  }

  /** The log after logging each of `ms` in turn, starting from running index `index`. */
  function LoggedAll(log: seq<Entry>, index: nat, ms: seq<Message>): seq<Entry>
    decreases |ms|
  {
    if ms == [] then log
    else Logged(LoggedAll(log, index, ms[..|ms| - 1]), index + |ms| - 1, ms[|ms| - 1])
  }

  /**
   * What the log looks like for running index `next` (the index the next entry
   * gets; the first entry gets 1): it holds the latest entries, as many as were
   * logged up to 50, newest first, with consecutive indices.
   */
  ghost predicate Consistent(log: seq<Entry>, next: nat) {
    && next >= 1
    && |log| == Min(next - 1, Capacity)
    && forall i :: 0 <= i < |log| ==> log[i].index == next - 1 - i
  }

  /** `log(m)` keeps the log consistent with the incremented running index. */
  lemma LoggedConsistent(log: seq<Entry>, next: nat, m: Message)
    requires Consistent(log, next)
    ensures Consistent(Logged(log, next, m), next + 1)
  {
    LoggedShifts(log, next, m);
  }

  /**
   * Logging `ms` from the initial state (empty log, running index 1) leaves a
   * consistent log whose running index is one past the number of messages.
   */
  lemma HistoryConsistent(ms: seq<Message>)
    ensures Consistent(LoggedAll([], 1, ms), 1 + |ms|)
  {
    LoggedAllNewestFirst([], 1, ms);
  }

  /** Logging one more message. */
  lemma LoggedAllSnoc(log: seq<Entry>, index: nat, ms: seq<Message>, m: Message)
    ensures LoggedAll(log, index, ms + [m]) == Logged(LoggedAll(log, index, ms), index + |ms|, m)
  {
    assert (ms + [m])[..|ms|] == ms;
  }

  /**
   * After logging `ms`, the log shows the last of them first, each with its own
   * index, followed by what was there before, cut at 50 entries.
   */
  lemma {:induction false} LoggedAllNewestFirst(log: seq<Entry>, index: nat, ms: seq<Message>)
    requires |log| <= Capacity
    ensures |LoggedAll(log, index, ms)| == Min(|log| + |ms|, Capacity)
    ensures forall i :: 0 <= i < |LoggedAll(log, index, ms)| && i < |ms| ==>
      LoggedAll(log, index, ms)[i] == Entry(index + |ms| - 1 - i, ms[|ms| - 1 - i])
    ensures forall i :: |ms| <= i < |LoggedAll(log, index, ms)| ==>
      LoggedAll(log, index, ms)[i] == log[i - |ms|]
    decreases |ms|
  {
    if ms != [] {
      var pre := ms[..|ms| - 1];
      LoggedAllNewestFirst(log, index, pre);
      var r := LoggedAll(log, index, ms);
      var p := LoggedAll(log, index, pre);
      assert r == Logged(p, index + |ms| - 1, ms[|ms| - 1]);
      LoggedShifts(p, index + |ms| - 1, ms[|ms| - 1]);
      forall i | 1 <= i < |r| && i < |ms|
        ensures r[i] == Entry(index + |ms| - 1 - i, ms[|ms| - 1 - i])
      {
        assert r[i] == p[i - 1];
        assert pre[|pre| - 1 - (i - 1)] == ms[|ms| - 1 - i];
      }
    }
  }
}
