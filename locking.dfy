/**
 * The lock discipline of the fine-grained bank, as a sequential protocol over a log of
 * lock and unlock events on account locks (accounts are named by index).
 *
 * The protocol keeps the stack of locks currently held. A lock may be acquired only when
 * its index is above every index already held (the global ascending order that rules out
 * deadlock, which also rules out taking a lock twice), and only the most recently acquired
 * lock may be released (release in reverse order of acquisition).
 */
module Locking {

  datatype Event = Acquire(account: int) | Release(account: int)

  datatype Option<T> = None | Some(value: T)

  /** Acquiring `i` respects the global order: every lock held has a lower index. */
  predicate MayAcquire(held: seq<int>, i: int) {
    forall k :: 0 <= k < |held| ==> held[k] < i
  }

  /** The held locks after one more event, or None when the event breaks the protocol. */
  function Step(held: seq<int>, e: Event): Option<seq<int>> {
    match e
    case Acquire(i) =>
      if MayAcquire(held, i) then Some(held + [i]) else None
    case Release(i) =>
      if held != [] && held[|held| - 1] == i then Some(held[..|held| - 1]) else None
  }

  /** The held locks after a sequence of events, starting from `held`. */
  function Run(held: seq<int>, events: seq<Event>): Option<seq<int>>
    decreases |events|
  {
    if events == [] then Some(held)
    else
      match Run(held, events[..|events| - 1])
      case None => None
      case Some(h) => Step(h, events[|events| - 1])
  }

  /** A sequence of events that keeps the protocol and ends with every lock released. */
  predicate Disciplined(events: seq<Event>) {
    Run([], events) == Some([])
  }

  /** The held locks are `0, 1, ..., n-1`. */
  function Prefix(n: nat): (p: seq<int>)
    ensures |p| == n
    ensures forall k :: 0 <= k < n ==> p[k] == k
  {
    if n == 0 then [] else Prefix(n - 1) + [n - 1]
  }

  // ---------------------------------------------------------------------------
  // The events each operation of the bank produces

  /** `getAmount`, `deposit`, `withdraw`: lock the one account, then unlock it. */
  function SingleEvents(i: int): (e: seq<Event>)
    ensures Disciplined(e)
    ensures forall j :: multiset(e)[Acquire(j)] == multiset(e)[Release(j)] == (if j == i then 1 else 0)
  {
    RunSnoc([], [Acquire(i)], Release(i));
    assert [Acquire(i)] + [Release(i)] == [Acquire(i), Release(i)];
    [Acquire(i), Release(i)]
  }

  function Lower(a: int, b: int): int {
    if a < b then a else b
  }

  function Higher(a: int, b: int): int {
    if a < b then b else a
  }

  /** `transfer`: lock the lower index, then the higher; unlock the higher, then the lower. */
  function PairEvents(from: int, to: int): (e: seq<Event>)
    ensures |e| == 4 && e[0].Acquire? && e[1].Acquire?
    ensures {e[0].account, e[1].account} == {from, to}
    ensures from != to ==> e[0].account < e[1].account
    ensures e[2] == Release(e[1].account) && e[3] == Release(e[0].account)
  {
    [Acquire(Lower(from, to)), Acquire(Higher(from, to)), Release(Higher(from, to)), Release(Lower(from, to))]
  }

  /** `getTotalAmount`, first half: lock accounts 0, 1, ..., n-1 in turn. */
  function AcquireAscending(n: nat): (e: seq<Event>)
    ensures |e| == n
    ensures forall k :: 0 <= k < n ==> e[k] == Acquire(k)
  {
    if n == 0 then [] else AcquireAscending(n - 1) + [Acquire(n - 1)]
  }

  /** `getTotalAmount`, second half: unlock accounts n-1, ..., 1, 0 in turn. */
  function ReleaseDescending(n: nat): (e: seq<Event>)
    ensures |e| == n
    ensures forall k :: 0 <= k < n ==> e[k] == Release(n - 1 - k)
  {
    if n == 0 then [] else [Release(n - 1)] + ReleaseDescending(n - 1)
  }

  // ---------------------------------------------------------------------------
  // Running the protocol

  /** Running one more event. */
  lemma RunSnoc(held: seq<int>, events: seq<Event>, e: Event)
    ensures Run(held, events + [e]) ==
      match Run(held, events)
      case None => None
      case Some(h) => Step(h, e)
  {
    assert (events + [e])[..|events|] == events;
  }

  /** Running two sequences one after the other. */
  lemma {:induction false} RunConcat(held: seq<int>, a: seq<Event>, b: seq<Event>)
    ensures Run(held, a + b) ==
      match Run(held, a)
      case None => None
      case Some(h) => Run(h, b)
    decreases |b|
  {
    if b == [] {
      assert a + b == a;
    } else {
      var front, last := b[..|b| - 1], b[|b| - 1];
      assert a + b == (a + front) + [last];
      RunSnoc(held, a + front, last);
      RunConcat(held, a, front);
    }
  }

  /** Disciplined sequences compose: a log of whole operations stays disciplined. */
  lemma DisciplinedConcat(a: seq<Event>, b: seq<Event>)
    requires Disciplined(a) && Disciplined(b)
    ensures Disciplined(a + b)
  {
    RunConcat([], a, b);
  }

  /** One event moves one lock into or out of the held stack. */
  lemma StepBalances(held: seq<int>, e: Event, after: seq<int>)
    requires Step(held, e) == Some(after)
    ensures forall i :: multiset(held)[i] + multiset{e}[Acquire(i)] ==
                        multiset(after)[i] + multiset{e}[Release(i)]
  {
    match e {
      case Acquire(j) =>
        assert multiset(after) == multiset(held) + multiset{j};
      case Release(j) =>
        assert held == after + [j];
        assert multiset(held) == multiset(after) + multiset{j};
    }
  }

  /**
   * Every acquisition is matched by exactly one release: along a protocol run, what was
   * held plus what was acquired equals what is held plus what was released, lock by lock.
   */
  lemma {:induction false} RunBalances(held: seq<int>, events: seq<Event>, after: seq<int>)
    requires Run(held, events) == Some(after)
    ensures forall i :: multiset(held)[i] + multiset(events)[Acquire(i)] ==
                        multiset(after)[i] + multiset(events)[Release(i)]
    decreases |events|
  {
    if events != [] {
      var front, last := events[..|events| - 1], events[|events| - 1];
      assert events == front + [last];
      assert multiset(events) == multiset(front) + multiset{last};
      var mid := Run(held, front).value;
      RunBalances(held, front, mid);
      StepBalances(mid, last, after);
    }
  }

  /** In a disciplined sequence each lock is released exactly as often as it is acquired. */
  lemma DisciplinedReleasesAll(events: seq<Event>)
    requires Disciplined(events)
    ensures forall i :: multiset(events)[Acquire(i)] == multiset(events)[Release(i)]
  {
    RunBalances([], events, []);
  }

  // ---------------------------------------------------------------------------
  // Each operation keeps the protocol

  lemma PairDisciplined(from: int, to: int)
    requires from != to
    ensures Disciplined(PairEvents(from, to))
  {
    var e := PairEvents(from, to);
    var lo, hi := e[0].account, e[1].account;
    // the held stack after each of the four events: [lo], [lo, hi], [lo], []
    RunSnoc([], [], e[0]);
    assert [] + [e[0]] == [e[0]] && [] + [lo] == [lo];
    assert Run([], [e[0]]) == Some([lo]);
    RunSnoc([], [e[0]], e[1]);
    assert e[..2] == [e[0]] + [e[1]];
    assert [lo] + [hi] == [lo, hi];
    assert Run([], e[..2]) == Some([lo, hi]);
    RunSnoc([], e[..2], e[2]);
    assert e[..3] == e[..2] + [e[2]];
    assert [lo, hi][..1] == [lo];
    assert Run([], e[..3]) == Some([lo]);
    RunSnoc([], e[..3], e[3]);
    assert e == e[..3] + [e[3]];
  }

  /** Acquiring 0..n-1 in ascending order keeps the protocol and ends holding all n locks. */
  lemma {:induction false} AcquireAscendingHoldsAll(n: nat)
    ensures Run([], AcquireAscending(n)) == Some(Prefix(n))
  {
    if n > 0 {
      AcquireAscendingHoldsAll(n - 1);
      RunSnoc([], AcquireAscending(n - 1), Acquire(n - 1));
      assert MayAcquire(Prefix(n - 1), n - 1);
    }
  }

  /** Releasing n-1..0 in descending order, from holding 0..n-1, releases everything. */
  lemma {:induction false} ReleaseDescendingFreesAll(n: nat)
    ensures Run(Prefix(n), ReleaseDescending(n)) == Some([])
  {
    if n > 0 {
      RunConcat(Prefix(n), [Release(n - 1)], ReleaseDescending(n - 1));
      RunSnoc(Prefix(n), [], Release(n - 1));
      assert [] + [Release(n - 1)] == [Release(n - 1)];
      assert (Prefix(n - 1) + [n - 1])[..n - 1] == Prefix(n - 1);
      ReleaseDescendingFreesAll(n - 1);
    }
  }

  lemma TotalDisciplined(n: nat)
    ensures Disciplined(AcquireAscending(n) + ReleaseDescending(n))
  {
    AcquireAscendingHoldsAll(n);
    ReleaseDescendingFreesAll(n);
    RunConcat([], AcquireAscending(n), ReleaseDescending(n));
  }
}
