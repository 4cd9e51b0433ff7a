/** Waiting for replies: `wait` and `dispatch_method`, which nest in each other through the callbacks they run. */
module Waits {
  import opened Octets
  import opened Frames

  /** A promise is known by the order in which it was made. */
  type Promise = nat

  type Pending = map<Sig, Promise>

  function Get(pending: Pending, m: Sig): Option<Promise> {
    if m in pending then Some(pending[m]) else None
  }

  function Put(pending: Pending, m: Sig, p: Option<Promise>): Pending {
    match p
    case Some(q) => pending[m := q]
    case None => pending - {m}
  }

  predicate Distinct(ms: seq<Sig>) {
    forall i, j :: 0 <= i < j < |ms| ==> ms[i] != ms[j]
  }

  // ---------------------------------------------------------------- the three loops of `wait`

  /** What stood under the first `i` methods, each looked up after the promise was put under those before it. */
  function Saved(pending: Pending, ms: seq<Sig>, p: Promise, i: nat): (prev: seq<Option<Promise>>)
    requires i <= |ms|
    ensures |prev| == i
  {
    if i == 0 then [] else Saved(pending, ms, p, i - 1) + [Get(Registered(pending, ms, p, i - 1), ms[i - 1])]
  }

  function Registered(pending: Pending, ms: seq<Sig>, p: Promise, i: nat): Pending
    requires i <= |ms|
  {
    if i == 0 then pending else Registered(pending, ms, p, i - 1)[ms[i - 1] := p]
  }

  function Restored(pending: Pending, ms: seq<Sig>, prev: seq<Option<Promise>>, i: nat): Pending
    requires i <= |ms| == |prev|
  {
    if i == 0 then pending else Put(Restored(pending, ms, prev, i - 1), ms[i - 1], prev[i - 1])
  }

  lemma {:induction false} RegisteredGet(pending: Pending, ms: seq<Sig>, p: Promise, i: nat, m: Sig)
    requires i <= |ms|
    ensures Get(Registered(pending, ms, p, i), m) == if m in ms[..i] then Some(p) else Get(pending, m)
  {
    if i > 0 {
      RegisteredGet(pending, ms, p, i - 1, m);
      assert ms[..i] == ms[..i - 1] + [ms[i - 1]];
    }
  }

  lemma {:induction false} SavedAt(pending: Pending, ms: seq<Sig>, p: Promise, i: nat, k: nat)
    requires k < i <= |ms|
    ensures Saved(pending, ms, p, i)[k] == if ms[k] in ms[..k] then Some(p) else Get(pending, ms[k])
  {
    if k == i - 1 {
      RegisteredGet(pending, ms, p, k, ms[k]);
    } else {
      SavedAt(pending, ms, p, i - 1, k);
    }
  }

  lemma {:induction false} RestoredOther(pending: Pending, ms: seq<Sig>, prev: seq<Option<Promise>>, i: nat, m: Sig)
    requires i <= |ms| == |prev| && m !in ms[..i]
    ensures Get(Restored(pending, ms, prev, i), m) == Get(pending, m)
  {
    if i > 0 {
      assert ms[..i] == ms[..i - 1] + [ms[i - 1]];
      RestoredOther(pending, ms, prev, i - 1, m);
    }
  }

  /** The last entry for a method decides what is put back under it. */
  lemma {:induction false} RestoredLast(pending: Pending, ms: seq<Sig>, prev: seq<Option<Promise>>, i: nat, k: nat)
    requires k < i <= |ms| == |prev| && ms[k] !in ms[k + 1..i]
    ensures Get(Restored(pending, ms, prev, i), ms[k]) == prev[k]
  {
    if k < i - 1 {
      assert ms[k + 1..i] == ms[k + 1..i - 1] + [ms[i - 1]];
      RestoredLast(pending, ms, prev, i - 1, k);
    }
  }

  /** Whatever happened in between, the methods of a list without duplicates are left as they were found... */
  lemma RestoresDistinct(before: Pending, between: Pending, ms: seq<Sig>, p: Promise, m: Sig)
    requires Distinct(ms)
    ensures Get(Restored(between, ms, Saved(before, ms, p, |ms|), |ms|), m)
         == Get(if m in ms then before else between, m)
  {
    var prev := Saved(before, ms, p, |ms|);
    assert ms[..|ms|] == ms;
    if m in ms {
      var k :| 0 <= k < |ms| && ms[k] == m;
      SavedAt(before, ms, p, |ms|, k);
      assert m !in ms[k + 1..|ms|] && m !in ms[..k];
      RestoredLast(between, ms, prev, |ms|, k);
    } else {
      RestoredOther(between, ms, prev, |ms|, m);
    }
  }

  /** ... while under a duplicated method the wait leaves its own promise behind. */
  lemma DuplicateLeaks(before: Pending, between: Pending, ms: seq<Sig>, p: Promise, i: nat, j: nat)
    requires i < j < |ms| && ms[i] == ms[j] && ms[j] !in ms[j + 1..]
    ensures Get(Restored(between, ms, Saved(before, ms, p, |ms|), |ms|), ms[j]) == Some(p)
  {
    assert ms[..j][i] == ms[j] && ms[j + 1..|ms|] == ms[j + 1..];
    RestoredLast(between, ms, Saved(before, ms, p, |ms|), |ms|, j);
    SavedAt(before, ms, p, |ms|, j);
  }

  predicate LeavesAsFound(before: Pending, between: Pending, ms: seq<Sig>, p: Promise) {
    forall m :: m in ms ==> Get(Restored(between, ms, Saved(before, ms, p, |ms|), |ms|), m) == Get(before, m)
  }

  lemma {:induction false} LastOccurrence(ms: seq<Sig>, i: nat) returns (j: nat)
    requires i < |ms|
    ensures i <= j < |ms| && ms[j] == ms[i] && ms[i] !in ms[j + 1..]
    decreases |ms| - i
  {
    if ms[i] in ms[i + 1..] {
      var k :| 0 <= k < |ms[i + 1..]| && ms[i + 1..][k] == ms[i];
      j := LastOccurrence(ms, i + 1 + k);
    } else {
      j := i;
    }
  }

  /** A wait with a new promise leaves its methods as it found them exactly if none of them is listed twice. */
  lemma RestoresExactly(before: Pending, between: Pending, ms: seq<Sig>, p: Promise)
    requires forall m :: m in before ==> before[m] != p
    ensures LeavesAsFound(before, between, ms, p) <==> Distinct(ms)
  {
    if Distinct(ms) {
      forall m | m in ms ensures Get(Restored(between, ms, Saved(before, ms, p, |ms|), |ms|), m) == Get(before, m) {
        RestoresDistinct(before, between, ms, p, m);
      }
    } else {
      var i, k :| 0 <= i < k < |ms| && ms[i] == ms[k];
      var j := LastOccurrence(ms, k);
      DuplicateLeaks(before, between, ms, p, i, j);
      assert ms[j] in ms;
    }
  }

  // ---------------------------------------------------------------- what happens during a wait

  /** What the channel goes through while events are drained. */
  datatype Act =
    | Dispatch(sig: Sig, decodes: bool, listener: seq<Act>)  // a method arrives; its listener, if any, does this
    | Nested(methods: seq<Sig>, during: seq<Act>)            // something waits for a reply
    | Closing(closing: bool)                                 // `is_closing` is set or cleared
    | Failure                                                // a timeout, a socket error, an error in a callback

  /** No method list has duplicates. */
  predicate Orderly(a: Act)
    decreases a, 0
  {
    match a
    case Dispatch(_, _, listener) => OrderlyAll(listener)
    case Nested(methods, during) => Distinct(methods) && OrderlyAll(during)
    case _ => true
  }

  predicate OrderlyAll(acts: seq<Act>)
    decreases acts, 1
  {
    forall a :: a in acts ==> Orderly(a)
  }

  /** A wait in progress. */
  datatype Waiter = Waiter(promise: Promise, methods: seq<Sig>)

  /** The innermost of the waits in progress for a method. */
  function Innermost(waiters: seq<Waiter>, m: Sig): Option<Promise> {
    if waiters == [] then None
    else if m in waiters[|waiters| - 1].methods then Some(waiters[|waiters| - 1].promise)
    else Innermost(waiters[..|waiters| - 1], m)
  }

  /** What any stretch of events does to the pending promises: none is added or replaced, and those gone are exactly
      those taken out by a dispatch; nothing is taken that was not pending, but for promises made meanwhile. */
  predicate Keeps(p0: Pending, t0: set<(Sig, Promise)>, n0: nat, p1: Pending, t1: set<(Sig, Promise)>, n1: nat) {
    && n0 <= n1 && t0 <= t1
    && (forall m :: m in p1 ==> m in p0 && p1[m] == p0[m])
    && (forall m :: m in p0 ==> (m in p1 <==> (m, p0[m]) !in t1))
    && (forall x :: x in t1 && x !in t0 ==> x.1 >= n0 || (x.0 in p0 && p0[x.0] == x.1))
  }

  lemma KeepsTwice(p0: Pending, t0: set<(Sig, Promise)>, n0: nat, p1: Pending, t1: set<(Sig, Promise)>, n1: nat,
                   p2: Pending, t2: set<(Sig, Promise)>, n2: nat)
    requires Keeps(p0, t0, n0, p1, t1, n1) && Keeps(p1, t1, n1, p2, t2, n2)
    ensures Keeps(p0, t0, n0, p2, t2, n2)
  {
  }

  /** A wait: its own promise is put under its methods, events go by, and its methods are restored. */
  lemma KeepsWait(p0: Pending, t0: set<(Sig, Promise)>, n0: nat, ms: seq<Sig>,
                  p1: Pending, t1: set<(Sig, Promise)>, n1: nat)
    requires forall m :: m in p0 ==> p0[m] < n0 && (m, p0[m]) !in t0
    requires forall x :: x in t0 ==> x.1 < n0
    requires Distinct(ms) && Keeps(Registered(p0, ms, n0, |ms|), t0, n0 + 1, p1, t1, n1)
    ensures var p2 := Restored(p1, ms, Saved(p0, ms, n0, |ms|), |ms|);
      && Keeps(p0, t0, n0, p2, t1, n1) && (forall m :: m in p2 ==> (m, p2[m]) !in t1)
      && forall m :: m in ms ==> Get(p2, m) == Get(p0, m)
  {
    var p2 := Restored(p1, ms, Saved(p0, ms, n0, |ms|), |ms|);
    assert ms[..|ms|] == ms;
    var p0' := Registered(p0, ms, n0, |ms|);
    forall m: Sig
      ensures m in p0' <==> m in ms || m in p0
      ensures m in p0' ==> p0'[m] == if m in ms then n0 else p0[m]
    {
      RegisteredGet(p0, ms, n0, |ms|, m);
    }
    forall m: Sig
      ensures m in p2 <==> if m in ms then m in p0 else m in p1
      ensures m in p2 ==> p2[m] == if m in ms then p0[m] else p1[m]
    {
      RestoresDistinct(p0, p1, ms, n0, m);
    }
  }

  /** A promise is only ever pending for, and taken for, the methods it was made for. */
  ghost predicate Sound(pending: Pending, taken: set<(Sig, Promise)>, made: seq<seq<Sig>>) {
    && (forall m :: m in pending ==> pending[m] < |made| && m in made[pending[m]])
    && (forall x :: x in taken ==> x.1 < |made| && x.0 in made[x.1])
  }

  /** What is pending for a method is the innermost wait for it, and has not had its reply. */
  ghost predicate InOrder(pending: Pending, taken: set<(Sig, Promise)>, waiters: seq<Waiter>) {
    forall m :: m in pending ==> (m, pending[m]) !in taken && Innermost(waiters, m) == Some(pending[m])
  }

  lemma WaitBegins(p0: Pending, t0: set<(Sig, Promise)>, made: seq<seq<Sig>>, ms: seq<Sig>, waiters: seq<Waiter>)
    requires Sound(p0, t0, made)
    ensures var p, p1 := |made|, Registered(p0, ms, |made|, |ms|);
      && Sound(p1, t0, made + [ms])
      && (InOrder(p0, t0, waiters) ==> InOrder(p1, t0, waiters + [Waiter(p, ms)]))
  {
    hide Innermost, Registered;
    PushTidy(p0, ms, |made|, waiters);
  }

  lemma WaitEnds(p0: Pending, t0: set<(Sig, Promise)>, made0: seq<seq<Sig>>, ms: seq<Sig>, waiters: seq<Waiter>,
                 p1: Pending, t1: set<(Sig, Promise)>, made1: seq<seq<Sig>>)
    requires Sound(p0, t0, made0) && Sound(p1, t1, made1) && made0 + [ms] <= made1
    ensures var p := |made0|;
      var p2 := Restored(p1, ms, Saved(p0, ms, p, |ms|), |ms|);
      && Sound(p2, t1, made1)
      && ((forall m :: m in ms ==> Get(p2, m) == Get(p0, m)) <==> Distinct(ms))
      && (Distinct(ms) && InOrder(p0, t0, waiters) && InOrder(p1, t1, waiters + [Waiter(p, ms)])
          && Keeps(Registered(p0, ms, p, |ms|), t0, p + 1, p1, t1, |made1|) ==>
            InOrder(p2, t1, waiters) && Keeps(p0, t0, p, p2, t1, |made1|))
  {
    hide Registered, Restored, Saved, Innermost, Keeps;
    var p := |made0|;
    RestoresExactly(p0, p1, ms, p);
    RestoredIn(p0, p1, ms, p);
    assert made1[p] == ms && forall q :: 0 <= q < p ==> made1[q] == made0[q];
    if Distinct(ms) && InOrder(p0, t0, waiters) && InOrder(p1, t1, waiters + [Waiter(p, ms)])
       && Keeps(Registered(p0, ms, p, |ms|), t0, p + 1, p1, t1, |made1|) {
      KeepsWait(p0, t0, p, ms, p1, t1, |made1|);
      PopTidy(p0, p1, ms, p, waiters);
    }
  }

  lemma KeepsItself(p0: Pending, t0: set<(Sig, Promise)>, n0: nat, waiters: seq<Waiter>)
    ensures InOrder(p0, t0, waiters) ==> Keeps(p0, t0, n0, p0, t0, n0)
  {
    hide Innermost;
  }

  /** A dispatch takes a promise out, if one is pending. */
  function Took(pending: Pending, taken: set<(Sig, Promise)>, m: Sig): set<(Sig, Promise)> {
    if m in pending then taken + {(m, pending[m])} else taken
  }

  lemma Taking(pending: Pending, taken: set<(Sig, Promise)>, made: seq<seq<Sig>>, waiters: seq<Waiter>, m: Sig)
    requires Sound(pending, taken, made)
    ensures var after, now := pending - {m}, Took(pending, taken, m);
      && Sound(after, now, made) && (m in pending ==> pending[m] < |made| && m in made[pending[m]])
      && (InOrder(pending, taken, waiters) ==>
            InOrder(after, now, waiters) && Keeps(pending, taken, |made|, after, now, |made|))
      && (InOrder(pending, taken, waiters) && m in pending ==> Innermost(waiters, m) == Some(pending[m]))
  {
    hide Innermost;
  }

  // ---------------------------------------------------------------- what comes of it all

  /** `_METHODS`, the keys of `_callbacks`, and `_ALLOWED_METHODS_WHEN_CLOSING`. */
  datatype Methods = Methods(known: set<Sig>, listened: set<Sig>, allowedWhenClosing: set<Sig>)

  /** `is_closing`, `_pending`, the promises fulfilled, each with the method that did it, and how many were made. */
  datatype Standing = Standing(isClosing: bool, pending: Pending, replies: map<Promise, Sig>, nextPromise: nat)

  /** The standing after a dispatch, whether it did not raise, and the promise that got the reply. */
  function Dispatched(env: Methods, st: Standing, sig: Sig, decodes: bool, listener: seq<Act>):
      (r: (Standing, bool, Option<Promise>))
    decreases listener, 2
  {
    if st.isClosing && sig !in env.allowedWhenClosing then (st, true, None)
    else if sig !in env.known then (st, false, None)
    else if sig !in st.pending && sig !in env.listened then (st, true, None)
    else
      var popped := st.(pending := st.pending - {sig});
      var (after, ok) :=
        if !decodes then (popped, false)
        else if sig in env.listened then PerformedAll(env, popped, listener)
        else (popped, true);
      if !ok then (after, false, None)
      else if sig in st.pending then
        (after.(replies := after.replies[st.pending[sig] := sig]), true, Some(st.pending[sig]))
      else (after, true, None)
  }

  function PerformedAll(env: Methods, st: Standing, acts: seq<Act>): (Standing, bool)
    decreases acts, 1
  {
    if acts == [] then (st, true)
    else
      var (next, ok) := Performed(env, st, acts[0]);
      if ok then PerformedAll(env, next, acts[1..]) else (next, false)
  }

  function Performed(env: Methods, st: Standing, a: Act): (Standing, bool)
    decreases a, 0
  {
    match a
    case Dispatch(sig, decodes, listener) =>
      var (after, ok, _) := Dispatched(env, st, sig, decodes, listener); (after, ok)
    case Nested(methods, during) => var (after, reply) := Waited(env, st, methods, during); (after, reply.Some?)
    case Closing(closing) => (st.(isClosing := closing), true)
    case Failure => (st, false)
  }

  function Begun(st: Standing, ms: seq<Sig>): Standing {
    st.(pending := Registered(st.pending, ms, st.nextPromise, |ms|), nextPromise := st.nextPromise + 1)
  }

  /** The standing after a wait, and the method that answered, if it did not raise. */
  function Waited(env: Methods, st: Standing, ms: seq<Sig>, during: seq<Act>): (Standing, Option<Sig>)
    decreases during, 3
  {
    var p := st.nextPromise;
    var (end, raised) := Drained(env, Begun(st, ms), p, during);
    (end.(pending := Restored(end.pending, ms, Saved(st.pending, ms, p, |ms|), |ms|)),
     if raised then None else Some(end.replies[p]))
  }

  /** Events are drained until the promise is fulfilled, or something raises. */
  function Drained(env: Methods, st: Standing, p: Promise, during: seq<Act>): (r: (Standing, bool))
    ensures !r.1 ==> p in r.0.replies
    decreases during, 2
  {
    if p in st.replies then (st, false)
    else if during == [] then (st, true)
    else
      var (next, ok) := Performed(env, st, during[0]);
      if ok then Drained(env, next, p, during[1..]) else (next, true)
  }

  /** While a channel is closing only the methods allowed then are not passed over; a method that is unknown, or cannot
      be decoded, or whose listener fails, raises; and otherwise, if it was waited for, the reply goes to that
      promise. */
  lemma DispatchOutcome(env: Methods, st: Standing, sig: Sig, decodes: bool, listener: seq<Act>)
    ensures var passedOver := st.isClosing && sig !in env.allowedWhenClosing;
      var rest := map m | m in st.pending && m != sig :: st.pending[m];
      var popped := Standing(st.isClosing, rest, st.replies, st.nextPromise);
      var (after, ok, handed) := Dispatched(env, st, sig, decodes, listener);
      && (passedOver ==> ok && handed == None && after == st)
      && (!passedOver && sig !in env.known ==> !ok && after == st)
      && (!passedOver && sig in env.known && sig !in st.pending && sig !in env.listened ==>
            ok && handed == None && after == st)
      && (!passedOver && sig in env.known && (sig in st.pending || sig in env.listened) ==>
            && (ok <==> decodes && (sig in env.listened ==> PerformedAll(env, popped, listener).1))
            && (!decodes ==> after == popped))
      && (!passedOver && sig in env.known && sig !in env.listened && decodes && sig in st.pending ==>
            after == popped.(replies := st.replies[st.pending[sig] := sig]))
      && (!passedOver && ok ==> handed == Get(st.pending, sig))
      && (handed.Some? ==> handed.value in after.replies && after.replies[handed.value] == sig)
  {
    assert st.(pending := st.pending - {sig}).pending == map m | m in st.pending && m != sig :: st.pending[m];
  }

  /** What was pending is so still, or has had its reply. */
  ghost predicate Stays(a: Standing, b: Standing) {
    && (forall m :: m in a.pending ==> Get(b.pending, m) == Some(a.pending[m]) || a.pending[m] in b.replies)
    && (forall q :: q in a.replies ==> q in b.replies)
  }

  lemma {:induction false} DispatchedStays(env: Methods, st: Standing, sig: Sig, decodes: bool, listener: seq<Act>)
    requires OrderlyAll(listener) && Dispatched(env, st, sig, decodes, listener).1
    ensures Stays(st, Dispatched(env, st, sig, decodes, listener).0)
    decreases listener, 2
  {
    hide PerformedAll, OrderlyAll;
    if sig in env.listened && PerformedAll(env, st.(pending := st.pending - {sig}), listener).1 {
      PerformedAllStays(env, st.(pending := st.pending - {sig}), listener);
    }
  }

  lemma {:induction false} PerformedAllStays(env: Methods, st: Standing, acts: seq<Act>)
    requires OrderlyAll(acts) && PerformedAll(env, st, acts).1
    ensures Stays(st, PerformedAll(env, st, acts).0)
    decreases acts, 1
  {
    hide Performed, Orderly;
    if acts != [] {
      assert acts[0] in acts && forall a :: a in acts[1..] ==> a in acts;
      PerformedStays(env, st, acts[0]);
      PerformedAllStays(env, Performed(env, st, acts[0]).0, acts[1..]);
    }
  }

  lemma {:induction false} PerformedStays(env: Methods, st: Standing, a: Act)
    requires Orderly(a) && Performed(env, st, a).1
    ensures Stays(st, Performed(env, st, a).0)
    decreases a, 0
  {
    hide Dispatched, Waited, OrderlyAll;
    match a {
      case Dispatch(sig, decodes, listener) => DispatchedStays(env, st, sig, decodes, listener);
      case Nested(methods, during) => WaitedStays(env, st, methods, during);
      case _ =>
    }
  }

  lemma {:induction false} WaitedStays(env: Methods, st: Standing, ms: seq<Sig>, during: seq<Act>)
    requires Distinct(ms) && OrderlyAll(during) && Waited(env, st, ms, during).1.Some?
    ensures Stays(st, Waited(env, st, ms, during).0)
    decreases during, 3
  {
    hide Drained, OrderlyAll, Registered, Restored, Saved;
    var p := st.nextPromise;
    DrainedStays(env, Begun(st, ms), p, during);
    var end := Drained(env, Begun(st, ms), p, during).0;
    assert ms[..|ms|] == ms;
    forall m | m in st.pending
      ensures Get(Waited(env, st, ms, during).0.pending, m) == Some(st.pending[m]) || st.pending[m] in end.replies
    {
      RegisteredGet(st.pending, ms, p, |ms|, m);
      RestoresDistinct(st.pending, end.pending, ms, p, m);
    }
  }

  lemma {:induction false} DrainedStays(env: Methods, st: Standing, p: Promise, during: seq<Act>)
    requires OrderlyAll(during) && !Drained(env, st, p, during).1
    ensures Stays(st, Drained(env, st, p, during).0)
    decreases during, 2
  {
    hide Performed, Orderly;
    if p !in st.replies {
      assert during[0] in during && forall a :: a in during[1..] ==> a in during;
      PerformedStays(env, st, during[0]);
      DrainedStays(env, Performed(env, st, during[0]).0, p, during[1..]);
    }
  }

  /** A dispatch of `m` that is not passed over, at the `i`-th of some events of which none raises up to then. */
  ghost predicate Reached(env: Methods, st: Standing, during: seq<Act>, i: nat, m: Sig) {
    && i < |during| && during[i].Dispatch? && during[i].sig == m
    && PerformedAll(env, st, during[..i + 1]).1
    && (PerformedAll(env, st, during[..i]).0.isClosing ==> m in env.allowedWhenClosing)
  }

  lemma ReachedNext(env: Methods, st: Standing, during: seq<Act>, i: nat, m: Sig)
    requires Reached(env, st, during, i, m)
    ensures Performed(env, st, during[0]).1
    ensures i == 0 ==> (st.isClosing ==> m in env.allowedWhenClosing)
    ensures i > 0 ==> Reached(env, Performed(env, st, during[0]).0, during[1..], i - 1, m)
  {
    hide Performed;
    assert during[..i + 1][1..] == during[1..][..i] && during[..i + 1][0] == during[0];
    if i > 0 {
      assert during[..i][1..] == during[1..][..i - 1] && during[..i][0] == during[0];
    }
  }

  lemma {:induction false} DrainedAnswered(env: Methods, st: Standing, p: Promise, during: seq<Act>, i: nat, m: Sig)
    requires OrderlyAll(during) && Reached(env, st, during, i, m)
    requires Get(st.pending, m) == Some(p) || p in st.replies
    ensures !Drained(env, st, p, during).1
    decreases during
  {
    hide Performed, Orderly, Reached, PerformedAll;
    assert i < |during| && during[i].Dispatch? && during[i].sig == m by { ReachedHere(env, st, during, i, m); }
    ReachedNext(env, st, during, i, m);
    if p !in st.replies {
      var next := Performed(env, st, during[0]).0;
      assert during[0] in during && forall a :: a in during[1..] ==> a in during;
      PerformedStays(env, st, during[0]);
      if i == 0 {
        AnsweredNow(env, st, during[0], p);
      } else {
        DrainedAnswered(env, next, p, during[1..], i - 1, m);
      }
    }
  }

  lemma ReachedHere(env: Methods, st: Standing, during: seq<Act>, i: nat, m: Sig)
    requires Reached(env, st, during, i, m)
    ensures i < |during| && during[i].Dispatch? && during[i].sig == m
  {
  }

  lemma AnsweredNow(env: Methods, st: Standing, a: Act, p: Promise)
    requires a.Dispatch? && Get(st.pending, a.sig) == Some(p)
    requires Performed(env, st, a).1 && (st.isClosing ==> a.sig in env.allowedWhenClosing)
    ensures p in Performed(env, st, a).0.replies
  {
    hide PerformedAll;
    DispatchOutcome(env, st, a.sig, a.decodes, a.listener);
  }

  /** A wait returns as soon as one of its methods has been dispatched, unless something has raised before, or the
      channel was closing and passed the method over. */
  lemma WaitAnswered(env: Methods, st: Standing, ms: seq<Sig>, during: seq<Act>, i: nat, m: Sig)
    requires OrderlyAll(during) && m in ms && Reached(env, Begun(st, ms), during, i, m)
    ensures Waited(env, st, ms, during).1.Some?
  {
    hide Drained, OrderlyAll, Reached, Registered, Restored, Saved;
    assert ms[..|ms|] == ms;
    RegisteredGet(st.pending, ms, st.nextPromise, |ms|, m);
    DrainedAnswered(env, Begun(st, ms), st.nextPromise, during, i, m);
  }

  /** Draining goes on exactly as long as nothing raises, there are events, and the promise is not fulfilled. */
  lemma {:induction false} DrainedUntil(env: Methods, st: Standing, p: Promise, during: seq<Act>) returns (i: nat)
    ensures i <= |during| && PerformedAll(env, st, during[..i]).1
    ensures var (end, raised) := Drained(env, st, p, during);
      var (now, _) := PerformedAll(env, st, during[..i]);
      if p in now.replies then !raised && end == now
      else raised && if i == |during| then end == now else (end, false) == Performed(env, now, during[i])
    decreases |during|
  {
    hide Performed;
    i := 0;
    assert during[..0] == [];
    if p !in st.replies && during != [] && Performed(env, st, during[0]).1 {
      var j := DrainedUntil(env, Performed(env, st, during[0]).0, p, during[1..]);
      i := j + 1;
      assert during[..i][0] == during[0] && during[..i][1..] == during[1..][..j];
    }
  }

  // ---------------------------------------------------------------- the object

  class AbstractChannel {
    const known: set<Sig>               // `_METHODS`
    const listened: set<Sig>            // the keys of `_callbacks`
    const allowedWhenClosing: set<Sig>
    var isClosing: bool
    var pending: Pending
    var replies: map<Promise, Sig>      // the promises fulfilled, each with the method that did it
    var nextPromise: nat
    ghost var made: seq<seq<Sig>>       // the promises made, each with the methods it was made for
    ghost var waiters: seq<Waiter>      // the waits in progress, the innermost last
    ghost var taken: set<(Sig, Promise)>  // what dispatches have taken out of `pending`

    ghost predicate Valid()
      reads this
    {
      nextPromise == |made| && Sound(pending, taken, made) && (forall q :: q in replies ==> (replies[q], q) in taken)
    }

    ghost predicate Tidy()
      reads this
    {
      InOrder(pending, taken, waiters)
    }

    constructor (known: set<Sig>, listened: set<Sig>, allowedWhenClosing: set<Sig>)
      ensures Valid() && Tidy() && pending == map[] && waiters == [] && !isClosing
    {
      this.known, this.listened, this.allowedWhenClosing := known, listened, allowedWhenClosing;
      isClosing, pending, replies, nextPromise, made, waiters, taken := false, map[], map[], 0, [], [], {};
    }

    function Env(): Methods {
      Methods(known, listened, allowedWhenClosing)
    }

    function State(): Standing
      reads this
    {
      Standing(isClosing, pending, replies, nextPromise)
    }

    /** `dispatch_method`. Its reply goes to one promise at most, which was made for the method; if no method list has
        had duplicates, it is that of the innermost wait for the method, unless that has had one already. Otherwise
        it raises, is passed over, or finds nobody waiting, as `Dispatched` says. */
    method DispatchMethod(sig: Sig, decodes: bool, listener: seq<Act>) returns (ok: bool, handed: Option<Promise>)
      requires Valid()
      modifies this
      ensures Valid() && waiters == old(waiters) && old(made) <= made && old(taken) <= taken
      ensures old(Tidy()) && OrderlyAll(listener) ==>
        Tidy() && Keeps(old(pending), old(taken), old(nextPromise), pending, taken, nextPromise)
      ensures handed.Some? ==>
        && handed == Get(old(pending), sig) && sig in made[handed.value]
        && handed.value in replies && replies[handed.value] == sig
      ensures old(Tidy()) && handed.Some? ==> handed == Innermost(waiters, sig)
      ensures (State(), ok, handed) == Dispatched(Env(), old(State()), sig, decodes, listener)
      decreases listener, 2
    {
      hide Keeps, Innermost, InOrder, Sound, PerformedAll, OrderlyAll;
      KeepsItself(pending, taken, nextPromise, waiters);
      if isClosing && sig !in allowedWhenClosing {
        return true, None;
      }
      if sig !in known {
        return false, None;
      }
      var oneShot := Get(pending, sig);
      if oneShot == None && sig !in listened {
        return true, None;
      }
      Taking(pending, taken, made, waiters, sig);
      taken := Took(pending, taken, sig);
      pending := pending - {sig};
      if !decodes {
        return false, None;
      }
      if sig in listened {
        ghost var p1, t1, n1 := pending, taken, nextPromise;
        ok := PerformAll(listener);
        if old(Tidy()) && OrderlyAll(listener) {
          KeepsTwice(old(pending), old(taken), old(nextPromise), p1, t1, n1, pending, taken, nextPromise);
        }
        if !ok {
          return false, None;
        }
      }
      if oneShot.Some? {
        assert made[oneShot.value] == old(made)[oneShot.value];
        replies := replies[oneShot.value := sig];
      }
      return true, oneShot;
    }

    method PerformAll(acts: seq<Act>) returns (ok: bool)
      requires Valid()
      modifies this
      ensures Valid() && waiters == old(waiters) && old(made) <= made && old(taken) <= taken
      ensures old(Tidy()) && OrderlyAll(acts) ==>
        Tidy() && Keeps(old(pending), old(taken), old(nextPromise), pending, taken, nextPromise)
      ensures (State(), ok) == PerformedAll(Env(), old(State()), acts)
      decreases acts, 1
    {
      assert acts[0..] == acts;
      for i := 0 to |acts|
        invariant Valid() && waiters == old(waiters) && old(made) <= made && old(taken) <= taken
        invariant old(Tidy()) && OrderlyAll(acts) ==>
          Tidy() && Keeps(old(pending), old(taken), old(nextPromise), pending, taken, nextPromise)
        invariant PerformedAll(Env(), State(), acts[i..]) == PerformedAll(Env(), old(State()), acts)
      {
        assert acts[i..][0] == acts[i] && acts[i..][1..] == acts[i + 1..];
        ghost var p1, t1, n1 := pending, taken, nextPromise;
        ok := Perform(acts[i]);
        if old(Tidy()) && OrderlyAll(acts) {
          KeepsTwice(old(pending), old(taken), old(nextPromise), p1, t1, n1, pending, taken, nextPromise);
        }
        if !ok {
          return;
        }
      }
      ok := true;
    }

    method Perform(a: Act) returns (ok: bool)
      requires Valid()
      modifies this
      ensures Valid() && waiters == old(waiters) && old(made) <= made && old(taken) <= taken
      ensures old(Tidy()) && Orderly(a) ==>
        Tidy() && Keeps(old(pending), old(taken), old(nextPromise), pending, taken, nextPromise)
      ensures (State(), ok) == Performed(Env(), old(State()), a)
      decreases a, 0
    {
      match a {
        case Dispatch(sig, decodes, listener) =>
          var handed;
          ok, handed := DispatchMethod(sig, decodes, listener);
        case Nested(methods, during) =>
          var reply := Wait(methods, during);
          ok := reply.Some?;
        case Closing(closing) =>
          isClosing := closing;
          ok := true;
        case Failure =>
          ok := false;
      }
    }

    /** `wait`, returning the method that answered, or None if it raised; each drain brings the next of `during`,
        and when there are no more it times out. However it ends, its methods are as it found them exactly if none of
        them is listed twice; it ends normally only with a reply to one of them; and if no list has duplicates, its
        own or one nested in it, `pending` is as it was but for methods of other waits dispatched meanwhile. */
    method Wait(methods: seq<Sig>, during: seq<Act>) returns (reply: Option<Sig>)
      requires Valid()
      modifies this
      ensures Valid() && waiters == old(waiters) && old(made) <= made && old(taken) <= taken
      ensures (forall m :: m in methods ==> Get(pending, m) == Get(old(pending), m)) <==> Distinct(methods)
      ensures reply.Some? ==> reply.value in methods && (reply.value, old(nextPromise)) in taken
      ensures old(Tidy()) && Distinct(methods) && OrderlyAll(during) ==>
        Tidy() && Keeps(old(pending), old(taken), old(nextPromise), pending, taken, nextPromise)
      ensures (State(), reply) == Waited(Env(), old(State()), methods, during)
      decreases during, 3
    {
      hide Registered, Restored, Saved, InOrder, Sound, Keeps, OrderlyAll;
      assert Sound(pending, taken, made);
      var p, prev := Register(methods);
      var raised := Drain(p, during);
      reply := if raised then None else Some(replies[p]);

      WaitEnds(old(pending), old(taken), old(made), methods, old(waiters), pending, taken, made);
      Restore(methods, prev);
      waiters := old(waiters);
    }

    /** The loop of `wait`. */
    method Drain(p: Promise, during: seq<Act>) returns (raised: bool)
      requires Valid()
      modifies this
      ensures Valid() && waiters == old(waiters) && old(made) <= made && old(taken) <= taken
      ensures !raised ==> p in replies && p < |made| && replies[p] in made[p] && (replies[p], p) in taken
      ensures old(Tidy()) && OrderlyAll(during) ==>
        Tidy() && Keeps(old(pending), old(taken), old(nextPromise), pending, taken, nextPromise)
      ensures (State(), raised) == Drained(Env(), old(State()), p, during)
      decreases during, 2
    {
      ghost var tidy := old(Tidy()) && OrderlyAll(during);
      assert during[0..] == during;
      var i := 0;
      raised := false;
      while p !in replies && !raised
        invariant i <= |during| && Valid() && waiters == old(waiters) && old(made) <= made && old(taken) <= taken
        invariant tidy ==> Tidy() && Keeps(old(pending), old(taken), old(nextPromise), pending, taken, nextPromise)
        invariant if raised then Drained(Env(), old(State()), p, during) == (State(), true)
          else Drained(Env(), old(State()), p, during) == Drained(Env(), State(), p, during[i..])
        decreases |during| - i, !raised
      {
        if i == |during| {
          raised := true;
        } else {
          ghost var p1, t1, n1 := pending, taken, nextPromise;
          assert during[i..][0] == during[i] && during[i..][1..] == during[i + 1..];
          var ok := Perform(during[i]);
          if tidy {
            KeepsTwice(old(pending), old(taken), old(nextPromise), p1, t1, n1, pending, taken, nextPromise);
          }
          raised := !ok;
          i := i + 1;
        }
      }
    }

    /** Puts a new promise under the methods. */
    method Register(methods: seq<Sig>) returns (p: Promise, prev: seq<Option<Promise>>)
      requires Valid()
      modifies this`pending, this`nextPromise, this`made, this`waiters
      ensures p == old(nextPromise) && nextPromise == p + 1 && prev == Saved(old(pending), methods, p, |methods|)
      ensures pending == Registered(old(pending), methods, p, |methods|)
      ensures waiters == old(waiters) + [Waiter(p, methods)]
      ensures Valid() && made == old(made) + [methods] && (old(Tidy()) ==> Tidy())
    {
      WaitBegins(pending, taken, made, methods, waiters);
      p := nextPromise;
      nextPromise := nextPromise + 1;
      prev := [];
      for i := 0 to |methods|
        invariant prev == Saved(old(pending), methods, p, i) && pending == Registered(old(pending), methods, p, i)
        invariant nextPromise == p + 1 && waiters == old(waiters) && made == old(made)
      {
        prev := prev + [Get(pending, methods[i])];
        pending := pending[methods[i] := p];
      }
      made := made + [methods];
      waiters := waiters + [Waiter(p, methods)];
    }

    /** The `finally` of `wait`. */
    method Restore(methods: seq<Sig>, prev: seq<Option<Promise>>)
      requires |prev| == |methods|
      modifies this`pending
      ensures pending == Restored(old(pending), methods, prev, |methods|)
    {
      for j := 0 to |methods|
        invariant pending == Restored(old(pending), methods, prev, j)
      {
        pending := Put(pending, methods[j], prev[j]);
      }
    }
  }

  /** What is pending is for the innermost wait when a wait has begun... */
  lemma PushTidy(p0: Pending, ms: seq<Sig>, p: Promise, waiters: seq<Waiter>)
    ensures var p1 := Registered(p0, ms, p, |ms|);
      && (forall m :: m in p1 <==> m in ms || m in p0)
      && (forall m :: m in p1 ==> p1[m] == if m in ms then p else p0[m])
    ensures var p1 := Registered(p0, ms, p, |ms|);
      (forall m :: m in p0 ==> Innermost(waiters, m) == Some(p0[m])) ==>
      forall m :: m in p1 ==> Innermost(waiters + [Waiter(p, ms)], m) == Some(p1[m])
  {
    assert ms[..|ms|] == ms;
    var p1, more := Registered(p0, ms, p, |ms|), waiters + [Waiter(p, ms)];
    assert more[..|more| - 1] == waiters;
    forall m: Sig
      ensures m in p1 <==> m in ms || m in p0
      ensures m in p1 ==> p1[m] == if m in ms then p else p0[m]
    {
      RegisteredGet(p0, ms, p, |ms|, m);
    }
  }

  /** ... and when a wait without duplicates is over. */
  lemma PopTidy(p0: Pending, p1: Pending, ms: seq<Sig>, p: Promise, waiters: seq<Waiter>)
    requires Distinct(ms)
    requires forall m :: m in p0 ==> Innermost(waiters, m) == Some(p0[m])
    requires forall m :: m in p1 ==> Innermost(waiters + [Waiter(p, ms)], m) == Some(p1[m])
    ensures var p2 := Restored(p1, ms, Saved(p0, ms, p, |ms|), |ms|);
      forall m :: m in p2 ==> Innermost(waiters, m) == Some(p2[m])
  {
    var p2, more := Restored(p1, ms, Saved(p0, ms, p, |ms|), |ms|), waiters + [Waiter(p, ms)];
    assert more[..|more| - 1] == waiters;
    forall m | m in p2 ensures Innermost(waiters, m) == Some(p2[m]) {
      RestoresDistinct(p0, p1, ms, p, m);
    }
  }

  /** What is pending when a wait has ended was so before it, or when it ended, or is its own promise. */
  lemma RestoredIn(before: Pending, between: Pending, ms: seq<Sig>, p: Promise)
    ensures var after := Restored(between, ms, Saved(before, ms, p, |ms|), |ms|);
      forall m :: m in after ==>
        Get(after, m) == Get(before, m) || Get(after, m) == Get(between, m) || (m in ms && after[m] == p)
  {
    var prev := Saved(before, ms, p, |ms|);
    var after := Restored(between, ms, prev, |ms|);
    assert ms[..|ms|] == ms;
    forall m | m in after
      ensures Get(after, m) == Get(before, m) || Get(after, m) == Get(between, m) || (m in ms && after[m] == p)
    {
      if m in ms {
        var i :| 0 <= i < |ms| && ms[i] == m;
        var k := LastOccurrence(ms, i);
        assert ms[k + 1..|ms|] == ms[k + 1..];
        RestoredLast(between, ms, prev, |ms|, k);
        SavedAt(before, ms, p, |ms|, k);
      } else {
        RestoredOther(between, ms, prev, |ms|, m);
      }
    }
  }
}
