/**
 Any number of goroutines calling Send on one kernel session: the write mutex keeps the
 frames on the wire whole, in the order in which the mutex was taken.
 */
module SendLock {
  import opened Bytes
  import opened Framing

  // A goroutine outside Send, waiting for the mutex, or in the write loop with done bytes written.
  datatype Thread = Outside | Waiting(buf: seq<byte>) | Sending(buf: seq<byte>, done: nat)

  // History: one entry per acquisition of the mutex, with the bytes it has put on the wire so far.
  datatype Entry = Entry(tid: nat, buf: seq<byte>, done: nat)

  datatype State = State(threads: map<nat, Thread>, mutex: Option<nat>, wire: seq<byte>, log: seq<Entry>)

  datatype Event =
    | Call(t: nat, buf: seq<byte>)
    | Acquire(t: nat)
    | Write(t: nat, n: nat)
    | Fail(t: nat, n: nat)
    | Return(t: nat)

  const INIT: State := State(map[], None, [], [])

  function Of(s: State, t: nat): Thread {
    if t in s.threads then s.threads[t] else Outside
  }

  // What lets goroutine e.t take the step; the mutex is consulted only where Lock blocks.
  predicate Enabled(s: State, e: Event) {
    var th := Of(s, e.t);
    match e
    case Call(_, _) => th.Outside?
    case Acquire(_) => th.Waiting? && s.mutex.None?
    case Write(_, n) => th.Sending? && 0 < n <= |th.buf| - th.done
    case Fail(_, n) => th.Sending? && th.done < |th.buf| && n <= |th.buf| - th.done
    case Return(_) => th.Sending? && th.done == |th.buf|
  }

  // Credits n written bytes to the newest acquisition.
  function Credit(log: seq<Entry>, n: nat): seq<Entry> {
    if log == [] then log else log[|log| - 1 := log[|log| - 1].(done := log[|log| - 1].done + n)]
  }

  function Put(s: State, t: nat, n: nat): State
    requires Of(s, t).Sending? && Of(s, t).done + n <= |Of(s, t).buf|
  {
    var th := Of(s, t);
    s.(wire := s.wire + th.buf[th.done..th.done + n],
       threads := s.threads[t := th.(done := th.done + n)],
       log := Credit(s.log, n))
  }

  function Unlock(s: State, t: nat): State {
    s.(threads := s.threads[t := Outside], mutex := None)
  }

  function Apply(s: State, e: Event): State
    requires Enabled(s, e)
  {
    match e
    case Call(t, buf) => s.(threads := s.threads[t := Waiting(buf)])
    case Acquire(t) =>
      var buf := Of(s, t).buf;
      s.(threads := s.threads[t := Sending(buf, 0)], mutex := Some(t), log := s.log + [Entry(t, buf, 0)])
    case Write(t, n) => Put(s, t, n)
    case Fail(t, n) => Unlock(Put(s, t, n), t)
    case Return(t) => Unlock(s, t)
  }

  function Exec(es: seq<Event>): Option<State> {
    if es == [] then Some(INIT)
    else
      var before := Exec(es[..|es| - 1]);
      if before.Some? && Enabled(before.value, es[|es| - 1]) then Some(Apply(before.value, es[|es| - 1])) else None
  }

  function AcquireOrder(es: seq<Event>): seq<nat> {
    if es == [] then []
    else
      var e := es[|es| - 1];
      AcquireOrder(es[..|es| - 1]) + if e.Acquire? then [e.t] else []
  }

  function Tids(log: seq<Entry>): seq<nat> {
    seq(|log|, i requires 0 <= i < |log| => log[i].tid)
  }

  function Bufs(log: seq<Entry>): seq<seq<byte>> {
    seq(|log|, i requires 0 <= i < |log| => log[i].buf)
  }

  // What each acquisition wrote.
  function Parts(log: seq<Entry>): seq<seq<byte>>
    requires forall i :: 0 <= i < |log| ==> log[i].done <= |log[i].buf|
  {
    seq(|log|, i requires 0 <= i < |log| => log[i].buf[..log[i].done])
  }

  function Concat(parts: seq<seq<byte>>): seq<byte> {
    if parts == [] then [] else Concat(parts[..|parts| - 1]) + parts[|parts| - 1]
  }

  lemma {:induction false} ConcatIsWrapAll(parts: seq<seq<byte>>)
    ensures Concat(parts) == WrapAll(Kernel, parts)
    decreases |parts|
  {
    if parts != [] {
      var init, last := parts[..|parts| - 1], parts[|parts| - 1];
      ConcatIsWrapAll(init);
      WrapAllAppend(Kernel, init, [last]);
      assert parts == init + [last];
      assert WrapAll(Kernel, [last]) == last + WrapAll(Kernel, []);
    }
  }

  predicate Sane(log: seq<Entry>) {
    forall i :: 0 <= i < |log| ==> log[i].done <= |log[i].buf|
  }

  // Only the mutex holder is in the write loop, and the newest entry is its own.
  ghost predicate Inv(s: State) {
    && Sane(s.log)
    && (forall t: nat :: Of(s, t).Sending? <==> s.mutex == Some(t))
    && (s.mutex.Some? ==>
      s.log != [] &&
      var th, e := Of(s, s.mutex.value), s.log[|s.log| - 1];
      e == Entry(s.mutex.value, th.buf, th.done))
    && s.wire == Concat(Parts(s.log))
  }

  lemma PutKeepsWire(s: State, t: nat, n: nat)
    requires Inv(s) && Of(s, t).Sending? && Of(s, t).done + n <= |Of(s, t).buf|
    ensures Inv(Put(s, t, n))
  {
    var s', th, last := Put(s, t, n), Of(s, t), |s.log| - 1;
    assert Parts(s'.log)[..last] == Parts(s.log)[..last];
    assert th.buf[..th.done] + th.buf[th.done..th.done + n] == th.buf[..th.done + n];
    Associative(Concat(Parts(s.log)[..last]), th.buf[..th.done], th.buf[th.done..th.done + n]);
  }

  lemma StepKeepsInv(s: State, e: Event)
    requires Inv(s) && Enabled(s, e)
    ensures Inv(Apply(s, e))
  {
    match e {
      case Acquire(t) =>
        var log := Apply(s, e).log;
        assert Parts(log)[..|log| - 1] == Parts(s.log);
      case Write(t, n) => PutKeepsWire(s, t, n);
      case Fail(t, n) => PutKeepsWire(s, t, n);
      case _ =>
    }
  }

  // Every run: the wire is one prefix per acquisition, in acquisition order, never interleaved.
  lemma {:induction false} NeverInterleaved(es: seq<Event>)
    requires Exec(es).Some?
    ensures var s := Exec(es).value; Inv(s) && Tids(s.log) == AcquireOrder(es)
    decreases |es|
  {
    if es != [] {
      NeverInterleaved(es[..|es| - 1]);
      StepKeepsInv(Exec(es[..|es| - 1]).value, es[|es| - 1]);
    }
  }

  lemma {:induction false} ClosedStays(es: seq<Event>, n: nat)
    requires Exec(es).Some? && n <= |es| && Exec(es[..n]).Some? && Exec(es[..n]).value.mutex.None?
    ensures var was, s := Exec(es[..n]).value, Exec(es).value;
      was.log <= s.log && (s.mutex.Some? ==> |was.log| < |s.log|)
    decreases |es|
  {
    NeverInterleaved(es);
    if n == |es| {
      assert es[..n] == es;
    } else {
      var init := es[..|es| - 1];
      assert init[..n] == es[..n];
      NeverInterleaved(init);
      ClosedStays(init, n);
    }
  }

  lemma {:induction false} FrontRuns(es: seq<Event>, n: nat)
    requires Exec(es).Some? && n <= |es|
    ensures Exec(es[..n]).Some?
    decreases |es|
  {
    if n == |es| {
      assert es[..n] == es;
    } else {
      FrontRuns(es[..|es| - 1], n);
      assert es[..|es| - 1][..n] == es[..n];
    }
  }

  lemma OverAfter(es: seq<Event>)
    requires Exec(es).Some? && es != [] && (es[|es| - 1].Return? || es[|es| - 1].Fail?)
    ensures var s := Exec(es).value; Of(s, es[|es| - 1].t).Outside? && s.mutex.None?
  {
  }

  // A Send is over when it returns or a write fails: the goroutine is outside, the mutex is free, and what the
  // Send and those before it have put on the wire is all they will ever put.
  lemma SendIsOver(es: seq<Event>, k: nat)
    requires Exec(es).Some? && k < |es| && (es[k].Return? || es[k].Fail?)
    ensures Exec(es[..k + 1]).Some?
    ensures var was := Exec(es[..k + 1]).value;
      Of(was, es[k].t).Outside? && was.mutex.None? && was.log <= Exec(es).value.log
  {
    var front := es[..k + 1];
    FrontRuns(es, k + 1);
    OverAfter(front);
    ClosedStays(es, k + 1);
  }

  // How many entries are closed: all of them, or all but the holder's.
  ghost function Closed(s: State): (n: nat)
    requires Inv(s)
    ensures n <= |s.log|
  {
    if s.mutex.None? then |s.log| else |s.log| - 1
  }

  lemma {:induction false} ClosedAreWhole(es: seq<Event>)
    requires Exec(es).Some? && forall e :: e in es ==> !e.Fail?
    ensures var s := Exec(es).value;
      Inv(s) && forall i :: 0 <= i < Closed(s) ==> s.log[i].done == |s.log[i].buf|
    decreases |es|
  {
    NeverInterleaved(es);
    if es != [] {
      ClosedAreWhole(es[..|es| - 1]);
    }
  }

  // While no write has failed: whole messages in acquisition order, then a prefix of the holder's own.
  lemma WholeFramesInOrder(es: seq<Event>)
    requires Exec(es).Some? && forall e :: e in es ==> !e.Fail?
    ensures var s := Exec(es).value;
      Inv(s) && Tids(s.log) == AcquireOrder(es) &&
      var whole := Bufs(s.log)[..Closed(s)];
      s.wire == WrapAll(Kernel, whole)
        + if s.mutex.None? then [] else Of(s, s.mutex.value).buf[..Of(s, s.mutex.value).done]
  {
    NeverInterleaved(es);
    ClosedAreWhole(es);
    var s := Exec(es).value;
    var whole := Bufs(s.log)[..Closed(s)];
    forall i | 0 <= i < Closed(s)
      ensures Parts(s.log)[i] == whole[i]
    {
      assert s.log[i].done == |s.log[i].buf|;
    }
    assert Parts(s.log)[..Closed(s)] == whole;
    ConcatIsWrapAll(whole);
    if s.mutex.None? {
      assert Parts(s.log) == whole;
    }
  }

  // Whole messages, then the newest one, which is read exactly when all of it is on the wire.
  lemma ParseWithLast(whole: seq<seq<byte>>, buf: seq<byte>, done: nat)
    requires (forall m :: m in whole ==> Deliverable(Kernel, m)) && Deliverable(Kernel, buf) && done <= |buf|
    ensures ParseAll(Kernel, WrapAll(Kernel, whole) + buf[..done]) == whole + if done == |buf| then [buf] else []
  {
    ParseWrapped(Kernel, whole, buf[..done]);
    if done == |buf| {
      ParseCons(Kernel, buf, []);
      assert buf[..done] == Wrap(Kernel, buf) + [];
    } else {
      CutShortIsIncomplete(Kernel, buf, done);
    }
  }

  // The receiver of such a wire reads exactly the messages that are complete, in acquisition order.
  lemma ReceiverSeesWholeFrames(es: seq<Event>)
    requires Exec(es).Some? && forall e :: e in es ==> !e.Fail?
    requires forall i :: 0 <= i < |Exec(es).value.log| ==> Deliverable(Kernel, Exec(es).value.log[i].buf)
    ensures var s := Exec(es).value;
      Inv(s) &&
      ParseAll(Kernel, s.wire) == Bufs(s.log)[..Closed(s)] +
        if s.mutex.Some? && Of(s, s.mutex.value).done == |Of(s, s.mutex.value).buf|
        then [Of(s, s.mutex.value).buf] else []
  {
    WholeFramesInOrder(es);
    var s := Exec(es).value;
    var whole := Bufs(s.log)[..Closed(s)];
    if s.mutex.None? {
      ParseWrapped(Kernel, whole, []);
    } else {
      var th := Of(s, s.mutex.value);
      assert s.log[|s.log| - 1].buf == th.buf && s.log[|s.log| - 1].done == th.done;
      ParseWithLast(whole, th.buf, th.done);
    }
  }
}
