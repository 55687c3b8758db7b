/** Deadlines of the kernel socket: the poll loop of fdConn. Times are nanoseconds. */
module Deadline {
  import opened Bytes

  const MILLISECOND: nat := 1_000_000

  // How one poll call returned, and when.
  datatype Poll = Interrupted(at: int) | Failed(at: int) | Expired(at: int) | Woke(at: int, hangup: bool, ready: bool)

  datatype Outcome = Ready | TimedOut | Error | StillBlocked

  // Milliseconds for poll: -1 blocks for ever, 0 polls once.
  function PollTimeout(deadline: Option<int>, now: int): int {
    match deadline
    case None => -1
    case Some(dl) =>
      if dl - now <= 0 then 0
      else if (dl - now) / MILLISECOND <= 0 then 1
      else (dl - now) / MILLISECOND
  }

  // A poll that starts at now returns no later than its timeout, and reports expiry exactly then.
  predicate Ideal(p: Poll, now: int, timeout: int) {
    now <= p.at && (timeout >= 0 ==> p.at <= now + timeout * MILLISECOND)
    && (p.Expired? ==> timeout >= 0 && p.at == now + timeout * MILLISECOND)
  }

  // Every poll is ideal and the next one starts when it returns.
  predicate IdealRun(polls: seq<Poll>, deadline: Option<int>, now: int) {
    polls == [] || (Ideal(polls[0], now, PollTimeout(deadline, now)) && IdealRun(polls[1..], deadline, polls[0].at))
  }

  // Interrupts and wakeups with no event of interest decide nothing.
  predicate Idle(p: Poll) {
    p.Interrupted? || (p.Woke? && !p.hangup && !p.ready)
  }

  // The k-th poll is the first that decides, and this is how the wait ends.
  predicate DecidedBy(polls: seq<Poll>, k: nat, r: Outcome, at: int) {
    && k < |polls| && !Idle(polls[k]) && (forall i :: 0 <= i < k ==> Idle(polls[i]))
    && at == polls[k].at
    && (r.Error? <==> polls[k].Failed? || (polls[k].Woke? && polls[k].hangup))
    && (r.TimedOut? <==> polls[k].Expired?)
    && (r.Ready? <==> polls[k].Woke? && polls[k].ready && !polls[k].hangup)
  }

  // When the k-th poll begins.
  function Began(polls: seq<Poll>, k: nat, start: int): int
    requires k <= |polls|
  {
    if k == 0 then start else polls[k - 1].at
  }

  // All polls are idle, or one of them decides.
  ghost predicate Ends(polls: seq<Poll>, start: int, r: Outcome, at: int) {
    && (r.StillBlocked? <==> forall i :: 0 <= i < |polls| ==> Idle(polls[i]))
    && (r.StillBlocked? ==> at == Began(polls, |polls|, start))
    && (!r.StillBlocked? ==> exists k: nat :: DecidedBy(polls, k, r, at))
  }

  // What a poll that expires says of the deadline: it waits for the whole milliseconds that are left, at least
  // one, and not at all when none is left.
  predicate OnTime(deadline: int, began: int, at: int) {
    && (deadline <= began ==> at == began)
    && (began < deadline < began + MILLISECOND ==> at == began + MILLISECOND)
    && (began + MILLISECOND <= deadline ==> deadline - MILLISECOND < at <= deadline)
  }

  class FdConn {
    var readDL: Option<int>
    var writeDL: Option<int>

    constructor ()
      ensures readDL == None && writeDL == None
    {
      readDL, writeDL := None, None;
    }

    method SetReadDeadline(t: Option<int>)
      modifies this`readDL
      ensures readDL == t
    {
      readDL := t;
    }

    method SetWriteDeadline(t: Option<int>)
      modifies this`writeDL
      ensures writeDL == t
    {
      writeDL := t;
    }

    function DeadlineOf(read: bool): Option<int>
      reads this
    {
      if read then readDL else writeDL
    }

    // wait: polls are the results of the successive poll calls, of which it uses as many as it needs.
    method Wait(read: bool, start: int, polls: seq<Poll>) returns (r: Outcome, at: int)
      requires IdealRun(polls, DeadlineOf(read), start)
      ensures at >= start && Ends(polls, start, r, at)
      ensures r.TimedOut? ==> DeadlineOf(read).Some?
      // Accuracy: within a millisecond of the deadline, or at once when it has already passed.
      ensures r.TimedOut? && start <= DeadlineOf(read).value ==>
        DeadlineOf(read).value - MILLISECOND < at < DeadlineOf(read).value + MILLISECOND
      ensures r.TimedOut? && start > DeadlineOf(read).value ==> at == start
      ensures forall k: nat :: r.TimedOut? && DecidedBy(polls, k, r, at) ==>
        OnTime(DeadlineOf(read).value, Began(polls, k, start), at)
      // A wait that is still blocked has outlived its deadline by less than a millisecond.
      ensures r.StillBlocked? && DeadlineOf(read).Some? && start <= DeadlineOf(read).value ==>
        at < DeadlineOf(read).value + MILLISECOND
    {
      at := start;
      var i := 0;
      while i < |polls|
        invariant i <= |polls| && start <= at == Began(polls, i, start) && IdealRun(polls[i..], DeadlineOf(read), at)
        invariant forall k :: 0 <= k < i ==> Idle(polls[k])
        invariant DeadlineOf(read).Some? && start <= DeadlineOf(read).value ==>
          at < DeadlineOf(read).value + MILLISECOND
        invariant DeadlineOf(read).Some? && start > DeadlineOf(read).value ==> at == start
      {
        var p := polls[i];
        assert polls[i..][0] == p && polls[i..][1..] == polls[i + 1..];
        ghost var k := i;
        at := p.at;
        i := i + 1;
        match p {
          case Interrupted(_) =>
          case Failed(_) =>
            assert DecidedBy(polls, k, Error, at);
            return Error, at;
          case Expired(_) =>
            assert DecidedBy(polls, k, TimedOut, at);
            return TimedOut, at;
          case Woke(_, hangup, ready) =>
            if hangup {
              assert DecidedBy(polls, k, Error, at);
              return Error, at;
            }
            if ready {
              assert DecidedBy(polls, k, Ready, at);
              return Ready, at;
            }
        }
      }
      return StillBlocked, at;
    }
  }

  // The deadline of the call's context, or none, replaces whatever deadline an earlier call has left; then the
  // channel waits. Recv arms the read deadline and waits to read, Send the write deadline and waits to write.
  method ArmAndWait(conn: FdConn, read: bool, ctx: Option<int>, start: int, polls: seq<Poll>)
    returns (r: Outcome, at: int)
    requires IdealRun(polls, ctx, start)
    modifies conn
    ensures if read then conn.readDL == ctx && conn.writeDL == old(conn.writeDL)
            else conn.writeDL == ctx && conn.readDL == old(conn.readDL)
    ensures conn.DeadlineOf(read) == ctx && conn.DeadlineOf(!read) == old(conn.DeadlineOf(!read))
    ensures at >= start && Ends(polls, start, r, at)
    ensures ctx.None? ==> !r.TimedOut?
    ensures r.TimedOut? && start <= ctx.value ==> ctx.value - MILLISECOND < at < ctx.value + MILLISECOND
    ensures r.TimedOut? && start > ctx.value ==> at == start
    ensures forall k: nat :: r.TimedOut? && DecidedBy(polls, k, r, at) ==>
      OnTime(ctx.value, Began(polls, k, start), at)
  {
    if read {
      conn.SetReadDeadline(ctx);
    } else {
      conn.SetWriteDeadline(ctx);
    }
    r, at := conn.Wait(read, start, polls);
  }

  // Without a deadline no poll of an ideal run expires, so no wait times out.
  lemma {:induction false} NoDeadlineNoTimeout(polls: seq<Poll>, start: int, r: Outcome, at: int)
    requires IdealRun(polls, None, start) && Ends(polls, start, r, at)
    ensures !r.TimedOut?
  {
    NothingExpires(polls, start);
  }

  lemma {:induction false} NothingExpires(polls: seq<Poll>, now: int)
    requires IdealRun(polls, None, now)
    ensures forall i :: 0 <= i < |polls| ==> !polls[i].Expired?
    decreases |polls|
  {
    if polls != [] {
      NothingExpires(polls[1..], polls[0].at);
      assert forall i :: 0 < i < |polls| ==> polls[i] == polls[1..][i - 1];
    }
  }
}
