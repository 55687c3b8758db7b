/**
 One worker and its handler as the rest of the system sees them: what a step of theirs needs and changes.
 The steps of one session, taken by themselves, are a run of the system.
 */
module Solo {
  import opened Bytes
  import opened Wire
  import opened Pipes
  import opened Links
  import opened Protocol
  import opened Metrics

  // What a step of worker w or of its handler can see and change, and the channel calls made so far.
  datatype Local = Local(
    wk: Worker, seqNo: nat, clock: int64, tally: Tally, puts: seq<PutCall>, gots: seq<GotCall>)

  // What the system shows of the session; the calls are those of l.
  function View(s: State, w: nat, l: Local): Local
    requires w < |s.workers|
  {
    Local(s.workers[w], s.seqNo, s.clock, s.tally, l.puts, l.gots)
  }

  // The channel calls of a step.
  function PutOf(wk: Worker, a: Action): seq<PutCall>
    requires Ready(wk, a)
  {
    match a
    case Send(after, err) => [Put(EncodeDiscardingError(wk.pc.req), after, err)]
    case AmfSend(after, err) => [Put(wk.ses.amf.buf, after, err)]
    case _ => []
  }

  function GotOf(a: Action): seq<GotCall> {
    match a
    case Recv(after, res) => [Got(after, res)]
    case AmfRecv(after, raw) => [Got(after, Success(raw))]
    case _ => []
  }

  predicate Can(l: Local, a: Action) {
    Ready(l.wk, a) && InRange(l.seqNo, a)
  }

  function Take(c: Config, w: nat, l: Local, a: Action): Local
    requires Can(l, a)
  {
    Local(Worker(NextPC(c, w, l.seqNo + 1, l.wk, a), NextSession(l.wk, a)),
          if a.Number? then l.seqNo + 1 else l.seqNo,
          if a.Stamp? || a.Measure? then a.now else l.clock,
          Tallied(l.tally, OpOf(l.wk.pc, a)),
          l.puts + PutOf(l.wk, a),
          l.gots + GotOf(a))
  }

  function Walk(c: Config, w: nat, l: Local, steps: seq<Action>): Option<Local> {
    if steps == [] then Some(l)
    else
      var before := Walk(c, w, l, steps[..|steps| - 1]);
      if before.Some? && Can(before.value, steps[|steps| - 1]) then Some(Take(c, w, before.value, steps[|steps| - 1]))
      else None
  }

  lemma WalkOn(c: Config, w: nat, l: Local, steps: seq<Action>, m: Local, a: Action)
    requires Walk(c, w, l, steps) == Some(m) && Can(m, a)
    ensures Walk(c, w, l, steps + [a]) == Some(Take(c, w, m, a))
  {
    assert (steps + [a])[..|steps|] == steps;
  }

  // A session can take a step by itself exactly when the system can, whatever the rest of the system is
  // doing, and it has the same effect on all that both of them see.
  lemma SoloStepIsSystemStep(c: Config, s: State, w: nat, l: Local, a: Action)
    requires w < |s.workers| && View(s, w, l) == l
    ensures Can(l, a) <==> Possible(s, Step(w, a))
    ensures Can(l, a) ==>
      var s', l' := Protocol.Apply(c, s, Step(w, a)), Take(c, w, l, a);
      |s'.workers| == |s.workers| && View(s', w, l') == l'
      && forall v :: 0 <= v < |s.workers| && v != w ==> s'.workers[v] == s.workers[v]
  {
  }

  function StepsOf(w: nat, steps: seq<Action>): (es: seq<Event>)
    ensures |es| == |steps|
  {
    seq(|steps|, i requires 0 <= i < |steps| => Step(w, steps[i]))
  }

  lemma StepsOfLast(w: nat, steps: seq<Action>)
    requires steps != []
    ensures StepsOf(w, steps) == StepsOf(w, steps[..|steps| - 1]) + [Step(w, steps[|steps| - 1])]
  {
  }

  // A walk is a run of the system, from every state in which the session is what it was.
  lemma {:induction false} WalkIsRun(c: Config, s: State, w: nat, l: Local, steps: seq<Action>)
    requires w < |s.workers| && View(s, w, l) == l && Walk(c, w, l, steps).Some?
    ensures var end, m := RunFrom(c, s, StepsOf(w, steps)), Walk(c, w, l, steps).value;
      end.Some? && |end.value.workers| == |s.workers| && View(end.value, w, m) == m
      && forall v :: 0 <= v < |s.workers| && v != w ==> end.value.workers[v] == s.workers[v]
    decreases |steps|
  {
    if steps != [] {
      var init, a := steps[..|steps| - 1], steps[|steps| - 1];
      WalkIsRun(c, s, w, l, init);
      StepsOfLast(w, steps);
      assert StepsOf(w, steps)[..|init|] == StepsOf(w, init);
      SoloStepIsSystemStep(c, RunFrom(c, s, StepsOf(w, init)).value, w, Walk(c, w, l, init).value, a);
    }
  }

  // A session that has not begun.
  function Start(t: Transport): Local {
    Local(Fresh(t), 0, 0, EMPTY, [], [])
  }

  // From the start, a walk of one session is a run.
  lemma WalkFromStart(c: Config, w: nat, steps: seq<Action>, m: Local)
    requires w < c.workers && Walk(c, w, Start(c.transport), steps) == Some(m)
    ensures var end := Run(c, StepsOf(w, steps));
      end.Some? && |end.value.workers| == c.workers && View(end.value, w, m) == m
  {
    WalkIsRun(c, Init(c), w, Start(c.transport), steps);
  }

  lemma WalkLast(c: Config, w: nat, l: Local, init: seq<Action>, b: Action)
    ensures Walk(c, w, l, init + [b]) ==
      match Walk(c, w, l, init)
      case Some(m) => if Can(m, b) then Some(Take(c, w, m, b)) else None
      case None => None
  {
    assert (init + [b])[..|init|] == init;
  }

  lemma {:induction false} WalkBehind(c: Config, w: nat, l: Local, a: Action, steps: seq<Action>)
    requires Can(l, a)
    ensures Walk(c, w, l, [a] + steps) == Walk(c, w, Take(c, w, l, a), steps)
    decreases |steps|
  {
    if steps == [] {
      assert [a] + steps == [] + [a];
      WalkOn(c, w, l, [], l, a);
    } else {
      var init, b := steps[..|steps| - 1], steps[|steps| - 1];
      WalkBehind(c, w, l, a, init);
      WalkLast(c, w, l, [a] + init, b);
      WalkLast(c, w, Take(c, w, l, a), init, b);
      assert steps == init + [b] && [a] + steps == ([a] + init) + [b];
    }
  }

  // A worker that has just opened its channel, before anything else has happened.
  function Opened(t: Transport): Local {
    Local(Worker(Idle, Fresh(t).ses), 0, 0, EMPTY, [], [])
  }

  lemma WalkFromOpened(c: Config, w: nat, steps: seq<Action>, m: Local)
    requires w < c.workers && Walk(c, w, Opened(c.transport), steps) == Some(m)
    ensures var end := Run(c, StepsOf(w, [Open(true)] + steps));
      end.Some? && |end.value.workers| == c.workers && View(end.value, w, m) == m
  {
    assert Take(c, w, Start(c.transport), Open(true)) == Opened(c.transport);
    WalkBehind(c, w, Start(c.transport), Open(true), steps);
    WalkFromStart(c, w, [Open(true)] + steps, m);
  }
}
