/** Numbering: which frames the workers hand to Send, told from the events of a run alone. */
module Numbering {
  import opened Bytes
  import opened Wire
  import opened Protocol

  // How many numbers have been drawn.
  function Draws(es: seq<Event>): nat {
    if es == [] then 0
    else
      var e := es[|es| - 1];
      Draws(es[..|es| - 1]) + if e.Step? && e.a.Number? then 1 else 0
  }

  // The numbers that worker w has drawn, in order.
  function Numbers(es: seq<Event>, w: nat): seq<nat> {
    if es == [] then []
    else
      var e := es[|es| - 1];
      Numbers(es[..|es| - 1], w) + if e.Step? && e.w == w && e.a.Number? then [Draws(es)] else []
  }

  // The times that worker w has read for its frames, in order.
  function Stamps(es: seq<Event>, w: nat): seq<int64> {
    if es == [] then []
    else
      var e := es[|es| - 1];
      Stamps(es[..|es| - 1], w) + if e.Step? && e.w == w && e.a.Stamp? then [e.a.now] else []
  }

  // The frames that worker w has handed to Send, in order.
  function Handed(c: Config, es: seq<Event>, w: nat): seq<Frame>
    requires Run(c, es).Some?
  {
    if es == [] then []
    else
      var init, e := es[..|es| - 1], es[|es| - 1];
      Handed(c, init, w) + if e.Step? && e.w == w && e.a.Send? then [Run(c, init).value.workers[w].pc.req] else []
  }

  // The numbers drawn by the workers are 1, 2, 3, ...: each worker's increase ...
  lemma {:induction false} NumbersIncrease(es: seq<Event>, w: nat)
    ensures forall i :: 0 <= i < |Numbers(es, w)| ==> 1 <= Numbers(es, w)[i] <= Draws(es)
    ensures forall i, j :: 0 <= i < j < |Numbers(es, w)| ==> Numbers(es, w)[i] < Numbers(es, w)[j]
  {
    if es != [] {
      NumbersIncrease(es[..|es| - 1], w);
    }
  }

  // ... and every one of them belongs to exactly one worker.
  lemma {:induction false} NumbersPartition(es: seq<Event>, n: nat) returns (w: nat)
    requires 1 <= n <= Draws(es)
    ensures n in Numbers(es, w) && forall v: nat :: n in Numbers(es, v) ==> v == w
  {
    var init, e := es[..|es| - 1], es[|es| - 1];
    if n <= Draws(init) {
      w := NumbersPartition(init, n);
    } else {
      w := e.w;
      forall v: nat | n in Numbers(es, v)
        ensures v == w
      {
        NumbersIncrease(init, v);
        assert v != e.w ==> Numbers(es, v) == Numbers(init, v);
      }
    }
  }

  // The frame a worker is about to hand over carries its newest number and time.
  predicate AtPlace(c: Config, w: nat, pc: PC, ids: seq<nat>, ts: seq<int64>, fs: seq<Frame>) {
    && |ids| == |fs| + (if pc.Drawn? || pc.Numbered? then 1 else 0)
    && |ts| == |fs| + (if pc.Numbered? then 1 else 0)
    && (forall k :: 0 <= k < |ids| ==> ids[k] < TWO_64)
    && (forall k :: 0 <= k < |fs| ==> fs[k] == Request(c, w, ids[k], ts[k]))
    && (pc.Drawn? ==> pc.id == ids[|fs|])
    && (pc.Numbered? ==> pc.req == Request(c, w, ids[|fs|], ts[|fs|]))
  }

  lemma StepKeepsPlace(c: Config, w: nat, id: nat, wk: Worker, a: Action, ids: seq<nat>, ts: seq<int64>, fs: seq<Frame>)
    requires Ready(wk, a) && (a.Number? ==> id < TWO_64) && AtPlace(c, w, wk.pc, ids, ts, fs)
    ensures AtPlace(c, w, NextPC(c, w, id, wk, a), if a.Number? then ids + [id] else ids,
                    if a.Stamp? then ts + [a.now] else ts, if a.Send? then fs + [wk.pc.req] else fs)
  {
    match a {
      case Recv(_, res) =>
      case _ =>
    }
  }

  lemma {:induction false} PlaceOf(c: Config, es: seq<Event>, w: nat)
    requires Run(c, es).Some? && w < c.workers
    ensures var s := Run(c, es).value;
      s.seqNo == Draws(es) && |s.workers| == c.workers
      && AtPlace(c, w, s.workers[w].pc, Numbers(es, w), Stamps(es, w), Handed(c, es, w))
    decreases |es|
  {
    if es != [] {
      var init, e := es[..|es| - 1], es[|es| - 1];
      PlaceOf(c, init, w);
      if e.Step? && e.w == w {
        var s := Run(c, init).value;
        StepKeepsPlace(c, w, s.seqNo + 1, s.workers[w], e.a, Numbers(init, w), Stamps(init, w), Handed(c, init, w));
      }
    }
  }

  // Every run, whatever the channels do: the k-th frame that a worker hands to Send is the request with the
  // k-th number it drew and the k-th time it read, and it has handed over one for every number it drew,
  // except the one it may be preparing.
  lemma RequestsAreNumbered(c: Config, es: seq<Event>, w: nat)
    requires Run(c, es).Some? && w < c.workers
    ensures Draws(es) == Run(c, es).value.seqNo < TWO_64
    ensures var ids, ts, fs := Numbers(es, w), Stamps(es, w), Handed(c, es, w);
      |fs| <= |ts| <= |ids| <= |fs| + 1
      && forall k :: 0 <= k < |fs| ==> ids[k] < TWO_64 && fs[k] == Request(c, w, ids[k], ts[k])
  {
    PlaceOf(c, es, w);
    DrawsBounded(c, es);
  }

  lemma RequestIs(c: Config, w: nat, id: uint64, now: int64)
    ensures var f := Request(c, w, id, now);
      f.seqID == id && f.sendTSNS == now && f.payload == c.payload
      && f.msgType == (if c.mode.Latency? then MSG_REQ else MSG_FLOOD)
      && f.channelID == w % (if c.channelCount > 1 then c.channelCount else 1) % TWO_16
  {
    RemainderIs(w, if c.channelCount > 1 then c.channelCount else 1);
  }

  // What the k-th of these frames carries: the number, the time, the payload of the run, the type of its mode,
  // and the channel that the worker's index stands for.
  lemma HandedFields(c: Config, es: seq<Event>, w: nat, k: nat)
    requires Run(c, es).Some? && w < c.workers && k < |Handed(c, es, w)|
    ensures k < |Numbers(es, w)| && k < |Stamps(es, w)|
    ensures var f := Handed(c, es, w)[k];
      f.seqID == Numbers(es, w)[k] && f.sendTSNS == Stamps(es, w)[k] && f.payload == c.payload
      && f.msgType == (if c.mode.Latency? then MSG_REQ else MSG_FLOOD)
      && f.channelID == w % (if c.channelCount > 1 then c.channelCount else 1) % TWO_16
  {
    RequestsAreNumbered(c, es, w);
    RequestIs(c, w, Numbers(es, w)[k], Stamps(es, w)[k]);
  }

  lemma {:induction false} DrawsBounded(c: Config, es: seq<Event>)
    requires Run(c, es).Some?
    ensures Draws(es) == Run(c, es).value.seqNo < TWO_64
    decreases |es|
  {
    if es != [] {
      DrawsBounded(c, es[..|es| - 1]);
    }
  }

  // No two frames that are handed to Send carry the same number.
  lemma HandedOnce(c: Config, es: seq<Event>, v: nat, i: nat, w: nat, j: nat)
    requires Run(c, es).Some? && v < c.workers && w < c.workers
    requires i < |Handed(c, es, v)| && j < |Handed(c, es, w)|
    requires Handed(c, es, v)[i].seqID == Handed(c, es, w)[j].seqID
    ensures v == w && i == j
  {
    RequestsAreNumbered(c, es, v);
    RequestsAreNumbered(c, es, w);
    NumbersIncrease(es, v);
    NumbersIncrease(es, w);
    var n := Numbers(es, v)[i];
    assert n in Numbers(es, v) && n in Numbers(es, w);
    var u := NumbersPartition(es, n);
  }

  // What has been sent with success has been handed to Send.
  lemma {:induction false} SentWasHanded(c: Config, es: seq<Event>, w: nat)
    requires Run(c, es).Some? && w < c.workers
    ensures |Run(c, es).value.workers| == c.workers
    ensures forall f :: f in Run(c, es).value.workers[w].ses.sent ==> f in Handed(c, es, w)
    decreases |es|
  {
    if es != [] {
      SentWasHanded(c, es[..|es| - 1], w);
    }
  }
}
