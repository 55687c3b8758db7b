/** One end of a session: the channel it hands out, whichever transport it uses. */
module Links {
  import opened Bytes
  import opened Stream
  import opened Framing
  import opened SctpChannel
  import opened Pipes
  import KernelChannel
  import QuicChannel

  // A Send and a Recv, with what they returned and left in the pipe.
  datatype PutCall = Put(msg: seq<byte>, after: Pipe, err: Option<ChannelError>)
  datatype GotCall = Got(after: Pipe, res: Result<seq<byte>, ChannelError>)

  // Where the pipes are after the first n calls.
  function OutAt(t: Transport, puts: seq<PutCall>, n: nat): Pipe
    requires n <= |puts|
  {
    if n == 0 then Content(t, []) else puts[n - 1].after
  }

  function InAt(t: Transport, gots: seq<GotCall>, n: nat): Pipe
    requires n <= |gots|
  {
    if n == 0 then Content(t, []) else gots[n - 1].after
  }

  // A Recv takes from what was there and has arrived since.
  ghost predicate Arrives(t: Transport, was: Pipe, after: Pipe, res: Result<seq<byte>, ChannelError>) {
    exists now :: Grew(was, now) && Takes(t, now, after, res)
  }

  // The i-th call does to its pipe, as the calls before have left it, what Send and Recv promise.
  predicate PutOk(t: Transport, puts: seq<PutCall>, i: nat)
    requires i < |puts|
  {
    Puts(t, OutAt(t, puts, i), puts[i].after, puts[i].msg, puts[i].err)
  }

  ghost predicate GotOk(t: Transport, gots: seq<GotCall>, i: nat)
    requires i < |gots|
  {
    Arrives(t, InAt(t, gots, i), gots[i].after, gots[i].res)
  }

  predicate PutsChain(t: Transport, puts: seq<PutCall>) {
    forall i: nat :: i < |puts| ==> PutOk(t, puts, i)
  }

  ghost predicate GotsChain(t: Transport, gots: seq<GotCall>) {
    forall i: nat :: i < |gots| ==> GotOk(t, gots, i)
  }

  lemma PutsOn(t: Transport, puts: seq<PutCall>, call: PutCall)
    requires PutsChain(t, puts) && Puts(t, OutAt(t, puts, |puts|), call.after, call.msg, call.err)
    ensures PutsChain(t, puts + [call])
  {
    var now := puts + [call];
    forall i: nat | i < |now|
      ensures PutOk(t, now, i)
    {
      PutsFront(t, puts, call, i);
    }
  }

  lemma PutsFront(t: Transport, puts: seq<PutCall>, call: PutCall, i: nat)
    requires i <= |puts| && (i < |puts| ==> PutOk(t, puts, i))
    requires Puts(t, OutAt(t, puts, |puts|), call.after, call.msg, call.err)
    ensures PutOk(t, puts + [call], i)
  {
    assert OutAt(t, puts + [call], i) == OutAt(t, puts, i);
  }

  lemma GotsOn(t: Transport, gots: seq<GotCall>, call: GotCall, before: Pipe)
    requires GotsChain(t, gots) && Grew(InAt(t, gots, |gots|), before) && Takes(t, before, call.after, call.res)
    ensures GotsChain(t, gots + [call])
  {
    var now := gots + [call];
    assert Arrives(t, InAt(t, gots, |gots|), call.after, call.res);
    forall i: nat | i < |now|
      ensures GotOk(t, now, i)
    {
      GotsFront(t, gots, call, i);
    }
  }

  lemma GotsFront(t: Transport, gots: seq<GotCall>, call: GotCall, i: nat)
    requires i <= |gots| && (i < |gots| ==> GotOk(t, gots, i))
    requires Arrives(t, InAt(t, gots, |gots|), call.after, call.res)
    ensures GotOk(t, gots + [call], i)
  {
    assert InAt(t, gots + [call], i) == InAt(t, gots, i);
  }

  // cause is what the read that ended a Recv returned, if one did: a length that is refused ends it, too. The
  // end of the stream may be reported as unexpected.
  predicate CauseOk(res: Result<seq<byte>, ChannelError>, cause: Option<IOError>) {
    match res
    case Success(_) => cause == None
    case Failure(TooLarge(_)) => cause == None
    case Failure(StreamError(e)) => cause == Some(e) || (cause == Some(Eof) && e == UnexpectedEof)
  }

  predicate CausesOk(gots: seq<GotCall>, causes: seq<Option<IOError>>) {
    |causes| == |gots| && forall i :: 0 <= i < |gots| ==> CauseOk(gots[i].res, causes[i])
  }

  class Link {
    // The byte streams are those of the streamed transports, the message connection that of SCTP.
    const transport: Transport
    const inp: Reader
    const out: Writer
    const conn: MessageConn

    // Every call so far, in each direction.
    ghost var puts: seq<PutCall>
    ghost var gots: seq<GotCall>

    // For every Recv, what the read that ended it returned.
    ghost var causes: seq<Option<IOError>>

    // The pipes are where the calls have left them.
    ghost predicate Valid()
      reads this, inp, out, conn
    {
      && inp.Valid() && PutsChain(transport, puts) && GotsChain(transport, gots) && CausesOk(gots, causes)
      && Out() == OutAt(transport, puts, |puts|) && In() == InAt(transport, gots, |gots|)
    }

    // What this end has put.
    ghost function Out(): (p: Pipe)
      reads out, conn`sent
      ensures Fit(transport, p)
    {
      if transport.Streamed? then ByteStream(out.sent) else Packets(conn.sent)
    }

    // What has arrived at this end and not been taken.
    ghost function In(): (p: Pipe)
      requires inp.Valid()
      reads inp, conn`queue
      ensures Fit(transport, p)
    {
      if transport.Streamed? then ByteStream(inp.arrived[inp.pos..]) else Packets(conn.queue)
    }

    // What the last read and the last write under the channel returned.
    ghost function ReadError(): Option<IOError>
      reads this, inp`failed, conn`readFailed
    {
      if transport.Streamed? then inp.failed else conn.readFailed
    }

    ghost function WriteError(): Option<IOError>
      reads this, out`failed, conn`writeFailed
    {
      if transport.Streamed? then out.failed else conn.writeFailed
    }

    // What the read that ended a Recv returned, if a read ended it.
    ghost function Cause(res: Result<seq<byte>, ChannelError>): Option<IOError>
      reads this, inp`failed, conn`readFailed
    {
      if res.Failure? && !res.error.TooLarge? then ReadError() else None
    }

    constructor (t: Transport)
      ensures transport == t && Valid() && puts == [] && gots == [] && causes == []
      ensures fresh(inp) && fresh(out) && fresh(conn)
    {
      transport := t;
      inp := new Reader();
      out := new Writer();
      conn := new MessageConn();
      puts, gots, causes := [], [], [];
      new;
      assert EncodeAll([]) == [];
    }

    method Send(msg: seq<byte>) returns (err: Option<ChannelError>)
      requires Valid()
      modifies this`puts, out, conn`sent, conn`writeFailed
      ensures Valid() && puts == old(puts) + [Put(msg, Out(), err)] && In() == old(In())
      ensures Puts(transport, old(Out()), Out(), msg, err)
      ensures err.Some? && !err.value.TooLarge? ==>
        WriteError().Some? && err.value == StreamError(WriteError().value)
    {
      match transport {
        case Streamed(Kernel) => err := KernelChannel.Send(out, msg);
        case Streamed(Quic) => err := QuicChannel.Send(out, msg);
        case Sctp => err := SctpChannel.Send(conn, msg);
      }
      PutsOn(transport, puts, Put(msg, Out(), err));
      puts := puts + [Put(msg, Out(), err)];
    }

    // The Recv of the transport's channel; before is what has arrived when the message is taken.
    method RecvUnlogged() returns (res: Result<seq<byte>, ChannelError>, ghost before: Pipe)
      requires inp.Valid()
      modifies inp, conn`queue, conn`readFailed
      ensures inp.Valid() && Grew(old(In()), before) && Takes(transport, before, In(), res)
      ensures CauseOk(res, Cause(res))
    {
      ghost var start, was := inp.pos, inp.arrived;
      match transport {
        case Streamed(b) =>
          if b.Kernel? {
            res := KernelChannel.Recv(inp);
          } else {
            res := QuicChannel.Recv(inp);
          }
          before := ByteStream(inp.arrived[start..]);
          assert was[start..] <= inp.arrived[start..];
        case Sctp =>
          ghost var all;
          res, all := SctpChannel.Recv(conn);
          before := Packets(all);
      }
    }

    method Recv() returns (res: Result<seq<byte>, ChannelError>, ghost before: Pipe)
      requires Valid()
      modifies this`gots, this`causes, inp, conn`queue, conn`readFailed
      ensures Valid() && gots == old(gots) + [Got(In(), res)] && Out() == old(Out())
      ensures Grew(old(In()), before) && Takes(transport, before, In(), res)
      ensures causes == old(causes) + [Cause(res)]
      ensures res == Failure(StreamError(Timeout)) <==> Cause(res) == Some(Timeout)
    {
      res, before := RecvUnlogged();
      GotsOn(transport, gots, Got(In(), res), before);
      gots, causes := gots + [Got(In(), res)], causes + [Cause(res)];
    }
  }
}
