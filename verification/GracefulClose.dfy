/**
 Sessions and their KCP nodes together: what a local close that finished in time tells about
 the peer.
 */
module GracefulClose {
  import opened EndpointSpec
  import opened KcpMachine
  import opened KcpPair
  import opened KcpTheorems
  import opened SessionTable

  /** One step of a pair whose first node is a session's: a deed of the session, or a move of the peer. */
  datatype Joint = Ours(deed: Deed, index: nat) | Theirs(action: Action)

  function MoveOf(j: Joint): Move {
    match j
    case Ours(Submitted(message), _) => Move(true, Submit(message))
    case Ours(Flushing(now, resend, probe), _) => Move(true, Flush(now, resend, probe))
    case Ours(Arrived(_), index) => Move(true, Deliver(index))
    case Ours(Drained, _) => Move(true, Drain)
    case Theirs(action) => Move(false, action)
  }

  function MovesOf(js: seq<Joint>): seq<Move> { seq(|js|, i requires 0 <= i < |js| => MoveOf(js[i])) }

  /** The session's deeds among the first `n` steps. */
  function DeedsOf(js: seq<Joint>, n: nat): seq<Deed>
    requires n <= |js|
  {
    if n == 0 then []
    else DeedsOf(js, n - 1) + if js[n - 1].Ours? then [js[n - 1].deed] else []
  }

  /** Whatever arrives at the session was sent by the peer. */
  ghost predicate Genuine(pa: Params, pb: Params, js: seq<Joint>)
    requires pa.Valid() && pb.Valid()
  {
    forall n :: 0 <= n < |js| ==> GenuineAt(pa, pb, js, n)
  }

  ghost predicate GenuineAt(pa: Params, pb: Params, js: seq<Joint>, n: nat)
    requires pa.Valid() && pb.Valid() && n < |js|
  {
    Arrives(Run(Wrapping, pa, pb, MovesOf(js), n), js[n])
  }

  predicate Arrives(p: Pair, j: Joint) {
    j.Ours? && j.deed.Arrived? ==> j.index < |p.b.out| && p.b.out[j.index] == j.deed.packet
  }

  lemma JointStep(p: Pair, j: Joint)
    requires p.a.kcp.params.Valid() && p.b.kcp.params.Valid() && Arrives(p, j)
    ensures Step(Wrapping, p, MoveOf(j)).a == if j.Ours? then Do(p.a, j.deed) else p.a
  {
    if j.Ours? { DeedIsMove(p.a, j.deed, p.b, j.index); }
  }

  lemma OneMoreDeed(pa: Params, deeds: seq<Deed>, d: Deed)
    requires pa.Valid()
    ensures After(pa, deeds + [d]) == Do(After(pa, deeds), d)
  {
    assert (deeds + [d])[..|deeds|] == deeds;
  }

  lemma RunJoint(pa: Params, pb: Params, js: seq<Joint>, n: nat)
    requires pa.Valid() && pb.Valid() && n < |js|
    requires Arrives(Run(Wrapping, pa, pb, MovesOf(js), n), js[n])
    ensures var a := Run(Wrapping, pa, pb, MovesOf(js), n).a;
            Run(Wrapping, pa, pb, MovesOf(js), n + 1).a == if js[n].Ours? then Do(a, js[n].deed) else a
  {
    JointStep(Run(Wrapping, pa, pb, MovesOf(js), n), js[n]);
    assert MovesOf(js)[n] == MoveOf(js[n]);
  }

  /** The session's deeds are one side of a run of the pair. */
  lemma {:induction false} DeedsAreARun(pa: Params, pb: Params, js: seq<Joint>, n: nat)
    requires pa.Valid() && pb.Valid() && Genuine(pa, pb, js) && n <= |js|
    ensures Run(Wrapping, pa, pb, MovesOf(js), n).a == After(pa, DeedsOf(js, n))
  {
    if n == 0 {
    } else {
      DeedsAreARun(pa, pb, js, n - 1);
      assert GenuineAt(pa, pb, js, n - 1);
      RunJoint(pa, pb, js, n - 1);
      DeedsExtend(pa, js, n - 1);
    }
  }

  lemma DeedsExtend(pa: Params, js: seq<Joint>, n: nat)
    requires pa.Valid() && n < |js|
    ensures var a := After(pa, DeedsOf(js, n));
            After(pa, DeedsOf(js, n + 1)) == if js[n].Ours? then Do(a, js[n].deed) else a
  {
    if js[n].Ours? {
      OneMoreDeed(pa, DeedsOf(js, n), js[n].deed);
    } else {
      assert DeedsOf(js, n + 1) == DeedsOf(js, n);
    }
  }

  /** A joint run in which the session did what its log says, and the peer whatever it likes. */
  ghost predicate Played(s: Session, pb: Params, js: seq<Joint>) {
    var pa := s.node.kcp.params;
    && pa.Valid() && pb.Valid() && Genuine(pa, pb, js) && Timely(pa, pb, MovesOf(js))
    && DeedsOf(js, |js|) == s.deeds
  }

  /**
   Graceful close: when a session of the table that was closed locally finished before its deadline,
   its last message was the Close, the peer had accepted every segment of every message including
   that one, and a peer with nothing left in its buffers has handed them all over.  The network may
   have lost, repeated and reordered packets, as long as it made none up.
   */
  lemma CloseReachesPeer(c: SessionTable.Config, tb: Table, clock: nat, f: Finished, pb: Params, js: seq<Joint>)
    requires c.Valid() && TableOk(c, tb, clock) && f in tb.finished && !DeadlineHit(f.session, f.at)
    requires Played(f.session, pb, js)
    ensures f.session.closeQueued && CloseIsLast(f.session)
    ensures var pa, moves := f.session.node.kcp.params, MovesOf(js);
            var q := Run(Unbounded, pa, pb, moves, |moves|);
            var p := Run(Wrapping, pa, pb, moves, |moves|);
            && p.a == f.session.node
            && HasAll(q.a, q.b)
            && (p.b.kcp.rcv.buf == [] && p.b.kcp.rcv.queue == [] ==> p.b.got == f.session.node.sent)
  {
    assert Graceful(c, f);
    var pa := f.session.node.kcp.params;
    DeedsAreARun(pa, pb, js, |js|);
    QuiescentMeansAccepted(pa, pb, MovesOf(js), true);
  }
}
