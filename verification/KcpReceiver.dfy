/** What incoming data does to the receiving side, on numbers that never wrap. */
module KcpReceiver {
  import opened KcpMachine
  import opened KcpPair

  /** What the receiver holds it keeps, and its queue only grows by the next fragments. */
  ghost predicate Extends(r: ReceiveSide, t: ReceiveSide, known: seq<Fragment>) {
    && r.nxt <= t.nxt <= |known|
    && t.queue == r.queue + known[r.nxt..t.nxt]
    && forall n: nat :: Held(r, n) ==> Held(t, n)
  }

  function Moved(r: ReceiveSide): ReceiveSide
    requires r.buf != []
  {
    r.(nxt := r.nxt + 1, queue := r.queue + [r.buf[0].fragment], buf := r.buf[1..])
  }

  lemma MovedExtends(wnd: U16, r: ReceiveSide, known: seq<Fragment>)
    requires ReceiverOk(r, wnd, known)
    requires r.buf != [] && r.buf[0].sn == r.nxt && |r.queue| < wnd
    ensures ReceiverOk(Moved(r), wnd, known) && Extends(r, Moved(r), known)
  {
    var t := Moved(r);
    forall n: nat | Held(r, n) ensures Held(t, n) {
      if n > r.nxt {
        var i :| 0 <= i < |r.buf| && r.buf[i].sn == n;
        assert t.buf[i - 1].sn == n;
      }
    }
    assert known[r.nxt..t.nxt] == [known[r.nxt]];
  }

  lemma ExtendsTransitive(r: ReceiveSide, t: ReceiveSide, u: ReceiveSide, known: seq<Fragment>)
    requires Extends(r, t, known) && Extends(t, u, known)
    ensures Extends(r, u, known)
  {
    assert known[r.nxt..t.nxt] + known[t.nxt..u.nxt] == known[r.nxt..u.nxt];
  }

  lemma ExtendsItself(r: ReceiveSide, t: ReceiveSide, known: seq<Fragment>)
    requires r.nxt <= |known| && t.nxt == r.nxt && t.queue == r.queue
    requires forall n: nat :: Held(r, n) ==> Held(t, n)
    ensures Extends(r, t, known)
  {
    assert known[r.nxt..r.nxt] == [];
  }

  lemma {:induction false} MoveBufExtends(wnd: U16, r: ReceiveSide, known: seq<Fragment>)
    requires ReceiverOk(r, wnd, known)
    ensures ReceiverOk(MoveBuf(Unbounded, wnd, r), wnd, known)
    ensures Extends(r, MoveBuf(Unbounded, wnd, r), known)
    ensures MoveBuf(Unbounded, wnd, r).acks == r.acks
    decreases |r.buf|
  {
    if r.buf != [] && r.buf[0].sn == r.nxt && |r.queue| < wnd {
      MovedExtends(wnd, r, known);
      MoveBufExtends(wnd, Moved(r), known);
      ExtendsTransitive(r, Moved(r), MoveBuf(Unbounded, wnd, r), known);
    } else {
      ExtendsItself(r, r, known);
    }
  }

  /** A repeated number was in the buffer already; a free slot is its place in the order. */
  lemma {:induction false} SlotIsPlace(buf: seq<Numbered>, sn: nat, n: nat)
    requires n <= |buf| && SortedNumbered(buf)
    requires forall i :: n <= i < |buf| ==> buf[i].sn > sn
    ensures match FindSlot(Unbounded, buf, sn, n)
            case Repeated => exists i :: 0 <= i < |buf| && buf[i].sn == sn
            case Free(k) =>
              && (forall i :: 0 <= i < k ==> buf[i].sn < sn)
              && (forall i :: k <= i < |buf| ==> buf[i].sn > sn)
  {
    if n == 0 || buf[n - 1].sn <= sn {
    } else {
      SlotIsPlace(buf, sn, n - 1);
    }
  }

  lemma InsertExtends(wnd: U16, r: ReceiveSide, x: Numbered, known: seq<Fragment>)
    requires ReceiverOk(r, wnd, known)
    requires r.nxt <= x.sn < r.nxt + wnd && x.sn < |known| && x.fragment == known[x.sn]
    ensures ReceiverOk(r.(buf := Insert(Unbounded, r.buf, x)), wnd, known)
    ensures Extends(r, r.(buf := Insert(Unbounded, r.buf, x)), known)
    ensures Held(r.(buf := Insert(Unbounded, r.buf, x)), x.sn)
  {
    SlotIsPlace(r.buf, x.sn, |r.buf|);
    match FindSlot(Unbounded, r.buf, x.sn, |r.buf|)
    case Repeated =>
      ExtendsItself(r, r, known);
    case Free(k) =>
      SplicedOk(wnd, r, k, x, known);
      var t := r.(buf := r.buf[..k] + [x] + r.buf[k..]);
      assert t.buf[k] == x;
      forall n: nat | Held(r, n) && n >= r.nxt ensures Held(t, n) {
        var i :| 0 <= i < |r.buf| && r.buf[i].sn == n;
        assert t.buf[if i < k then i else i + 1].sn == n;
      }
      ExtendsItself(r, t, known);
  }

  lemma SplicedOk(wnd: U16, r: ReceiveSide, k: nat, x: Numbered, known: seq<Fragment>)
    requires ReceiverOk(r, wnd, known) && k <= |r.buf|
    requires forall i :: 0 <= i < k ==> r.buf[i].sn < x.sn
    requires forall i :: k <= i < |r.buf| ==> r.buf[i].sn > x.sn
    requires r.nxt <= x.sn < r.nxt + wnd && x.sn < |known| && x.fragment == known[x.sn]
    ensures ReceiverOk(r.(buf := r.buf[..k] + [x] + r.buf[k..]), wnd, known)
  {
    var after := r.buf[..k] + [x] + r.buf[k..];
    SplicedSorted(r.buf, k, x);
    forall i | 0 <= i < |after|
      ensures r.nxt <= after[i].sn < r.nxt + wnd && after[i].sn < |known| && after[i].fragment == known[after[i].sn]
    {
      assert after[i] == (if i < k then r.buf[i] else if i == k then x else r.buf[i - 1]);
    }
  }

  lemma SplicedSorted(buf: seq<Numbered>, k: nat, x: Numbered)
    requires SortedNumbered(buf) && k <= |buf|
    requires forall i :: 0 <= i < k ==> buf[i].sn < x.sn
    requires forall i :: k <= i < |buf| ==> buf[i].sn > x.sn
    ensures SortedNumbered(buf[..k] + [x] + buf[k..])
  {
    var after := buf[..k] + [x] + buf[k..];
    forall i, j | 0 <= i < j < |after| ensures after[i].sn < after[j].sn {
      assert after[i] == (if i < k then buf[i] else if i == k then x else buf[i - 1]);
      assert after[j] == (if j < k then buf[j] else if j == k then x else buf[j - 1]);
    }
  }

  /**
   A genuine segment leaves the receiver with the same stream, more of it, and every
   number it is about to acknowledge in its possession.
   */
  lemma AcceptExtends(wnd: U16, r: ReceiveSide, seg: Segment, known: seq<Fragment>)
    requires ReceiverOk(r, wnd, known) && DataTrue(seg, known) && AcksHeld(r)
    ensures ReceiverOk(Accept(Unbounded, wnd, r, seg), wnd, known)
    ensures Extends(r, Accept(Unbounded, wnd, r, seg), known)
    ensures AcksHeld(Accept(Unbounded, wnd, r, seg))
  {
    var t := Accept(Unbounded, wnd, r, seg);
    if t == r {
      ExtendsItself(r, r, known);
    } else {
      var acked := r.(acks := r.acks + [Ack(seg.sn, seg.ts)]);
      assert forall n: nat :: Held(r, n) ==> Held(acked, n);
      ExtendsItself(r, acked, known);
      if seg.sn >= r.nxt {
        var x := Numbered(seg.sn, Fragment(seg.frg, seg.data));
        InsertExtends(wnd, acked, x, known);
        var inserted := acked.(buf := Insert(Unbounded, acked.buf, x));
        MoveBufExtends(wnd, inserted, known);
        ExtendsTransitive(acked, inserted, t, known);
        ExtendsTransitive(r, acked, t, known);
        assert Held(t, seg.sn);
      }
    }
  }
}
