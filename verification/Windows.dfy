// Why the key numbers of honest messages always fall in the receiver's two-key
// windows: the numbers of one direction of a conversation, over order-preserving
// channels that may lose messages.
module Windows {
  import opened Bookkeeping

  // x sends to y; ts are the numbers of the messages still on their way.
  ghost predicate Near(x: Core, y: Core)
  {
    && (y.their == x.our - 1 || y.their == x.our)
    && (!y.oldKnown ==> y.their == x.our - 1)
    && x.c00.send == 0
  }

  ghost predicate InFlight(x: Core, y: Core, ts: seq<Triple>)
  {
    forall k :: 0 <= k < |ts| ==>
      && y.their - 1 <= ts[k].sender <= x.our - 1
      && (!y.oldKnown ==> y.their <= ts[k].sender)
      && y.our - 1 <= ts[k].recipient <= x.their
  }

  ghost predicate InOrder(ts: seq<Triple>)
  {
    forall i, j :: 0 <= i < j < |ts| ==>
      && ts[i].sender <= ts[j].sender && ts[i].recipient <= ts[j].recipient
      && (ts[i].sender == ts[j].sender && ts[i].recipient == ts[j].recipient ==> ts[i].ctr < ts[j].ctr)
  }

  // The session as the receiver numbers it.
  function Receiving(t: Triple): Pair
  {
    Pair(t.recipient, t.sender)
  }

  ghost predicate Ahead(x: Core, y: Core, ts: seq<Triple>)
  {
    forall k :: 0 <= k < |ts| ==>
      && 1 <= ts[k].ctr
      && (InWindow(y, Receiving(ts[k])) ==> CellFor(y, Receiving(ts[k])).rcv < ts[k].ctr)
      && (ts[k].sender == x.our - 1 && ts[k].recipient == x.their ==> ts[k].ctr <= x.c10.send)
  }

  // What y remembers having received is what x has sent: nothing for keys x does not
  // send with yet.
  ghost predicate Behind(x: Core, y: Core)
  {
    forall p :: InWindow(y, p) ==>
      && (p.their >= x.our || p.our > x.their ==> CellFor(y, p).rcv == 0)
      && (p == Pair(x.their, x.our - 1) ==> CellFor(y, p).rcv <= x.c10.send)
  }

  ghost predicate OneWay(x: Core, y: Core, ts: seq<Triple>)
  {
    Near(x, y) && InFlight(x, y, ts) && InOrder(ts) && Ahead(x, y, ts) && Behind(x, y)
  }

  // ------------------------------------------------------- the sender acts

  function Next(x: Core): Triple
  {
    Triple(x.our - 1, x.their, x.c10.send + 1)
  }

  lemma SendKeeps(x: Core, y: Core, ts: seq<Triple>)
    requires OneWay(x, y, ts) && y.our - 1 <= x.their
    ensures OneWay(SendStep(x), y, ts + [Next(x)])
  {
  }

  // The sender's own rotations, caused by what it receives.
  lemma SenderMarks(x: Core, y: Core, ts: seq<Triple>, p: Pair, ctr: nat)
    requires OneWay(x, y, ts) && InWindow(x, p)
    ensures OneWay(Marked(x, p, ctr), y, ts)
  {
  }

  lemma SenderRow(x: Core, y: Core, ts: seq<Triple>, r: Cell, s: Cell)
    requires OneWay(x, y, ts) && y.their == x.our && r.send == 0
    ensures OneWay(RowStep(x, r, s), y, ts)
  {
  }

  lemma SenderColumn(x: Core, y: Core, ts: seq<Triple>, r: Cell, s: Cell)
    requires OneWay(x, y, ts) && r.send == 0 && s.send == 0
    ensures OneWay(ColumnStep(x, r, s), y, ts)
  {
  }

  // ----------------------------------------------------- the receiver acts

  lemma ReceiverSends(x: Core, y: Core, ts: seq<Triple>)
    requires OneWay(x, y, ts)
    ensures OneWay(x, SendStep(y), ts)
  {
    assert forall p :: InWindow(SendStep(y), p) ==> InWindow(y, p) && CellFor(SendStep(y), p).rcv == CellFor(y, p).rcv;
  }

  lemma HeadInWindow(x: Core, y: Core, ts: seq<Triple>)
    requires OneWay(x, y, ts) && ts != [] && x.their <= y.our
    ensures InWindow(y, Receiving(ts[0])) && CellFor(y, Receiving(ts[0])).rcv < ts[0].ctr
  {
  }

  lemma LoseHead(x: Core, y: Core, ts: seq<Triple>)
    requires OneWay(x, y, ts) && ts != []
    ensures OneWay(x, y, ts[1..])
  {
  }

  lemma ReceiverMarks(x: Core, y: Core, ts: seq<Triple>)
    requires OneWay(x, y, ts) && ts != [] && InWindow(y, Receiving(ts[0]))
    ensures OneWay(x, Marked(y, Receiving(ts[0]), ts[0].ctr), ts[1..])
  {
  }

  lemma ReceiverRow(x: Core, y: Core, ts: seq<Triple>, r: Cell, s: Cell)
    requires OneWay(x, y, ts) && r.rcv == 0 && s.rcv == 0
    requires forall k :: 0 <= k < |ts| ==> y.our <= ts[k].recipient
    ensures OneWay(x, RowStep(y, r, s), ts)
  {
  }

  lemma ReceiverColumn(x: Core, y: Core, ts: seq<Triple>, r: Cell, s: Cell)
    requires OneWay(x, y, ts) && r.rcv == 0 && s.rcv == 0 && y.their < x.our
    requires forall k :: 0 <= k < |ts| ==> y.their <= ts[k].sender
    ensures OneWay(x, ColumnStep(y, r, s), ts)
  {
  }
}
