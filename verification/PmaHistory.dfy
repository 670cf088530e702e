// The history list of the pma decoders (external/lhasa/lib/pma_common.c): 256 nodes linked both ways in
// a circle, against move-to-front on a sequence.

module PmaHistory {
  import opened Bits

  // ---- move to front, on a sequence ----

  function Without(order: seq<byte>, b: byte): (r: seq<byte>) {
    if order == [] then [] else if order[0] == b then order[1..] else [order[0]] + Without(order[1..], b)
  }

  // The byte comes first, and the others keep their order.
  function MoveToFront(order: seq<byte>, b: byte): (r: seq<byte>) {
    [b] + Without(order, b)
  }

  lemma {:induction false} WithoutAt(order: seq<byte>, b: byte, k: nat)
    requires k < |order| && order[k] == b && b !in order[..k]
    ensures Without(order, b) == order[..k] + order[k + 1..]
  {
    if k > 0 {
      assert order[0] != b;
      assert order[1..][..k - 1] == order[..k][1..];
      WithoutAt(order[1..], b, k - 1);
      assert order[..k] == [order[0]] + order[1..][..k - 1];
    }
  }

  // What the coder on the other side writes: for each byte how far back it is, most recent first.
  function Position(order: seq<byte>, b: byte): (k: nat)
    requires b in order
    ensures k < |order| && order[k] == b && b !in order[..k]
  {
    if order[0] == b then 0
    else
      var k := Position(order[1..], b) + 1;
      assert order[..k] == [order[0]] + order[1..][..k - 1];
      k
  }

  ghost predicate HasAll(order: seq<byte>) {
    forall b: byte :: b in order
  }

  lemma MoveKeepsAll(order: seq<byte>, b: byte)
    requires HasAll(order)
    ensures HasAll(MoveToFront(order, b)) && |MoveToFront(order, b)| == |order|
  {
    WithoutAt(order, b, Position(order, b));
    forall c: byte ensures c in MoveToFront(order, b) {
      var k, m := Position(order, b), Position(order, c);
      assert m < k ==> order[..k][m] == c;
      assert m > k ==> order[k + 1..][m - k - 1] == c;
    }
  }

  function Encode(order: seq<byte>, bytes: seq<byte>): (codes: seq<nat>)
    requires HasAll(order)
    decreases |bytes|
  {
    if bytes == [] then []
    else
      MoveKeepsAll(order, bytes[0]);
      [Position(order, bytes[0])] + Encode(MoveToFront(order, bytes[0]), bytes[1..])
  }

  function Decode(order: seq<byte>, codes: seq<nat>): (bytes: seq<byte>)
    requires HasAll(order) && forall k :: k in codes ==> k < |order|
    decreases |codes|
  {
    if codes == [] then []
    else
      assert codes[0] in codes && forall k :: k in codes[1..] ==> k in codes;
      MoveKeepsAll(order, order[codes[0]]);
      [order[codes[0]]] + Decode(MoveToFront(order, order[codes[0]]), codes[1..])
  }

  lemma {:induction false} DecodeEncode(order: seq<byte>, bytes: seq<byte>)
    requires HasAll(order)
    ensures forall k :: k in Encode(order, bytes) ==> k < |order|
    ensures Decode(order, Encode(order, bytes)) == bytes
    decreases |bytes|
  {
    if bytes != [] {
      MoveKeepsAll(order, bytes[0]);
      DecodeEncode(MoveToFront(order, bytes[0]), bytes[1..]);
    }
  }

  // ---- the linked list ----

  const NODES := 256

  function After(k: nat): nat {
    if k == NODES - 1 then 0 else k + 1
  }

  function BeforeIt(k: nat): nat
    requires k < NODES
  {
    if k == 0 then NODES - 1 else k - 1
  }

  // A permutation of the bytes, with its inverse.
  ghost predicate Permutes(order: seq<byte>, place: seq<nat>) {
    && |order| == NODES && |place| == NODES
    && (forall c :: 0 <= c < NODES ==> place[c] < NODES && order[place[c]] == c)
    && (forall k :: 0 <= k < NODES ==> place[order[k]] == k)
  }

  function InitialOrder(): seq<byte> {
    seq(NODES, k requires 0 <= k < NODES =>
      if k < 96 then 0x20 + k as byte
      else if k < 128 then k - 96
      else if k < 192 then k - 128 + 0xa0
      else if k < 224 then k - 192 + 0x80
      else k)
  }

  // The bytes that stand where one group ends and the next one starts; within a group they count up.
  lemma GroupsInOrder(k: nat)
    requires k < 255
    ensures var o := InitialOrder();
      && o[0] == 0x20 && o[95] == 0x7f && o[96] == 0x00 && o[127] == 0x1f && o[128] == 0xa0 && o[191] == 0xdf
      && o[192] == 0x80 && o[223] == 0x9f && o[224] == 0xe0 && o[255] == 0xff
      && (k !in {95, 127, 191, 223} ==> o[k + 1] == o[k] + 1)
  {
  }

  function InitialPlace(): seq<nat> {
    seq(NODES, c requires 0 <= c < NODES =>
      if c < 0x20 then c + 96
      else if c < 0x80 then c - 0x20
      else if c < 0xa0 then c - 0x80 + 192
      else if c < 0xe0 then c - 0xa0 + 128
      else c)
  }

  function InitialPrev(c: byte): byte {
    if c == 0x7f then 0x00 else if c == 0x1f then 0xa0 else if c == 0xdf then 0x80 else if c == 0x9f then 0xe0
    else if c == 0xff then 0x20 else c + 1
  }

  function InitialNext(c: byte): byte {
    if c == 0x00 then 0x7f else if c == 0xa0 then 0x1f else if c == 0x80 then 0xdf else if c == 0xe0 then 0x9f
    else if c == 0x20 then 0xff else c - 1
  }

  lemma InitialPermutes()
    ensures Permutes(InitialOrder(), InitialPlace())
  {
  }

  lemma InitialLinks(c: byte)
    ensures InitialPlace()[c] < NODES
    ensures InitialPrev(c) == InitialOrder()[After(InitialPlace()[c])]
    ensures InitialNext(c) == InitialOrder()[BeforeIt(InitialPlace()[c])]
  {
  }

  lemma InitialLinked(p: seq<byte>, n: seq<byte>)
    requires |p| == NODES == |n|
    requires forall c :: 0 <= c < NODES ==> p[c] == InitialPrev(c) && n[c] == InitialNext(c)
    ensures Links(p, n, InitialOrder(), InitialPlace()) && InitialOrder()[0] == 0x20
  {
    hide InitialPrev, InitialNext;
    InitialPermutes();
    forall c | 0 <= c < NODES
      ensures p[c] == InitialOrder()[After(InitialPlace()[c])] && n[c] == InitialOrder()[BeforeIt(InitialPlace()[c])]
    {
      InitialLinks(c);
    }
  }

  // Where a byte stands, and which byte stands there, after the one at place k has moved to the front.
  function PlaceMoved(place: seq<nat>, k: nat, c: byte): nat
    requires |place| == NODES
  {
    if place[c] == k then 0 else if place[c] < k then place[c] + 1 else place[c]
  }

  ghost function MovedPlaces(place: seq<nat>, k: nat): (r: seq<nat>)
    requires |place| == NODES
    ensures |r| == NODES
  {
    seq(NODES, c requires 0 <= c < NODES => PlaceMoved(place, k, c))
  }

  function OrderMoved(order: seq<byte>, k: nat, j: nat): byte
    requires |order| == NODES && k < NODES && j < NODES
  {
    if j == 0 then order[k] else if j <= k then order[j - 1] else order[j]
  }

  ghost predicate Links(prev: seq<byte>, next: seq<byte>, order: seq<byte>, place: seq<nat>) {
    && |prev| == NODES && |next| == NODES && Permutes(order, place)
    && (forall c :: 0 <= c < NODES ==> prev[c] == order[After(place[c])])
    && (forall c :: 0 <= c < NODES ==> next[c] == order[BeforeIt(place[c])])
  }

  // The links that an update rewrites, in the order it does it.
  function Unhooked(prev: seq<byte>, next: seq<byte>, b: byte): (r: (seq<byte>, seq<byte>))
    requires |prev| == NODES == |next|
    ensures |r.0| == NODES == |r.1|
  {
    (prev[next[b] := prev[b]], next[prev[b] := next[b]])
  }

  function Hooked(prev: seq<byte>, next: seq<byte>, head: byte, b: byte): (r: (seq<byte>, seq<byte>))
    requires |prev| == NODES == |next|
    ensures |r.0| == NODES == |r.1|
  {
    var last := next[head];
    (prev[b := head][last := b], next[b := last][head := b])
  }

  lemma SamePlace(order: seq<byte>, place: seq<nat>, c: byte, j: nat)
    requires Permutes(order, place) && j < NODES
    ensures c == order[j] <==> place[c] == j
  {
  }

  // The list has 256 nodes; the last one after the unhooking is the 256th, or the 255th if that was the
  // byte itself.
  lemma LastAfterUnhook(prev: seq<byte>, next: seq<byte>, order: seq<byte>, place: seq<nat>, b: byte)
    requires Links(prev, next, order, place) && order[0] != b
    ensures var k := place[b];
      && 0 < k < NODES && order[k] == b && next[b] == order[k - 1] && prev[b] == order[After(k)]
      && Unhooked(prev, next, b).1[order[0]] == order[if k == NODES - 1 then NODES - 2 else NODES - 1]
  {
    SamePlace(order, place, b, 0);
    SamePlace(order, place, order[0], 0);
    SamePlace(order, place, order[0], After(place[b]));
  }

  lemma LinksAt(prev: seq<byte>, next: seq<byte>, order: seq<byte>, place: seq<nat>, c: byte)
    requires Links(prev, next, order, place)
    ensures Permutes(order, place) && |order| == NODES == |place| && |prev| == NODES == |next|
    ensures place[c] < NODES && prev[c] == order[After(place[c])] && next[c] == order[BeforeIt(place[c])]
  {
  }

  lemma HookedAt(prev: seq<byte>, next: seq<byte>, head: byte, b: byte, last: byte, c: byte)
    requires |prev| == NODES == |next| && head != b && last == Unhooked(prev, next, b).1[head]
    ensures var (p, n) := Unhooked(prev, next, b);
      && Hooked(p, n, head, b).0[c] == (if c == last then b else if c == b then head
        else if c == next[b] then prev[b] else prev[c])
      && Hooked(p, n, head, b).1[c] == (if c == head then b else if c == b then last
        else if c == prev[b] then next[b] else next[c])
  {
  }

  // The new links of node c, which stands at place q.
  lemma RelinkedAt(prev: seq<byte>, next: seq<byte>, order: seq<byte>, place: seq<nat>, b: byte, c: byte)
    requires Links(prev, next, order, place) && order[0] != b
    ensures var (p, n) := Unhooked(prev, next, b);
      var (p', n') := Hooked(p, n, order[0], b);
      var k := place[b];
      && k < NODES && place[c] < NODES
      && p'[c] == OrderMoved(order, k, After(PlaceMoved(place, k, c)))
      && n'[c] == OrderMoved(order, k, BeforeIt(PlaceMoved(place, k, c)))
  {
    hide Links, Permutes, Unhooked, Hooked;
    LinksAt(prev, next, order, place, c);
    LinksAt(prev, next, order, place, b);
    LastAfterUnhook(prev, next, order, place, b);
    var k, q := place[b], place[c];
    var last := if k == NODES - 1 then NODES - 2 else NODES - 1;
    HookedAt(prev, next, order[0], b, order[last], c);
    SamePlace(order, place, c, 0);
    SamePlace(order, place, c, k);
    SamePlace(order, place, c, k - 1);
    SamePlace(order, place, c, After(k));
    SamePlace(order, place, c, last);
    LinksMoved(order, k, q, last);
  }

  // The same, by places alone: what follows the node now at place q once the k-th has moved to the front.
  lemma LinksMoved(order: seq<byte>, k: nat, q: nat, last: nat)
    requires |order| == NODES && 0 < k < NODES && q < NODES && last == if k == NODES - 1 then NODES - 2 else NODES - 1
    ensures var m := if q == k then 0 else if q < k then q + 1 else q;
      && OrderMoved(order, k, After(m)) == (if q == last then order[k] else if q == k then order[0]
                                            else if q == k - 1 then order[After(k)] else order[After(q)])
      && OrderMoved(order, k, BeforeIt(m)) == (if q == 0 then order[k] else if q == k then order[last]
                                               else if q == After(k) then order[k - 1] else order[BeforeIt(q)])
  {
  }

  class HistoryLinkedList {
    const prev: array<byte>
    const next: array<byte>
    var historyHead: byte
    ghost var order: seq<byte>     // the bytes from the most recent one back
    ghost var place: seq<nat>

    // One circle in both directions: prev leads to the byte used before, next to the one used after.
    ghost predicate Valid()
      reads this, prev, next
    {
      && prev.Length == NODES && next.Length == NODES && prev != next
      && Links(prev[..], next[..], order, place) && historyHead == order[0]
    }

    // init_history_list: the chain is cut into groups, the printable characters first.
    constructor ()
      ensures Valid() && fresh(prev) && fresh(next) && order == InitialOrder()
    {
      hide Links, InitialOrder, InitialPlace;
      var p, n := GroupedChain();
      InitialLinked(p[..], n[..]);
      prev, next, historyHead := p, n, 0x20;
      order, place := InitialOrder(), InitialPlace();
    }

    static method LinearChain() returns (p: array<byte>, n: array<byte>)
      ensures fresh(p) && fresh(n) && p != n && p.Length == NODES == n.Length
      ensures forall c :: 0 <= c < NODES ==> p[c] == if c == 255 then 0 else c + 1
      ensures forall c :: 0 <= c < NODES ==> n[c] == if c == 0 then 255 else c - 1
    {
      p := new byte[NODES](_ => 0);
      n := new byte[NODES](_ => 0);
      for i := 0 to NODES
        invariant forall c :: 0 <= c < i ==> p[c] == if c == 255 then 0 else c + 1
        invariant forall c :: 0 <= c < i ==> n[c] == if c == 0 then 255 else c - 1
      {
        p[i] := if i == 255 then 0 else i + 1;
        n[i] := if i == 0 then 255 else i - 1;
      }
    }

    static method GroupedChain() returns (p: array<byte>, n: array<byte>)
      ensures fresh(p) && fresh(n) && p != n && p.Length == NODES == n.Length
      ensures forall c :: 0 <= c < NODES ==> p[..][c] == InitialPrev(c) && n[..][c] == InitialNext(c)
    {
      p, n := LinearChain();
      p[0x7f], n[0x00] := 0x00, 0x7f;
      p[0x1f], n[0xa0] := 0xa0, 0x1f;
      p[0xdf], n[0x80] := 0x80, 0xdf;
      p[0x9f], n[0xe0] := 0xe0, 0x9f;
      p[0xff], n[0x20] := 0x20, 0xff;
    }

    // find_in_history_list: the long way round is walked backwards.
    method Find(count: byte) returns (code: byte)
      requires Valid()
      ensures code == order[count]
    {
      code := historyHead;
      if count < 128 {
        for i := 0 to count
          invariant code == order[i]
        {
          code := prev[code];
        }
      } else {
        for i := 0 to NODES - count
          invariant code == order[if i == 0 then 0 else NODES - i]
        {
          code := next[code];
        }
      }
    }

    // The entry leaves its place ...
    method Unhook(b: byte)
      requires prev.Length == NODES == next.Length && prev != next && next[b] != b
      modifies prev, next
      ensures (prev[..], next[..]) == Unhooked(old(prev[..]), old(next[..]), b)
    {
      prev[next[b]] := prev[b];
      next[prev[b]] := next[b];
    }

    // ... and goes between the old head and the last one.
    method Hook(b: byte)
      requires prev.Length == NODES == next.Length && prev != next && historyHead != b
      modifies prev, next
      ensures (prev[..], next[..]) == Hooked(old(prev[..]), old(next[..]), historyHead, b)
    {
      prev[b] := historyHead;
      next[b] := next[historyHead];
      prev[next[historyHead]] := b;
      next[historyHead] := b;
    }

    // update_history_list
    method Update(b: byte)
      requires Valid()
      modifies this, prev, next
      ensures Valid() && order == MoveToFront(old(order), b)
    {
      hide Links, Permutes, Unhooked, Hooked, MoveToFront;
      ghost var p, n := prev[..], next[..];
      LinksAt(p, n, order, place, b);
      if historyHead == b {
        FrontStays(order, place, b);
        return;
      }
      LastAfterUnhook(p, n, order, place, b);
      SamePlace(order, place, b, place[b] - 1);
      Unhook(b);
      Hook(b);
      historyHead := b;
      Relinked(p, n, order, place, b, prev[..], next[..]);
      FrontIs(order, b);
      place := MovedPlaces(place, place[b]);
      order := MoveToFront(order, b);
    }
  }

  lemma FrontIs(order: seq<byte>, b: byte)
    ensures |MoveToFront(order, b)| > 0 && MoveToFront(order, b)[0] == b
  {
  }

  lemma FrontStays(order: seq<byte>, place: seq<nat>, b: byte)
    requires Permutes(order, place) && order[0] == b
    ensures MoveToFront(order, b) == order
  {
    assert [order[0]] + order[1..] == order;
  }

  lemma OrderMovedAt(order: seq<byte>, place: seq<nat>, b: byte, j: nat)
    requires Permutes(order, place) && j < NODES
    ensures |MoveToFront(order, b)| == NODES && MoveToFront(order, b)[j] == OrderMoved(order, place[b], j)
  {
    WithoutAtPlace(order, place, b);
    var k := place[b];
    assert ([b] + order[..k])[if j <= k then j else 0] == OrderMoved(order, k, if j <= k then j else 0);
  }

  lemma MovedPermutes(order: seq<byte>, place: seq<nat>, b: byte)
    requires Permutes(order, place)
    ensures Permutes(MoveToFront(order, b), MovedPlaces(place, place[b]))
  {
    var k := place[b];
    var order', place' := MoveToFront(order, b), MovedPlaces(place, k);
    OrderMovedAt(order, place, b, 0);
    hide MoveToFront;
    forall j | 0 <= j < NODES ensures place'[order'[j]] == j { OrderMovedAt(order, place, b, j); }
    forall c | 0 <= c < NODES ensures place'[c] < NODES && order'[place'[c]] == c {
      OrderMovedAt(order, place, b, place'[c]);
    }
  }

  lemma Relinked(prev: seq<byte>, next: seq<byte>, order: seq<byte>, place: seq<nat>, b: byte,
                 prev': seq<byte>, next': seq<byte>)
    requires Links(prev, next, order, place) && order[0] != b
    requires var (p, n) := Unhooked(prev, next, b); (prev', next') == Hooked(p, n, order[0], b)
    ensures Links(prev', next', MoveToFront(order, b),
                  MovedPlaces(place, place[b]))
  {
    hide Unhooked, Hooked, MoveToFront, OrderMoved, PlaceMoved;
    var k := place[b];
    MovedPermutes(order, place, b);
    var order', place' := MoveToFront(order, b), MovedPlaces(place, k);
    forall c | 0 <= c < NODES
      ensures prev'[c] == order'[After(place'[c])] && next'[c] == order'[BeforeIt(place'[c])]
    {
      RelinkedAt(prev, next, order, place, b, c);
      OrderMovedAt(order, place, b, After(place'[c]));
      OrderMovedAt(order, place, b, BeforeIt(place'[c]));
    }
  }

  lemma WithoutAtPlace(order: seq<byte>, place: seq<nat>, b: byte)
    requires Permutes(order, place)
    ensures MoveToFront(order, b) == [b] + order[..place[b]] + order[place[b] + 1..]
  {
    forall i | 0 <= i < place[b] ensures order[i] != b {
      assert place[order[i]] == i;
    }
    WithoutAt(order, b, place[b]);
  }
}
