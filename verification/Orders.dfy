/** Orders, their packed identifiers, and the sequencer the identifiers are drawn from
    (core/Order.hpp, core/GlobalSequencer.hpp). */
module Orders {

  const TWO_31 := 0x8000_0000
  const TWO_32 := 0x1_0000_0000
  const TWO_64 := 0x1_0000_0000_0000_0000

  type uint32 = x: int | 0 <= x < TWO_32
  type uint64 = x: int | 0 <= x < TWO_64
  type int32 = x: int | -TWO_31 <= x < TWO_31

  datatype Option<+T> = None | Some(value: T)

  datatype Side = Buy | Sell {
    function Opposite(): Side {
      if this == Buy then Sell else Buy
    }
  }

  /** `client` is the text of the eight-byte client field up to its first NUL. */
  datatype Order = Order(id: uint64, price: uint32, volume: uint32, side: Side, client: string) {
    predicate IsValid() {
      volume != 0 && price != 0 && client != ""
    }

    function Timestamp(): uint32 {
      Unpack(id).1
    }
  }

  // ----- Packed identifiers -----

  function Pack(id: uint32, ts: uint32): uint64 {
    id * TWO_32 + ts
  }

  function Unpack(idNs: uint64): (uint32, uint32) {
    (idNs / TWO_32, idNs % TWO_32)
  }

  /** Packing and unpacking are inverse to each other, so an identifier is exactly a pair of 32-bit parts. */
  lemma PackUnpack(id: uint32, ts: uint32, idNs: uint64)
    ensures Unpack(Pack(id, ts)) == (id, ts)
    ensures Pack(Unpack(idNs).0, Unpack(idNs).1) == idNs
  {
    assert Pack(id, ts) / TWO_32 == id;
  }

  // ----- Construction of an order from a sequencer draw -----

  /** What a bounded C-string copy of at most seven characters leaves in the client field. */
  function ClientField(text: string): (field: string)
    ensures |field| <= 7 && '\0' !in field && field <= text
    ensures field == text || |field| == 7 || text[|field|] == '\0'
  {
    ClientPrefix(text, 7)
  }

  function ClientPrefix(text: string, room: nat): (field: string)
    ensures |field| <= room && '\0' !in field && field <= text
    ensures field == text || |field| == room || text[|field|] == '\0'
  {
    if room == 0 || text == "" || text[0] == '\0' then ""
    else [text[0]] + ClientPrefix(text[1..], room - 1)
  }

  /** The order built from a 64-bit draw, of which the identifier keeps the low 32 bits. */
  function NewOrderValue(id: uint32, price: uint32, volume: uint32, side: Side, client: string, draw: uint64): Order {
    Order(Pack(id, draw % TWO_32), price, volume, side, ClientField(client))
  }

  /** The draw with sequence number `seqNo`: 64-bit addition wraps. */
  function DrawAt(epoch: uint64, seqNo: nat): uint64 {
    (epoch + seqNo) % TWO_64
  }

  class GlobalSequencer {
    const epoch: uint64
    var counter: uint64
    // Number of draws so far, unbounded; `counter` is its low 64 bits.
    ghost var drawn: nat

    ghost predicate Valid()
      reads this
    {
      counter == drawn % TWO_64
    }

    constructor (epoch: uint64)
      ensures Valid() && drawn == 0 && this.epoch == epoch
    {
      this.epoch := epoch;
      counter := 0;
      drawn := 0;
    }

    method NextTimestampNs() returns (draw: uint64)
      requires Valid()
      modifies this
      ensures Valid() && drawn == old(drawn) + 1
      ensures draw == DrawAt(epoch, old(drawn)) == (epoch + old(drawn)) % TWO_64
    {
      var seqNo := counter;
      draw := (epoch + seqNo) % TWO_64;
      DrawsIgnoreWrap(epoch, drawn, TWO_64);
      counter := (counter + 1) % TWO_64;
      NextResidue(drawn, TWO_64);
      drawn := drawn + 1;
    }
  }

  lemma DrawsIgnoreWrap(epoch: nat, n: nat, m: nat)
    requires m > 0
    ensures (epoch + n % m) % m == (epoch + n) % m
  {
    ModOfShift(epoch + n % m, n / m, m);
    assert n == n / m * m + n % m;
  }

  lemma NextResidue(n: nat, m: nat)
    requires m > 0
    ensures (n % m + 1) % m == (n + 1) % m
  {
    ModOfShift(n % m + 1, n / m, m);
    assert n == n / m * m + n % m;
  }

  lemma {:induction false} ModOfShift(x: nat, k: nat, m: nat)
    requires m > 0
    ensures (x + k * m) % m == x % m
  {
    if k > 0 {
      ModOfShift(x, k - 1, m);
      assert x + k * m == (x + (k - 1) * m) + m;
      ModOnce(x + (k - 1) * m, m);
    }
  }

  lemma ModOnce(y: nat, m: nat)
    requires m > 0
    ensures (y + m) % m == y % m
  {
    DivModUnique(y + m, y / m + 1, y % m, m);
  }

  lemma DivModUnique(x: int, q: int, r: int, m: int)
    requires x == q * m + r && 0 <= r < m
    ensures x / m == q && x % m == r
  {
    var d := x / m - q;
    assert x == x / m * m + x % m;
    assert d * m == r - x % m;
    MultipleOutOfRange(d, m);
  }

  /** A nonzero multiple of m is at least m away from zero. */
  lemma MultipleOutOfRange(d: int, m: int)
    requires m > 0
    ensures d > 0 ==> d * m >= m
    ensures d < 0 ==> d * m <= -m
  {
    if d > 0 {
      assert (d - 1) * m >= 0;
    } else if d < 0 {
      assert (-d - 1) * m >= 0;
    }
  }

  // ----- Freshness of identifiers -----

  datatype Request = Request(id: uint32, price: uint32, volume: uint32, side: Side, client: string)

  /** The orders built by a linearised sequence of requests, whoever issued them: request k takes draw first + k. */
  function BuildAll(epoch: uint64, first: nat, requests: seq<Request>): (orders: seq<Order>)
    ensures |orders| == |requests|
    ensures forall k :: 0 <= k < |orders| ==> orders[k] == BuildOne(epoch, first + k, requests[k])
  {
    seq(|requests|, k requires 0 <= k < |requests| => BuildOne(epoch, first + k, requests[k]))
  }

  function BuildOne(epoch: uint64, seqNo: nat, r: Request): Order {
    NewOrderValue(r.id, r.price, r.volume, r.side, r.client, DrawAt(epoch, seqNo))
  }

  lemma TimestampOfDraw(epoch: uint64, seqNo: nat, r: Request)
    ensures BuildOne(epoch, seqNo, r).Timestamp() == (epoch + seqNo) % TWO_32
  {
    var n := epoch + seqNo;
    var low := n % TWO_64;
    assert n == low + n / TWO_64 * TWO_32 * TWO_32;
    ModOfShift(low, n / TWO_64 * TWO_32, TWO_32);
    assert n % TWO_32 == low % TWO_32;
    PackUnpack(r.id, low % TWO_32, 0);
  }

  ghost predicate PairwiseDistinctIds(orders: seq<Order>) {
    forall i, j :: 0 <= i < j < |orders| ==> orders[i].id != orders[j].id
  }

  /** Up to 2^32 orders drawn from one sequencer have different identifiers, whatever client ids they carry. */
  lemma FreshIds(epoch: uint64, first: nat, requests: seq<Request>)
    requires |requests| <= TWO_32
    ensures PairwiseDistinctIds(BuildAll(epoch, first, requests))
  {
    var orders := BuildAll(epoch, first, requests);
    forall i, j | 0 <= i < j < |orders|
      ensures orders[i].id != orders[j].id
    {
      TimestampOfDraw(epoch, first + i, requests[i]);
      TimestampOfDraw(epoch, first + j, requests[j]);
      CloseResiduesDiffer(epoch + first + i, epoch + first + j, TWO_32);
    }
  }

  lemma CloseResiduesDiffer(x: nat, y: nat, m: nat)
    requires x < y < x + m
    ensures x % m != y % m
  {
    if x % m == y % m {
      var d := y / m - x / m;
      assert x == x / m * m + x % m && y == y / m * m + y % m;
      assert y - x == d * m;
      MultipleOutOfRange(d, m);
      assert false;
    }
  }

  /** The bound is tight: 2^32 draws later the same client id gets the same identifier again. */
  lemma FreshIdsIsTight(epoch: uint64, first: nat, r: Request, s: Request)
    ensures BuildOne(epoch, first, r).id == BuildOne(epoch, first + TWO_32, s).id <==> r.id == s.id
  {
    TimestampOfDraw(epoch, first, r);
    TimestampOfDraw(epoch, first + TWO_32, s);
    ModOnce(epoch + first, TWO_32);
    var t := (epoch + first) % TWO_32;
    var a, b := BuildOne(epoch, first, r), BuildOne(epoch, first + TWO_32, s);
    assert a.id == Pack(r.id, t) by { PackUnpack(0, 0, a.id); PackUnpack(r.id, DrawAt(epoch, first) % TWO_32, 0); }
    assert b.id == Pack(s.id, t) by {
      PackUnpack(0, 0, b.id); PackUnpack(s.id, DrawAt(epoch, first + TWO_32) % TWO_32, 0);
    }
  }

  /** Timestamps order as issued exactly when the low 32 bits do not wrap within the sequence of draws. */
  lemma TimestampsInOrder(epoch: uint64, first: nat, requests: seq<Request>)
    requires |requests| >= 1
    ensures InTimestampOrder(BuildAll(epoch, first, requests)) <==> (epoch + first) % TWO_32 + |requests| <= TWO_32
  {
    var orders := BuildAll(epoch, first, requests);
    var base, n := epoch + first, |requests|;
    if base % TWO_32 + n <= TWO_32 {
      forall k | 0 <= k < n
        ensures orders[k].Timestamp() == base % TWO_32 + k
      {
        TimestampOfDraw(epoch, first + k, requests[k]);
        NoWrap(base, k, TWO_32);
      }
    } else {
      // The draw that wraps has timestamp zero and is not the first one.
      var w := TWO_32 - base % TWO_32;
      TimestampOfDraw(epoch, first + w, requests[w]);
      DivModUnique(base + w, base / TWO_32 + 1, 0, TWO_32);
      assert orders[w].Timestamp() == 0;
      assert !(orders[0].Timestamp() < orders[w].Timestamp());
    }
  }

  ghost predicate InTimestampOrder(orders: seq<Order>) {
    forall i, j :: 0 <= i < j < |orders| ==> orders[i].Timestamp() < orders[j].Timestamp()
  }

  lemma NoWrap(base: nat, k: nat, m: nat)
    requires m > 0 && base % m + k < m
    ensures (base + k) % m == base % m + k
  {
    ModOfShift(base % m + k, base / m, m);
    assert base + k == base % m + k + base / m * m;
    SmallMod(base % m + k, m);
  }

  lemma SmallMod(x: nat, m: nat)
    requires x < m
    ensures x % m == x
  {
  }

  // ----- Comparators -----

  type Comparator = (Order, Order) -> bool

  predicate BetterPrice(side: Side, p: uint32, q: uint32) {
    if side == Buy then p > q else p < q
  }

  /** The two comparators as written: on equal prices the larger, that is the newer, timestamp goes first. */
  predicate NewestFirst(side: Side, a: Order, b: Order) {
    if a.price == b.price then a.Timestamp() > b.Timestamp() else BetterPrice(side, a.price, b.price)
  }

  /** The comparators with the tie broken as their comment says: first in, first out. */
  predicate OldestFirst(side: Side, a: Order, b: Order) {
    if a.price == b.price then a.Timestamp() < b.Timestamp() else BetterPrice(side, a.price, b.price)
  }

  ghost predicate StrictWeakOrder(less: Comparator) {
    && (forall a: Order :: !less(a, a))
    && (forall a: Order, b: Order, c: Order :: less(a, b) && less(b, c) ==> less(a, c))
    && (forall a: Order, b: Order, c: Order :: !less(a, b) && !less(b, c) ==> !less(a, c))
  }

  /** What the matching engine needs of a comparator: it is one for a sorted container, a better price goes
      first, and the volume plays no part. */
  ghost predicate PriceFirst(side: Side, less: Comparator) {
    && StrictWeakOrder(less)
    && (forall a: Order, b: Order :: BetterPrice(side, a.price, b.price) ==> less(a, b))
    && (forall a: Order, b: Order, v: uint32 ::
          less(a.(volume := v), b) == less(a, b) && less(b, a.(volume := v)) == less(b, a))
  }

  function AsWritten(side: Side): Comparator {
    (a: Order, b: Order) => NewestFirst(side, a, b)
  }

  function Fifo(side: Side): Comparator {
    (a: Order, b: Order) => OldestFirst(side, a, b)
  }

  lemma BothComparatorsArePriceFirst(side: Side)
    ensures PriceFirst(side, AsWritten(side))
    ensures PriceFirst(side, Fifo(side))
  {
  }
}
