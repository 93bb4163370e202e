/** The device registry of server/device_table.c: chains of nodes under 64 bucket heads. Nodes are
    addressed by their allocation number and -1 is the null pointer. */
module DeviceTable {
  import opened Bytes

  const NULL := -1
  const TABLE_BUCKETS := 64

  datatype Device = Device(
    id: U32, session: U32, next: int,
    online: bool, lastSeq: U32, lastSeen: int, packetsOk: U64, packetsBad: U64, lastTemp: I32, lastHumid: I32)

  /** Knuth's multiplicative hash; the product overflows a 32-bit word. */
  function Hash(id: U32): nat {
    id * 2654435761 % 0x1_0000_0000 % 64
  }

  lemma HashInRange(id: U32)
    ensures Hash(id) < TABLE_BUCKETS
  {
  }

  /** The multiplier is odd and 64 divides 2^32, so the hash is a renaming of the low six bits. */
  lemma SameBucket(a: U32, b: U32)
    ensures Hash(a) == Hash(b) <==> a % 64 == b % 64
  {
    HashLowBits(a);
    HashLowBits(b);
    OddMultiplier(a % 64);
    OddMultiplier(b % 64);
  }

  lemma Shift64(n: nat, q: int, m: nat)
    requires n == q * 64 + m
    ensures n % 64 == m % 64
  {
  }

  lemma HashLowBits(id: U32)
    ensures Hash(id) == id % 64 * 49 % 64
  {
    var p, q, r := id * 2654435761, id / 64, id % 64;
    assert p == (q * 2654435761 + r * 41475558) * 64 + r * 49;
    Shift64(p, q * 2654435761 + r * 41475558, r * 49);
    LowBitsKept(p);
  }

  lemma LowBitsKept(p: nat)
    ensures p % 0x1_0000_0000 % 64 == p % 64
  {
    var k := p / 0x1_0000_0000;
    Shift64(p, k * 0x400_0000, p % 0x1_0000_0000);
  }

  lemma OddMultiplier(r: nat)
    requires r < 64
    ensures r * 49 % 64 * 17 % 64 == r
  {
    var k, y := r * 49 / 64, r * 49 % 64;
    assert r * 49 == k * 64 + y;
    assert y * 17 == (13 * r - 17 * k) * 64 + r;
    Shift64(y * 17, 13 * r - 17 * k, r);
  }

  // ---- chains -----------------------------------------------------------------------

  /** A node only ever points to a node allocated before it. */
  ghost predicate Descending(nodes: seq<Device>) {
    forall i :: 0 <= i < |nodes| ==> NULL <= nodes[i].next < i
  }

  /** The nodes met when following `next` from `cur`. */
  ghost function Chain(nodes: seq<Device>, cur: int): set<int>
    requires Descending(nodes) && NULL <= cur < |nodes|
    decreases cur + 1
  {
    if cur == NULL then {} else {cur} + Chain(nodes, nodes[cur].next)
  }

  lemma {:induction false} ChainBelow(nodes: seq<Device>, cur: int)
    requires Descending(nodes) && NULL <= cur < |nodes|
    ensures forall i :: i in Chain(nodes, cur) ==> 0 <= i <= cur
    decreases cur + 1
  {
    if cur != NULL {
      ChainBelow(nodes, nodes[cur].next);
    }
  }

  /** A chain depends only on the pointers of the nodes on it. */
  lemma {:induction false} ChainFrame(nodes: seq<Device>, nodes': seq<Device>, cur: int)
    requires Descending(nodes) && Descending(nodes') && |nodes| <= |nodes'| && NULL <= cur < |nodes|
    requires forall i :: 0 <= i < |nodes| ==> nodes'[i].next == nodes[i].next
    ensures Chain(nodes', cur) == Chain(nodes, cur)
    decreases cur + 1
  {
    if cur != NULL {
      ChainFrame(nodes, nodes', nodes[cur].next);
    }
  }

  // ---- the table --------------------------------------------------------------------

  /** The nodes below `live` that belong in bucket `b`. */
  ghost function Bucket(nodes: seq<Device>, live: nat, b: nat): set<int>
    requires live <= |nodes|
  {
    set i | 0 <= i < live && Hash(nodes[i].id) == b
  }

  /** Every chain holds exactly the linked nodes of its bucket, and no id occurs twice. The nodes
      from `live` on are allocated but not yet linked. */
  ghost predicate Sound(nodes: seq<Device>, buckets: seq<int>, live: nat) {
    && live <= |nodes| && |buckets| == TABLE_BUCKETS && Descending(nodes)
    && (forall b :: 0 <= b < TABLE_BUCKETS ==> NULL <= buckets[b] < live)
    && (forall b :: 0 <= b < TABLE_BUCKETS ==> Chain(nodes, buckets[b]) == Bucket(nodes, live, b))
    && Unique(nodes)
  }

  ghost predicate Unique(nodes: seq<Device>) {
    forall i, j :: 0 <= i < j < |nodes| ==> nodes[i].id != nodes[j].id
  }

  /** `node` is where a lookup of `id` ends: the linked node with that id, or null if there is none. */
  ghost predicate Lookup(nodes: seq<Device>, live: nat, id: U32, node: int)
    requires live <= |nodes|
  {
    if node == NULL then forall i :: 0 <= i < live ==> nodes[i].id != id
    else 0 <= node < live && nodes[node].id == id
  }

  /** A search that has come to `cur` without success has not passed the node it looks for. */
  ghost predicate Scanning(nodes: seq<Device>, live: nat, id: U32, cur: int)
    requires live <= |nodes| && Descending(nodes)
  {
    && NULL <= cur < live
    && forall i :: 0 <= i < live && nodes[i].id == id ==> i in Chain(nodes, cur)
  }

  lemma ScanStarts(nodes: seq<Device>, buckets: seq<int>, live: nat, id: U32)
    requires Sound(nodes, buckets, live)
    ensures Hash(id) < TABLE_BUCKETS && Scanning(nodes, live, id, buckets[Hash(id)])
  {
    HashInRange(id);
    forall i | 0 <= i < live && nodes[i].id == id ensures i in Chain(nodes, buckets[Hash(id)]) {
      assert i in Bucket(nodes, live, Hash(id));
    }
  }

  lemma ScanStep(nodes: seq<Device>, live: nat, id: U32, cur: int)
    requires live <= |nodes| && Descending(nodes) && Scanning(nodes, live, id, cur)
    ensures cur == NULL ==> Lookup(nodes, live, id, NULL)
    ensures cur != NULL && nodes[cur].id == id ==> Lookup(nodes, live, id, cur)
    ensures cur != NULL && nodes[cur].id != id ==> Scanning(nodes, live, id, nodes[cur].next)
  {
  }

  /** Linking the node allocated last at the head of its chain. */
  lemma LinkKeepsSound(nodes: seq<Device>, buckets: seq<int>, node: nat)
    requires Sound(nodes, buckets, node) && |nodes| == node + 1
    requires Hash(nodes[node].id) < TABLE_BUCKETS && nodes[node].next == buckets[Hash(nodes[node].id)]
    ensures Sound(nodes, buckets[Hash(nodes[node].id) := node], node + 1)
  {
    var h := Hash(nodes[node].id);
    var buckets' := buckets[h := node];
    forall b | 0 <= b < TABLE_BUCKETS ensures Chain(nodes, buckets'[b]) == Bucket(nodes, node + 1, b) {
      assert Chain(nodes, buckets[b]) == Bucket(nodes, node, b);
      assert Bucket(nodes, node + 1, b) == Bucket(nodes, node, b) + if b == h then {node} else {};
    }
  }

  /** Allocating a node for an id that is not in the table leaves the table as it was. */
  lemma AllocKeepsSound(nodes: seq<Device>, buckets: seq<int>, d: Device)
    requires Sound(nodes, buckets, |nodes|) && Lookup(nodes, |nodes|, d.id, NULL)
    requires NULL <= d.next < |nodes|
    ensures Sound(nodes + [d], buckets, |nodes|)
  {
    var nodes' := nodes + [d];
    forall b | 0 <= b < TABLE_BUCKETS ensures Chain(nodes', buckets[b]) == Bucket(nodes', |nodes|, b) {
      ChainFrame(nodes, nodes', buckets[b]);
      assert Bucket(nodes', |nodes|, b) == Bucket(nodes, |nodes|, b);
    }
  }

  lemma InsertKeepsSound(nodes: seq<Device>, buckets: seq<int>, d: Device)
    requires Sound(nodes, buckets, |nodes|) && Lookup(nodes, |nodes|, d.id, NULL)
    requires Hash(d.id) < TABLE_BUCKETS && d.next == buckets[Hash(d.id)]
    ensures Sound(nodes + [d], buckets[Hash(d.id) := |nodes|], |nodes| + 1)
  {
    AllocKeepsSound(nodes, buckets, d);
    LinkKeepsSound(nodes + [d], buckets, |nodes|);
  }

  /** Updating the atomic fields of a node leaves the table as it was. */
  lemma UpdateKeepsSound(nodes: seq<Device>, buckets: seq<int>, live: nat, node: nat, d: Device)
    requires Sound(nodes, buckets, live) && node < |nodes|
    requires d.id == nodes[node].id && d.next == nodes[node].next
    ensures Sound(nodes[node := d], buckets, live)
  {
    var nodes' := nodes[node := d];
    forall b | 0 <= b < TABLE_BUCKETS ensures Chain(nodes', buckets[b]) == Bucket(nodes', live, b) {
      ChainFrame(nodes, nodes', buckets[b]);
      assert Bucket(nodes', live, b) == Bucket(nodes, live, b);
    }
  }

  // ---- the operations, uncontended --------------------------------------------------

  function Fresh(id: U32, session: U32, next: int, now: int): Device {
    Device(id, session, next, true, 0, now, 0, 0, 0, 0)
  }

  /** A device as `dt_get_or_create` makes it: online, seen now, with everything else zero. */
  ghost predicate Created(d: Device, id: U32, session: U32, now: int) {
    && d.id == id && d.session == session && d.online && d.lastSeen == now
    && d.lastSeq == d.packetsOk == d.packetsBad == d.lastTemp == d.lastHumid == 0
  }

  /** `find_locked`: the chain walk. */
  method Find(nodes: seq<Device>, buckets: seq<int>, id: U32) returns (d: int)
    requires Sound(nodes, buckets, |nodes|)
    ensures Lookup(nodes, |nodes|, id, d)
  {
    ScanStarts(nodes, buckets, |nodes|, id);
    d := buckets[Hash(id)];
    while d != NULL
      invariant Scanning(nodes, |nodes|, id, d)
      decreases d + 1
    {
      if nodes[d].id == id {
        return;
      }
      d := nodes[d].next;
    }
  }

  class Registry {
    var nodes: seq<Device>
    var buckets: seq<int>
    var deviceCount: U32

    ghost predicate Valid()
      reads this
    {
      Sound(nodes, buckets, |nodes|) && deviceCount == Low32(|nodes|)
    }

    constructor ()
      ensures Valid() && nodes == []
    {
      nodes, buckets, deviceCount := [], seq(TABLE_BUCKETS, _ => NULL), 0;
    }

    /** `dt_get_or_create` called by one thread alone. A known id gets its node and changes
        nothing; a new id gets a new node, at the head of its chain, unless allocation fails. */
    method GetOrCreate(id: U32, session: U32, now: int, allocOk: bool) returns (d: int)
      requires Valid()
      modifies this
      ensures Valid()
      ensures d != NULL ==> 0 <= d < |nodes| && nodes[d].id == id
      ensures d == NULL ==> !allocOk
      ensures if exists i :: 0 <= i < |old(nodes)| && old(nodes)[i].id == id then nodes == old(nodes) && d != NULL
              else if allocOk then d == |old(nodes)| && |nodes| == d + 1
                                   && nodes[..d] == old(nodes) && Created(nodes[d], id, session, now)
              else nodes == old(nodes)
    {
      d := Find(nodes, buckets, id);
      if d != NULL {
        return;
      }
      d := Find(nodes, buckets, id);
      if d != NULL {
        return;
      }
      if !allocOk {
        return;
      }
      d := Insert(id, session, now);
    }

    /** The write-locked insertion of an id that is not in the table. */
    method Insert(id: U32, session: U32, now: int) returns (d: int)
      requires Valid() && Lookup(nodes, |nodes|, id, NULL)
      modifies this
      ensures Valid()
      ensures d == |old(nodes)| && |nodes| == d + 1 && nodes == old(nodes) + [Fresh(id, session, nodes[d].next, now)]
    {
      ScanStarts(nodes, buckets, |nodes|, id);
      var h := Hash(id);
      var device := Fresh(id, session, buckets[h], now);
      InsertKeepsSound(nodes, buckets, device);
      Counts32(|nodes|);
      d := |nodes|;
      nodes := nodes + [device];
      buckets := buckets[h := d];
      deviceCount := Next32(deviceCount);
    }
  }
}
