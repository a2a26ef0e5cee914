/** The connection table of a comet node (internal/comet/bucket.go, internal/comet/server.go): 256 buckets
    chosen by uid, each a map from "uid:device" to a connection. */
module ConnTable {
  import opened Common
  import opened Keys

  const BUCKETS := 256

  /** A connection as the table sees it. */
  datatype Conn = Conn(handle: nat, authed: bool, lastActive: int)

  type DeviceId = (int64, string)

  /** The conversion to uint64 makes a negative uid positive first. */
  function BucketIndex(uid: int64): (i: nat)
    ensures i < BUCKETS
  {
    (if uid < 0 then uid + UINT64_MAX + 1 else uid) % BUCKETS
  }

  function Get<K, V>(m: map<K, V>, k: K): Option<V> { if k in m then Some(m[k]) else None }

  function KeyOf(d: DeviceId): string { DeviceKey(d.0, d.1) }

  predicate Idle(c: Conn, now: int, timeout: int) { c.authed && now - c.lastActive > timeout }

  lemma IdleIs(now: int, timeout: int)
    ensures forall c: Conn :: Idle(c, now, timeout) <==> c.authed && now - c.lastActive > timeout
  {
  }

  // ---------------------------------------------------------------- many maps refine one

  function Total(maps: seq<map<string, Conn>>): nat {
    if maps == [] then 0 else Total(maps[..|maps| - 1]) + |maps[|maps| - 1]|
  }

  lemma {:induction false} TotalUpdate(maps: seq<map<string, Conn>>, i: nat, m: map<string, Conn>)
    requires i < |maps|
    ensures Total(maps[i := m]) == Total(maps) - |maps[i]| + |m|
  {
    var last := |maps| - 1;
    if i == last {
      assert maps[i := m][..last] == maps[..last];
    } else {
      TotalUpdate(maps[..last], i, m);
      assert maps[i := m][..last] == maps[..last][i := m];
    }
  }

  /** Entry k of bucket i belongs to this device. */
  ghost predicate Owned(flat: map<DeviceId, Conn>, i: nat, k: string, d: DeviceId) {
    d in flat && KeyOf(d) == k && BucketIndex(d.0) == i
  }

  /** The buckets hold exactly the flat table keyed by (uid, device). */
  ghost predicate Refines(maps: seq<map<string, Conn>>, flat: map<DeviceId, Conn>) {
    && |maps| == BUCKETS
    && (forall d: DeviceId :: Agrees(maps, flat, d))
    && (forall i, k :: 0 <= i < BUCKETS && k in maps[i] ==> exists d: DeviceId :: Owned(flat, i, k, d))
    && Total(maps) == |flat|
  }

  lemma KeysDiffer(d: DeviceId, e: DeviceId)
    ensures KeyOf(d) == KeyOf(e) ==> d == e
  {
    if KeyOf(d) == KeyOf(e) {
      DeviceKeyInjective(d.0, d.1, e.0, e.1);
    }
  }

  /** The map with k set to v, or without k. */
  function With<K, V>(m: map<K, V>, k: K, v: Option<V>): map<K, V> {
    if v.Some? then m[k := v.value] else m - {k}
  }

  lemma WithFacts<K, V>(m: map<K, V>, k: K, v: Option<V>)
    ensures forall j :: Get(With(m, k, v), j) == if j == k then v else Get(m, j)
    ensures |With(m, k, v)| == |m| - (if k in m then 1 else 0) + if v.Some? then 1 else 0
  {
    if v.Some? {
      assert m[k := v.value].Keys == m.Keys + {k};
    } else {
      assert (m - {k}).Keys == m.Keys - {k};
    }
  }

  /** The buckets after one entry was set or removed. */
  function Change(maps: seq<map<string, Conn>>, d: DeviceId, v: Option<Conn>): seq<map<string, Conn>>
    requires |maps| == BUCKETS
  {
    var i := BucketIndex(d.0);
    maps[i := With(maps[i], KeyOf(d), v)]
  }

  ghost predicate Agrees(maps: seq<map<string, Conn>>, flat: map<DeviceId, Conn>, d: DeviceId)
    requires |maps| == BUCKETS
  {
    Get(flat, d) == Get(maps[BucketIndex(d.0)], KeyOf(d))
  }

  lemma ChangeAgrees(maps: seq<map<string, Conn>>, flat: map<DeviceId, Conn>, d: DeviceId, v: Option<Conn>, e: DeviceId)
    requires |maps| == BUCKETS && Agrees(maps, flat, e)
    ensures Agrees(Change(maps, d, v), With(flat, d, v), e)
  {
    hide KeyOf;
    hide BucketIndex;
    hide With;
    KeysDiffer(d, e);
    WithFacts(flat, d, v);
    WithFacts(maps[BucketIndex(d.0)], KeyOf(d), v);
  }

  lemma ChangeOwned(maps: seq<map<string, Conn>>, flat: map<DeviceId, Conn>, d: DeviceId, v: Option<Conn>, b: nat, k: string)
    requires |maps| == BUCKETS && b < BUCKETS && k in Change(maps, d, v)[b]
    requires k in maps[b] ==> exists e: DeviceId :: Owned(flat, b, k, e)
    ensures exists e: DeviceId :: Owned(With(flat, d, v), b, k, e)
  {
    hide KeyOf;
    hide BucketIndex;
    if b == BucketIndex(d.0) && k == KeyOf(d) {
      assert Owned(With(flat, d, v), b, k, d);
    } else {
      var e: DeviceId :| Owned(flat, b, k, e);
      assert Owned(With(flat, d, v), b, k, e);
    }
  }

  lemma ChangeTotal(maps: seq<map<string, Conn>>, flat: map<DeviceId, Conn>, d: DeviceId, v: Option<Conn>)
    requires |maps| == BUCKETS && Agrees(maps, flat, d) && Total(maps) == |flat|
    ensures Total(Change(maps, d, v)) == |With(flat, d, v)|
  {
    hide KeyOf;
    hide BucketIndex;
    hide With;
    var i := BucketIndex(d.0);
    TotalUpdate(maps, i, With(maps[i], KeyOf(d), v));
    WithFacts(maps[i], KeyOf(d), v);
    WithFacts(flat, d, v);
  }

  /** Registering or removing one device in its bucket is doing so in the flat table. It needs different
      devices to have different keys, whatever colons their ids contain. */
  lemma ChangeRefines(maps: seq<map<string, Conn>>, flat: map<DeviceId, Conn>, d: DeviceId, v: Option<Conn>)
    requires Refines(maps, flat)
    ensures Refines(Change(maps, d, v), With(flat, d, v))
  {
    hide KeyOf;
    hide BucketIndex;
    hide With;
    hide Change;
    hide Owned;
    hide Total;
    assert |Change(maps, d, v)| == BUCKETS by { ChangeSize(maps, d, v); }
    assert Agrees(maps, flat, d);
    ChangeTotal(maps, flat, d, v);
    forall e: DeviceId | true
      ensures Agrees(Change(maps, d, v), With(flat, d, v), e)
    {
      assert Agrees(maps, flat, e);
      ChangeAgrees(maps, flat, d, v, e);
    }
    forall b, k | 0 <= b < BUCKETS && k in Change(maps, d, v)[b]
      ensures exists e: DeviceId :: Owned(With(flat, d, v), b, k, e)
    {
      ChangeOwned(maps, flat, d, v, b, k);
    }
  }

  lemma ChangeSize(maps: seq<map<string, Conn>>, d: DeviceId, v: Option<Conn>)
    requires |maps| == BUCKETS
    ensures |Change(maps, d, v)| == BUCKETS
  {
  }

  lemma {:induction false} TotalEmpty(n: nat)
    ensures Total(seq(n, _ => map[])) == 0
  {
    if n > 0 {
      TotalEmpty(n - 1);
      var maps: seq<map<string, Conn>> := seq(n, _ => map[]);
      assert maps[..n - 1] == seq(n - 1, _ => map[]);
    }
  }

  /** c sits in one of the buckets and is idle. */
  ghost predicate IdleIn(maps: seq<map<string, Conn>>, c: Conn, now: int, timeout: int) {
    Idle(c, now, timeout) && exists i, k :: 0 <= i < |maps| && k in maps[i] && maps[i][k] == c
  }

  /** The scans of all buckets together find exactly the idle connections of the flat table. */
  lemma IdleUnion(maps: seq<map<string, Conn>>, flat: map<DeviceId, Conn>, c: Conn, now: int, timeout: int)
    requires Refines(maps, flat)
    ensures IdleIn(maps, c, now, timeout) <==> Idle(c, now, timeout) && exists d :: d in flat && flat[d] == c
  {
    hide KeyOf;
    hide BucketIndex;
    if IdleIn(maps, c, now, timeout) {
      var i, k :| 0 <= i < |maps| && k in maps[i] && maps[i][k] == c;
      var d: DeviceId :| Owned(flat, i, k, d);
      assert Agrees(maps, flat, d);
    }
    if Idle(c, now, timeout) && exists d :: d in flat && flat[d] == c {
      var d :| d in flat && flat[d] == c;
      assert Agrees(maps, flat, d);
      assert KeyOf(d) in maps[BucketIndex(d.0)];
    }
  }

  // ---------------------------------------------------------------- the table in place

  class Bucket {
    var conns: map<string, Conn>

    constructor ()
      ensures conns == map[]
    {
      conns := map[];
    }

    /** put: the connection that was there, if any, for the caller to close. */
    method Put(key: string, c: Conn) returns (before: Option<Conn>)
      modifies this
      ensures conns == old(conns)[key := c] && before == Get(old(conns), key)
    {
      before := Get(conns, key);
      conns := conns[key := c];
    }

    method Del(key: string) returns (was: bool)
      modifies this
      ensures conns == old(conns) - {key} && was == (key in old(conns))
    {
      if key !in conns {
        assert conns - {key} == conns;
        return false;
      }
      conns := conns - {key};
      was := true;
    }

    /** idleConns: every idle entry once, in any order. */
    method IdleConns(now: int, timeout: int) returns (victims: seq<Conn>, ghost keys: seq<string>)
      ensures EachOnce(conns, keys, victims, now, timeout)
      ensures forall c :: c in victims <==>
                c.authed && now - c.lastActive > timeout && exists k :: k in conns && conns[k] == c
    {
      victims, keys := [], [];
      var todo := conns.Keys;
      while todo != {}
        invariant todo <= conns.Keys && |victims| == |keys| && NoRepeats(keys)
        invariant forall i :: 0 <= i < |keys| ==> keys[i] in conns && conns[keys[i]] == victims[i] && keys[i] !in todo
        invariant forall k :: k in keys <==> k in conns.Keys - todo && Idle(conns[k], now, timeout)
        decreases |todo|
      {
        var k :| k in todo;
        var c := conns[k];
        if Idle(c, now, timeout) {
          victims, keys := victims + [c], keys + [k];
        }
        todo := todo - {k};
      }
      OnceIsAll(conns, keys, victims, now, timeout);
    }
  }

  predicate NoRepeats<T(==)>(s: seq<T>) { forall i, j :: 0 <= i < j < |s| ==> s[i] != s[j] }

  /** The i-th victim is the entry of the i-th key, and the keys are those of the idle entries, each once. */
  ghost predicate EachOnce<K(!new)>(m: map<K, Conn>, keys: seq<K>, victims: seq<Conn>, now: int, timeout: int) {
    && |victims| == |keys| && NoRepeats(keys)
    && (forall i :: 0 <= i < |keys| ==> keys[i] in m && m[keys[i]] == victims[i])
    && (forall k :: k in keys <==> k in m && Idle(m[k], now, timeout))
  }

  lemma OnceIsAll<K(!new)>(m: map<K, Conn>, keys: seq<K>, victims: seq<Conn>, now: int, timeout: int)
    requires EachOnce(m, keys, victims, now, timeout)
    ensures forall c :: c in victims <==> Idle(c, now, timeout) && exists k :: k in m && m[k] == c
  {
    hide Idle;
    forall c | c in victims
      ensures Idle(c, now, timeout) && exists k :: k in m && m[k] == c
    {
      var i :| 0 <= i < |victims| && victims[i] == c;
      assert keys[i] in keys;
    }
    forall c | Idle(c, now, timeout) && exists k :: k in m && m[k] == c
      ensures c in victims
    {
      var k :| k in m && m[k] == c;
      assert k in keys;
      var i :| 0 <= i < |keys| && keys[i] == k;
      assert victims[i] == c;
    }
  }

  class Server {
    const buckets: seq<Bucket>
    ghost var flat: map<DeviceId, Conn>

    ghost function Maps(): seq<map<string, Conn>>
      reads buckets
    {
      seq(|buckets|, i requires 0 <= i < |buckets| reads buckets => buckets[i].conns)
    }

    ghost predicate Valid()
      reads this, buckets
    {
      && |buckets| == BUCKETS
      && (forall i, j :: 0 <= i < j < BUCKETS ==> buckets[i] != buckets[j])
      && Refines(Maps(), flat)
    }

    constructor ()
      ensures Valid() && flat == map[] && fresh(buckets)
    {
      var all: seq<Bucket> := [];
      for i := 0 to BUCKETS
        invariant |all| == i && fresh(all)
        invariant forall j :: 0 <= j < i ==> all[j].conns == map[]
        invariant forall j, k :: 0 <= j < k < i ==> all[j] != all[k]
      {
        var b := new Bucket();
        all := all + [b];
      }
      buckets, flat := all, map[];
      new;
      TotalEmpty(BUCKETS);
      assert Maps() == seq(BUCKETS, _ => map[]);
    }

    /** Registration: the connection of the same device that it replaces, if any. */
    method Put(uid: int64, device: string, c: Conn) returns (before: Option<Conn>)
      requires Valid()
      modifies this, buckets
      ensures Valid() && flat == old(flat)[(uid, device) := c] && before == Get(old(flat), (uid, device))
    {
      hide Refines;
      var i := BucketIndex(uid);
      ghost var maps := Maps();
      ChangeRefines(maps, flat, (uid, device), Some(c));
      Lookup(maps, flat, uid, device);
      before := buckets[i].Put(DeviceKey(uid, device), c);
      flat := flat[(uid, device) := c];
      assert Maps() == maps[i := maps[i][DeviceKey(uid, device) := c]];
    }

    method Del(uid: int64, device: string) returns (was: bool)
      requires Valid()
      modifies this, buckets
      ensures Valid() && flat == old(flat) - {(uid, device)} && was == ((uid, device) in old(flat))
    {
      hide Refines;
      var i := BucketIndex(uid);
      ghost var maps := Maps();
      ChangeRefines(maps, flat, (uid, device), None);
      Lookup(maps, flat, uid, device);
      was := buckets[i].Del(DeviceKey(uid, device));
      flat := flat - {(uid, device)};
      assert Maps() == maps[i := maps[i] - {DeviceKey(uid, device)}];
    }

    method Find(uid: int64, device: string) returns (c: Option<Conn>)
      requires Valid()
      ensures c == Get(flat, (uid, device))
    {
      hide Refines;
      Lookup(Maps(), flat, uid, device);
      c := Get(buckets[BucketIndex(uid)].conns, DeviceKey(uid, device));
    }

    method OnlineCount() returns (n: nat)
      requires Valid()
      ensures n == |flat|
    {
      n := 0;
      for i := 0 to |buckets|
        invariant n == Total(Maps()[..i])
      {
        assert Maps()[..i + 1][..i] == Maps()[..i];
        n := n + |buckets[i].conns|;
      }
      assert Maps()[..|buckets|] == Maps();
    }

    /** The idle scans of all buckets: every idle connection of the flat table once. */
    method IdleScan(now: int, timeout: int) returns (victims: seq<Conn>, ghost devices: seq<DeviceId>)
      requires Valid()
      ensures EachOnce(flat, devices, victims, now, timeout)
      ensures forall c :: c in victims <==>
                c.authed && now - c.lastActive > timeout && exists d :: d in flat && flat[d] == c
    {
      IdleIs(now, timeout);
      hide Refines;
      hide Idle;
      victims, devices := [], [];
      ghost var maps := Maps();
      for i := 0 to |buckets|
        invariant ScannedTo(flat, i, devices, victims, now, timeout)
      {
        var more;
        ghost var keys;
        more, keys := buckets[i].IdleConns(now, timeout);
        assert maps[i] == buckets[i].conns;
        ghost var owners := Owners(maps, flat, i, keys, more, now, timeout);
        ScanMore(flat, i, devices, victims, owners, more, now, timeout);
        victims, devices := victims + more, devices + owners;
      }
      ScanAll(flat, devices, victims, now, timeout);
      OnceIsAll(flat, devices, victims, now, timeout);
    }
  }

  /** The devices of the first n buckets have been scanned. */
  ghost predicate ScannedTo(flat: map<DeviceId, Conn>, n: nat, devices: seq<DeviceId>, victims: seq<Conn>, now: int, timeout: int) {
    && |victims| == |devices| && NoRepeats(devices)
    && (forall i :: 0 <= i < |devices| ==> devices[i] in flat && flat[devices[i]] == victims[i])
    && (forall d :: d in devices <==> d in flat && Idle(flat[d], now, timeout) && BucketIndex(d.0) < n)
  }

  /** What the victims of one bucket are in the flat table. */
  ghost predicate OfBucket(flat: map<DeviceId, Conn>, b: nat, devices: seq<DeviceId>, victims: seq<Conn>, now: int, timeout: int) {
    && |victims| == |devices| && NoRepeats(devices)
    && (forall i :: 0 <= i < |devices| ==> devices[i] in flat && flat[devices[i]] == victims[i])
    && (forall d :: d in devices <==> d in flat && Idle(flat[d], now, timeout) && BucketIndex(d.0) == b)
  }

  lemma Owners(maps: seq<map<string, Conn>>, flat: map<DeviceId, Conn>, b: nat, keys: seq<string>, victims: seq<Conn>, now: int, timeout: int)
    returns (devices: seq<DeviceId>)
    requires Refines(maps, flat) && b < BUCKETS && EachOnce(maps[b], keys, victims, now, timeout)
    ensures OfBucket(flat, b, devices, victims, now, timeout)
  {
    hide Idle;
    hide KeyOf;
    hide BucketIndex;
    devices := [];
    for i := 0 to |keys|
      invariant |devices| == i && forall k :: 0 <= k < i ==> Owned(flat, b, keys[k], devices[k])
    {
      assert keys[i] in maps[b];
      var d: DeviceId :| Owned(flat, b, keys[i], d);
      devices := devices + [d];
    }
    forall i | 0 <= i < |devices|
      ensures devices[i] in flat && flat[devices[i]] == victims[i]
    {
      assert Owned(flat, b, keys[i], devices[i]) && Agrees(maps, flat, devices[i]);
    }
    forall d | d in flat && Idle(flat[d], now, timeout) && BucketIndex(d.0) == b
      ensures d in devices
    {
      assert Agrees(maps, flat, d);
      assert KeyOf(d) in keys;
      var i :| 0 <= i < |keys| && keys[i] == KeyOf(d);
      assert Owned(flat, b, keys[i], devices[i]);
      KeysDiffer(d, devices[i]);
    }
    forall d | d in devices
      ensures d in flat && Idle(flat[d], now, timeout) && BucketIndex(d.0) == b
    {
      var i :| 0 <= i < |devices| && devices[i] == d;
      assert Owned(flat, b, keys[i], d) && keys[i] in keys;
    }
    assert forall i :: 0 <= i < |devices| ==> KeyOf(devices[i]) == keys[i] by {
      assert forall i :: 0 <= i < |devices| ==> Owned(flat, b, keys[i], devices[i]);
    }
  }

  lemma JoinedAt(flat: map<DeviceId, Conn>, a: seq<DeviceId>, v: seq<Conn>, b: seq<DeviceId>, u: seq<Conn>)
    requires |v| == |a| && |u| == |b|
    requires forall i :: 0 <= i < |a| ==> a[i] in flat && flat[a[i]] == v[i]
    requires forall i :: 0 <= i < |b| ==> b[i] in flat && flat[b[i]] == u[i]
    ensures forall i :: 0 <= i < |a + b| ==> (a + b)[i] in flat && flat[(a + b)[i]] == (v + u)[i]
  {
  }

  lemma ScanMore(flat: map<DeviceId, Conn>, n: nat, devices: seq<DeviceId>, victims: seq<Conn>,
                 owners: seq<DeviceId>, more: seq<Conn>, now: int, timeout: int)
    requires ScannedTo(flat, n, devices, victims, now, timeout) && OfBucket(flat, n, owners, more, now, timeout)
    ensures ScannedTo(flat, n + 1, devices + owners, victims + more, now, timeout)
  {
    hide Idle;
    hide BucketIndex;
    hide NoRepeats;
    var all := devices + owners;
    JoinedOnce(devices, owners);
    JoinedAt(flat, devices, victims, owners, more);
    forall d
      ensures d in all <==> d in flat && Idle(flat[d], now, timeout) && BucketIndex(d.0) < n + 1
    {
      assert d in all <==> d in devices || d in owners;
    }
  }

  lemma JoinedOnce(a: seq<DeviceId>, b: seq<DeviceId>)
    requires NoRepeats(a) && NoRepeats(b) && forall d :: d in a ==> d !in b
    ensures NoRepeats(a + b)
  {
    forall i, j | 0 <= i < j < |a + b|
      ensures (a + b)[i] != (a + b)[j]
    {
      if i < |a| <= j {
        assert a[i] in a && b[j - |a|] in b;
      }
    }
  }

  lemma ScanAll(flat: map<DeviceId, Conn>, devices: seq<DeviceId>, victims: seq<Conn>, now: int, timeout: int)
    requires ScannedTo(flat, BUCKETS, devices, victims, now, timeout)
    ensures EachOnce(flat, devices, victims, now, timeout)
  {
    hide Idle;
  }

  lemma Lookup(maps: seq<map<string, Conn>>, flat: map<DeviceId, Conn>, uid: int64, device: string)
    requires Refines(maps, flat)
    ensures |maps| == BUCKETS && Get(flat, (uid, device)) == Get(maps[BucketIndex(uid)], DeviceKey(uid, device))
  {
    var d: DeviceId := (uid, device);
    assert Agrees(maps, flat, d);
  }
}
