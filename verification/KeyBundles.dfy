/** Giving the devices of writers and readers access to the key of one key generation of a folder
    (libkbfs/key_bundle.go, with the masking of libkbfs/crypto_common.go). */
module KeyBundles {
  import opened Outcomes
  import opened Collections

  type UID = nat
  type KID = nat

  // ---------- Masking ----------

  /** A key or a half of one: 32 bytes. */
  type Key = k: seq<bv8> | |k| == 32 witness seq(32, _ => 0)

  function Xor(x: Key, y: Key): Key {
    seq(32, i requires 0 <= i < 32 => x[i] ^ y[i])
  }

  method XorKeys(x: Key, y: Key) returns (res: Key)
    ensures res == Xor(x, y)
  {
    var bytes: seq<bv8> := [];
    var i := 0;
    while i < 32
      invariant 0 <= i == |bytes| <= 32
      invariant forall j :: 0 <= j < i ==> bytes[j] == x[j] ^ y[j]
    {
      bytes := bytes + [x[i] ^ y[i]];
      i := i + 1;
    }
    res := bytes;
  }

  /** Unmasking with the half that masked the key gives the key back. */
  lemma UnmaskUndoesMask(half: Key, key: Key)
    ensures Xor(half, Xor(half, key)) == key
  {
  }

  // ---------- The bundles ----------

  /** A client half encrypted with ephemeral key pair e to a device. */
  datatype Encrypted = Encrypted(e: int, kid: KID, clientHalf: Key)

  function Decrypt(ePub: int, kid: KID, enc: Encrypted): Option<Key> {
    if enc.e == ePub && enc.kid == kid then Some(enc.clientHalf) else None
  }

  /** The name under which the key server keeps a server half; it is made from all three. */
  datatype HalfID = HalfID(uid: UID, kid: KID, half: Key)

  datatype KeyInfo = KeyInfo(enc: Encrypted, halfID: HalfID, ePubIndex: int)

  /** A device of a user, in the writer or the reader bundle. */
  datatype Slot = Slot(writer: bool, uid: UID, kid: KID)

  type Infos = map<Slot, KeyInfo>

  /** The entries of both bundles, their ephemeral public keys, and what the key server holds. */
  datatype Bundles = Bundles(infos: Infos, wEPubs: seq<int>, rEPubs: seq<int>, server: set<HalfID>)

  /** A negative index is one into the reader list. */
  function EPub(b: Bundles, index: int): Option<int> {
    if index < 0 then (if -1 - index < |b.rEPubs| then Some(b.rEPubs[-1 - index]) else None)
    else if index < |b.wEPubs| then Some(b.wEPubs[index])
    else None
  }

  /** The key that a device can get with its entry and the key server. */
  function KeyFor(b: Bundles, slot: Slot): Option<Key> {
    if slot !in b.infos then None
    else
      var info := b.infos[slot];
      var e := EPub(b, info.ePubIndex);
      var clientHalf := if e.Some? then Decrypt(e.value, slot.kid, info.enc) else None;
      if clientHalf.Some? && info.halfID in b.server then Some(Xor(info.halfID.half, clientHalf.value)) else None
  }

  /** A device gets a key exactly if it has an entry whose index leads to the public key that its half is encrypted
      with, for the device, and the server has the other half; then the two halves make up the key. */
  lemma KeyForExact(b: Bundles, slot: Slot, key: Key)
    ensures KeyFor(b, slot) == Some(key) <==>
            slot in b.infos &&
            var info := b.infos[slot];
            && EPub(b, info.ePubIndex) == Some(info.enc.e) && info.enc.kid == slot.kid
            && info.halfID in b.server && key == Xor(info.halfID.half, info.enc.clientHalf)
  {
  }

  // ---------- A rekey ----------

  type Devices = map<UID, seq<KID>>

  /** The devices to give access to, the new ephemeral key pair, and the random server half drawn for each. */
  datatype Rekey = Rekey(writers: Devices, readers: Devices, e: int, half: Slot -> Key)

  predicate Listed(r: Rekey, slot: Slot) {
    var devices := if slot.writer then r.writers else r.readers;
    slot.uid in devices && slot.kid in devices[slot.uid]
  }

  predicate IsNew(infos: Infos, r: Rekey, slot: Slot) {
    Listed(r, slot) && slot !in infos
  }

  function NewInfo(key: Key, half: Key, slot: Slot, e: int, index: int): KeyInfo {
    KeyInfo(Encrypted(e, slot.kid, Xor(half, key)), HalfID(slot.uid, slot.kid, half), index)
  }

  function NewIndex(b: Bundles, r: Rekey): int {
    if |r.writers| == 0 then -(|b.rEPubs| + 1) else |b.wEPubs|
  }

  /** The new server halves are collected per user, and a user's reader devices displace the writer devices. */
  predicate Displaced(infos: Infos, r: Rekey, slot: Slot) {
    slot.writer && slot.uid in r.readers
    && exists k :: k in r.readers[slot.uid] && Slot(false, slot.uid, k) !in infos
  }

  predicate Handed(infos: Infos, r: Rekey, slot: Slot) {
    IsNew(infos, r, slot) && !Displaced(infos, r, slot)
  }

  /** The entry of a device after the rekey: as it was, or a new one, or none. */
  ghost predicate EntryAfter(b: Bundles, key: Key, r: Rekey, b': Bundles, slot: Slot) {
    if slot in b.infos then slot in b'.infos && b'.infos[slot] == b.infos[slot]
    else if Listed(r, slot) then
      slot in b'.infos && b'.infos[slot] == NewInfo(key, r.half(slot), slot, r.e, NewIndex(b, r))
    else slot !in b'.infos
  }

  /** Whether the key server holds a half after the new ones are put there. */
  ghost predicate HalfAfter(b: Bundles, r: Rekey, b': Bundles, id: HalfID) {
    id in b'.server <==>
      id in b.server || exists slot :: Handed(b.infos, r, slot) && id == HalfID(slot.uid, slot.kid, r.half(slot))
  }

  /** b' is b after the rekey and after the new server halves are put on the key server. */
  ghost predicate Rekeyed(b: Bundles, key: Key, r: Rekey, b': Bundles) {
    && b'.wEPubs == (if |r.writers| == 0 then b.wEPubs else b.wEPubs + [r.e])
    && b'.rEPubs == (if |r.writers| == 0 then b.rEPubs + [r.e] else b.rEPubs)
    && (forall slot :: EntryAfter(b, key, r, b', slot))
    && (forall id :: HalfAfter(b, r, b', id))
  }

  /** Every device with an entry can get the key. */
  ghost predicate Sound(b: Bundles, key: Key) {
    forall slot :: slot in b.infos ==> KeyFor(b, slot) == Some(key)
  }

  lemma EntryStays(b: Bundles, key: Key, r: Rekey, b': Bundles, slot: Slot)
    requires Rekeyed(b, key, r, b') && slot in b.infos && KeyFor(b, slot) == Some(key)
    ensures KeyFor(b', slot) == Some(key)
  {
    assert EntryAfter(b, key, r, b', slot) && HalfAfter(b, r, b', b.infos[slot].halfID);
  }

  lemma NewEntryWorks(b: Bundles, key: Key, r: Rekey, b': Bundles, slot: Slot)
    requires Rekeyed(b, key, r, b') && IsNew(b.infos, r, slot)
    ensures var id := HalfID(slot.uid, slot.kid, r.half(slot)); KeyFor(b', slot) == Some(key) <==> id in b'.server
  {
    assert EntryAfter(b, key, r, b', slot);
    UnmaskUndoesMask(r.half(slot), key);
  }

  /** No user is listed both as a writer and as a reader. */
  predicate OneSided(r: Rekey) {
    forall u :: u in r.writers ==> u !in r.readers
  }

  /** A rekey without such users leaves every device able to get the key, and every listed device with an entry. */
  lemma RekeySound(b: Bundles, key: Key, r: Rekey, b': Bundles)
    requires Sound(b, key) && Rekeyed(b, key, r, b') && OneSided(r)
    ensures Sound(b', key)
  {
    forall slot | slot in b'.infos
      ensures KeyFor(b', slot) == Some(key)
    {
      assert EntryAfter(b, key, r, b', slot);
      if slot in b.infos {
        EntryStays(b, key, r, b', slot);
      } else {
        NewEntryWorks(b, key, r, b', slot);
        assert Handed(b.infos, r, slot);
        assert HalfAfter(b, r, b', HalfID(slot.uid, slot.kid, r.half(slot)));
      }
    }
  }

  /** The halves drawn are all different from each other and from those the key server holds. */
  ghost predicate FreshHalves(b: Bundles, r: Rekey) {
    && (forall slot :: IsNew(b.infos, r, slot) ==> HalfID(slot.uid, slot.kid, r.half(slot)) !in b.server)
    && (forall s, t :: IsNew(b.infos, r, s) && IsNew(b.infos, r, t) && s != t ==> r.half(s) != r.half(t))
  }

  /** In general, with fresh halves, exactly the displaced devices cannot get the key. */
  lemma RekeyExact(b: Bundles, key: Key, r: Rekey, b': Bundles)
    requires Sound(b, key) && Rekeyed(b, key, r, b') && FreshHalves(b, r)
    ensures forall slot :: slot in b'.infos ==>
              (KeyFor(b', slot) == Some(key) <==> !(IsNew(b.infos, r, slot) && Displaced(b.infos, r, slot)))
  {
    forall slot | slot in b'.infos
      ensures KeyFor(b', slot) == Some(key) <==> !(IsNew(b.infos, r, slot) && Displaced(b.infos, r, slot))
    {
      assert EntryAfter(b, key, r, b', slot);
      if slot in b.infos {
        EntryStays(b, key, r, b', slot);
      } else {
        NewEntryWorks(b, key, r, b', slot);
        assert HalfAfter(b, r, b', HalfID(slot.uid, slot.kid, r.half(slot)));
        assert Handed(b.infos, r, slot) <==> HalfID(slot.uid, slot.kid, r.half(slot)) in b'.server;
      }
    }
  }

  /** User 1 listed with device 5 as a writer and device 6 as a reader: device 5 has an entry but no server half. */
  lemma BothSidesLoses(key: Key, r: Rekey, b': Bundles)
    requires r.writers == map[1 := [5]] && r.readers == map[1 := [6]]
    requires r.half(Slot(true, 1, 5)) != r.half(Slot(false, 1, 6))
    requires Rekeyed(Bundles(map[], [], [], {}), key, r, b')
    ensures Slot(true, 1, 5) in b'.infos && KeyFor(b', Slot(true, 1, 5)) == None
  {
    var b, slot := Bundles(map[], [], [], {}), Slot(true, 1, 5);
    assert EntryAfter(b, key, r, b', slot);
    assert 6 in r.readers[1] && Slot(false, 1, 6) !in b.infos;
    assert HalfAfter(b, r, b', HalfID(1, 5, r.half(slot)));
    forall s | Handed(b.infos, r, s)
      ensures s == Slot(false, 1, 6)
    {
    }
  }

  // ---------- Runs of rekeys ----------

  ghost predicate IsRun(bs: seq<Bundles>, key: Key, rs: seq<Rekey>) {
    |bs| == |rs| + 1 && forall i :: 0 <= i < |rs| ==> Rekeyed(bs[i], key, rs[i], bs[i + 1])
  }

  lemma {:induction false} RunSound(bs: seq<Bundles>, key: Key, rs: seq<Rekey>, n: nat)
    requires IsRun(bs, key, rs) && Sound(bs[0], key) && forall i :: 0 <= i < |rs| ==> OneSided(rs[i])
    requires n <= |rs|
    ensures Sound(bs[n], key)
  {
    if n > 0 {
      RunSound(bs, key, rs, n - 1);
      RekeySound(bs[n - 1], key, rs[n - 1], bs[n]);
    }
  }

  /** The entry of a device never changes in a run of rekeys. */
  lemma {:induction false} EntriesNeverChange(bs: seq<Bundles>, key: Key, rs: seq<Rekey>, i: nat, j: nat, slot: Slot)
    requires IsRun(bs, key, rs) && i <= j <= |rs| && slot in bs[i].infos
    ensures slot in bs[j].infos && bs[j].infos[slot] == bs[i].infos[slot]
  {
    if i < j {
      EntriesNeverChange(bs, key, rs, i, j - 1, slot);
      assert Rekeyed(bs[j - 1], key, rs[j - 1], bs[j]);
      assert EntryAfter(bs[j - 1], key, rs[j - 1], bs[j], slot);
    }
  }

  /** Over any run of rekeys of a key generation, a device listed in one of them can get the key from then on. */
  lemma RunGivesAccess(bs: seq<Bundles>, key: Key, rs: seq<Rekey>, i: nat, j: nat, slot: Slot)
    requires IsRun(bs, key, rs) && Sound(bs[0], key) && forall i :: 0 <= i < |rs| ==> OneSided(rs[i])
    requires i < j <= |rs| && Listed(rs[i], slot)
    ensures KeyFor(bs[j], slot) == Some(key)
  {
    assert Rekeyed(bs[i], key, rs[i], bs[i + 1]);
    assert EntryAfter(bs[i], key, rs[i], bs[i + 1], slot);
    EntriesNeverChange(bs, key, rs, i + 1, j, slot);
    RunSound(bs, key, rs, j);
  }

  // ---------- Filling in the bundles ----------

  /** What new entries are made with. */
  datatype Params = Params(key: Key, e: int, index: int, half: Slot -> Key)

  /** The entry of a slot after filling in the targets: as it was if there was one, and a new one for a target. */
  ghost predicate Filled(was: Infos, infos: Infos, targets: set<Slot>, p: Params, slot: Slot) {
    if slot in was then slot in infos && infos[slot] == was[slot]
    else if slot in targets then slot in infos && infos[slot] == NewInfo(p.key, p.half(slot), slot, p.e, p.index)
    else slot !in infos
  }

  ghost predicate AllFilled(was: Infos, infos: Infos, targets: set<Slot>, p: Params) {
    forall slot :: Filled(was, infos, targets, p, slot)
  }

  lemma FilledMore(was: Infos, middle: Infos, infos: Infos, done: set<Slot>, more: set<Slot>, p: Params)
    requires AllFilled(was, middle, done, p) && AllFilled(middle, infos, more, p)
    ensures AllFilled(was, infos, done + more, p)
  {
    forall slot
      ensures Filled(was, infos, done + more, p, slot)
    {
      assert Filled(was, middle, done, p, slot) && Filled(middle, infos, more, p, slot);
    }
  }

  /** Whether device k of the user is handed a new half. */
  predicate IsFresh(was: Infos, targets: set<Slot>, slot: Slot) {
    slot in targets && slot !in was
  }

  ghost predicate HalfAt(was: Infos, targets: set<Slot>, writer: bool, u: UID, p: Params, halves: map<KID, Key>,
                         k: KID)
  {
    if IsFresh(was, targets, Slot(writer, u, k)) then k in halves && halves[k] == p.half(Slot(writer, u, k))
    else k !in halves
  }

  ghost predicate HalvesOf(was: Infos, targets: set<Slot>, writer: bool, u: UID, p: Params, halves: map<KID, Key>) {
    forall k :: HalfAt(was, targets, writer, u, p, halves, k)
  }

  ghost predicate HasFresh(was: Infos, targets: set<Slot>, writer: bool, u: UID) {
    exists k :: IsFresh(was, targets, Slot(writer, u, k))
  }

  type ServerKeys = map<UID, map<KID, Key>>

  /** A user with new devices gets their halves, in place of what was there; for others nothing changes. */
  ghost predicate KeysAt(was: Infos, targets: set<Slot>, writer: bool, p: Params, before: ServerKeys, after: ServerKeys,
                         u: UID)
  {
    if HasFresh(was, targets, writer, u) then u in after && HalvesOf(was, targets, writer, u, p, after[u])
    else if u in before then u in after && after[u] == before[u]
    else u !in after
  }

  ghost predicate AllKeys(was: Infos, targets: set<Slot>, writer: bool, p: Params, before: ServerKeys,
                          after: ServerKeys)
  {
    forall u :: KeysAt(was, targets, writer, p, before, after, u)
  }

  function UserSlots(writer: bool, u: UID, kids: seq<KID>): set<Slot> {
    set k | k in kids :: Slot(writer, u, k)
  }

  function DeviceSlots(writer: bool, devices: Devices): set<Slot> {
    set u, k | u in devices && k in devices[u] :: Slot(writer, u, k)
  }

  lemma HalvesSize(was: Infos, targets: set<Slot>, writer: bool, u: UID, p: Params, halves: map<KID, Key>)
    requires HalvesOf(was, targets, writer, u, p, halves)
    ensures |halves| > 0 <==> HasFresh(was, targets, writer, u)
  {
    if |halves| > 0 {
      var k := AnyKey(halves);
      assert HalfAt(was, targets, writer, u, p, halves, k);
    } else {
      forall k
        ensures !IsFresh(was, targets, Slot(writer, u, k))
      {
        assert HalfAt(was, targets, writer, u, p, halves, k);
      }
    }
  }

  lemma AnyKey<K, V>(m: map<K, V>) returns (k: K)
    requires |m| > 0
    ensures k in m
  {
    k :| k in m;
  }

  /** Taking in one more user of the side. */
  lemma KeysMore(was: Infos, middle: Infos, done: set<Slot>, writer: bool, u: UID, kids: seq<KID>, p: Params,
                 first: ServerKeys, before: ServerKeys, halves: map<KID, Key>)
    requires AllFilled(was, middle, done, p) && AllKeys(was, done, writer, p, first, before)
    requires forall slot :: slot in done ==> slot.uid != u
    requires HalvesOf(middle, UserSlots(writer, u, kids), writer, u, p, halves)
    ensures AllKeys(was, done + UserSlots(writer, u, kids), writer, p, first,
                    if |halves| > 0 then before[u := halves] else before)
  {
    var after := if |halves| > 0 then before[u := halves] else before;
    var more := UserSlots(writer, u, kids);
    var targets := done + more;
    HalvesSize(middle, more, writer, u, p, halves);
    forall v
      ensures KeysAt(was, targets, writer, p, first, after, v)
    {
      assert KeysAt(was, done, writer, p, first, before, v);
      forall k
        ensures v != u ==> IsFresh(was, targets, Slot(writer, v, k)) == IsFresh(was, done, Slot(writer, v, k))
        ensures IsFresh(was, targets, Slot(writer, u, k)) == IsFresh(middle, more, Slot(writer, u, k))
      {
        assert Filled(was, middle, done, p, Slot(writer, u, k));
      }
      if v == u {
        assert HasFresh(was, targets, writer, u) <==> HasFresh(middle, more, writer, u);
        assert !HasFresh(was, done, writer, u);
        forall k | |halves| > 0
          ensures HalfAt(was, targets, writer, u, p, halves, k)
        {
          assert HalfAt(middle, more, writer, u, p, halves, k);
        }
      } else {
        assert HasFresh(was, targets, writer, v) <==> HasFresh(was, done, writer, v);
        if HasFresh(was, done, writer, v) {
          forall k
            ensures HalfAt(was, targets, writer, v, p, after[v], k)
          {
            assert HalfAt(was, done, writer, v, p, before[v], k);
          }
        }
      }
    }
  }

  class TLFKeyBundles {
    var infos: Infos
    var wEPubs: seq<int>
    var rEPubs: seq<int>

    /** Fill in the devices of one user that have no entry yet. */
    method FillInDeviceInfo(writer: bool, uid: UID, kids: seq<KID>, p: Params) returns (serverMap: map<KID, Key>)
      modifies this`infos
      ensures AllFilled(old(infos), infos, UserSlots(writer, uid, kids), p)
      ensures HalvesOf(old(infos), UserSlots(writer, uid, kids), writer, uid, p, serverMap)
    {
      serverMap := map[];
      ghost var targets: set<Slot> := {};
      var i := 0;
      while i < |kids|
        invariant i <= |kids|
        invariant forall slot :: slot in targets <==> slot in UserSlots(writer, uid, kids[..i])
        invariant AllFilled(old(infos), infos, targets, p)
        invariant HalvesOf(old(infos), targets, writer, uid, p, serverMap)
      {
        var slot := Slot(writer, uid, kids[i]);
        assert kids[..i + 1] == kids[..i] + [kids[i]];
        assert Filled(old(infos), infos, targets, p, slot);
        ghost var before, was, done := infos, serverMap, targets;
        if slot !in infos {
          var clientHalf := XorKeys(p.half(slot), p.key);
          var halfID := HalfID(uid, kids[i], p.half(slot));
          infos := infos[slot := KeyInfo(Encrypted(p.e, kids[i], clientHalf), halfID, p.index)];
          serverMap := serverMap[kids[i] := p.half(slot)];
        }
        targets := targets + {slot};
        forall t
          ensures Filled(old(infos), infos, targets, p, t)
        {
          assert Filled(old(infos), before, done, p, t);
        }
        forall k
          ensures HalfAt(old(infos), targets, writer, uid, p, serverMap, k)
        {
          assert HalfAt(old(infos), done, writer, uid, p, was, k);
        }
        i := i + 1;
      }
      assert kids[..|kids|] == kids;
      SameElements(targets, UserSlots(writer, uid, kids));
    }

    /** Fill in the devices of all users of a side, in any order. */
    method FillInDevicesAndServerMap(writer: bool, devices: Devices, p: Params, before: ServerKeys)
      returns (newServerKeys: ServerKeys)
      modifies this`infos
      ensures AllFilled(old(infos), infos, DeviceSlots(writer, devices), p)
      ensures AllKeys(old(infos), DeviceSlots(writer, devices), writer, p, before, newServerKeys)
    {
      newServerKeys := before;
      ghost var targets: set<Slot> := {};
      var todo := devices.Keys;
      while todo != {}
        invariant todo <= devices.Keys
        invariant forall slot :: slot in targets <==> slot in DeviceSlots(writer, devices) && slot.uid !in todo
        invariant AllFilled(old(infos), infos, targets, p)
        invariant AllKeys(old(infos), targets, writer, p, before, newServerKeys)
        decreases todo
      {
        var u := AnyOf(todo);
        ghost var middle := infos;
        var serverMap := FillInDeviceInfo(writer, u, devices[u], p);
        FilledMore(old(infos), middle, infos, targets, UserSlots(writer, u, devices[u]), p);
        KeysMore(old(infos), middle, targets, writer, u, devices[u], p, before, newServerKeys, serverMap);
        if |serverMap| > 0 {
          newServerKeys := newServerKeys[u := serverMap];
        }
        targets := targets + UserSlots(writer, u, devices[u]);
        todo := todo - {u};
      }
      SameElements(targets, DeviceSlots(writer, devices));
    }

    /** Give all listed devices an entry, with the new ephemeral key for those that have none.  The result goes to
        the key server. */
    method FillInDevices(key: Key, r: Rekey, ghost server: set<HalfID>) returns (newServerKeys: ServerKeys)
      modifies this
      ensures forall server' :: Stored(server, newServerKeys, server') ==>
                Rekeyed(Bundles(old(infos), old(wEPubs), old(rEPubs), server), key, r,
                        Bundles(infos, wEPubs, rEPubs, server'))
    {
      var newIndex;
      if |r.writers| == 0 {
        rEPubs := rEPubs + [r.e];
        newIndex := -|rEPubs|;
      } else {
        wEPubs := wEPubs + [r.e];
        newIndex := |wEPubs| - 1;
      }
      var p := Params(key, r.e, newIndex, r.half);
      var forWriters := FillInDevicesAndServerMap(true, r.writers, p, map[]);
      ghost var middle := infos;
      newServerKeys := FillInDevicesAndServerMap(false, r.readers, p, forWriters);
      BothSides(old(infos), middle, infos, r, p, forWriters, newServerKeys);
      ghost var b := Bundles(old(infos), old(wEPubs), old(rEPubs), server);
      forall server' | Stored(server, newServerKeys, server')
        ensures Rekeyed(b, key, r, Bundles(infos, wEPubs, rEPubs, server'))
      {
        IsRekeyed(b, key, r, newServerKeys, Bundles(infos, wEPubs, rEPubs, server'));
      }
    }
  }

  /** The key server has been given the new halves. */
  ghost predicate Stored(server: set<HalfID>, newServerKeys: ServerKeys, server': set<HalfID>) {
    forall id :: id in server' <==> id in server || InKeys(newServerKeys, id)
  }

  predicate InKeys(keys: ServerKeys, id: HalfID) {
    id.uid in keys && id.kid in keys[id.uid] && keys[id.uid][id.kid] == id.half
  }

  /** What both sides together come to. */
  lemma BothSides(was: Infos, middle: Infos, infos: Infos, r: Rekey, p: Params, forWriters: ServerKeys,
                  newServerKeys: ServerKeys)
    requires p.half == r.half
    requires AllFilled(was, middle, DeviceSlots(true, r.writers), p)
    requires AllKeys(was, DeviceSlots(true, r.writers), true, p, map[], forWriters)
    requires AllFilled(middle, infos, DeviceSlots(false, r.readers), p)
    requires AllKeys(middle, DeviceSlots(false, r.readers), false, p, forWriters, newServerKeys)
    ensures AllFilled(was, infos, DeviceSlots(true, r.writers) + DeviceSlots(false, r.readers), p)
    ensures forall id :: InKeys(newServerKeys, id) <==>
              exists slot :: Handed(was, r, slot) && id == HalfID(slot.uid, slot.kid, r.half(slot))
  {
    FilledMore(was, middle, infos, DeviceSlots(true, r.writers), DeviceSlots(false, r.readers), p);
    forall id
      ensures InKeys(newServerKeys, id) <==>
              exists slot :: Handed(was, r, slot) && id == HalfID(slot.uid, slot.kid, r.half(slot))
    {
      HandedAreInKeys(was, middle, r, p, forWriters, newServerKeys, id);
    }
  }

  lemma IsRekeyed(b: Bundles, key: Key, r: Rekey, keys: ServerKeys, b': Bundles)
    requires b'.wEPubs == (if |r.writers| == 0 then b.wEPubs else b.wEPubs + [r.e])
    requires b'.rEPubs == (if |r.writers| == 0 then b.rEPubs + [r.e] else b.rEPubs)
    requires AllFilled(b.infos, b'.infos, DeviceSlots(true, r.writers) + DeviceSlots(false, r.readers),
                       Params(key, r.e, NewIndex(b, r), r.half))
    requires Stored(b.server, keys, b'.server)
    requires forall id :: InKeys(keys, id) <==>
               exists slot :: Handed(b.infos, r, slot) && id == HalfID(slot.uid, slot.kid, r.half(slot))
    ensures Rekeyed(b, key, r, b')
  {
    var targets := DeviceSlots(true, r.writers) + DeviceSlots(false, r.readers);
    forall slot
      ensures EntryAfter(b, key, r, b', slot)
    {
      assert slot in targets <==> Listed(r, slot);
      assert Filled(b.infos, b'.infos, targets, Params(key, r.e, NewIndex(b, r), r.half), slot);
    }
    forall id
      ensures HalfAfter(b, r, b', id)
    {
      assert id in b'.server <==> id in b.server || InKeys(keys, id);
    }
  }

  lemma ReaderFresh(was: Infos, middle: Infos, r: Rekey, p: Params, u: UID)
    requires AllFilled(was, middle, DeviceSlots(true, r.writers), p)
    ensures forall k :: IsFresh(middle, DeviceSlots(false, r.readers), Slot(false, u, k))
                        == IsNew(was, r, Slot(false, u, k))
    ensures HasFresh(middle, DeviceSlots(false, r.readers), false, u) <==> Displaced(was, r, Slot(true, u, 0))
  {
    forall k
      ensures IsFresh(middle, DeviceSlots(false, r.readers), Slot(false, u, k)) == IsNew(was, r, Slot(false, u, k))
    {
      assert Filled(was, middle, DeviceSlots(true, r.writers), p, Slot(false, u, k));
    }
    if Displaced(was, r, Slot(true, u, 0)) {
      var k :| k in r.readers[u] && Slot(false, u, k) !in was;
      assert IsNew(was, r, Slot(false, u, k));
    }
  }

  lemma HandedAreInKeys(was: Infos, middle: Infos, r: Rekey, p: Params, forWriters: ServerKeys, keys: ServerKeys,
                        id: HalfID)
    requires p.half == r.half
    requires AllFilled(was, middle, DeviceSlots(true, r.writers), p)
    requires AllKeys(was, DeviceSlots(true, r.writers), true, p, map[], forWriters)
    requires AllKeys(middle, DeviceSlots(false, r.readers), false, p, forWriters, keys)
    ensures InKeys(keys, id) <==>
            exists slot :: Handed(was, r, slot) && id == HalfID(slot.uid, slot.kid, r.half(slot))
  {
    var u, k := id.uid, id.kid;
    ReaderFresh(was, middle, r, p, u);
    assert KeysAt(middle, DeviceSlots(false, r.readers), false, p, forWriters, keys, u);
    assert KeysAt(was, DeviceSlots(true, r.writers), true, p, map[], forWriters, u);
    var w, rd := Slot(true, u, k), Slot(false, u, k);
    assert Displaced(was, r, w) <==> Displaced(was, r, Slot(true, u, 0));
    assert IsFresh(was, DeviceSlots(true, r.writers), w) <==> IsNew(was, r, w);
    assert (exists slot :: Handed(was, r, slot) && id == HalfID(slot.uid, slot.kid, r.half(slot)))
           <==> (Handed(was, r, w) && id.half == r.half(w)) || (Handed(was, r, rd) && id.half == r.half(rd)) by {
      OnlyTwoSlots(was, r, id);
    }
    if HasFresh(middle, DeviceSlots(false, r.readers), false, u) {
      assert HalfAt(middle, DeviceSlots(false, r.readers), false, u, p, keys[u], k);
    } else {
      assert !IsFresh(middle, DeviceSlots(false, r.readers), rd);
      if HasFresh(was, DeviceSlots(true, r.writers), true, u) {
        assert HalfAt(was, DeviceSlots(true, r.writers), true, u, p, forWriters[u], k);
      } else {
        assert !IsFresh(was, DeviceSlots(true, r.writers), w);
      }
    }
  }

  lemma OnlyTwoSlots(was: Infos, r: Rekey, id: HalfID)
    ensures var w, rd := Slot(true, id.uid, id.kid), Slot(false, id.uid, id.kid);
            (exists slot :: Handed(was, r, slot) && id == HalfID(slot.uid, slot.kid, r.half(slot)))
            <==> (Handed(was, r, w) && id.half == r.half(w)) || (Handed(was, r, rd) && id.half == r.half(rd))
  {
  }
}
