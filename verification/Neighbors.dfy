/**
 The computers around this one (Neighbors in src/neighbors.rs): the mDNS
 records seen, the addresses a person added and the keys their hellos proved,
 each in a table that cannot grow past its limit. Instants are milliseconds
 that never go back.
 */
module Neighbors {
  import opened Wrappers
  import opened Basics
  import opened Trust

  const MAX_INSTANCES := 64
  const MAX_NEIGHBORS := 32
  const MAX_ADDED := 8
  const NEIGHBOR_TTL := 60_000
  const FRESH_HELLO := 30_000
  const ADDED_PREFIX := "address:"

  /** A computer's fingerprint, its bytes read as a number. */
  type Key = nat

  datatype Instance = Instance(addresses: seq<Address>, compatible: bool, name: Option<string>, key: Option<Key>)

  /** `name` is what peer_name makes of the name in its hello. */
  datatype Neighbor = Neighbor(name: string, addresses: seq<Address>, lastHello: int, lastSeen: int)

  datatype Stranger = Stranger(key: Key, name: string, answered: bool, recent: bool, duplicateName: bool)

  datatype Strangers = Strangers(present: seq<Stranger>, unidentified: nat, turnedAway: bool)

  /** The keys trusted here, and the names they are saved under, as peer_name shows them. */
  datatype Trusts = Trusts(keys: set<Key>, names: set<string>)

  function Later(a: int, b: int): int { if a >= b then a else b }

  /** The keys hellos to records proved. */
  function Mapped(instances: map<string, Instance>): set<Key> {
    set id | id in instances && instances[id].key.Some? :: instances[id].key.value
  }

  predicate Stays(n: Neighbor, key: Key, mapped: set<Key>, now: int) {
    key in mapped || now - Later(n.lastHello, n.lastSeen) < NEIGHBOR_TTL
  }

  function Unexpired(neighbors: map<Key, Neighbor>, mapped: set<Key>, now: int): map<Key, Neighbor> {
    map key | key in neighbors && Stays(neighbors[key], key, mapped, now) :: neighbors[key]
  }

  function Elements(ids: seq<string>): set<string> { set id | id in ids }

  lemma {:induction false} ElementsSize(ids: seq<string>)
    ensures |Elements(ids)| <= |ids|
  {
    if ids != [] {
      var (rest, last) := (ids[..|ids| - 1], ids[|ids| - 1]);
      ElementsSize(rest);
      assert Elements(ids) == Elements(rest) + {last};
    } else {
      assert Elements(ids) == {};
    }
  }

  function Without(ids: seq<string>, id: string): (r: seq<string>)
    ensures |r| <= |ids| && Elements(r) == Elements(ids) - {id}
  {
    if ids == [] then []
    else
      var (rest, last) := (Without(ids[..|ids| - 1], id), ids[|ids| - 1]);
      assert Elements(ids) == Elements(ids[..|ids| - 1]) + {last};
      assert Elements(rest + [last]) == Elements(rest) + {last};
      if last == id then rest else rest + [last]
  }

  predicate IsAddedId(id: string) {
    ADDED_PREFIX <= id
  }

  /** The records nobody added. */
  function Others(instances: map<string, Instance>, added: seq<string>): set<string> {
    set id | id in instances && id !in added
  }

  /** Records, apart from the added addresses, fit MAX_INSTANCES; those added fit MAX_ADDED more. */
  ghost predicate InstancesFit(instances: map<string, Instance>, added: seq<string>) {
    && |added| <= MAX_ADDED
    && |Others(instances, added)| <= MAX_INSTANCES
  }

  /** So there are never more than both together. */
  lemma InstancesBounded(instances: map<string, Instance>, added: seq<string>)
    requires InstancesFit(instances, added)
    ensures |instances| <= MAX_INSTANCES + MAX_ADDED
  {
    ElementsSize(added);
    var (other, keys) := (Others(instances, added), instances.Keys);
    SubsetSize(keys * Elements(added), Elements(added));
    assert keys == other + keys * Elements(added);
  }

  lemma SeenFits(instances: map<string, Instance>, added: seq<string>, id: string, instance: Instance)
    requires InstancesFit(instances, added) && (id in instances || |instances| < MAX_INSTANCES)
    ensures InstancesFit(instances[id := instance], added)
  {
    var after := instances[id := instance];
    if id in instances {
      assert Others(after, added) == Others(instances, added);
    } else {
      SubsetSize(Others(after, added), instances.Keys + {id});
    }
  }

  lemma GoneFits(instances: map<string, Instance>, added: seq<string>, ids: set<string>)
    requires InstancesFit(instances, added)
    ensures InstancesFit(instances - ids, added)
  {
    SubsetSize(Others(instances - ids, added), Others(instances, added));
  }

  /** What is left when an address is put last and, past the limit, the first one goes. */
  function Put(added: seq<string>, id: string): seq<string> {
    var all := Without(added, id) + [id];
    if |all| > MAX_ADDED then all[1..] else all
  }

  lemma {:induction false} WithoutNone(ids: seq<string>, id: string)
    requires id !in ids
    ensures Without(ids, id) == ids
  {
    if ids != [] { WithoutNone(ids[..|ids| - 1], id); }
  }

  lemma {:induction false} WithoutOne(ids: seq<string>, k: nat)
    requires k < |ids| && forall i :: 0 <= i < |ids| && i != k ==> ids[i] != ids[k]
    ensures Without(ids, ids[k]) == ids[..k] + ids[k + 1..]
  {
    var last := |ids| - 1;
    if k == last {
      WithoutNone(ids[..last], ids[last]);
      assert ids[..k] + ids[k + 1..] == ids[..last];
    } else {
      WithoutOne(ids[..last], k);
      assert ids[..last][..k] == ids[..k] && ids[..last][k + 1..] + [ids[last]] == ids[k + 1..];
    }
  }

  /** A new address goes last, and past the limit the first one goes; one there already moves to the end. */
  lemma PutLast(added: seq<string>, id: string)
    requires |added| <= MAX_ADDED
    ensures id !in added ==>
      && Put(added, id) == (if |added| == MAX_ADDED then added[1..] else added) + [id]
      && Dropped(added, id) == (if |added| == MAX_ADDED then {added[0]} else {})
    ensures forall k :: 0 <= k < |added| && added[k] == id && (forall i :: 0 <= i < |added| && i != k ==> added[i] != id) ==>
      Put(added, id) == added[..k] + added[k + 1..] + [id] && Dropped(added, id) == {}
  {
    if id !in added {
      WithoutNone(added, id);
    }
    forall k | 0 <= k < |added| && added[k] == id && (forall i :: 0 <= i < |added| && i != k ==> added[i] != id)
      ensures Put(added, id) == added[..k] + added[k + 1..] + [id] && Dropped(added, id) == {}
    {
      WithoutOne(added, k);
    }
  }

  function Dropped(added: seq<string>, id: string): set<string> {
    var all := Without(added, id) + [id];
    if |all| > MAX_ADDED then {all[0]} else {}
  }

  function WithAdded(instances: map<string, Instance>, added: seq<string>, id: string, instance: Instance): map<string, Instance> {
    (instances - Dropped(added, id))[id := instance]
  }

  /** This computer's own record is not among those kept. */
  ghost predicate OwnRecordOut(own: Option<string>, instances: map<string, Instance>) {
    own.Some? && !IsAddedId(own.value) ==> own.value !in instances
  }

  lemma AddedIsNotOwn(instances: map<string, Instance>, added: seq<string>, id: string, instance: Instance, own: Option<string>)
    requires IsAddedId(id) && OwnRecordOut(own, instances)
    ensures OwnRecordOut(own, WithAdded(instances, added, id, instance))
  {
  }

  lemma PutFacts(added: seq<string>, id: string)
    requires |added| <= MAX_ADDED
    ensures |Put(added, id)| <= MAX_ADDED && id in Elements(Put(added, id))
    ensures Elements(added) <= Elements(Put(added, id)) + Dropped(added, id)
  {
    var all := Without(added, id) + [id];
    assert Elements(all) == Elements(Without(added, id)) + {id};
    if |all| > MAX_ADDED {
      assert all == [all[0]] + all[1..] && all[1..][|all| - 2] == id;
      assert Elements(all) == {all[0]} + Elements(all[1..]);
    } else {
      assert all[|all| - 1] == id;
    }
  }

  /** Adding an address may push the oldest one out, never a record. */
  lemma AddedFits(instances: map<string, Instance>, added: seq<string>, id: string, instance: Instance)
    requires InstancesFit(instances, added)
    ensures InstancesFit(WithAdded(instances, added, id, instance), Put(added, id))
  {
    var (put, dropped) := (Put(added, id), Dropped(added, id));
    PutFacts(added, id);
    forall other | other in Others(WithAdded(instances, added, id, instance), put) ensures other in Others(instances, added) {
      assert other !in Elements(put) && other !in dropped;
      assert other !in Elements(added);
    }
    SubsetSize(Others(WithAdded(instances, added, id, instance), put), Others(instances, added));
  }

  // ----- the computers heard from

  /** `heard`: when each key last had a hello recorded. It stays a neighbor for NEIGHBOR_TTL after. */
  ghost predicate HeardKept(neighbors: map<Key, Neighbor>, heard: map<Key, int>, clock: int) {
    && (forall key :: key in heard ==>
        heard[key] <= clock && ((key in neighbors && neighbors[key].lastHello == heard[key]) || clock - heard[key] >= NEIGHBOR_TTL))
    && (forall key :: key in neighbors ==> key in heard && neighbors[key].lastHello == heard[key])
  }

  lemma ExpiredKept(neighbors: map<Key, Neighbor>, heard: map<Key, int>, mapped: set<Key>, clock: int, now: int)
    requires HeardKept(neighbors, heard, clock) && now >= clock
    ensures HeardKept(Unexpired(neighbors, mapped, now), heard, now)
    ensures |Unexpired(neighbors, mapped, now)| <= |neighbors|
  {
    SubsetSize(Unexpired(neighbors, mapped, now).Keys, neighbors.Keys);
  }

  /** The keys a pairing window weighs: every neighbor not trusted here. */
  function Untrusted(neighbors: map<Key, Neighbor>, trusts: Trusts): set<Key> {
    set key | key in neighbors && key !in trusts.keys
  }

  function Namesakes(neighbors: map<Key, Neighbor>, keys: set<Key>, name: string): set<Key> {
    set key | key in keys && key in neighbors && neighbors[key].name == name
  }

  function StrangerOf(neighbors: map<Key, Neighbor>, trusts: Trusts, answered: set<Key>, key: Key, now: int): Stranger
    requires key in neighbors
  {
    var n := neighbors[key];
    Stranger(key, n.name, key in answered, now - n.lastHello < FRESH_HELLO,
             |Namesakes(neighbors, Untrusted(neighbors, trusts), n.name)| > 1 || n.name in trusts.names)
  }

  /** A name is a duplicate exactly when another stranger has it or something trusted is saved under it. */
  lemma DuplicateExactlyWhen(neighbors: map<Key, Neighbor>, trusts: Trusts, answered: set<Key>, key: Key, now: int)
    requires key in Untrusted(neighbors, trusts)
    ensures StrangerOf(neighbors, trusts, answered, key, now).duplicateName <==>
      neighbors[key].name in trusts.names
      || exists other :: other in Untrusted(neighbors, trusts) && other != key && neighbors[other].name == neighbors[key].name
  {
    var same := Namesakes(neighbors, Untrusted(neighbors, trusts), neighbors[key].name);
    if other :| other in Untrusted(neighbors, trusts) && other != key && neighbors[other].name == neighbors[key].name {
      SubsetSize({key, other}, same);
    } else {
      assert same == {key};
    }
  }

  /** What is said of a stranger, over the hellos recorded and the records that answered. */
  lemma StrangerSays(instances: map<string, Instance>, neighbors: map<Key, Neighbor>, trusts: Trusts, heard: map<Key, int>,
                     clock: int, key: Key, now: int)
    requires key in neighbors && HeardKept(neighbors, heard, clock)
    ensures var st := StrangerOf(neighbors, trusts, Mapped(instances), key, now);
      && st.key == key && st.name == neighbors[key].name
      && (st.answered <==> exists id :: id in instances && instances[id].key == Some(key))
      && (st.recent <==> key in heard && now - heard[key] < 30_000)
  {
  }

  predicate Names(present: seq<Stranger>, key: Key) {
    exists i :: 0 <= i < |present| && present[i].key == key
  }

  predicate IsStranger(st: Stranger, neighbors: map<Key, Neighbor>, trusts: Trusts, answered: set<Key>, now: int) {
    st.key in neighbors && st == StrangerOf(neighbors, trusts, answered, st.key, now)
  }

  /** `present` describes each of `keys` once. */
  ghost predicate Describes(present: seq<Stranger>, keys: set<Key>, neighbors: map<Key, Neighbor>, trusts: Trusts,
                            answered: set<Key>, now: int) {
    && |present| == |keys|
    && (forall i :: 0 <= i < |present| ==> present[i].key in keys && IsStranger(present[i], neighbors, trusts, answered, now))
    && (forall key :: key in keys ==> Names(present, key))
    && (forall i, j :: 0 <= i < j < |present| ==> present[i].key != present[j].key)
  }

  lemma DescribesMore(present: seq<Stranger>, keys: set<Key>, neighbors: map<Key, Neighbor>, trusts: Trusts,
                      answered: set<Key>, now: int, st: Stranger)
    requires Describes(present, keys, neighbors, trusts, answered, now)
    requires st.key !in keys && IsStranger(st, neighbors, trusts, answered, now)
    ensures Describes(present + [st], keys + {st.key}, neighbors, trusts, answered, now)
  {
    var all := present + [st];
    assert all[|present|] == st;
    forall key | key in keys ensures Names(all, key) {
      assert Names(present, key);
      var i :| 0 <= i < |present| && present[i].key == key;
      assert all[i].key == key;
    }
  }

  /** A hello recorded for `key`: room is made by expiry alone. */
  lemma RecordedKept(neighbors: map<Key, Neighbor>, heard: map<Key, int>, now: int, key: Key, n: Neighbor)
    requires HeardKept(neighbors, heard, now) && n.lastHello == now && |neighbors| <= MAX_NEIGHBORS
    requires key in neighbors || |neighbors| < MAX_NEIGHBORS
    ensures HeardKept(neighbors[key := n], heard[key := now], now) && |neighbors[key := n]| <= MAX_NEIGHBORS
  {
    if key in neighbors {
      assert neighbors[key := n].Keys == neighbors.Keys;
    } else {
      assert neighbors[key := n].Keys == neighbors.Keys + {key};
    }
  }

  lemma LaterKept(neighbors: map<Key, Neighbor>, heard: map<Key, int>, clock: int, now: int)
    requires HeardKept(neighbors, heard, clock) && now >= clock
    ensures HeardKept(neighbors, heard, now)
  {
  }

  ghost predicate Sound(own: Key, ownRecord: Option<string>, instances: map<string, Instance>, neighbors: map<Key, Neighbor>,
                        added: seq<string>, heard: map<Key, int>, clock: int) {
    && InstancesFit(instances, added)
    && |neighbors| <= MAX_NEIGHBORS && own !in neighbors
    && OwnRecordOut(ownRecord, instances)
    && HeardKept(neighbors, heard, clock)
  }

  lemma AddedIsSound(own: Key, ownRecord: Option<string>, instances: map<string, Instance>, neighbors: map<Key, Neighbor>,
                     added: seq<string>, heard: map<Key, int>, clock: int, id: string, instance: Instance)
    requires Sound(own, ownRecord, instances, neighbors, added, heard, clock) && IsAddedId(id)
    ensures Sound(own, ownRecord, WithAdded(instances, added, id, instance), neighbors, Put(added, id), heard, clock)
  {
    AddedFits(instances, added, id, instance);
    AddedIsNotOwn(instances, added, id, instance, ownRecord);
  }

  lemma RecordedIsSound(own: Key, ownRecord: Option<string>, instances: map<string, Instance>, neighbors: map<Key, Neighbor>,
                        added: seq<string>, heard: map<Key, int>, now: int, key: Key, n: Neighbor)
    requires Sound(own, ownRecord, instances, neighbors, added, heard, now) && key != own && n.lastHello == now
    requires key in neighbors || |neighbors| < MAX_NEIGHBORS
    ensures Sound(own, ownRecord, instances, neighbors[key := n], added, heard[key := now], now)
  {
    RecordedKept(neighbors, heard, now, key, n);
  }

  class Table {
    const own: Key
    var ownRecord: Option<string>
    var instances: map<string, Instance>
    var neighbors: map<Key, Neighbor>
    var added: seq<string>
    var turnedAway: bool
    ghost var clock: int
    ghost var heard: map<Key, int>

    ghost predicate Valid()
      reads this
    {
      Sound(own, ownRecord, instances, neighbors, added, heard, clock)
    }

    constructor (own: Key, now: int)
      ensures Valid() && this.own == own && heard == map[] && !turnedAway && clock == now
    {
      this.own := own;
      ownRecord, instances, neighbors, added, turnedAway := None, map[], map[], [], false;
      clock, heard := now, map[];
      new;
      assert instances.Keys - Elements(added) == {};
    }

    method OwnRecord(instance: Option<string>)
      requires Valid()
      modifies this`ownRecord, this`instances
      ensures Valid() && ownRecord == instance
      ensures instances == if instance.Some? then old(instances) - {instance.value} else old(instances)
    {
      if instance.Some? {
        GoneFits(instances, added, {instance.value});
        instances := instances - {instance.value};
      }
      ownRecord := instance;
    }

    /** A record was resolved: kept, renewed, or turned away when there is no room. */
    method InstanceSeen(id: string, addresses: seq<Address>, compatible: bool, name: Option<string>)
      requires Valid()
      modifies this`instances, this`turnedAway
      ensures Valid()
      ensures ownRecord == Some(id) ==> instances == old(instances) && turnedAway == old(turnedAway)
      ensures ownRecord != Some(id) && id !in old(instances) && |old(instances)| >= MAX_INSTANCES ==>
        instances == old(instances) && turnedAway
      ensures ownRecord != Some(id) && (id in old(instances) || |old(instances)| < MAX_INSTANCES) ==>
        var key := if id in old(instances) then old(instances)[id].key else None;
        turnedAway == old(turnedAway) && instances == old(instances)[id := Instance(addresses, compatible, name, key)]
    {
      if ownRecord == Some(id) {
        return;
      }
      if id in instances {
        SeenFits(instances, added, id, Instance(addresses, compatible, name, instances[id].key));
        instances := instances[id := Instance(addresses, compatible, name, instances[id].key)];
      } else if |instances| >= MAX_INSTANCES {
        turnedAway := true;
      } else {
        SeenFits(instances, added, id, Instance(addresses, compatible, name, None));
        instances := instances[id := Instance(addresses, compatible, name, None)];
      }
    }

    method InstanceGone(id: string, now: int)
      requires Valid() && now >= clock
      modifies this`instances, this`neighbors
      ensures Valid() && instances == old(instances) - {id}
      ensures neighbors.Keys == old(neighbors).Keys
      ensures forall key :: key in neighbors ==>
        var gone := id in old(instances) && old(instances)[id].key == Some(key);
        neighbors[key] == if gone then old(neighbors)[key].(lastSeen := now) else old(neighbors)[key]
    {
      var key := if id in instances then instances[id].key else None;
      GoneFits(instances, added, {id});
      instances := instances - {id};
      if key.Some? && key.value in neighbors {
        assert neighbors[key.value := neighbors[key.value].(lastSeen := now)].Keys == neighbors.Keys;
        neighbors := neighbors[key.value := neighbors[key.value].(lastSeen := now)];
      }
    }

    /** A person added an address: it goes last, and past the limit the oldest one goes. */
    method AddAddress(text: string, address: Address)
      requires Valid()
      modifies this`instances, this`added
      ensures Valid()
      ensures var id := ADDED_PREFIX + text;
        && added == Put(old(added), id)
        && instances == WithAdded(old(instances), old(added), id, Instance([address], true, None, None))
    {
      PlaceAdded(ADDED_PREFIX + text, Instance([address], true, None, None));
    }

    method PlaceAdded(id: string, instance: Instance)
      requires Valid() && IsAddedId(id)
      modifies this`instances, this`added
      ensures Valid() && added == Put(old(added), id)
      ensures instances == WithAdded(old(instances), old(added), id, instance)
    {
      AddedIsSound(own, ownRecord, instances, neighbors, added, heard, clock, id, instance);
      instances, added := PutLastOf(instances, added, id, instance);
    }

    /** Something was turned away for want of room, here or elsewhere. */
    method TurnedOneAway()
      requires Valid()
      modifies this`turnedAway
      ensures Valid() && turnedAway
    {
      turnedAway := true;
    }

    /** Drops the computers whose records are gone and that have been silent for NEIGHBOR_TTL. */
    method Expire(now: int)
      requires Valid() && now >= clock
      modifies this`neighbors, this`clock
      ensures Valid() && clock == now && neighbors == Unexpired(old(neighbors), Mapped(instances), now)
      ensures forall key :: key in neighbors ==> key in old(neighbors) && neighbors[key] == old(neighbors)[key]
      ensures forall key :: key in old(neighbors) ==>
        var n := old(neighbors)[key];
        (key !in neighbors <==> now - n.lastHello >= NEIGHBOR_TTL && now - n.lastSeen >= NEIGHBOR_TTL
                                && forall id :: id in instances ==> instances[id].key != Some(key))
    {
      ExpiredKept(neighbors, heard, Mapped(instances), clock, now);
      neighbors, clock := Unexpired(neighbors, Mapped(instances), now), now;
    }

    /** The hello to a record proved this key. */
    method MarkAnswered(record: Option<string>, key: Key)
      requires Valid()
      modifies this`instances
      ensures Valid()
      ensures instances == Answering(old(instances), record, key)
      ensures record.None? || record.value !in old(instances) ==> instances == old(instances)
      ensures record.Some? && record.value in old(instances) ==>
        var was := old(instances)[record.value];
        instances == old(instances)[record.value := Instance(was.addresses, was.compatible, was.name, Some(key))]
    {
      if record.Some? && record.value in instances {
        SeenFits(instances, added, record.value, instances[record.value].(key := Some(key)));
        instances := instances[record.value := instances[record.value].(key := Some(key))];
      }
    }

    /** Room for a computer not known yet is made by expiry alone. */
    method Record(key: Key, neighbor: Neighbor) returns (recorded: bool)
      requires Valid() && key != own && neighbor.lastHello == clock
      modifies this`neighbors, this`turnedAway, this`heard
      ensures Valid()
      ensures recorded <==> key in old(neighbors) || |old(neighbors)| < MAX_NEIGHBORS
      ensures recorded ==> neighbors == old(neighbors)[key := neighbor] && heard == old(heard)[key := clock] && turnedAway == old(turnedAway)
      ensures !recorded ==> neighbors == old(neighbors) && heard == old(heard) && turnedAway
    {
      if key !in neighbors && |neighbors| >= MAX_NEIGHBORS {
        turnedAway := true;
        return false;
      }
      RecordedIsSound(own, ownRecord, instances, neighbors, added, heard, clock, key, neighbor);
      neighbors, heard := neighbors[key := neighbor], heard[key := clock];
      return true;
    }

    /** A hello proved `key`; it is recorded unless it is this computer's own or there is no room. */
    method Hello(key: Key, name: string, addresses: seq<Address>, record: Option<string>, now: int) returns (r: Option<Key>)
      requires Valid() && now >= clock
      modifies this`instances, this`neighbors, this`turnedAway, this`clock, this`heard
      ensures Valid() && clock == now && instances == Answering(old(instances), record, key)
      ensures r == None || r == Some(key)
      ensures key != own ==>
        var rest := Unexpired(old(neighbors), Mapped(instances), now);
        && (r == Some(key) <==> key in rest || |rest| < MAX_NEIGHBORS)
        && neighbors == if r.Some? then rest[key := Neighbor(name, addresses, now, now)] else rest
      ensures r == Some(key) ==> key != own && key in neighbors && heard == old(heard)[key := now] && turnedAway == old(turnedAway)
      ensures r == None ==> heard == old(heard) && (key == own || turnedAway)
      ensures key == own ==> r == None && neighbors == old(neighbors) && turnedAway == old(turnedAway)
    {
      MarkAnswered(record, key);
      if key == own {
        LaterKept(neighbors, heard, clock, now);
        clock := now;
        return None;
      }
      var recorded := HeardFrom(key, name, addresses, now);
      return if recorded then Some(key) else None;
    }

    method HeardFrom(key: Key, name: string, addresses: seq<Address>, now: int) returns (recorded: bool)
      requires Valid() && now >= clock && key != own
      modifies this`neighbors, this`turnedAway, this`clock, this`heard
      ensures Valid() && clock == now
      ensures var rest := Unexpired(old(neighbors), Mapped(instances), now);
        && (recorded <==> key in rest || |rest| < MAX_NEIGHBORS)
        && neighbors == if recorded then rest[key := Neighbor(name, addresses, now, now)] else rest
      ensures recorded ==> heard == old(heard)[key := now] && turnedAway == old(turnedAway)
      ensures !recorded ==> heard == old(heard) && turnedAway
    {
      Expire(now);
      recorded := Record(key, Neighbor(name, addresses, now, now));
    }

    /** The computers nobody here trusts yet, in no particular order. */
    method LookAround(trusts: Trusts, now: int) returns (r: Strangers)
      ensures Describes(r.present, Untrusted(neighbors, trusts), neighbors, trusts, Mapped(instances), now)
      ensures r.turnedAway == turnedAway
      ensures forall key :: Names(r.present, key) <==> key in neighbors && key !in trusts.keys
      ensures forall i, j :: 0 <= i < j < |r.present| ==> r.present[i].key != r.present[j].key
      ensures r.unidentified == |set id | id in instances && instances[id].compatible && instances[id].key.None?|
    {
      var present := Describe(neighbors, trusts, Mapped(instances), now);
      return Strangers(present, |Unidentified(instances)|, turnedAway);
    }
  }

  /** The steps of add_address over both tables. */
  method PutLastOf(instances: map<string, Instance>, added: seq<string>, id: string, instance: Instance)
      returns (records: map<string, Instance>, last: seq<string>)
    ensures last == Put(added, id) && records == WithAdded(instances, added, id, instance)
  {
    records, last := instances, Without(added, id) + [id];
    if |last| > MAX_ADDED {
      records := records - {last[0]};
      last := last[1..];
    } else {
      assert records == instances - {};
    }
    records := records[id := instance];
  }

  function Answering(instances: map<string, Instance>, record: Option<string>, key: Key): map<string, Instance> {
    if record.Some? && record.value in instances
    then instances[record.value := instances[record.value].(key := Some(key))] else instances
  }

  /** Compatible records whose key is not known yet. */
  function Unidentified(instances: map<string, Instance>): set<string> {
    set id | id in instances && instances[id].compatible && instances[id].key.None?
  }

  method Describe(neighbors: map<Key, Neighbor>, trusts: Trusts, answered: set<Key>, now: int) returns (present: seq<Stranger>)
    ensures Describes(present, Untrusted(neighbors, trusts), neighbors, trusts, answered, now)
  {
    var left, done := Untrusted(neighbors, trusts), {};
    present := [];
    while left != {}
      invariant done + left == Untrusted(neighbors, trusts) && done !! left
      invariant Describes(present, done, neighbors, trusts, answered, now)
      decreases left
    {
      var key :| key in left;
      assert key in Untrusted(neighbors, trusts);
      var st := StrangerOf(neighbors, trusts, answered, key, now);
      DescribesMore(present, done, neighbors, trusts, answered, now, st);
      present, left, done := present + [st], left - {key}, done + {key};
    }
  }

  /** The limits of every table in every reachable state, in figures; its own key is never a neighbor. */
  lemma TablesAreBounded(t: Table)
    requires t.Valid()
    ensures |t.neighbors| <= 32 && |t.added| <= 8 && |t.instances| <= 72
    ensures t.own !in t.neighbors
    ensures t.ownRecord.Some? && !("address:" <= t.ownRecord.value) ==> t.ownRecord.value !in t.instances
  {
    InstancesBounded(t.instances, t.added);
  }

  /** An untrusted key with a hello recorded within NEIGHBOR_TTL is among the strangers. */
  lemma HeardIsPresent(t: Table, trusts: Trusts, present: seq<Stranger>, answered: set<Key>, now: int, key: Key)
    requires t.Valid() && Describes(present, Untrusted(t.neighbors, trusts), t.neighbors, trusts, answered, now)
    requires key in t.heard && t.clock - t.heard[key] < NEIGHBOR_TTL && key !in trusts.keys
    ensures Names(present, key)
  {
    assert key in Untrusted(t.neighbors, trusts);
  }
}
