/** The manager protocol of a connection: ids for new streams, and finding the stores that both sides have. */
module Manager {
  import opened Common

  // ---------- Stream ids

  datatype Party = Client | Server {
    function Dual(): Party {
      if Client? then Server else Client
    }
  }

  const U32_SIZE: nat := 0x1_0000_0000

  /** The heartbeat and the two managers. */
  const INITIAL_STREAMS: set<nat> := {0, 1, 2}

  /** The stream id a manager starts from: its own. */
  function FirstId(p: Party): nat {
    if p.Client? then 1 else 2
  }

  class ManagerState {
    const partyWithInitiative: Party
    var latestStreamId: nat

    constructor (initiative: Party)
      ensures partyWithInitiative == initiative && latestStreamId == FirstId(initiative)
    {
      partyWithInitiative, latestStreamId := initiative, FirstId(initiative);
    }

    predicate IsValidStreamId(ourInitiative: bool, streamId: nat) {
      var ourParty := if ourInitiative then partyWithInitiative else partyWithInitiative.Dual();
      if ourParty.Dual().Client? then streamId % 2 == 1 else streamId % 2 == 0
    }

    method NextStreamId() returns (id: nat)
      requires latestStreamId + 2 < U32_SIZE
      modifies this
      ensures id == latestStreamId == old(latestStreamId) + 2
    {
      latestStreamId := latestStreamId + 2;
      id := latestStreamId;
    }

    /** The manager of the other side, without initiative, accepts the id it is asked to open. */
    method Request(responder: ManagerState) returns (id: nat)
      requires responder != this && responder.partyWithInitiative == partyWithInitiative
      requires latestStreamId + 2 < U32_SIZE && latestStreamId % 2 == FirstId(partyWithInitiative) % 2
      modifies this
      ensures latestStreamId == id == old(latestStreamId) + 2
      ensures responder.IsValidStreamId(false, id)
      ensures forall other: nat :: responder.IsValidStreamId(false, other) <==> other % 2 == id % 2
    {
      id := NextStreamId();
    }
  }

  /** The last ids given out on each side, and the streams that exist. */
  datatype Link = Link(client: nat, server: nat, streams: set<nat>)

  const CONNECTED: Link := Link(FirstId(Client), FirstId(Server), INITIAL_STREAMS)

  function NextId(l: Link, p: Party): nat {
    2 + if p.Client? then l.client else l.server
  }

  function Open(l: Link, p: Party): Link {
    var id := NextId(l, p);
    Link(if p.Client? then id else l.client, if p.Server? then id else l.server, l.streams + {id})
  }

  /** The ids given out when the parties ask for streams in this order. */
  function Opened(l: Link, ps: seq<Party>): seq<nat>
    decreases |ps|
  {
    if ps == [] then [] else [NextId(l, ps[0])] + Opened(Open(l, ps[0]), ps[1..])
  }

  /** Odd ids up to the last one of the client and even ids up to the last one of the server. */
  ghost predicate OwnIds(l: Link) {
    && l.client % 2 == 1 && l.server % 2 == 0 && l.server >= 2
    && (forall id :: id in l.streams ==> id <= if id % 2 == 1 then l.client else l.server)
  }

  lemma {:induction false} OpenedAreNew(l: Link, ps: seq<Party>)
    requires OwnIds(l)
    ensures Distinct(Opened(l, ps)) && |Opened(l, ps)| == |ps|
    ensures forall k :: 0 <= k < |ps| ==>
      && Opened(l, ps)[k] !in l.streams
      && Opened(l, ps)[k] % 2 == FirstId(ps[k]) % 2
      && Opened(l, ps)[k] <= 2 * |ps| + if l.client <= l.server then l.server else l.client
    decreases |ps|
  {
    if ps != [] {
      OpenedAreNew(Open(l, ps[0]), ps[1..]);
    }
  }

  /** How often a party has asked. */
  function Turns(ps: seq<Party>, p: Party): nat {
    if ps == [] then 0 else (if ps[0] == p then 1 else 0) + Turns(ps[1..], p)
  }

  lemma {:induction false} OpenedCountUp(l: Link, ps: seq<Party>, k: nat)
    requires k < |ps|
    ensures |Opened(l, ps)| == |ps|
    ensures Opened(l, ps)[k] == (if ps[k].Client? then l.client else l.server) + 2 * Turns(ps[..k + 1], ps[k])
    decreases k
  {
    assert ps[..k + 1][1..] == ps[1..][..k];
    if k > 0 {
      OpenedCountUp(Open(l, ps[0]), ps[1..], k - 1);
    } else {
      assert Turns(ps[..1][1..], ps[0]) == 0;
    }
    OpenedLength(l, ps);
  }

  lemma {:induction false} OpenedLength(l: Link, ps: seq<Party>)
    ensures |Opened(l, ps)| == |ps|
    decreases |ps|
  {
    if ps != [] { OpenedLength(Open(l, ps[0]), ps[1..]); }
  }

  /** The client opens 3, 5, 7 and so on, the server 4, 6, 8, whatever the other side does. */
  lemma StreamIdsCountUp(ps: seq<Party>, k: nat)
    requires k < |ps|
    ensures |Opened(CONNECTED, ps)| == |ps|
    ensures Opened(CONNECTED, ps)[k] == (if ps[k].Client? then 1 else 2) + 2 * Turns(ps[..k + 1], ps[k])
  {
    OpenedCountUp(CONNECTED, ps, k);
  }

  /**
    However the two sides take turns in opening streams, no id is ever used twice on a connection, none is that of a
    protocol that runs from the start, and each has the parity that the other side checks.
   */
  lemma StreamIdsNeverCollide(ps: seq<Party>)
    ensures var ids := Opened(CONNECTED, ps);
      && Distinct(ids) && |ids| == |ps|
      && (forall k :: 0 <= k < |ps| ==> ids[k] !in INITIAL_STREAMS && ids[k] % 2 == FirstId(ps[k]) % 2)
      && (2 * |ps| + 2 < U32_SIZE ==> forall k :: 0 <= k < |ps| ==> ids[k] < U32_SIZE)
  {
    OpenedAreNew(CONNECTED, ps);
  }

  // ---------- Advertising stores

  const MAX_ADVERTISE_STORES: nat := 256

  type StoreId = nat
  type Digest = nat

  /** The hash of store ids under the nonce of one advertisement. */
  type SaltedHash = StoreId -> Digest

  function Take(stores: seq<StoreId>): seq<StoreId> {
    stores[..Min(|stores|, MAX_ADVERTISE_STORES)]
  }

  function Hashed(h: SaltedHash, stores: seq<StoreId>): seq<Digest> {
    seq(|stores|, i requires 0 <= i < |stores| => h(stores[i]))
  }

  /** The client's stores by their hashes; a later store replaces an earlier one with the same hash. */
  function ByHash(h: SaltedHash, stores: seq<StoreId>): map<Digest, StoreId> {
    if stores == [] then map[]
    else
      var n := |stores| - 1;
      ByHash(h, stores[..n])[h(stores[n]) := stores[n]]
  }

  /** The first time that one of our stores is named. */
  predicate FirstMatch(ours: map<Digest, StoreId>, theirs: seq<Digest>, i: nat)
    requires i < |theirs|
  {
    theirs[i] in ours && theirs[i] !in theirs[..i]
  }

  function Matches(ours: map<Digest, StoreId>, theirs: seq<Digest>, n: nat): seq<StoreId>
    requires n <= |theirs|
  {
    if n == 0 then []
    else Matches(ours, theirs, n - 1) + (if FirstMatch(ours, theirs, n - 1) then [ours[theirs[n - 1]]] else [])
  }

  /**
    The client answers with a bit for every advertised hash and keeps the stores it found. A store that is named again
    is not found again.
   */
  method AdvertiseStoresClient(ours: map<Digest, StoreId>, theirs: seq<Digest>)
      returns (haveStores: seq<bool>, mutual: seq<StoreId>)
    requires |theirs| <= MAX_ADVERTISE_STORES
    ensures |haveStores| == MAX_ADVERTISE_STORES
    ensures forall i :: 0 <= i < MAX_ADVERTISE_STORES ==>
      (haveStores[i] <==> i < |theirs| && FirstMatch(ours, theirs, i))
    ensures mutual == Matches(ours, theirs, |theirs|)
  {
    var ourStoreIds := ours;
    haveStores, mutual := seq(MAX_ADVERTISE_STORES, _ => false), [];
    for i := 0 to |theirs|
      invariant |haveStores| == MAX_ADVERTISE_STORES
      invariant ourStoreIds == ours - Elems(theirs[..i])
      invariant forall j :: 0 <= j < MAX_ADVERTISE_STORES ==> (haveStores[j] <==> j < i && FirstMatch(ours, theirs, j))
      invariant mutual == Matches(ours, theirs, i)
    {
      assert Elems(theirs[..i + 1]) == Elems(theirs[..i]) + {theirs[i]};
      if theirs[i] in ourStoreIds {
        haveStores := haveStores[i := true];
        mutual := mutual + [ourStoreIds[theirs[i]]];
        ourStoreIds := ourStoreIds - {theirs[i]};
      }
    }
  }

  /** The server keeps what the client has. */
  function AdvertiseStoresServer(stores: seq<StoreId>, haveStores: seq<bool>): seq<StoreId> {
    if stores == [] || haveStores == [] then []
    else (if haveStores[0] then [stores[0]] else []) + AdvertiseStoresServer(stores[1..], haveStores[1..])
  }

  function Shared(stores: seq<StoreId>, others: seq<StoreId>, n: nat): seq<StoreId>
    requires n <= |stores|
  {
    if n == 0 then [] else Shared(stores, others, n - 1) + (if stores[n - 1] in others then [stores[n - 1]] else [])
  }

  ghost predicate Injective(h: SaltedHash) {
    forall s, s' :: h(s) == h(s') ==> s == s'
  }

  lemma {:induction false} ByHashFinds(h: SaltedHash, stores: seq<StoreId>, s: StoreId)
    requires Injective(h)
    ensures h(s) in ByHash(h, stores) <==> s in stores
    ensures s in stores ==> ByHash(h, stores)[h(s)] == s
  {
    if stores != [] {
      var n := |stores| - 1;
      ByHashFinds(h, stores[..n], s);
      assert stores == stores[..n] + [stores[n]];
    }
  }

  lemma {:induction false} MatchesAreShared(h: SaltedHash, stores: seq<StoreId>, others: seq<StoreId>, n: nat)
    requires Injective(h) && Distinct(stores) && n <= |stores|
    ensures Matches(ByHash(h, others), Hashed(h, stores), n) == Shared(stores, others, n)
    ensures n < |stores| ==> (FirstMatch(ByHash(h, others), Hashed(h, stores), n) <==> stores[n] in others)
  {
    if n > 0 { MatchesAreShared(h, stores, others, n - 1); }
    if n < |stores| {
      ByHashFinds(h, others, stores[n]);
      var theirs := Hashed(h, stores);
      forall i | 0 <= i < n
        ensures theirs[..n][i] != theirs[n]
      {
        assert stores[i] != stores[n];
      }
    }
    if n > 0 { ByHashFinds(h, others, stores[n - 1]); }
  }

  lemma {:induction false} ServerFilters(stores: seq<StoreId>, others: seq<StoreId>, haveStores: seq<bool>, k: nat)
    requires k <= |stores| <= |haveStores|
    requires forall i :: 0 <= i < |stores| ==> (haveStores[i] <==> stores[i] in others)
    ensures Shared(stores, others, k) + AdvertiseStoresServer(stores[k..], haveStores[k..])
         == Shared(stores, others, |stores|)
    decreases |stores| - k
  {
    if k < |stores| {
      ServerFilters(stores, others, haveStores, k + 1);
      assert stores[k..][1..] == stores[k + 1..] && haveStores[k..][1..] == haveStores[k + 1..];
      var rest := AdvertiseStoresServer(stores[k + 1..], haveStores[k + 1..]);
      var first := if haveStores[k] then [stores[k]] else [];
      assert Shared(stores, others, k + 1) == Shared(stores, others, k) + first;
      assert Shared(stores, others, k) + (first + rest) == Shared(stores, others, k) + first + rest;
    }
  }

  lemma {:induction false} SharedMembers(stores: seq<StoreId>, others: seq<StoreId>, n: nat, s: StoreId)
    requires n <= |stores|
    ensures s in Shared(stores, others, n) <==> s in stores[..n] && s in others
  {
    if n > 0 {
      SharedMembers(stores, others, n - 1, s);
      assert stores[..n] == stores[..n - 1] + [stores[n - 1]];
    }
  }

  /**
    When the salted hash has no collisions, both sides come to the same list: the stores the server advertised that
    the client has.
   */
  lemma BothSidesAgree(h: SaltedHash, serverStores: seq<StoreId>, clientStores: seq<StoreId>, haveStores: seq<bool>)
    requires Injective(h) && Distinct(serverStores) && |haveStores| == MAX_ADVERTISE_STORES
    requires var theirs := Hashed(h, Take(serverStores));
      forall i :: 0 <= i < |theirs| ==> (haveStores[i] <==> FirstMatch(ByHash(h, clientStores), theirs, i))
    ensures var stores := Take(serverStores);
      var mutual := Matches(ByHash(h, clientStores), Hashed(h, stores), |stores|);
      && AdvertiseStoresServer(stores, haveStores) == mutual
      && (forall s :: s in mutual <==> s in stores && s in clientStores)
  {
    var stores := Take(serverStores);
    var theirs := Hashed(h, stores);
    forall i | 0 <= i < |stores|
      ensures haveStores[i] <==> stores[i] in clientStores
    {
      MatchesAreShared(h, stores, clientStores, i);
    }
    MatchesAreShared(h, stores, clientStores, |stores|);
    ServerFilters(stores, clientStores, haveStores, 0);
    assert stores[0..] == stores && haveStores[0..] == haveStores && stores[..|stores|] == stores;
    assert [] + AdvertiseStoresServer(stores, haveStores) == AdvertiseStoresServer(stores, haveStores);
    forall s
      ensures s in Shared(stores, clientStores, |stores|) <==> s in stores && s in clientStores
    {
      SharedMembers(stores, clientStores, |stores|, s);
    }
  }
}
