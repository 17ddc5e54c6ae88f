/** The address manager: five mutually redundant structures over one set of
    peer addresses. The state is a value here; the operations follow the
    source statement by statement. Class Manager (module AddrManObject) updates
    the same state in place.

    The two bucket tables hold ids; an empty slot (-1 in the source) is a slot
    outside the domain of the map. The keyed hashes that choose buckets and
    positions are arbitrary functions, reduced modulo the table sizes.
 */
module AddrMan {
  import opened Options

  type Ip(==, !new, 0) = nat

  datatype Service = Service(ip: Ip, port: nat)

  // An address as announced by a peer. Services are a set of flag bits.
  datatype Address = Address(service: Service, services: set<nat>, time: int)

  datatype Info = Info(
    service: Service,
    services: set<nat>,
    time: int,
    source: Ip,
    lastTry: int,
    lastCountAttempt: int,
    lastSuccess: int,
    attempts: int,
    refCount: int,
    inTried: bool,
    randomPos: int)

  datatype Slot = Slot(bucket: nat, pos: nat)

  datatype Hashing = Hashing(
    newBuckets: nat,
    triedBuckets: nat,
    bucketSize: nat,
    triedHash: (nat, Service) -> nat,
    newHash: (nat, Service, Ip) -> nat,
    posHash: (nat, bool, nat, Service) -> nat,
    routable: Ip -> bool)
  {
    predicate Ok() { newBuckets > 0 && triedBuckets > 0 && bucketSize > 0 }

    function Position(key: nat, isNew: bool, bucket: nat, a: Service): (p: nat)
      requires Ok()
    { posHash(key, isNew, bucket, a) % bucketSize }

    function TriedSlot(key: nat, a: Service): (r: Slot)
      requires Ok()
    {
      var b := triedHash(key, a) % triedBuckets;
      Slot(b, Position(key, false, b, a))
    }

    function NewSlot(key: nat, a: Service, source: Ip): (r: Slot)
      requires Ok()
      ensures r.bucket < newBuckets && r.pos == Position(key, true, r.bucket, a)
    {
      var b := newHash(key, a, source) % newBuckets;
      Slot(b, Position(key, true, b, a))
    }
  }

  datatype State = State(
    key: nat,
    idCount: int,
    info: map<int, Info>,
    addr: map<Ip, int>,
    random: seq<int>,
    nTried: int,
    nNew: int,
    triedTable: map<Slot, int>,
    newTable: map<Slot, int>,          // the "new" table
    lastGood: int)

  const NEW_BUCKETS_PER_ADDRESS := 8
  const HORIZON_DAYS := 7
  const RETRIES := 3
  const MAX_FAILURES := 10
  const MIN_FAIL_DAYS := 2
  const GETADDR_MAX_PCT := 23
  const GETADDR_MAX := 2500

  // ------------------------------------------------------------- operations

  // A new manager.
  function Fresh(key: nat): State {
    State(key, 0, map[], map[], [], 0, 0, map[], map[], 1)
  }

  // What clearing does: mapInfo and mapAddr stay as they are.
  function Clear(s: State, key: nat): State {
    Fresh(key).(info := s.info, addr := s.addr)
  }

  predicate IsTerrible(i: Info, now: int) {
    if i.lastTry != 0 && i.lastTry >= now - 60 then false
    else if i.time > now + 10 * 60 then true
    else if i.time == 0 || now - i.time > HORIZON_DAYS * 24 * 60 * 60 then true
    else if i.lastSuccess == 0 && i.attempts >= RETRIES then true
    else now - i.lastSuccess > MIN_FAIL_DAYS * 24 * 60 * 60 && i.attempts >= MAX_FAILURES
  }

  function Find(s: State, ip: Ip): Option<int> {
    if ip in s.addr && s.addr[ip] in s.info then Some(s.addr[ip]) else None
  }

  function Create(s: State, a: Address, source: Ip): State {
    var id := s.idCount;
    s.(idCount := id + 1,
       info := s.info[id := Info(a.service, a.services, a.time, source, 0, 0, 0, 0, 0, false, |s.random|)],
       addr := s.addr[a.service.ip := id],
       random := s.random + [id])
  }

  predicate CanSwap(s: State, p1: int, p2: int) {
    p1 == p2 ||
    (0 <= p1 < |s.random| && 0 <= p2 < |s.random| && s.random[p1] in s.info && s.random[p2] in s.info)
  }

  function SwapRandom(s: State, p1: int, p2: int): State
    requires CanSwap(s, p1, p2)
  {
    if p1 == p2 then s
    else
      var id1 := s.random[p1];
      var id2 := s.random[p2];
      var info1 := s.info[id1 := s.info[id1].(randomPos := p2)];
      var info2 := info1[id2 := info1[id2].(randomPos := p1)];
      s.(info := info2, random := s.random[p1 := id2][p2 := id1])
  }

  predicate CanDelete(s: State, id: int) {
    && id in s.info && !s.info[id].inTried && s.info[id].refCount == 0
    && s.random != [] && CanSwap(s, s.info[id].randomPos, |s.random| - 1)
  }

  function Delete(s: State, id: int): State
    requires CanDelete(s, id)
  {
    var r := SwapRandom(s, s.info[id].randomPos, |s.random| - 1);
    r.(random := r.random[..|r.random| - 1],
       addr := r.addr - {s.info[id].service.ip},
       info := r.info - {id},
       nNew := r.nNew - 1)
  }

  function Unref(s: State, slot: Slot): State
    requires slot in s.newTable && s.newTable[slot] in s.info
  {
    var id := s.newTable[slot];
    var i := s.info[id];
    s.(info := s.info[id := i.(refCount := i.refCount - 1)], newTable := s.newTable - {slot})
  }

  predicate CanClear(s: State, slot: Slot) {
    slot in s.newTable ==>
      && s.newTable[slot] in s.info && s.info[s.newTable[slot]].refCount > 0
      && (s.info[s.newTable[slot]].refCount == 1 ==> CanDelete(Unref(s, slot), s.newTable[slot]))
  }

  function ClearNew(s: State, slot: Slot): State
    requires CanClear(s, slot)
  {
    if slot !in s.newTable then s
    else
      var id := s.newTable[slot];
      var r := Unref(s, slot);
      if r.info[id].refCount == 0 then Delete(r, id) else r
  }

  // The slots of the new table that hold an id.
  function SlotsOf(newTable: map<Slot, int>, id: int): set<Slot> {
    set slot | slot in newTable && newTable[slot] == id
  }

  // Take an entry out of every new bucket.
  function Withdraw(s: State, id: int): State
    requires id in s.info
  {
    var i := s.info[id];
    s.(info := s.info[id := i.(refCount := i.refCount - |SlotsOf(s.newTable, id)|)],
       newTable := s.newTable - SlotsOf(s.newTable, id),
       nNew := s.nNew - 1)
  }

  // Take an entry out of the tried table.
  function Evict(s: State, slot: Slot): State
    requires slot in s.triedTable && s.triedTable[slot] in s.info
  {
    var id := s.triedTable[slot];
    s.(info := s.info[id := s.info[id].(inTried := false)], triedTable := s.triedTable - {slot}, nTried := s.nTried - 1)
  }

  // Enter an entry without references into one slot of the new table.
  function Readmit(s: State, id: int, slot: Slot): State
    requires id in s.info
  {
    s.(info := s.info[id := s.info[id].(refCount := 1)], newTable := s.newTable[slot := id], nNew := s.nNew + 1)
  }

  function Promote(s: State, id: int, slot: Slot): State
    requires id in s.info
  {
    s.(info := s.info[id := s.info[id].(inTried := true)],
       triedTable := s.triedTable[slot := id],
       nTried := s.nTried + 1)
  }
}
