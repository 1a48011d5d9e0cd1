/** The NAT 2.5 database: a hash table of entries chained through next and back pointers, seen as a map. */
module Nat25 {
  import opened Bytes

  /** MAX_NETWORK_ADDR_LEN is 17; the first byte tells the protocol. */
  type Addr = a: seq<bv8> | |a| == 17 witness seq(17, _ => 0)

  function XorRange(a: Addr, lo: nat, hi: nat): bv8
    requires lo <= hi <= |a|
    decreases hi
  {
    if lo == hi then 0 else XorRange(a, lo, hi - 1) ^ a[hi - 1]
  }

  function LowNibble(x: bv8): (n: nat)
    ensures n < 16
  {
    (x & 0x0F) as int
  }

  /** NAT25_HASH_SIZE is 16. */
  type BucketNo = n: nat | n < 16

  /** __nat25_network_hash: which bytes are folded depends on the protocol. The table below works for any hash. */
  function NetworkHash(a: Addr): BucketNo {
    LowNibble(if a[0] == 1 then XorRange(a, 7, 11)
              else if a[0] == 3 then XorRange(a, 1, 11)
              else if a[0] == 4 then XorRange(a, 1, 4)
              else if a[0] == 5 then XorRange(a, 0, 9)
              else if a[0] == 2 then XorRange(a, 1, 17)
              else XorRange(a, 0, 17))
  }

  /** The driver has NAT25_HASH_SIZE, 16, buckets; the table works for any number of them. */
  ghost predicate Hashes(hash: Addr -> nat, buckets: nat) {
    forall a {:trigger hash(a)} :: hash(a) < buckets
  }

  lemma DriverHash()
    ensures Hashes(a => NetworkHash(a), 16)
  {
  }

  lemma {:induction false} XorUpdate(a: Addr, lo: nat, hi: nat, k: nat, x: bv8)
    requires lo <= hi <= 17 && k < 17
    ensures XorRange(a[k := x], lo, hi) == if lo <= k < hi then XorRange(a, lo, hi) ^ a[k] ^ x else XorRange(a, lo, hi)
    decreases hi
  {
    if lo < hi {
      XorUpdate(a, lo, hi - 1, k, x);
      if k == hi - 1 {
        XorCancels(XorRange(a, lo, hi - 1), a[k], x);
      } else {
        XorSwaps(XorRange(a, lo, hi - 1), a[k], x, a[hi - 1]);
      }
    }
  }

  lemma XorCancels(p: bv8, q: bv8, x: bv8)
    ensures p ^ x == p ^ q ^ q ^ x
  {
  }

  lemma XorSwaps(p: bv8, q: bv8, x: bv8, r: bv8)
    ensures p ^ q ^ x ^ r == p ^ r ^ q ^ x
  {
  }

  lemma NibbleIs(x: bv8, y: bv8)
    ensures LowNibble(x) == LowNibble(y) <==> x & 0x0F == y & 0x0F
  {
  }

  lemma NibbleXor(p: bv8, q: bv8, x: bv8)
    ensures (p ^ q ^ x) & 0x0F == p & 0x0F <==> q & 0x0F == x & 0x0F
  {
  }

  /** The bucket of an IPv4 address hangs on the low nibbles of its four bytes, on each of them, and on nothing else: 16
      addresses in a row spread over all 16 buckets. */
  lemma IpSpreads(a: Addr, k: nat, x: bv8)
    requires a[0] == 1 && 0 < k < 17
    ensures NetworkHash(a[k := x]) != NetworkHash(a) <==> 7 <= k < 11 && x & 0x0F != a[k] & 0x0F
  {
    XorUpdate(a, 7, 11, k, x);
    var h := XorRange(a, 7, 11);
    NibbleIs(XorRange(a[k := x], 7, 11), h);
    NibbleXor(h, a[k], x);
  }

  /** Where the pointer to an entry is stored: in a bucket, or in the next field of another entry. */
  datatype PPrev = Detached | Bucket(i: nat) | NextOf(e: Entry)

  class Entry {
    var next: Entry?
    var pprev: PPrev
    var useCount: int
    var mac: seq<u8>
    var ageing: int
    const addr: Addr

    constructor (addr: Addr, mac: seq<u8>, now: int)
      ensures this.addr == addr && this.mac == mac && ageing == now && useCount == 1
      ensures next == null && pprev == Detached
    {
      this.addr, this.mac, ageing, useCount, next, pprev := addr, mac, now, 1, null, Detached;
    }
  }

  /** What the table knows about an address. */
  datatype Rec = Rec(mac: seq<u8>, ageing: int, use: int)

  type Db = map<Addr, Rec>

  /** A stored entry has at least one use left. */
  predicate InUse(db: Db) {
    forall a :: a in db ==> db[a].use >= 1
  }

  /** Aged at `now`: not refreshed for `limit` ticks (NAT25_AGEING_TIME seconds). */
  predicate Aged(r: Rec, now: int, limit: nat) {
    r.ageing <= now - limit
  }

  /** Ageing the whole table: an aged entry loses one use, and goes away with its last. */
  function ExpireSpec(db: Db, now: int, limit: nat): Db {
    map a | a in db && !(Aged(db[a], now, limit) && db[a].use == 1) ::
      if Aged(db[a], now, limit) then db[a].(use := db[a].use - 1) else db[a]
  }

  /** Ageing restricted to the addresses in `done`. */
  ghost function Expired(db: Db, now: int, limit: nat, done: iset<Addr>): Db {
    map a | a in db && !(a in done && Aged(db[a], now, limit) && db[a].use == 1) ::
      if a in done && Aged(db[a], now, limit) then db[a].(use := db[a].use - 1) else db[a]
  }

  lemma ExpiredKeepsUse(db: Db, now: int, limit: nat, done: iset<Addr>)
    requires InUse(db)
    ensures InUse(Expired(db, now, limit, done))
  {
  }

  /** Ageing of one address, as an update of the map. */
  lemma ExpiredSingle(db: Db, now: int, limit: nat, a: Addr, less: Db)
    requires a in db && less == db[a := db[a].(use := db[a].use - 1)]
    ensures Expired(db, now, limit, iset{a}) ==
            if !Aged(db[a], now, limit) then db else if db[a].use == 1 then less - {a} else less
  {
  }

  /** What ageing one address comes to. */
  lemma ExpiredOutcome(db: Db, now: int, limit: nat, a: Addr, aged: bool, removed: bool, after: Db)
    requires InUse(db) && a in db && aged == Aged(db[a], now, limit) && removed == (aged && db[a].use == 1)
    requires var less := db[a := Rec(db[a].mac, db[a].ageing, db[a].use - 1)];
             after == if removed then less - {a} else if aged then less else db
    ensures InUse(after) && after == Expired(db, now, limit, iset{a})
  {
    var less := db[a := db[a].(use := db[a].use - 1)];
    ExpiredSingle(db, now, limit, a, less);
    ExpiredKeepsUse(db, now, limit, iset{a});
  }

  lemma ExpiredMore(db: Db, now: int, limit: nat, done: iset<Addr>, more: iset<Addr>)
    requires done !! more
    ensures Expired(Expired(db, now, limit, done), now, limit, more) == Expired(db, now, limit, done + more)
  {
  }

  lemma ExpiredSame(db: Db, now: int, limit: nat, one: iset<Addr>, two: iset<Addr>)
    requires forall a :: a in db ==> (a in one <==> a in two)
    ensures Expired(db, now, limit, one) == Expired(db, now, limit, two)
  {
  }

  lemma ExpiredAll(db: Db, now: int, limit: nat, done: iset<Addr>)
    requires forall a :: a in db ==> a in done
    ensures Expired(db, now, limit, done) == ExpireSpec(db, now, limit)
  {
  }

  /** A lookup counts a use of the entry it replaces a destination from. */
  function LookupSpec(db: Db, addr: Addr, now: int, limit: nat): Db {
    if addr in db && !Aged(db[addr], now, limit) then db[addr := db[addr].(use := db[addr].use + 1)] else db
  }

  function InsertSpec(db: Db, addr: Addr, mac: seq<u8>, now: int): Db {
    db[addr := Rec(mac, now, if addr in db then db[addr].use else 1)]
  }

  /** The transmit path's shortcut keeps the entry behind it fresh. */
  function RefreshSpec(db: Db, addr: Addr, now: int): Db {
    if addr in db then db[addr := db[addr].(ageing := now)] else db
  }

  // ------------------------------------------------------------ runs of the database

  datatype Event =
    | Inserted(addr: Addr, mac: seq<u8>, now: int)
    | LookedUp(addr: Addr, now: int)
    | Refreshed(addr: Addr, now: int)
    | Scanned(now: int)
    | Cleared

  function After(db: Db, ev: Event, limit: nat): Db {
    match ev
    case Inserted(addr, mac, now) => InsertSpec(db, addr, mac, now)
    case LookedUp(addr, now) => LookupSpec(db, addr, now, limit)
    case Refreshed(addr, now) => RefreshSpec(db, addr, now)
    case Scanned(now) => ExpireSpec(db, now, limit)
    case Cleared => map[]
  }

  function Run(evs: seq<Event>, limit: nat): Db {
    if evs == [] then map[] else After(Run(evs[..|evs| - 1], limit), evs[|evs| - 1], limit)
  }

  /** The last insertion of an address, with no cleanup after it. */
  predicate IsLast(evs: seq<Event>, addr: Addr, i: nat) {
    && i < |evs| && evs[i].Inserted? && evs[i].addr == addr
    && (forall j :: i < j < |evs| ==> !evs[j].Cleared? && (evs[j].Inserted? ==> evs[j].addr != addr))
  }

  /** When the address was last inserted or refreshed. */
  function LastTime(evs: seq<Event>, addr: Addr): int {
    if evs == [] then 0
    else
      var ev := evs[|evs| - 1];
      if (ev.Inserted? || ev.Refreshed?) && ev.addr == addr then ev.now else LastTime(evs[..|evs| - 1], addr)
  }

  /** A present address has been inserted and not cleaned up since; it shows the MAC of its last insertion and the time
      of its last insertion or refresh. */
  lemma {:induction false} Remembered(evs: seq<Event>, addr: Addr, limit: nat) returns (i: nat)
    requires addr in Run(evs, limit)
    ensures IsLast(evs, addr, i)
    ensures Run(evs, limit)[addr].mac == evs[i].mac && Run(evs, limit)[addr].ageing == LastTime(evs, addr)
  {
    var last := |evs| - 1;
    if evs[last].Inserted? && evs[last].addr == addr {
      i := last;
    } else {
      i := Remembered(evs[..last], addr, limit);
    }
  }

  lemma {:induction false} RunInUse(evs: seq<Event>, limit: nat)
    ensures InUse(Run(evs, limit))
  {
    if evs != [] {
      RunInUse(evs[..|evs| - 1], limit);
    }
  }

  /** An address stays until a cleanup as long as no scan since its last insertion finds it aged. */
  lemma {:induction false} Retained(evs: seq<Event>, addr: Addr, limit: nat, i: nat)
    requires IsLast(evs, addr, i)
    requires forall j :: i < j < |evs| && evs[j].Scanned? ==> LastTime(evs[..j], addr) > evs[j].now - limit
    ensures addr in Run(evs, limit)
  {
    var last := |evs| - 1;
    var init := evs[..last];
    if i < last {
      forall j | i < j < |init| && init[j].Scanned? ensures LastTime(init[..j], addr) > init[j].now - limit {
        assert init[..j] == evs[..j];
      }
      Retained(init, addr, limit, i);
      var k := Remembered(init, addr, limit);
    }
  }

  /** The uses an address has gained since it entered the table, one for every lookup before it had aged, less those it
      has lost, one for every scan after. */
  function NetUses(evs: seq<Event>, addr: Addr, limit: nat): int {
    if evs == [] then 0
    else
      var n := |evs| - 1;
      var front := evs[..n];
      var age := LastTime(front, addr) + limit;
      match evs[n]
      case Inserted(a, _, _) =>
        if a == addr && addr !in Run(front, limit) then 0 else NetUses(front, addr, limit)
      case LookedUp(a, now) => NetUses(front, addr, limit) + if a == addr && now < age then 1 else 0
      case Scanned(now) => NetUses(front, addr, limit) - if now >= age then 1 else 0
      case _ => NetUses(front, addr, limit)
  }

  /** Over any run, a stored address has one use for being there and those it gained, less those it lost. */
  lemma {:induction false} UsesBalance(evs: seq<Event>, addr: Addr, limit: nat)
    requires addr in Run(evs, limit)
    ensures Run(evs, limit)[addr].use == 1 + NetUses(evs, addr, limit)
  {
    var front := evs[..|evs| - 1];
    if addr in Run(front, limit) {
      UsesBalance(front, addr, limit);
      var i := Remembered(front, addr, limit);
    }
  }

  /** A lookup at `now` finds an address unaged exactly up to `limit` ticks after its last insertion or refresh. */
  lemma AgedIff(evs: seq<Event>, addr: Addr, now: int, limit: nat)
    requires addr in Run(evs, limit)
    ensures Aged(Run(evs, limit)[addr], now, limit) <==> now >= LastTime(evs, addr) + limit
  {
    var i := Remembered(evs, addr, limit);
  }

  function Scans(db: Db, times: seq<int>, limit: nat): Db {
    if times == [] then db else ExpireSpec(Scans(db, times[..|times| - 1], limit), times[|times| - 1], limit)
  }

  /** An aged address takes one scan per use to leave: a looked-up entry outlives its age by as many scans. */
  lemma {:induction false} LeavesByUse(db: Db, times: seq<int>, limit: nat, addr: Addr)
    requires addr in db && db[addr].use >= 1
    requires forall t :: t in times ==> Aged(db[addr], t, limit)
    ensures addr in Scans(db, times, limit) <==> |times| < db[addr].use
    ensures |times| < db[addr].use ==>
              Scans(db, times, limit)[addr] == db[addr].(use := db[addr].use - |times|)
  {
    if times != [] {
      LeavesByUse(db, times[..|times| - 1], limit, addr);
      assert times[|times| - 1] in times;
    }
  }

  /** The entry at a position of a chain, or null behind its end. */
  function At(c: seq<Entry>, k: nat): Entry? {
    if k < |c| then c[k] else null
  }

  /** The back pointer of the entry at a position of the chain of bucket `h`. */
  function Back(h: nat, c: seq<Entry>, k: nat): PPrev
    requires k <= |c|
  {
    if k == 0 then Bucket(h) else NextOf(c[k - 1])
  }

  ghost function Members(c: seq<Entry>): set<Entry> {
    set e | e in c
  }

  /** The entries of the first `n` buckets. */
  ghost function Listed(cs: seq<seq<Entry>>, n: nat): set<Entry>
    requires n <= |cs|
  {
    if n == 0 then {} else Listed(cs, n - 1) + Members(cs[n - 1])
  }

  /** In the first `n` buckets every entry sits in the bucket of its hash. */
  ghost predicate HomedUpTo(cs: seq<seq<Entry>>, hash: Addr -> nat, n: nat)
    requires n <= |cs|
  {
    n == 0 || (HomedUpTo(cs, hash, n - 1) && forall e :: e in Members(cs[n - 1]) ==> hash(e.addr) == n - 1)
  }

  ghost predicate Homed(cs: seq<seq<Entry>>, hash: Addr -> nat) {
    HomedUpTo(cs, hash, |cs|) && Hashes(hash, |cs|)
  }

  lemma HomedAt(cs: seq<seq<Entry>>, hash: Addr -> nat, n: nat, h: nat, e: Entry)
    requires h < n <= |cs| && HomedUpTo(cs, hash, n) && e in cs[h]
    ensures hash(e.addr) == h
  {
    if h < n - 1 {
      HomedAt(cs, hash, n - 1, h, e);
    } else {
      assert e in Members(cs[n - 1]);
    }
  }

  lemma AllHomed(cs: seq<seq<Entry>>, hash: Addr -> nat, n: nat)
    requires n <= |cs| && forall h, e :: 0 <= h < n && e in cs[h] ==> hash(e.addr) == h
    ensures HomedUpTo(cs, hash, n)
  {
    if n > 0 {
      AllHomed(cs, hash, n - 1);
    }
  }

  lemma ListedHome(cs: seq<seq<Entry>>, hash: Addr -> nat, n: nat, e: Entry)
    requires n <= |cs| && HomedUpTo(cs, hash, n)
    ensures e in Listed(cs, n) <==> hash(e.addr) < n && e in cs[hash(e.addr)]
  {
    if n > 0 {
      ListedHome(cs, hash, n - 1, e);
      if hash(e.addr) < n && e in cs[hash(e.addr)] {
        HomedAt(cs, hash, n, hash(e.addr), e);
      }
    }
  }

  lemma Apart(cs: seq<seq<Entry>>, hash: Addr -> nat, h: nat, b: nat)
    requires Homed(cs, hash) && h < |cs| && b < |cs| && h != b
    ensures Members(cs[h]) !! Members(cs[b])
  {
    forall e | e in Members(cs[h]) ensures e !in Members(cs[b]) {
      HomedAt(cs, hash, |cs|, h, e);
      if e in cs[b] {
        HomedAt(cs, hash, |cs|, b, e);
      }
    }
  }

  function Grown(cs: seq<seq<Entry>>, b: nat, ent: Entry): seq<seq<Entry>>
    requires b < |cs|
  {
    cs[b := [ent] + cs[b]]
  }

  lemma GrownBooks(cs: seq<seq<Entry>>, hash: Addr -> nat, ent: Entry)
    requires Homed(cs, hash)
    ensures Homed(Grown(cs, hash(ent.addr), ent), hash)
    ensures Listed(Grown(cs, hash(ent.addr), ent), |cs|) == Listed(cs, |cs|) + {ent}
  {
    var ds := Grown(cs, hash(ent.addr), ent);
    forall h: nat, e: Entry | h < |ds| && e in ds[h] ensures hash(e.addr) == h {
      if !(e == ent && h == hash(ent.addr)) {
        HomedAt(cs, hash, |cs|, h, e);
      }
    }
    AllHomed(ds, hash, |ds|);
    forall e | e in Listed(ds, |cs|) + Listed(cs, |cs|) + {ent}
      ensures e in Listed(ds, |cs|) <==> e in Listed(cs, |cs|) + {ent}
    {
      ListedHome(cs, hash, |cs|, e);
      ListedHome(ds, hash, |cs|, e);
    }
  }

  function Cut(cs: seq<seq<Entry>>, b: nat, k: nat): seq<seq<Entry>>
    requires b < |cs| && k < |cs[b]|
  {
    cs[b := cs[b][..k] + cs[b][k + 1..]]
  }

  lemma CutMembers(c: seq<Entry>, k: nat)
    requires k < |c| && forall i, j :: 0 <= i < j < |c| ==> c[i] != c[j]
    ensures forall e :: e in c[..k] + c[k + 1..] <==> e in c && e != c[k]
  {
    forall e: Entry | e in c && e != c[k] ensures e in c[..k] + c[k + 1..] {
      var i :| 0 <= i < |c| && c[i] == e;
      assert e == (c[..k] + c[k + 1..])[if i < k then i else i - 1];
    }
  }

  lemma CutBooks(cs: seq<seq<Entry>>, hash: Addr -> nat, b: nat, k: nat)
    requires Homed(cs, hash) && b < |cs| && k < |cs[b]|
    requires forall i, j :: 0 <= i < j < |cs[b]| ==> cs[b][i] != cs[b][j]
    ensures Homed(Cut(cs, b, k), hash)
    ensures Listed(Cut(cs, b, k), |cs|) == Listed(cs, |cs|) - {cs[b][k]}
  {
    var ds := Cut(cs, b, k);
    forall h: nat, e: Entry | h < |ds| && e in ds[h] ensures hash(e.addr) == h {
      HomedAt(cs, hash, |cs|, h, e);
    }
    AllHomed(ds, hash, |ds|);
    CutMembers(cs[b], k);
    forall e | e in Listed(ds, |cs|) + Listed(cs, |cs|)
      ensures e in Listed(ds, |cs|) <==> e in Listed(cs, |cs|) - {cs[b][k]}
    {
      ListedHome(cs, hash, |cs|, e);
      ListedHome(ds, hash, |cs|, e);
      assert e == cs[b][k] ==> hash(e.addr) == b by {
        HomedAt(cs, hash, |cs|, b, cs[b][k]);
      }
    }
  }

  class Vif {
    const nethash: array<Entry?>
    const hash: Addr -> nat              // NetworkHash in the driver
    const limit: nat                     // NAT25_AGEING_TIME in ticks
    var scdbEntry: Entry?
    var scdbMac: seq<u8>
    var scdbIp: seq<u8>

    ghost var chains: seq<seq<Entry>>    // the entries of each bucket, in order
    ghost var dict: map<Addr, Entry>     // the entry of each address
    ghost var repr: set<Entry>           // all of them
    ghost var contents: Db               // what they record

    /** Bucket `h` is the chain `c`: next pointers forwards, exact back pointers, no entry twice. */
    ghost predicate ChainOk(h: nat, c: seq<Entry>)
      requires h < nethash.Length
      reads nethash, Members(c)`next, Members(c)`pprev
    {
      && nethash[h] == At(c, 0)
      && (forall k {:trigger c[k].next} :: 0 <= k < |c| ==> c[k].next == At(c, k + 1))
      && (forall k {:trigger c[k].pprev} :: 0 <= k < |c| ==> c[k].pprev == Back(h, c, k))
      && (forall j, k :: 0 <= j < k < |c| ==> c[j] != c[k])
    }


    /** The dictionary lists the entries by address. */
    ghost predicate DictOk()
      reads `dict, `repr
    {
      && (forall e :: e in repr ==> e.addr in dict && dict[e.addr] == e)
      && (forall a :: a in dict ==> dict[a] in repr && dict[a].addr == a)
    }

    /** The first `n` entries of the chain of bucket `h`, spelled out one by one: what ChainOk says, as a recursion. */
    ghost predicate Spelled(h: nat, c: seq<Entry>, n: nat)
      requires h < nethash.Length && n <= |c|
      reads nethash, Members(c)`next, Members(c)`pprev
    {
      if n == 0 then nethash[h] == At(c, 0)
      else Spelled(h, c, n - 1) && c[n - 1].next == At(c, n) && c[n - 1].pprev == Back(h, c, n - 1) &&
           c[n - 1] !in c[..n - 1]
    }

    lemma SpelledIsOk(h: nat, c: seq<Entry>, n: nat)
      requires h < nethash.Length && n <= |c| && Spelled(h, c, n)
      ensures nethash[h] == At(c, 0)
      ensures forall k {:trigger c[k].next} :: 0 <= k < n ==> c[k].next == At(c, k + 1)
      ensures forall k {:trigger c[k].pprev} :: 0 <= k < n ==> c[k].pprev == Back(h, c, k)
      ensures forall j, k :: 0 <= j < k < n ==> c[j] != c[k]
    {
      if n > 0 {
        SpelledIsOk(h, c, n - 1);
        forall j | 0 <= j < n - 1 ensures c[j] != c[n - 1] {
          assert c[j] == c[..n - 1][j];
        }
      }
    }

    lemma OkIsSpelled(h: nat, c: seq<Entry>, n: nat)
      requires h < nethash.Length && n <= |c| && ChainOk(h, c)
      ensures Spelled(h, c, n)
    {
      if n > 0 {
        OkIsSpelled(h, c, n - 1);
        assert c[n - 1].next == At(c, n) && c[n - 1].pprev == Back(h, c, n - 1);
      }
    }

    /** The first `n` buckets are well linked. */
    ghost predicate Linked(n: nat)
      reads `chains, `repr, nethash, repr`next, repr`pprev
    {
      n == 0 || (
        && n <= nethash.Length == |chains|
        && Members(chains[n - 1]) <= repr
        && Spelled(n - 1, chains[n - 1], |chains[n - 1]|)
        && Linked(n - 1))
    }

    lemma LinkedAt(n: nat, h: nat)
      requires Linked(n) && h < n
      ensures nethash.Length == |chains| && ChainOk(h, chains[h])
    {
      if h < n - 1 {
        LinkedAt(n - 1, h);
      } else {
        SpelledIsOk(h, chains[h], |chains[h]|);
      }
    }

    /** The structure of the table; `scdb_entry` never points outside it. */
    ghost predicate Shaped()
      reads `chains, `dict, `repr, `scdbEntry, nethash, repr`next, repr`pprev
    {
      && nethash.Length == |chains|
      && Homed(chains, hash)
      && DictOk()
      && repr == Listed(chains, |chains|)
      && Linked(nethash.Length)
      && (scdbEntry != null ==> scdbEntry in repr)
    }

    /** `contents` is what the entries record. */
    ghost predicate Recorded()
      reads `contents, `dict, `repr, repr`mac, repr`ageing, repr`useCount
    {
      && contents.Keys == dict.Keys
      && (forall e :: e in repr ==> e.addr in contents && contents[e.addr] == Rec(e.mac, e.ageing, e.useCount))
    }

    ghost predicate Valid()
      reads this, nethash, repr
    {
      Shaped() && Recorded() && InUse(contents)
    }

    lemma AllLinked(n: nat)
      requires n <= nethash.Length == |chains|
      requires forall h :: 0 <= h < nethash.Length ==> ChainOk(h, chains[h])
      requires forall h :: 0 <= h < nethash.Length ==> Members(chains[h]) <= repr
      ensures Linked(n)
    {
      if n > 0 {
        OkIsSpelled(n - 1, chains[n - 1], |chains[n - 1]|);
        AllLinked(n - 1);
      }
    }

    lemma EmptyTable(n: nat)
      requires n <= nethash.Length == |chains|
      requires forall h :: 0 <= h < nethash.Length ==> nethash[h] == null && chains[h] == []
      ensures Listed(chains, n) == {} && Linked(n) && HomedUpTo(chains, hash, n)
    {
      if n > 0 {
        EmptyTable(n - 1);
      }
    }

    constructor (hash: Addr -> nat, buckets: nat, limit: nat)
      requires Hashes(hash, buckets)
      ensures Valid() && fresh(nethash) && contents == map[] && this.hash == hash && this.limit == limit
    {
      nethash := new Entry?[buckets](_ => null);
      this.hash, this.limit := hash, limit;
      scdbEntry, scdbMac, scdbIp := null, [0, 0, 0, 0, 0, 0], [0, 0, 0, 0];
      chains, dict, repr, contents := seq(buckets, _ => []), map[], {}, map[];
      new;
      EmptyTable(buckets);
    }

    // -------------------------------------------------------------- pointer surgery

    /** __network_hash_link: a detached entry becomes the first of its bucket. */
    method Link(ent: Entry, b: nat)
      requires nethash.Length == |chains|
      requires b < |chains| && ChainOk(b, chains[b]) && ent !in chains[b]
      modifies nethash, ent`next, ent`pprev, Members(chains[b])`pprev
      ensures ChainOk(b, [ent] + chains[b])
      ensures forall h :: 0 <= h < nethash.Length && h != b ==> nethash[h] == old(nethash[h])
    {
      ent.next := nethash[b];
      if ent.next != null {
        ent.next.pprev := NextOf(ent);
      }
      nethash[b] := ent;
      ent.pprev := Bucket(b);
      ghost var c, d := chains[b], [ent] + chains[b];
      assert forall k :: 0 < k < |d| ==> d[k] == c[k - 1];
    }

    /** The chain of bucket `h` with the entry at position `k` bypassed but still listed. */
    ghost predicate Bypassed(h: nat, c: seq<Entry>, k: nat)
      requires h < nethash.Length && k < |c|
      reads nethash, c
    {
      && nethash[h] == (if k == 0 then At(c, 1) else c[0])
      && (forall j {:trigger c[j].next} :: 0 <= j < |c| && j != k ==>
            c[j].next == (if j + 1 == k then At(c, k + 1) else At(c, j + 1)))
      && (forall j {:trigger c[j].pprev} :: 0 <= j < |c| && j != k ==>
            c[j].pprev == (if j == k + 1 then Back(h, c, k) else Back(h, c, j)))
      && (forall i, j :: 0 <= i < j < |c| ==> c[i] != c[j])
    }

    lemma BypassedIsRemoved(h: nat, c: seq<Entry>, k: nat)
      requires h < nethash.Length && k < |c| && Bypassed(h, c, k)
      ensures ChainOk(h, c[..k] + c[k + 1..])
    {
      var d := c[..k] + c[k + 1..];
      forall j | 0 <= j < |d|
        ensures d[j].next == At(d, j + 1) && d[j].pprev == Back(h, d, j)
      {
        var i := if j < k then j else j + 1;
        assert d[j] == c[i];
      }
    }

    /** __network_hash_unlink: the back pointer says what to redirect, whatever the position of the entry. */
    method Unlink(ent: Entry, ghost h: nat, ghost c: seq<Entry>, ghost k: nat)
      requires h < nethash.Length
      requires ChainOk(h, c) && k < |c| && c[k] == ent
      modifies nethash, Members(c)`next, Members(c)`pprev
      ensures Bypassed(h, c, k)
      ensures ent.next == null && ent.pprev == Detached
      ensures forall i :: 0 <= i < nethash.Length && i != h ==> nethash[i] == old(nethash[i])
    {
      assert ent.next == At(c, k + 1) && ent.pprev == Back(h, c, k);
      match ent.pprev {
        case Bucket(i) => nethash[i] := ent.next;
        case NextOf(e) => e.next := ent.next;
        case Detached =>
          assert false;
      }
      if ent.next != null {
        ent.next.pprev := ent.pprev;
      }
      ent.next := null;
      ent.pprev := Detached;
    }

    // -------------------------------------------------------------- the operations

    /** The search loop shared by lookup, insertion and scdb_findEntry. */
    method Search(addr: Addr, ghost c: seq<Entry>) returns (db: Entry?)
      requires hash(addr) < nethash.Length && ChainOk(hash(addr), c)
      ensures db == null ==> forall k :: 0 <= k < |c| ==> c[k].addr != addr
      ensures db != null ==> db in c && db.addr == addr
    {
      ghost var k := 0;
      db := nethash[hash(addr)];
      while db != null
        invariant 0 <= k <= |c| && db == At(c, k)
        invariant forall j :: 0 <= j < k ==> c[j].addr != addr
        decreases |c| - k
      {
        if db.addr == addr {
          return;
        }
        assert c[k].next == At(c, k + 1);
        db := db.next;
        k := k + 1;
      }
    }

    method Find(addr: Addr) returns (db: Entry?)
      requires Shaped()
      ensures db == (if addr in dict then dict[addr] else null)
      ensures db != null ==> db in repr
    {
      ghost var h := hash(addr);
      LinkedAt(nethash.Length, h);
      db := Search(addr, chains[h]);
      if db != null {
        HomedAt(chains, hash, |chains|, h, db);
        ListedHome(chains, hash, |chains|, db);
      } else if addr in dict {
        ListedHome(chains, hash, |chains|, dict[addr]);
        assert false;
      }
    }

    /** Replaces what one entry records; the pointers stay. */
    method Record(ent: Entry, mac: seq<u8>, ageing: int, use: int)
      requires DictOk() && Recorded() && ent in repr
      modifies `contents, ent`mac, ent`ageing, ent`useCount
      ensures Recorded()
      ensures contents == old(contents)[ent.addr := Rec(mac, ageing, use)]
      ensures ent.useCount == use
    {
      ent.mac := mac;
      ent.ageing := ageing;
      ent.useCount := use;
      contents := contents[ent.addr := Rec(mac, ageing, use)];
    }

    method Amend(ent: Entry, mac: seq<u8>, ageing: int, use: int)
      requires Valid() && ent in repr && use >= 1
      modifies `contents, ent`mac, ent`ageing, ent`useCount
      ensures Valid()
      ensures contents == old(contents)[ent.addr := Rec(mac, ageing, use)]
    {
      Record(ent, mac, ageing, use);
    }

    /** An unaged entry gives its MAC away and counts the use. */
    method Reuse(db: Entry, now: int) returns (dest: seq<u8>, replaced: bool)
      requires Valid() && db in repr
      modifies `contents, db`mac, db`ageing, db`useCount
      ensures Valid() && db.addr in old(contents)
      ensures replaced == !Aged(old(contents)[db.addr], now, limit)
      ensures replaced ==> dest == old(contents)[db.addr].mac
      ensures contents == LookupSpec(old(contents), db.addr, now, limit)
    {
      dest, replaced := [], false;
      if !(db.ageing <= now - limit) {
        dest := db.mac;
        replaced := true;
        Amend(db, db.mac, db.ageing, db.useCount + 1);
      }
    }

    /** Lookup: a present address is always found, but only an unaged entry writes its MAC and counts the use. */
    method LookupAndReplace(addr: Addr, now: int) returns (found: bool, dest: seq<u8>, replaced: bool)
      requires Valid()
      modifies `contents, repr`mac, repr`ageing, repr`useCount
      ensures Valid()
      ensures found == (addr in old(contents))
      ensures replaced == (found && !Aged(old(contents)[addr], now, limit))
      ensures replaced ==> dest == old(contents)[addr].mac
      ensures contents == LookupSpec(old(contents), addr, now, limit)
    {
      found, dest, replaced := false, [], false;
      var db := Find(addr);
      if db != null {
        found := true;
        dest, replaced := Reuse(db, now);
      }
    }

    /** Links a new entry into its bucket; the other buckets stay as they are. */
    method LinkIn(ent: Entry, b: nat)
      requires b < nethash.Length == |chains| && Linked(nethash.Length)
      requires Homed(chains, hash) && repr == Listed(chains, |chains|) && ent !in repr
      modifies `chains, `repr, nethash, ent`next, ent`pprev, repr`pprev
      ensures chains == Grown(old(chains), b, ent) && repr == old(repr) + {ent}
      ensures Linked(nethash.Length)
    {
      ghost var cs := chains;
      forall h | 0 <= h < |cs| ensures ChainOk(h, cs[h]) && Members(cs[h]) <= repr {
        LinkedAt(nethash.Length, h);
        InRepr(h);
      }
      Link(ent, b);
      chains := Grown(cs, b, ent);
      repr := repr + {ent};
      forall h | 0 <= h < |cs| ensures ChainOk(h, chains[h]) && Members(chains[h]) <= repr {
        if h != b {
          Apart(cs, hash, h, b);
          assert ent !in Members(cs[h]);
        }
      }
      AllLinked(nethash.Length);
    }

    /** Links a new entry into its bucket and the books. */
    method Add(ent: Entry)
      requires Shaped() && ent !in repr && ent.addr !in dict
      modifies `chains, `dict, `repr, nethash, ent`next, ent`pprev, repr`pprev
      ensures Shaped()
      ensures dict == old(dict)[ent.addr := ent] && repr == old(repr) + {ent}
    {
      GrownBooks(chains, hash, ent);
      LinkIn(ent, hash(ent.addr));
      dict := dict[ent.addr := ent];
    }

    lemma InRepr(h: nat)
      requires h < |chains| && Homed(chains, hash) && repr == Listed(chains, |chains|)
      ensures Members(chains[h]) <= repr
    {
      forall e | e in chains[h] ensures e in repr {
        HomedAt(chains, hash, |chains|, h, e);
        ListedHome(chains, hash, |chains|, e);
      }
    }

    /** Takes an entry out of its bucket; the other buckets stay as they are. */
    method LinkOut(ent: Entry, ghost b: nat, ghost k: nat)
      requires b < nethash.Length == |chains| && Linked(nethash.Length)
      requires Homed(chains, hash) && repr == Listed(chains, |chains|)
      requires k < |chains[b]| && chains[b][k] == ent
      modifies `chains, `repr, nethash, repr`next, repr`pprev
      ensures chains == Cut(old(chains), b, k) && repr == old(repr) - {ent}
      ensures Linked(nethash.Length) && ent.next == null && ent.pprev == Detached
      ensures Homed(chains, hash) && repr == Listed(chains, |chains|)
    {
      ghost var cs := chains;
      forall h | 0 <= h < |cs| ensures ChainOk(h, cs[h]) && Members(cs[h]) <= repr {
        LinkedAt(nethash.Length, h);
        InRepr(h);
      }
      Unlink(ent, b, cs[b], k);
      CutBooks(cs, hash, b, k);
      BypassedIsRemoved(b, cs[b], k);
      chains := Cut(cs, b, k);
      repr := repr - {ent};
      forall h | 0 <= h < |cs| ensures ChainOk(h, chains[h]) && Members(chains[h]) <= repr {
        InRepr(h);
        if h != b {
          Apart(cs, hash, h, b);
        }
      }
      AllLinked(nethash.Length);
    }

    method AddNew(db: Entry)
      requires Shaped() && Recorded() && db !in repr && db.addr !in dict
      modifies `chains, `dict, `repr, `contents, nethash, db`next, db`pprev, repr`pprev
      ensures Shaped() && Recorded() && repr == old(repr) + {db}
      ensures contents == old(contents)[db.addr := Rec(db.mac, db.ageing, db.useCount)]
    {
      Add(db);
      contents := contents[db.addr := Rec(db.mac, db.ageing, db.useCount)];
    }

    /** Insertion: a present address gets the MAC and a fresh age, a new one an entry of its own. */
    method Insert(addr: Addr, mac: seq<u8>, now: int)
      requires Valid()
      modifies `chains, `dict, `repr, `contents, nethash, repr
      ensures Valid() && fresh(repr - old(repr))
      ensures contents == InsertSpec(old(contents), addr, mac, now)
    {
      var db := Find(addr);
      if db != null {
        Amend(db, mac, now, db.useCount);
      } else {
        db := new Entry(addr, mac, now);
        AddNew(db);
      }
    }

    method Drop(ent: Entry, ghost b: nat, ghost k: nat)
      requires Shaped() && b < |chains| && k < |chains[b]| && chains[b][k] == ent && ent != scdbEntry
      modifies `chains, `dict, `repr, nethash, repr`next, repr`pprev
      ensures Shaped() && ent in old(repr)
      ensures chains == Cut(old(chains), b, k) && repr == old(repr) - {ent} && dict == old(dict) - {ent.addr}
    {
      InRepr(b);
      assert ent in Members(chains[b]);
      LinkOut(ent, b, k);
      dict := dict - {ent.addr};
    }

    /** The bridge's shortcut entry is forgotten with the entry it points to. */
    method Forget(ent: Entry)
      requires Shaped()
      modifies `scdbEntry, `scdbMac, `scdbIp
      ensures Shaped()
      ensures scdbEntry == if old(scdbEntry) == ent then null else old(scdbEntry)
      ensures if old(scdbEntry) == ent then scdbMac == [0, 0, 0, 0, 0, 0] && scdbIp == [0, 0, 0, 0]
              else scdbMac == old(scdbMac) && scdbIp == old(scdbIp)
    {
      if scdbEntry == ent {
        scdbMac, scdbIp, scdbEntry := [0, 0, 0, 0, 0, 0], [0, 0, 0, 0], null;
      }
    }

    method Unlist(ent: Entry, ghost b: nat, ghost k: nat)
      requires Shaped() && b < |chains| && k < |chains[b]| && chains[b][k] == ent && ent != scdbEntry && Recorded()
      modifies `chains, `dict, `repr, `contents, nethash, repr`next, repr`pprev
      ensures Shaped() && Recorded()
      ensures chains == Cut(old(chains), b, k) && repr == old(repr) - {ent}
      ensures contents == old(contents) - {ent.addr}
    {
      Drop(ent, b, k);
      contents := contents - {ent.addr};
    }

    /** What happens to an entry whose last use is gone, short of freeing it. */
    method Remove(ent: Entry, ghost b: nat, ghost k: nat)
      requires Shaped() && b < |chains| && k < |chains[b]| && chains[b][k] == ent && Recorded()
      modifies `chains, `dict, `repr, `contents, `scdbEntry, `scdbMac, `scdbIp, nethash, repr`next, repr`pprev
      ensures Shaped() && Recorded()
      ensures chains == Cut(old(chains), b, k) && repr == old(repr) - {ent}
      ensures contents == old(contents) - {ent.addr}
      ensures scdbEntry == if old(scdbEntry) == ent then null else old(scdbEntry)
      ensures if old(scdbEntry) == ent then scdbMac == [0, 0, 0, 0, 0, 0] && scdbIp == [0, 0, 0, 0]
              else scdbMac == old(scdbMac) && scdbIp == old(scdbIp)
    {
      Forget(ent);
      Unlist(ent, b, k);
    }

    /** One step of ageing: an aged entry loses a use, and is removed with its last. */
    method ExpireOne(f: Entry, now: int, ghost b: nat, ghost k: nat) returns (ghost removed: bool)
      requires Valid() && b < |chains| && k < |chains[b]| && chains[b][k] == f
      modifies `chains, `dict, `repr, `contents, `scdbEntry, `scdbMac, `scdbIp, nethash, repr
      ensures Valid() && repr <= old(repr)
      ensures contents == Expired(old(contents), now, limit, iset{f.addr})
      ensures chains == if removed then Cut(old(chains), b, k) else old(chains)
    {
      removed := false;
      InRepr(b);
      assert f in Members(chains[b]);
      ghost var v, a := contents, f.addr;
      assert v[a] == Rec(f.mac, f.ageing, f.useCount);
      ghost var aged := Aged(v[a], now, limit);
      if f.ageing <= now - limit {
        Record(f, f.mac, f.ageing, f.useCount - 1);
        removed := DropUnused(f, b, k);
      }
      ExpiredOutcome(v, now, limit, a, aged, removed, contents);
    }

    method DropUnused(f: Entry, ghost b: nat, ghost k: nat) returns (ghost removed: bool)
      requires Shaped() && Recorded() && b < |chains| && k < |chains[b]| && chains[b][k] == f
      modifies `chains, `dict, `repr, `contents, `scdbEntry, `scdbMac, `scdbIp, nethash, repr`next, repr`pprev
      ensures Shaped() && Recorded() && repr <= old(repr)
      ensures removed == (old(f.useCount) == 0)
      ensures contents == if removed then old(contents) - {f.addr} else old(contents)
      ensures chains == if removed then Cut(old(chains), b, k) else old(chains)
    {
      removed := false;
      if f.useCount == 0 {
        Remove(f, b, k);
        removed := true;
      }
    }

    lemma OthersDiffer(b: nat, k: nat)
      requires Shaped() && b < |chains| && k < |chains[b]|
      ensures chains[b][k].next == At(chains[b], k + 1)
      ensures forall e :: e in chains[b][k + 1..] ==> e.addr != chains[b][k].addr
    {
      LinkedAt(nethash.Length, b);
      InRepr(b);
      ghost var c := chains[b];
      forall e | e in c[k + 1..] ensures e.addr != c[k].addr {
        assert e in Members(c) && c[k] in Members(c);
        assert e != c[k];
      }
    }

    lemma BucketHolds(a: Addr)
      requires Shaped() && a in dict
      ensures dict[a] in chains[hash(a)]
    {
      ListedHome(chains, hash, |chains|, dict[a]);
    }

    /** The ageing walk along bucket `i` stands at position `k`, having dealt with the addresses in `done`. */
    ghost predicate Walk(i: nat, k: nat, f: Entry?, done: iset<Addr>)
      reads `chains
    {
      && i < |chains| && k <= |chains[i]| && f == At(chains[i], k)
      && (forall a :: a in done ==> hash(a) == i)
      && (forall e :: e in chains[i][..k] ==> e.addr in done)
      && (forall e :: e in chains[i][k..] ==> e.addr !in done)
    }

    /** The walk moves on: past the entry at `k`, or staying there if that was cut out. */
    static lemma WalkedOn(c: seq<Entry>, d: seq<Entry>, k: nat, kk: nat, done: iset<Addr>, more: iset<Addr>)
      requires k < |c| && more == done + iset{c[k].addr}
      requires (d == c && kk == k + 1) || (d == c[..k] + c[k + 1..] && kk == k)
      requires forall e :: e in c[..k] ==> e.addr in done
      requires forall e :: e in c[k + 1..] ==> e.addr !in done && e.addr != c[k].addr
      ensures kk <= |d| && At(d, kk) == At(c, k + 1) && |d| - kk < |c| - k
      ensures (forall e :: e in d[..kk] ==> e.addr in more) && (forall e :: e in d[kk..] ==> e.addr !in more)
    {
      assert c[..k + 1] == c[..k] + [c[k]];
      assert d[kk..] == c[k + 1..];
      if kk == k {
        assert d[..kk] == c[..k];
      }
    }

    /** One round of the walk: the next pointer is taken before the entry may go. */
    method ExpireStep(f: Entry, now: int, ghost i: nat, ghost k: nat, ghost done: iset<Addr>)
      returns (g: Entry?, ghost kk: nat)
      requires Valid() && Walk(i, k, f, done)
      modifies `chains, `dict, `repr, `contents, `scdbEntry, `scdbMac, `scdbIp, nethash, repr
      ensures Valid() && repr <= old(repr) && |chains| == old(|chains|)
      ensures contents == Expired(old(contents), now, limit, iset{f.addr})
      ensures Walk(i, kk, g, done + iset{f.addr}) && |chains[i]| - kk < old(|chains[i]|) - k
      ensures f.addr !in done
    {
      OthersDiffer(i, k);
      g := f.next;
      ghost var c := chains[i];
      HomedAt(chains, hash, |chains|, i, f);
      assert forall e :: e in c[k + 1..] ==> e in c[k..];
      ghost var removed := ExpireOne(f, now, i, k);
      kk := if removed then k else k + 1;
      WalkedOn(c, chains[i], k, kk, done, done + iset{f.addr});
    }

    /** The ageing walk along one chain deals with exactly the addresses of its bucket. */
    method ExpireBucket(i: nat, now: int)
      requires Valid() && i < nethash.Length
      modifies `chains, `dict, `repr, `contents, `scdbEntry, `scdbMac, `scdbIp, nethash, repr
      ensures Valid() && repr <= old(repr)
      ensures contents == Expired(old(contents), now, limit, iset a: Addr | hash(a) == i)
    {
      LinkedAt(nethash.Length, i);
      var f := nethash[i];
      ghost var k, done: iset<Addr> := 0, iset{};
      ExpiredSame(contents, now, limit, done, done);
      while f != null
        invariant Valid() && repr <= old(repr)
        invariant Walk(i, k, f, done)
        invariant contents == Expired(old(contents), now, limit, done)
        decreases |chains[i]| - k
      {
        ghost var a := f.addr;
        f, k := ExpireStep(f, now, i, k, done);
        ExpiredMore(old(contents), now, limit, done, iset{a});
        done := done + iset{a};
      }
      BucketDone(old(contents), now, i, k, done);
    }

    lemma BucketDone(was: Db, now: int, i: nat, k: nat, done: iset<Addr>)
      requires Valid() && Walk(i, k, null, done) && contents == Expired(was, now, limit, done)
      ensures contents == Expired(was, now, limit, iset a: Addr | hash(a) == i)
    {
      forall a | a in was && hash(a) == i ensures a in done {
        if a in contents {
          BucketHolds(a);
          assert chains[i][..k] == chains[i];
        }
      }
      ExpiredSame(was, now, limit, done, iset a: Addr | hash(a) == i);
    }

    /** Ageing the table, bucket by bucket. */
    method Expire(now: int)
      requires Valid()
      modifies `chains, `dict, `repr, `contents, `scdbEntry, `scdbMac, `scdbIp, nethash, repr
      ensures Valid() && repr <= old(repr)
      ensures contents == ExpireSpec(old(contents), now, limit)
    {
      ghost var done: iset<Addr> := iset{};
      for i := 0 to nethash.Length
        invariant Valid() && repr <= old(repr)
        invariant forall a :: a in done <==> hash(a) < i
        invariant contents == Expired(old(contents), now, limit, done)
      {
        ExpireBucket(i, now);
        ghost var more := iset a: Addr | hash(a) == i;
        ExpiredMore(old(contents), now, limit, done, more);
        done := done + more;
      }
      ExpiredAll(old(contents), now, limit, done);
    }

    method CleanBucket(i: nat)
      requires Shaped() && Recorded() && i < nethash.Length
      modifies `chains, `dict, `repr, `contents, `scdbEntry, `scdbMac, `scdbIp, nethash, repr
      ensures Shaped() && Recorded() && repr <= old(repr)
      ensures chains == old(chains)[i := []]
    {
      LinkedAt(nethash.Length, i);
      var f := nethash[i];
      while f != null
        invariant Shaped() && Recorded() && repr <= old(repr)
        invariant |chains| == |old(chains)| && chains == old(chains)[i := chains[i]]
        invariant f == At(chains[i], 0)
        decreases |chains[i]|
      {
        OthersDiffer(i, 0);
        var g := f.next;
        Remove(f, i, 0);
        f := g;
      }
    }

    lemma NothingListed(n: nat)
      requires n <= |chains| && forall h :: 0 <= h < n ==> chains[h] == []
      ensures Listed(chains, n) == {}
    {
      if n > 0 {
        NothingListed(n - 1);
      }
    }

    lemma Occupied()
      requires Shaped() && Recorded()
      ensures contents != map[] ==> repr != {}
    {
      if contents != map[] {
        var a :| a in contents;
        assert dict[a] in repr;
      }
    }

    /** Cleanup empties the table, and with it the bridge's shortcut. */
    method Cleanup()
      requires Valid()
      modifies `chains, `dict, `repr, `contents, `scdbEntry, `scdbMac, `scdbIp, nethash, repr
      ensures Valid() && contents == map[] && scdbEntry == null
    {
      for i := 0 to nethash.Length
        invariant Shaped() && Recorded() && repr <= old(repr)
        invariant forall h :: 0 <= h < i ==> chains[h] == []
      {
        CleanBucket(i);
      }
      NothingListed(|chains|);
      Occupied();
    }

    /** A source MAC other than the remembered one looks its entry up again. */
    method Repoint(src: seq<u8>, ip: seq<u8>, addr: Addr) returns (handled: bool)
      requires Shaped()
      modifies `scdbEntry, `scdbMac, `scdbIp
      ensures Shaped()
      ensures handled == (scdbEntry != null) && (handled ==> scdbMac == src)
      ensures scdbEntry == if old(scdbMac) == src then old(scdbEntry) else if addr in dict then dict[addr] else null
    {
      handled := false;
      if scdbMac != src {
        scdbEntry := Find(addr);
        if scdbEntry != null {
          scdbMac, scdbIp := src, ip;
          handled := true;
        }
      } else if scdbEntry != null {
        handled := true;
      } else {
        scdbMac, scdbIp := [0, 0, 0, 0, 0, 0], [0, 0, 0, 0];
      }
    }

    /** The transmit path's shortcut: the entry behind it is kept fresh, at the time of each packet it handles. */
    method Shortcut(src: seq<u8>, ip: seq<u8>, addr: Addr, now: int) returns (handled: bool)
      requires Valid()
      modifies `contents, `scdbEntry, `scdbMac, `scdbIp, repr`mac, repr`ageing, repr`useCount
      ensures Valid()
      ensures handled == (scdbEntry != null)
      ensures scdbEntry == if old(scdbMac) == src then old(scdbEntry) else if addr in dict then dict[addr] else null
      ensures handled ==> scdbEntry.addr in old(contents) && scdbMac == src &&
                          contents == RefreshSpec(old(contents), scdbEntry.addr, now)
      ensures !handled ==> contents == old(contents)
    {
      handled := Repoint(src, ip, addr);
      if handled {
        Amend(scdbEntry, scdbEntry.mac, now, scdbEntry.useCount);
      }
    }
  }
}
