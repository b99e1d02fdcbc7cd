/** The hash table itself: entries chained through next_hash, each holding a pointer back to the
    pointer that points to it, relinked in place; proved to be the map of Nat25Spec. */
module Nat25Table {
  import opened Skbuff
  import opened Nat25Spec

  /** Where a pointer to an entry is stored: the type of pprev_hash. */
  datatype Slot = NoSlot | Bucket(hash: nat) | NextOf(ent: Entry)

  /** struct nat25_network_db_entry */
  class Entry {
    var next: Entry?
    var pprev: Slot
    var use: int
    var mac: Mac
    var age: Jiffies
    const net: NetAddr

    constructor (net: NetAddr, mac: Mac, age: Jiffies)
      ensures this.net == net && this.mac == mac && this.age == age && use == 1
    {
      this.net, this.mac, this.age, use, next, pprev := net, mac, age, 1, null, NoSlot;
    }

    function Record(): Rec
      reads this
    {
      Rec(mac, age, use)
    }
  }

  /** c is the chain that starts at head in bucket b, linked both ways. */
  ghost predicate Chain(head: Entry?, c: seq<Entry>, b: nat)
    reads c
  {
    && (c == [] <==> head == null)
    && (c != [] ==> head == c[0] && c[0].pprev == Bucket(b))
    && (forall i {:trigger c[i].next} :: 0 <= i < |c| ==> c[i].next == if i + 1 < |c| then c[i + 1] else null)
    && (forall i {:trigger c[i].pprev} :: 0 < i < |c| ==> c[i].pprev == NextOf(c[i - 1]))
    && (forall i :: 0 <= i < |c| ==> Hash(c[i].net) == b)
    && (forall i, j :: 0 <= i < j < |c| ==> c[i].net != c[j].net)
  }

  /** Every entry of a chain is in the map under its own key. */
  ghost predicate Recorded(c: seq<Entry>, db: Db)
    reads c
  {
    forall i {:trigger c[i]} :: 0 <= i < |c| ==> c[i].net in db && db[c[i].net] == c[i].Record() && c[i].use >= 1
  }

  /** The key is found in its chain. */
  ghost predicate Holds(c: seq<Entry>, k: NetAddr) {
    exists i {:trigger c[i]} :: 0 <= i < |c| && c[i].net == k
  }

  class Bridge {
    const nethash: array<Entry?>
    var scdbEntry: Entry?
    /** The chain of every bucket, and the map the table stands for. */
    ghost var chains: seq<seq<Entry>>
    ghost var db: Db

    ghost function Entries(): set<Entry>
      reads this
    {
      set b, i | 0 <= b < |chains| && 0 <= i < |chains[b]| :: chains[b][i]
    }

    ghost predicate Valid()
      reads this, nethash, Entries()
    {
      && nethash.Length == |chains| == HASH_SIZE
      && (forall b :: 0 <= b < HASH_SIZE ==> Chain(nethash[b], chains[b], b) && Recorded(chains[b], db))
      && (forall k :: k in db ==> Holds(chains[Hash(k)], k))
      && (scdbEntry != null ==> scdbEntry in chains[Hash(scdbEntry.net)])
    }

    constructor ()
      ensures Valid() && fresh(nethash) && db == map[] && scdbEntry == null
    {
      nethash := new Entry?[HASH_SIZE](_ => null);
      scdbEntry := null;
      chains := seq(HASH_SIZE, _ => []);
      db := map[];
    }

    /** The search loop of lookup, insert and scdb_findEntry. */
    method Find(net: NetAddr) returns (e: Entry?, ghost i: nat)
      requires Valid()
      ensures e == null <==> net !in db
      ensures e != null ==> e.net == net && i < |chains[Hash(net)]| && chains[Hash(net)][i] == e
    {
      hide Hash;
      ghost var c := chains[Hash(net)];
      assert Chain(nethash[Hash(net)], c, Hash(net));
      e := nethash[Hash(net)];
      i := 0;
      while e != null
        invariant i <= |c| && (e == null <==> i == |c|) && (e != null ==> e == c[i])
        invariant forall k :: 0 <= k < i ==> c[k].net != net
        decreases |c| - i
      {
        if e.net == net {
          return;
        }
        e := e.next;
        i := i + 1;
      }
    }

    /** __network_hash_link: at the head of its bucket. */
    method HashLink(ent: Entry, hash: nat, ghost c: seq<Entry>, ghost db0: Db)
      requires hash < nethash.Length && Chain(nethash[hash], c, hash) && Recorded(c, db0)
      requires Hash(ent.net) == hash && ent.net !in db0 && ent.use >= 1
      modifies nethash, ent`next, ent`pprev, c`pprev
      ensures Chain(nethash[hash], [ent] + c, hash) && Recorded([ent] + c, db0[ent.net := old(ent.Record())])
      ensures forall b :: 0 <= b < nethash.Length && b != hash ==> nethash[b] == old(nethash[b])
    {
      hide Hash;
      ent.next := nethash[hash];
      if ent.next != null {
        ent.next.pprev := NextOf(ent);
      }
      nethash[hash] := ent;
      ent.pprev := Bucket(hash);
      PushChain(ent, c, hash);
      PushRecorded(ent, c, db0);
    }

    /** __network_hash_unlink: through the back pointer, wherever in the chain the entry is. */
    method HashUnlink(ent: Entry, ghost b: nat, ghost c: seq<Entry>, ghost i: nat)
      requires b < nethash.Length && Chain(nethash[b], c, b) && i < |c| && c[i] == ent
      modifies nethash, c`next, c`pprev
      ensures Chain(nethash[b], c[..i] + c[i + 1..], b)
      ensures forall k :: 0 <= k < nethash.Length && k != b ==> nethash[k] == old(nethash[k])
    {
      hide Hash, Chain;
      Linked(nethash[b], c, b);
      PointPast(ent, b, c, i);
      PointBack(ent, b, c, i);
      ent.next := null;
      ent.pprev := NoSlot;
      CutChain(nethash[b], c, i, b);
    }

    /** What pointed to the entry now points to its successor. */
    method PointPast(ent: Entry, ghost b: nat, ghost c: seq<Entry>, ghost i: nat)
      requires b < nethash.Length && i < |c| && c[i] == ent && nethash[b] == c[0] && NextLinked(c) && PrevLinked(c, b)
      requires forall j, k :: 0 <= j < k < |c| ==> c[j] != c[k]
      modifies nethash, c`next
      ensures nethash[b] == (if i == 0 then Nth(c, 1) else c[0]) && ent.next == Nth(c, i + 1) && NextSkips(c, i)
      ensures forall k :: 0 <= k < nethash.Length && k != b ==> nethash[k] == old(nethash[k])
    {
      match ent.pprev {
        case Bucket(hash) => nethash[hash] := ent.next;
        case NextOf(prev) => prev.next := ent.next;
        case NoSlot => assert false;
      }
    }

    /** The successor's back pointer is the entry's. */
    method PointBack(ent: Entry, ghost b: nat, ghost c: seq<Entry>, ghost i: nat)
      requires i < |c| && c[i] == ent && ent.next == Nth(c, i + 1) && PrevLinked(c, b)
      requires forall j, k :: 0 <= j < k < |c| ==> c[j] != c[k]
      modifies c`pprev
      ensures PrevSkips(c, i, b)
    {
      if ent.next != null {
        ent.next.pprev := ent.pprev;
      }
    }

    /** Unlinking leaves the records of the rest of the chain alone. */
    method UnlinkRecorded(ent: Entry, ghost b: nat, ghost c: seq<Entry>, ghost i: nat, ghost db0: Db)
      requires b < nethash.Length && Chain(nethash[b], c, b) && Recorded(c, db0) && i < |c| && c[i] == ent
      modifies nethash, c`next, c`pprev
      ensures Chain(nethash[b], c[..i] + c[i + 1..], b) && Recorded(c[..i] + c[i + 1..], db0 - {ent.net})
      ensures forall k :: 0 <= k < nethash.Length && k != b ==> nethash[k] == old(nethash[k])
    {
      hide Hash, Chain;
      DistinctKeys(nethash[b], c, b);
      HashUnlink(ent, b, c, i);
      CutRecorded(c, i, db0);
    }

    // ---------------------------------------------------------------- one entry at a time

    /** Overwrite the fields of an entry of chain c. */
    method StoreFields(e: Entry, mac: Mac, age: Jiffies, use: int, ghost head: Entry?, ghost c: seq<Entry>, ghost b: nat,
                       ghost db0: Db)
      requires Chain(head, c, b) && Recorded(c, db0) && e in c && use >= 1
      modifies e`mac, e`age, e`use
      ensures Chain(head, c, b) && Recorded(c, db0[e.net := Rec(mac, age, use)])
    {
      hide Hash;
      assert forall i :: 0 <= i < |c| && c[i].net == e.net ==> c[i] == e;
      e.mac, e.age, e.use := mac, age, use;
    }

    /** Overwrite the fields of a linked entry. */
    method Store(e: Entry, mac: Mac, age: Jiffies, use: int)
      requires Valid() && e in chains[Hash(e.net)] && use >= 1
      modifies e`mac, e`age, e`use, this`db
      ensures Valid()
      ensures db == old(db)[e.net := Rec(mac, age, use)]
    {
      hide Hash, Chain, Recorded, Holds;
      ghost var h := Hash(e.net);
      assert Chain(nethash[h], chains[h], h) && Recorded(chains[h], db);
      ghost var db0 := db;
      Apart(h, e.net);
      StoreFields(e, mac, age, use, nethash[h], chains[h], h, db);
      db := db[e.net := Rec(mac, age, use)];
      forall b | 0 <= b < HASH_SIZE && b != h ensures Chain(nethash[b], chains[b], b) && Recorded(chains[b], db)
      {
        RecordedElse(chains[b], db0, e.net, Rec(mac, age, use));
      }
      KeyHeld(chains[h], e);
    }

    /** Other buckets share no entry and no key with bucket h. */
    lemma Apart(h: nat, k: NetAddr)
      requires Valid() && h < HASH_SIZE && Hash(k) == h
      ensures forall b, i :: 0 <= b < HASH_SIZE && b != h && 0 <= i < |chains[b]| ==>
        chains[b][i] !in chains[h] && chains[b][i].net != k
    {
      hide Hash;
      forall b, i | 0 <= b < HASH_SIZE && b != h && 0 <= i < |chains[b]|
        ensures chains[b][i] !in chains[h] && chains[b][i].net != k
      {
        assert Chain(nethash[b], chains[b], b) && Chain(nethash[h], chains[h], h);
        KeyOfChain(nethash[b], chains[b], b, i);
      }
    }

    /** Link a new entry under a key that is not there. */
    method Add(e: Entry)
      requires Valid() && e.net !in db && e.use >= 1
      modifies this`chains, this`db, nethash, e`next, e`pprev, chains[Hash(e.net)]`pprev
      ensures Valid() && db == old(db)[e.net := old(e.Record())]
    {
      hide Hash, Chain, Recorded, Holds;
      var hash := Hash(e.net);
      ghost var c := chains[hash];
      ghost var db0, r := db, e.Record();
      assert Chain(nethash[hash], c, hash) && Recorded(c, db);
      Apart(hash, e.net);
      NewKey(e);
      HashLink(e, hash, c, db);
      chains := chains[hash := [e] + c];
      db := db[e.net := r];
      forall b | 0 <= b < HASH_SIZE && b != hash ensures Chain(nethash[b], chains[b], b) && Recorded(chains[b], db)
      {
        assert chains[b] == old(chains)[b];
        assert old(Chain(nethash[b], chains[b], b) && Recorded(chains[b], db));
        RecordedElse(chains[b], db0, e.net, r);
      }
      forall k | k in db ensures Holds(chains[Hash(k)], k)
      {
        HoldsPrepend(e, c, k);
      }
    }

    lemma NewKey(e: Entry)
      requires Valid() && e.net !in db
      ensures forall b, i :: 0 <= b < HASH_SIZE && 0 <= i < |chains[b]| ==> chains[b][i] != e
    {
      forall b, i | 0 <= b < HASH_SIZE && 0 <= i < |chains[b]| ensures chains[b][i] != e
      {
        assert Recorded(chains[b], db);
      }
    }

    /** Unlink the i-th entry of bucket b, clearing the shortcut if it points there. */
    method Remove(e: Entry, ghost b: nat, ghost i: nat)
      requires Valid() && b < HASH_SIZE && i < |chains[b]| && chains[b][i] == e
      modifies this`chains, this`db, this`scdbEntry, nethash, chains[b]`next, chains[b]`pprev
      ensures Valid()
      ensures db == old(db) - {e.net}
      ensures chains == old(chains)[b := old(chains)[b][..i] + old(chains)[b][i + 1..]]
      ensures scdbEntry == if old(scdbEntry) == e then null else old(scdbEntry)
    {
      hide Hash, Chain, Recorded, Holds;
      ghost var c := chains[b];
      ghost var db0 := db;
      assert Chain(nethash[b], c, b) && Recorded(c, db);
      KeyOfChain(nethash[b], c, b, i);
      Apart(b, e.net);
      if scdbEntry == e {
        scdbEntry := null;
      }
      UnlinkRecorded(e, b, c, i, db);
      chains := chains[b := c[..i] + c[i + 1..]];
      db := db - {e.net};
      forall k | 0 <= k < HASH_SIZE && k != b ensures Chain(nethash[k], chains[k], k) && Recorded(chains[k], db)
      {
        assert chains[k] == old(chains)[k];
        assert old(Chain(nethash[k], chains[k], k) && Recorded(chains[k], db));
        RecordedElse(chains[k], db0, e.net, Rec(e.mac, e.age, e.use));
      }
      forall k | k in db ensures Holds(chains[Hash(k)], k)
      {
        if Hash(k) == b { HoldsCut(c, i, k); }
      }
      if scdbEntry != null && scdbEntry in c {
        MemberCut(c, i, scdbEntry);
      }
    }

    // ---------------------------------------------------------------- the operations

    lemma RecordsOf(b: nat)
      requires Valid() && b < HASH_SIZE
      ensures |chains| == HASH_SIZE && Recorded(chains[b], db)
      ensures forall i :: 0 <= i < |chains[b]| ==> Hash(chains[b][i].net) == b
    {
      hide Hash, Recorded;
      assert Chain(nethash[b], chains[b], b);
    }

    /** __nat25_db_network_lookup_and_replace: an expired entry is found but replaces nothing. */
    method LookupAndReplace(net: NetAddr, now: Jiffies, dst: Mac) returns (found: bool, dst': Mac)
      requires Valid()
      modifies this`db, Entries()`mac, Entries()`age, Entries()`use
      ensures Valid() && db == LookedUp(old(db), net, now)
      ensures found == (net in old(db))
      ensures dst' == if Live(old(db), net, now) then old(db)[net].mac else dst
    {
      hide Hash, Chain, Holds, Expired, Valid;
      RecordsOf(Hash(net));
      ghost var i;
      var e;
      e, i := Find(net);
      found, dst' := e != null, dst;
      if e != null {
        if !Expired(now, e.age) {
          dst' := e.mac;
          Store(e, e.mac, e.age, e.use + 1);
        }
      }
    }

    /** __nat25_db_network_insert */
    method DbInsert(net: NetAddr, mac: Mac, now: Jiffies)
      requires Valid()
      modifies this`chains, this`db, nethash, Entries()
      ensures Valid() && db == Inserted(old(db), net, mac, now)
    {
      hide Hash, Chain, Holds;
      ghost var i;
      var e;
      e, i := Find(net);
      if e != null {
        assert Recorded(chains[Hash(net)], db);
        Store(e, mac, now, e.use);
      } else {
        e := new Entry(net, mac, now);
        Add(e);
      }
    }

    /** The shortcut cache is pointed at the entry of an address, and refreshes it. */
    method SetShortcut(net: NetAddr, now: Jiffies)
      requires Valid()
      modifies this`db, this`scdbEntry, Entries()`mac, Entries()`age, Entries()`use
      ensures Valid() && db == Touched(old(db), net, now)
      ensures scdbEntry == null <==> net !in old(db)
      ensures scdbEntry != null ==> scdbEntry.net == net
    {
      hide Hash, Chain, Holds;
      ghost var i;
      var e;
      e, i := Find(net);
      scdbEntry := e;
      if e != null {
        assert Recorded(chains[Hash(net)], db);
        Store(e, e.mac, now, e.use);
      }
    }

    /** The transmit path refreshes the entry its shortcut points at. */
    method RefreshShortcut(now: Jiffies)
      requires Valid() && scdbEntry != null
      modifies this`db, scdbEntry`mac, scdbEntry`age, scdbEntry`use
      ensures Valid() && db == Touched(old(db), scdbEntry.net, now)
    {
      hide Hash, Chain, Holds;
      assert Recorded(chains[Hash(scdbEntry.net)], db);
      Store(scdbEntry, scdbEntry.mac, now, scdbEntry.use);
    }

    /** The loop body of nat25_db_expire on the p-th entry of bucket b. */
    method ExpireOne(e: Entry, now: Jiffies, ghost b: nat, ghost p: nat) returns (ghost gone: bool)
      requires Valid() && b < HASH_SIZE && p < |chains[b]| && chains[b][p] == e
      modifies this`chains, this`db, this`scdbEntry, nethash, Entries()
      ensures Valid() && e.net in old(db) && gone == Dropped(old(db)[e.net], now)
      ensures Passed(old(db), now, e.net, db)
      ensures db == if gone then old(db) - {e.net} else old(db)[e.net := Aged(old(db)[e.net], now)]
      ensures chains == if gone then old(chains)[b := old(chains)[b][..p] + old(chains)[b][p + 1..]] else old(chains)
      ensures scdbEntry == if gone && old(scdbEntry) == e then null else old(scdbEntry)
    {
      hide Hash, Chain, Holds;
      assert Recorded(chains[b], db) && Chain(nethash[b], chains[b], b);
      KeyOfChain(nethash[b], chains[b], b, p);
      gone := false;
      if Expired(now, e.age) {
        if e.use - 1 == 0 {
          gone := true;
          Remove(e, b, p);
        } else {
          Store(e, e.mac, e.age, e.use - 1);
        }
      }
    }

    /** nat25_db_expire is at entry p of bucket b, having handled the keys in done. */
    ghost predicate Expiring(db0: Db, done: set<NetAddr>, now: Jiffies, b: nat, p: nat)
      reads this, Entries()
    {
      && |chains| == HASH_SIZE && b < HASH_SIZE && p <= |chains[b]|
      && db == PartialExpiry(db0, done, now)
      && (forall k :: k in done ==> k in db0 && Hash(k) <= b)
      && (forall k :: k in db0 && Hash(k) < b ==> k in done)
      && (forall i {:trigger chains[b][i]} :: 0 <= i < |chains[b]| ==> (chains[b][i].net in done <==> i < p))
    }

    /** At the end of a bucket all its keys are done. */
    lemma BucketDone(db0: Db, done: set<NetAddr>, now: Jiffies, b: nat)
      requires Valid() && b < HASH_SIZE && Expiring(db0, done, now, b, |chains[b]|)
      ensures forall k :: k in db0 && Hash(k) <= b ==> k in done
      ensures b + 1 < HASH_SIZE ==> Expiring(db0, done, now, b + 1, 0)
    {
      hide Hash;
      forall k | k in db0 && Hash(k) <= b ensures k in done
      {
        if Hash(k) == b && k !in done { StillLinked(db0, done, now, b, k); }
      }
      if b + 1 < HASH_SIZE { NextUntouched(b, done); }
    }

    /** A key that is not done would still be in its chain. */
    lemma StillLinked(db0: Db, done: set<NetAddr>, now: Jiffies, b: nat, k: NetAddr)
      requires Valid() && b < HASH_SIZE && k in db0 && k !in done && Hash(k) == b && db == PartialExpiry(db0, done, now)
      ensures exists i :: 0 <= i < |chains[b]| && chains[b][i].net == k
    {
      hide Hash, Chain, Recorded;
      assert Holds(chains[Hash(k)], k);
    }

    lemma NextUntouched(b: nat, done: set<NetAddr>)
      requires Valid() && b + 1 < HASH_SIZE && forall k :: k in done ==> Hash(k) <= b
      ensures forall i {:trigger chains[b + 1][i]} :: 0 <= i < |chains[b + 1]| ==> chains[b + 1][i].net !in done
    {
      hide Hash, Recorded, Holds;
      ghost var c := chains[b + 1];
      assert Chain(nethash[b + 1], c, b + 1);
      forall i {:trigger c[i]} | 0 <= i < |c| ensures c[i].net !in done
      {
        KeyOfChain(nethash[b + 1], c, b + 1, i);
      }
    }

    /** The shortcut is what it was at s0, unless that entry has been dropped. */
    ghost predicate Shortcut(s0: Entry?)
      reads this
    {
      scdbEntry == if s0 != null && s0.net !in db then null else s0
    }

    lemma ShortcutKey()
      requires Valid()
      ensures scdbEntry != null ==> scdbEntry.net in db
    {
      hide Hash;
      if scdbEntry != null { assert Recorded(chains[Hash(scdbEntry.net)], db); }
    }

    /** The inner loop of nat25_db_expire. */
    method ExpireBucket(b: nat, now: Jiffies, ghost db0: Db, ghost done0: set<NetAddr>, ghost s0: Entry?)
      returns (ghost done: set<NetAddr>)
      requires Valid() && b < HASH_SIZE && Expiring(db0, done0, now, b, 0) && Shortcut(s0)
      modifies this`chains, this`db, this`scdbEntry, nethash, Entries()
      ensures Valid() && Entries() <= old(Entries()) && Shortcut(s0)
      ensures b < HASH_SIZE == |chains| && Expiring(db0, done, now, b, |chains[b]|)
    {
      hide Hash, Chain, Recorded, Holds, PartialExpiry, Dropped, Aged, Expiring;
      done := done0;
      ghost var p: nat := 0;
      HeadOfChain(nethash[b], chains[b], b);
      var f := nethash[b];
      while f != null
        invariant Valid() && Entries() <= old(Entries()) && Shortcut(s0)
        invariant p <= |chains[b]| && f == Nth(chains[b], p)
        invariant Expiring(db0, done, now, b, p)
        decreases |chains[b]| - p
      {
        NextInChain(nethash[b], chains[b], b, p);
        var g := f.next;
        done, p := ExpireTurn(f, now, b, p, db0, done, s0);
        f := g;
      }
    }

    /** One turn of the inner loop: the entry is dropped or aged, and the pass is one key further. */
    method ExpireTurn(f: Entry, now: Jiffies, ghost b: nat, ghost p: nat, ghost db0: Db, ghost done0: set<NetAddr>,
                      ghost s0: Entry?)
      returns (ghost done: set<NetAddr>, ghost q: nat)
      requires Valid() && b < HASH_SIZE && p < |chains[b]| && chains[b][p] == f
      requires Expiring(db0, done0, now, b, p) && Shortcut(s0)
      modifies this`chains, this`db, this`scdbEntry, nethash, Entries()
      ensures Valid() && Entries() <= old(Entries()) && Shortcut(s0)
      ensures q <= |chains[b]| && Nth(chains[b], q) == Nth(old(chains)[b], p + 1)
      ensures |chains[b]| - q == |old(chains)[b]| - p - 1
      ensures Expiring(db0, done, now, b, q)
    {
      hide Hash, Chain, Recorded, Holds, PartialExpiry, Dropped, Aged;
      done := done0 + {f.net};
      OwnKey(b, p);
      ExpireStep(db0, done0, now, f.net);
      if scdbEntry != null { SameKeySameEntry(scdbEntry, b, p); }
      ghost var c := chains[b];
      ghost var gone := ExpireOne(f, now, b, p);
      q := if gone then p else p + 1;
      OneFurther(db0, done0, now, b, p, c, gone);
    }

    /** With the p-th key of bucket b done, and its entry gone or still there. */
    lemma OneFurther(db0: Db, done0: set<NetAddr>, now: Jiffies, b: nat, p: nat, c: seq<Entry>, gone: bool)
      requires |chains| == HASH_SIZE && b < HASH_SIZE && p < |c|
      requires chains[b] == if gone then c[..p] + c[p + 1..] else c
      requires forall i {:trigger c[i]} :: 0 <= i < |c| ==> (c[i].net in done0 <==> i < p)
      requires forall i :: 0 <= i < |c| && i != p ==> c[i].net != c[p].net
      requires c[p].net in db0 && Hash(c[p].net) == b && db == PartialExpiry(db0, done0 + {c[p].net}, now)
      requires forall k :: k in done0 ==> k in db0 && Hash(k) <= b
      requires forall k :: k in db0 && Hash(k) < b ==> k in done0
      ensures Expiring(db0, done0 + {c[p].net}, now, b, if gone then p else p + 1)
    {
      hide Hash, PartialExpiry;
      ghost var d := chains[b];
      assert forall i {:trigger d[i]} :: 0 <= i < |d| ==> d[i] == if gone && i >= p then c[i + 1] else c[i];
    }

    lemma SameKeySameEntry(e: Entry, b: nat, p: nat)
      requires Valid() && b < HASH_SIZE && p < |chains[b]| && e in chains[Hash(e.net)]
      ensures e.net == chains[b][p].net ==> e == chains[b][p]
    {
      hide Hash;
      assert Chain(nethash[b], chains[b], b);
      KeyOfChain(nethash[b], chains[b], b, p);
    }

    lemma OwnKey(b: nat, p: nat)
      requires Valid() && b < HASH_SIZE && p < |chains[b]|
      ensures chains[b][p].net in db && Hash(chains[b][p].net) == b
      ensures forall i :: 0 <= i < |chains[b]| && i != p ==> chains[b][i].net != chains[b][p].net
    {
      hide Hash;
      assert Chain(nethash[b], chains[b], b) && Recorded(chains[b], db);
    }

    /** nat25_db_expire */
    method DbExpire(now: Jiffies)
      requires Valid()
      modifies this`chains, this`db, this`scdbEntry, nethash, Entries()
      ensures Valid() && db == Expiry(old(db), now) && forall k: NetAddr :: Passed(old(db), now, k, db)
      ensures scdbEntry == if old(scdbEntry) != null && old(scdbEntry).net !in db then null else old(scdbEntry)
    {
      hide Hash, Chain, Recorded, Holds, PartialExpiry, Expiry, Dropped, Aged, Passed;
      ghost var all, done := Entries(), {};
      ExpireNone(db, now);
      ShortcutKey();
      var b := 0;
      while b < HASH_SIZE
        invariant b <= HASH_SIZE && Valid() && Entries() <= all
        invariant b < HASH_SIZE ==> Expiring(old(db), done, now, b, 0)
        invariant b == HASH_SIZE ==> db == PartialExpiry(old(db), done, now) && forall k :: k in old(db) ==> k in done
        invariant Shortcut(old(scdbEntry))
      {
        done := ExpireBucket(b, now, old(db), done, old(scdbEntry));
        BucketDone(old(db), done, now, b);
        b := b + 1;
      }
      ExpireAll(old(db), done, now);
      ExpiryPasses(old(db), now);
    }

    /** nat25_db_cleanup */
    method DbCleanup()
      requires Valid()
      modifies this`chains, this`db, this`scdbEntry, nethash, Entries()
      ensures Valid() && db == map[] && scdbEntry == null
    {
      hide Hash, Chain, Recorded;
      ghost var all := Entries();
      for b := 0 to HASH_SIZE
        invariant Valid() && Entries() <= all
        invariant forall k :: 0 <= k < b ==> chains[k] == []
      {
        var f := nethash[b];
        HeadOfChain(nethash[b], chains[b], b);
        while f != null
          invariant Valid() && Entries() <= all
          invariant f == Nth(chains[b], 0)
          invariant forall k :: 0 <= k < b ==> chains[k] == []
          decreases |chains[b]|
        {
          NextInChain(nethash[b], chains[b], b, 0);
          var g := f.next;
          Remove(f, b, 0);
          f := g;
        }
      }
    }
  }

  lemma HeadOfChain(head: Entry?, c: seq<Entry>, b: nat)
    requires Chain(head, c, b)
    ensures head == Nth(c, 0)
  {
  }

  lemma NextInChain(head: Entry?, c: seq<Entry>, b: nat, i: nat)
    requires Chain(head, c, b) && i < |c|
    ensures c[i].next == Nth(c, i + 1)
  {
  }

  ghost predicate NextLinked(c: seq<Entry>)
    reads c
  {
    forall k {:trigger c[k].next} :: 0 <= k < |c| ==> c[k].next == Nth(c, k + 1)
  }

  ghost predicate PrevLinked(c: seq<Entry>, b: nat)
    reads c
  {
    forall k {:trigger c[k].pprev} :: 0 <= k < |c| ==> c[k].pprev == if k == 0 then Bucket(b) else NextOf(c[k - 1])
  }

  /** The links of a chain, entry by entry. */
  lemma Linked(head: Entry?, c: seq<Entry>, b: nat)
    requires Chain(head, c, b)
    ensures head == Nth(c, 0) && NextLinked(c) && PrevLinked(c, b)
    ensures forall k {:trigger c[k]} :: 0 <= k < |c| ==> Hash(c[k].net) == b
    ensures forall j, k :: 0 <= j < k < |c| ==> c[j].net != c[k].net && c[j] != c[k]
  {
    hide Hash;
  }

  /** The forward links go past the i-th entry. */
  ghost predicate NextSkips(c: seq<Entry>, i: nat)
    reads c
  {
    forall k {:trigger c[k].next} :: 0 <= k < |c| && k != i ==> c[k].next == Nth(c, if k + 1 == i then i + 1 else k + 1)
  }

  /** And so do the back pointers. */
  ghost predicate PrevSkips(c: seq<Entry>, i: nat, b: nat)
    reads c
  {
    forall k {:trigger c[k].pprev} :: 0 <= k < |c| && k != i ==>
      c[k].pprev == if k == 0 || (k == 1 && i == 0) then Bucket(b) else NextOf(c[if k == i + 1 then k - 2 else k - 1])
  }

  lemma KeyOfChain(head: Entry?, c: seq<Entry>, b: nat, i: nat)
    requires Chain(head, c, b) && i < |c|
    ensures Hash(c[i].net) == b
  {
  }

  lemma DistinctKeys(head: Entry?, c: seq<Entry>, b: nat)
    requires Chain(head, c, b)
    ensures forall j, k :: 0 <= j < k < |c| ==> c[j].net != c[k].net
  {
  }

  lemma MemberCut(c: seq<Entry>, i: nat, x: Entry)
    requires i < |c| && x in c && x != c[i]
    ensures x in c[..i] + c[i + 1..]
  {
  }

  lemma KeyHeld(c: seq<Entry>, e: Entry)
    requires e in c
    ensures Holds(c, e.net)
  {
  }

  lemma RecordedElse(c: seq<Entry>, db: Db, k: NetAddr, r: Rec)
    requires Recorded(c, db) && forall i :: 0 <= i < |c| ==> c[i].net != k
    ensures Recorded(c, db[k := r]) && Recorded(c, db - {k})
  {
  }

  lemma CutRecorded(c: seq<Entry>, i: nat, db: Db)
    requires Recorded(c, db) && i < |c| && forall j, k :: 0 <= j < k < |c| ==> c[j].net != c[k].net
    ensures Recorded(c[..i] + c[i + 1..], db - {c[i].net})
  {
    var d := c[..i] + c[i + 1..];
    assert forall k {:trigger d[k]} :: 0 <= k < |d| ==> d[k] == c[if k < i then k else k + 1];
  }

  lemma HoldsPrepend(e: Entry, c: seq<Entry>, k: NetAddr)
    ensures Holds([e] + c, k) <==> e.net == k || Holds(c, k)
  {
    if Holds(c, k) {
      var i :| 0 <= i < |c| && c[i].net == k;
      assert ([e] + c)[i + 1].net == k;
    }
    assert ([e] + c)[0] == e;
  }

  lemma HoldsCut(c: seq<Entry>, i: nat, k: NetAddr)
    requires i < |c| && c[i].net != k && Holds(c, k)
    ensures Holds(c[..i] + c[i + 1..], k)
  {
    var j :| 0 <= j < |c| && c[j].net == k;
    assert (c[..i] + c[i + 1..])[if j < i then j else j - 1] == c[j];
  }

  /** The i-th entry of c, if there is one. */
  ghost function Nth(c: seq<Entry>, i: nat): Entry? {
    if i < |c| then c[i] else null
  }

  /** What linking makes is the chain with the new entry in front. */
  lemma PushChain(ent: Entry, c: seq<Entry>, b: nat)
    requires ent.pprev == Bucket(b) && ent.next == Nth(c, 0) && (c != [] ==> c[0].pprev == NextOf(ent))
    requires forall k {:trigger c[k].next} :: 0 <= k < |c| ==> c[k].next == Nth(c, k + 1)
    requires forall k {:trigger c[k].pprev} :: 0 < k < |c| ==> c[k].pprev == NextOf(c[k - 1])
    requires Hash(ent.net) == b
    requires forall k {:trigger c[k]} :: 0 <= k < |c| ==> Hash(c[k].net) == b && c[k].net != ent.net
    requires forall j, k :: 0 <= j < k < |c| ==> c[j].net != c[k].net
    ensures Chain(ent, [ent] + c, b)
  {
    hide Hash;
    var d := [ent] + c;
    assert forall k {:trigger d[k]} :: 0 <= k < |d| ==> d[k] == if k == 0 then ent else c[k - 1];
  }

  lemma PushRecorded(ent: Entry, c: seq<Entry>, db: Db)
    requires Recorded(c, db) && ent.net !in db && ent.use >= 1
    ensures Recorded([ent] + c, db[ent.net := ent.Record()])
  {
    var d := [ent] + c;
    assert forall k {:trigger d[k]} :: 0 <= k < |d| ==> d[k] == if k == 0 then ent else c[k - 1];
  }

  /** What unlinking leaves is the chain without its i-th entry. */
  lemma CutChain(head: Entry?, c: seq<Entry>, i: nat, b: nat)
    requires i < |c| && head == if i == 0 then Nth(c, 1) else c[0]
    requires NextSkips(c, i) && PrevSkips(c, i, b)
    requires forall k {:trigger c[k]} :: 0 <= k < |c| ==> Hash(c[k].net) == b
    requires forall j, k :: 0 <= j < k < |c| ==> c[j].net != c[k].net
    ensures Chain(head, c[..i] + c[i + 1..], b)
  {
    hide Hash, NextSkips, PrevSkips;
    CutNext(c, i);
    CutPrev(c, i, b);
    var d := c[..i] + c[i + 1..];
    assert forall k {:trigger d[k]} :: 0 <= k < |d| ==> d[k] == c[if k < i then k else k + 1];
  }

  lemma CutNext(c: seq<Entry>, i: nat)
    requires i < |c| && NextSkips(c, i)
    ensures var d := c[..i] + c[i + 1..];
      forall k {:trigger d[k].next} :: 0 <= k < |d| ==> d[k].next == if k + 1 < |d| then d[k + 1] else null
  {
    var d := c[..i] + c[i + 1..];
    assert forall k {:trigger d[k]} :: 0 <= k < |d| ==> d[k] == c[if k < i then k else k + 1];
  }

  lemma CutPrev(c: seq<Entry>, i: nat, b: nat)
    requires i < |c| && PrevSkips(c, i, b)
    ensures var d := c[..i] + c[i + 1..];
      && (d != [] ==> d[0].pprev == Bucket(b))
      && (forall k {:trigger d[k].pprev} :: 0 < k < |d| ==> d[k].pprev == NextOf(d[k - 1]))
  {
    var d := c[..i] + c[i + 1..];
    assert forall k {:trigger d[k]} :: 0 <= k < |d| ==> d[k] == c[if k < i then k else k + 1];
  }
}
