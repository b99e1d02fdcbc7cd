/** What the NAT2.5 address table of core/rtw_br_ext.c means: a map from network address to
    client MAC, age and use count, and what each operation does to it. */
module Nat25Spec {
  import opened Bytes
  import opened Skbuff

  const ADDR_LEN := 17
  const HASH_SIZE := 16
  const HZ := 250
  const AGEING := 300 * HZ
  /** Jiffies are an unsigned long and wrap. */
  const JIFFIES_MOD := 0x1_0000_0000_0000_0000

  type NetAddr = a: seq<Byte> | |a| == ADDR_LEN witness seq(ADDR_LEN, _ => 0)
  type Jiffies = j: int | 0 <= j < JIFFIES_MOD

  datatype Rec = Rec(mac: Mac, age: Jiffies, use: int)
  type Db = map<NetAddr, Rec>

  // ---------------------------------------------------------------- hashing

  function Xor(a: NetAddr, lo: nat, hi: nat): bv8
    requires lo <= hi <= ADDR_LEN
    decreases hi - lo
  {
    if lo == hi then 0 else a[lo] as bv8 ^ Xor(a, lo + 1, hi)
  }

  /** __nat25_network_hash: which bytes are folded depends on the address family. */
  function Hash(a: NetAddr): (h: nat)
    ensures h < HASH_SIZE
  {
    var x :=
      if a[0] == 1 then Xor(a, 7, 11)        // IPv4
      else if a[0] == 3 then Xor(a, 1, 11)   // IPX
      else if a[0] == 4 then Xor(a, 1, 4)    // AppleTalk
      else if a[0] == 5 then Xor(a, 0, 9)    // PPPoE
      else if a[0] == 2 then Xor(a, 1, 17)   // IPv6
      else Xor(a, 0, 17);
    Low(x)
  }

  function Low(x: bv8): (h: nat)
    ensures h < HASH_SIZE
  {
    var y := x & 0xF;
    assert y <= 0xF;
    y as nat
  }

  // ---------------------------------------------------------------- ageing

  /** time_before_eq(age, now - AGEING) on wrapping jiffies. */
  predicate Expired(now: Jiffies, age: Jiffies) {
    (now - AGEING - age) % JIFFIES_MOD < JIFFIES_MOD / 2
  }

  /** Wherever the clock wraps, an entry has expired exactly when the ageing time has passed since its last
      refresh, and not yet half the range of the clock more: then it is taken to be young again. */
  lemma ExpiredMeansOld(age: Jiffies, elapsed: nat)
    requires elapsed < JIFFIES_MOD
    ensures Expired((age + elapsed) % JIFFIES_MOD, age) <==> AGEING <= elapsed < AGEING + JIFFIES_MOD / 2
  {
    var now := (age + elapsed) % JIFFIES_MOD;
    assert now == age + elapsed || now == age + elapsed - JIFFIES_MOD;
    var d := now - AGEING - age;
    if elapsed >= AGEING {
      assert d % JIFFIES_MOD == elapsed - AGEING;
    } else {
      assert d % JIFFIES_MOD == elapsed - AGEING + JIFFIES_MOD;
    }
  }

  // ---------------------------------------------------------------- the operations

  datatype Event =
    | Insert(net: NetAddr, mac: Mac, now: Jiffies)
    | Lookup(net: NetAddr, now: Jiffies)
    | Touch(net: NetAddr, now: Jiffies)   // the shortcut cache refreshes its entry
    | Expire(now: Jiffies)
    | Cleanup

  predicate Live(db: Db, net: NetAddr, now: Jiffies) {
    net in db && !Expired(now, db[net].age)
  }

  function Inserted(db: Db, net: NetAddr, mac: Mac, now: Jiffies): Db {
    db[net := Rec(mac, now, if net in db then db[net].use else 1)]
  }

  function LookedUp(db: Db, net: NetAddr, now: Jiffies): Db {
    if Live(db, net, now) then db[net := db[net].(use := db[net].use + 1)] else db
  }

  function Touched(db: Db, net: NetAddr, now: Jiffies): Db {
    if net in db then db[net := db[net].(age := now)] else db
  }

  predicate Dropped(r: Rec, now: Jiffies) { Expired(now, r.age) && r.use == 1 }

  function Aged(r: Rec, now: Jiffies): Rec {
    if Expired(now, r.age) then r.(use := r.use - 1) else r
  }

  function Expiry(db: Db, now: Jiffies): Db {
    map k | k in db && !Dropped(db[k], now) :: Aged(db[k], now)
  }

  /** What a pass does to one key: nothing if it is not too old; otherwise its use count goes down, and with
      the last use the entry. */
  ghost predicate Passed(db: Db, now: Jiffies, k: NetAddr, r: Db) {
    if k !in db then k !in r
    else if !Expired(now, db[k].age) then k in r && r[k] == db[k]
    else if db[k].use == 1 then k !in r
    else k in r && r[k] == Rec(db[k].mac, db[k].age, db[k].use - 1)
  }

  lemma ExpiryPasses(db: Db, now: Jiffies)
    ensures forall k: NetAddr :: Passed(db, now, k, Expiry(db, now))
  {
    hide Expired;
  }

  /** An expiry pass that has got as far as the keys in done. */
  ghost function PartialExpiry(db: Db, done: set<NetAddr>, now: Jiffies): Db {
    map k | k in db && !(k in done && Dropped(db[k], now)) :: if k in done then Aged(db[k], now) else db[k]
  }

  /** Handling one more key is one more step of the pass. */
  lemma ExpireStep(db: Db, done: set<NetAddr>, now: Jiffies, k: NetAddr)
    requires k in PartialExpiry(db, done, now) && k !in done
    ensures var part := PartialExpiry(db, done, now);
            && k in db && part[k] == db[k]
            && PartialExpiry(db, done + {k}, now)
               == if Dropped(db[k], now) then part - {k} else part[k := Aged(db[k], now)]
  {
  }

  lemma ExpireAll(db: Db, done: set<NetAddr>, now: Jiffies)
    requires forall k :: k in db ==> k in done
    ensures PartialExpiry(db, done, now) == Expiry(db, now)
  {
  }

  lemma ExpireNone(db: Db, now: Jiffies)
    ensures PartialExpiry(db, {}, now) == db
  {
  }

  function Apply(db: Db, e: Event): Db {
    match e
    case Insert(net, mac, now) => Inserted(db, net, mac, now)
    case Lookup(net, now) => LookedUp(db, net, now)
    case Touch(net, now) => Touched(db, net, now)
    case Expire(now) => Expiry(db, now)
    case Cleanup => map[]
  }

  function Run(es: seq<Event>): Db {
    if es == [] then map[] else Apply(Run(es[..|es| - 1]), es[|es| - 1])
  }

  // ---------------------------------------------------------------- use counts over a run

  /** Event i of the run created the entry for net that is there after the run. */
  ghost predicate BornAt(es: seq<Event>, net: NetAddr, i: nat) {
    && i < |es| && es[i].Insert? && es[i].net == net && net !in Run(es[..i])
    && forall j :: i < j <= |es| ==> net in Run(es[..j])
  }

  /** Lookups of net, among events lo and later, that found it live. */
  ghost function LiveLookups(es: seq<Event>, net: NetAddr, lo: nat): nat
    requires lo <= |es|
    decreases |es|
  {
    if |es| == lo then 0
    else
      var front, e := es[..|es| - 1], es[|es| - 1];
      LiveLookups(front, net, lo) + if e.Lookup? && e.net == net && Live(Run(front), net, e.now) then 1 else 0
  }

  /** Expiry passes, among events lo and later, that found it too old. */
  ghost function ExpiredPasses(es: seq<Event>, net: NetAddr, lo: nat): nat
    requires lo <= |es|
    decreases |es|
  {
    if |es| == lo then 0
    else
      var front, e := es[..|es| - 1], es[|es| - 1];
      ExpiredPasses(front, net, lo) +
      if e.Expire? && net in Run(front) && Expired(e.now, Run(front)[net].age) then 1 else 0
  }

  /** MAIN: after any run, an entry's use count is one, plus the live lookups, minus the expired
      passes since it was created, and it is positive. */
  lemma {:induction false} UseCount(es: seq<Event>, net: NetAddr) returns (i: nat)
    requires net in Run(es)
    ensures BornAt(es, net, i)
    ensures Run(es)[net].use == 1 + LiveLookups(es, net, i + 1) - ExpiredPasses(es, net, i + 1)
    ensures Run(es)[net].use >= 1
    decreases |es|
  {
    hide Apply, Live, Expired, BornAt;
    var n := |es| - 1;
    var front := es[..n];
    assert es[n] == es[|es| - 1];
    UseStep(Run(front), es[n], net);
    if net in Run(front) {
      i := UseCount(front, net);
      StillThere(es, net, i);
    } else {
      i := n;
      JustBorn(es, net);
    }
  }

  /** One event's effect on a use count. */
  lemma UseStep(db: Db, e: Event, net: NetAddr)
    requires net in Apply(db, e)
    ensures net in db ==>
      var found, aged := e.Lookup? && e.net == net && Live(db, net, e.now), e.Expire? && Expired(e.now, db[net].age);
      Apply(db, e)[net].use == db[net].use + (if found then 1 else 0) - (if aged then 1 else 0)
    ensures net in db && db[net].use >= 1 ==> Apply(db, e)[net].use >= 1
    ensures net !in db ==> e.Insert? && e.net == net && Apply(db, e)[net].use == 1
  {
    hide Expired;
  }

  lemma StillThere(es: seq<Event>, net: NetAddr, i: nat)
    requires es != [] && net in Run(es) && BornAt(es[..|es| - 1], net, i)
    ensures BornAt(es, net, i) && i < |es| - 1
  {
    hide Run;
    var n := |es| - 1;
    forall j | i < j <= |es| ensures net in Run(es[..j]) {
      if j <= n { PrefixOfFront(es, j); } else { assert es[..j] == es; }
    }
    PrefixOfFront(es, i);
  }

  lemma PrefixOfFront(es: seq<Event>, j: nat)
    requires j < |es|
    ensures es[..|es| - 1][..j] == es[..j]
  {
  }

  lemma JustBorn(es: seq<Event>, net: NetAddr)
    requires es != [] && net in Run(es) && net !in Run(es[..|es| - 1])
    requires es[|es| - 1].Insert? && es[|es| - 1].net == net
    ensures BornAt(es, net, |es| - 1)
  {
    hide Run;
    assert es[..|es|] == es;
  }

  // ---------------------------------------------------------------- when an unused entry goes

  /** Nothing in es refreshes the entry for net, last refreshed at t0, or finds it live. */
  ghost predicate Unused(es: seq<Event>, net: NetAddr, t0: Jiffies) {
    forall i {:trigger es[i]} :: 0 <= i < |es| ==>
      match es[i]
      case Insert(a, _, _) => a != net
      case Lookup(a, now) => a != net || Expired(now, t0)
      case Touch(a, _) => a != net
      case Expire(_) => true
      case Cleanup => false
  }

  /** How many passes in es find an entry too old that was last refreshed at t0. */
  function PassesPast(es: seq<Event>, t0: Jiffies): nat {
    if es == [] then 0
    else
      var e := es[|es| - 1];
      PassesPast(es[..|es| - 1], t0) + if e.Expire? && Expired(e.now, t0) then 1 else 0
  }

  /** MAIN: an entry with use count n that is not used any more survives every pass but the n-th that finds
      it too old, counting down, and goes with that one. */
  lemma {:induction false} CountsDown(before: seq<Event>, net: NetAddr, es: seq<Event>)
    requires net in Run(before) && Unused(es, net, Run(before)[net].age)
    ensures var r := Run(before)[net];
      var passes := PassesPast(es, r.age);
      && r.use >= 1
      && (passes < r.use ==> net in Run(before + es) && Run(before + es)[net] == Rec(r.mac, r.age, r.use - passes))
      && (passes >= r.use ==> net !in Run(before + es))
    decreases |es|
  {
    hide Apply, Expired;
    var r := Run(before)[net];
    if es == [] {
      assert before + es == before;
      var _ := UseCount(before, net);
    } else {
      var n := |es| - 1;
      var all := before + es;
      assert all[..|all| - 1] == before + es[..n] && all[|all| - 1] == es[n];
      CountsDown(before, net, es[..n]);
      DownStep(Run(before + es[..n]), es[n], net, r);
    }
  }

  lemma DownStep(db: Db, e: Event, net: NetAddr, r: Rec)
    requires Unused([e], net, r.age)
    requires net in db ==> db[net].age == r.age && db[net].mac == r.mac && db[net].use >= 1
    ensures net !in db ==> net !in Apply(db, e)
    ensures var aged := e.Expire? && Expired(e.now, r.age);
      net in db ==>
        if aged && db[net].use == 1 then net !in Apply(db, e)
        else net in Apply(db, e) && Apply(db, e)[net] == Rec(r.mac, r.age, db[net].use - if aged then 1 else 0)
  {
    hide Expired;
    assert [e][0] == e;
  }

  // ---------------------------------------------------------------- what was learned stays usable

  /** Nothing in es touches the record learned for net at t0: no other client claims the address, no
      cleanup, no refresh, and every expiry pass comes before the record is too old. */
  ghost predicate Quiet(es: seq<Event>, net: NetAddr, t0: Jiffies) {
    forall i {:trigger es[i]} :: 0 <= i < |es| ==>
      match es[i]
      case Insert(a, _, _) => a != net
      case Lookup(_, _) => true
      case Touch(a, _) => a != net
      case Expire(now) => !Expired(now, t0)
      case Cleanup => false
  }

  /** MAIN: whatever else happens to the table in between, the address still leads to the client
      that was last seen using it. */
  lemma StaysLearned(before: seq<Event>, net: NetAddr, mac: Mac, t0: Jiffies, es: seq<Event>)
    requires Quiet(es, net, t0)
    ensures var db := Run(before + [Insert(net, mac, t0)] + es);
      net in db && db[net].mac == mac && db[net].age == t0
  {
    OneMoreEvent(before, Insert(net, mac, t0));
    QuietRun(before + [Insert(net, mac, t0)], net, t0, es);
  }

  /** A refresh starts the ageing anew, of that entry only; the entry keeps its client, from then on too, and
      its use count. */
  lemma RefreshStays(before: seq<Event>, net: NetAddr, t0: Jiffies, es: seq<Event>)
    requires net in Run(before) && Quiet(es, net, t0)
    ensures Run(before + [Touch(net, t0)]) == Run(before)[net := Rec(Run(before)[net].mac, t0, Run(before)[net].use)]
    ensures var db := Run(before + [Touch(net, t0)] + es);
      net in db && db[net].mac == Run(before)[net].mac && db[net].age == t0
  {
    OneMoreEvent(before, Touch(net, t0));
    QuietRun(before + [Touch(net, t0)], net, t0, es);
  }

  lemma OneMoreEvent(before: seq<Event>, e: Event)
    ensures Run(before + [e]) == Apply(Run(before), e)
  {
    hide Apply;
    var all := before + [e];
    assert all[..|all| - 1] == before && all[|all| - 1] == e;
  }

  lemma {:induction false} QuietRun(start: seq<Event>, net: NetAddr, t0: Jiffies, es: seq<Event>)
    requires net in Run(start) && Run(start)[net].age == t0 && Quiet(es, net, t0)
    ensures var db := Run(start + es);
      net in db && db[net].mac == Run(start)[net].mac && db[net].age == t0
    decreases |es|
  {
    hide Apply;
    var all := start + es;
    if es == [] {
      assert all == start;
    } else {
      var n := |es| - 1;
      assert all[..|all| - 1] == start + es[..n] && all[|all| - 1] == es[n];
      QuietRun(start, net, t0, es[..n]);
      QuietStep(Run(start + es[..n]), es[n], net, t0);
    }
  }

  lemma QuietStep(db: Db, e: Event, net: NetAddr, t0: Jiffies)
    requires net in db && db[net].age == t0 && Quiet([e], net, t0)
    ensures net in Apply(db, e) && Apply(db, e)[net].mac == db[net].mac && Apply(db, e)[net].age == t0
  {
    hide Expired;
    assert [e][0] == e;
  }
}
