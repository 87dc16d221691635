/** Which entries of an FDB or MDB list are the same entry. */
module MacAddresses {
  import opened RefDb

  /** struct dsa_db: the database an address belongs to, with copies of the LAG and bridge structures. */
  datatype DsaDb = PortDb(dp: nat) | LagDb(lagDev: nat, id: nat) | BridgeDb(brDev: nat, num: nat, txFwdOffload: bool)

  /** dsa_db_equal: a LAG database is told by its device alone, a bridge database by its number. */
  predicate DbEqual(a: DsaDb, b: DsaDb) {
    match (a, b)
    case (PortDb(p), PortDb(q)) => p == q
    case (LagDb(d, _), LagDb(e, _)) => d == e
    case (BridgeDb(_, m, _), BridgeDb(_, n, _)) => m == n
    case _ => false
  }

  /** Databases are equal if they are of one kind and of the same port, of the same LAG device whatever its id,
      or of bridges with the same number whatever their devices and flags. */
  lemma DbEqualIff(a: DsaDb, b: DsaDb)
    ensures DbEqual(a, b) <==>
      || (a.PortDb? && b.PortDb? && a.dp == b.dp)
      || (a.LagDb? && b.LagDb? && a.lagDev == b.lagDev)
      || (a.BridgeDb? && b.BridgeDb? && a.num == b.num)
  {
  }

  datatype MacAddr = MacAddr(addr: seq<bv8>, vid: bv16, db: DsaDb, refcount: nat)

  /** dsa_mac_addr_find: the position of the first match, or the length of the list. */
  function MacAddrFind(list: seq<MacAddr>, addr: seq<bv8>, vid: bv16, db: DsaDb): nat {
    if list == [] || (list[0].addr == addr && list[0].vid == vid && DbEqual(list[0].db, db)) then 0
    else 1 + MacAddrFind(list[1..], addr, vid, db)
  }

  /** The part of a database that dsa_db_equal looks at. */
  datatype DbId = PortId(dp: nat) | LagId(dev: nat) | BridgeId(num: nat)

  function IdOf(db: DsaDb): DbId {
    match db
    case PortDb(p) => PortId(p)
    case LagDb(d, _) => LagId(d)
    case BridgeDb(_, n, _) => BridgeId(n)
  }

  datatype MacKey = MacKey(addr: seq<bv8>, vid: bv16, db: DbId)

  function Keyed(list: seq<MacAddr>): seq<Entry<MacKey>> {
    seq(|list|, i requires 0 <= i < |list| =>
      Entry(MacKey(list[i].addr, list[i].vid, IdOf(list[i].db)), list[i].refcount))
  }

  /** The search is a search by key: so dsa_db_equal is an equivalence, and the lists of MAC addresses
      are instances of RefDb's lists. */
  lemma {:induction false} MacAddrFindIsByKey(list: seq<MacAddr>, addr: seq<bv8>, vid: bv16, db: DsaDb)
    ensures MacAddrFind(list, addr, vid, db) == Find(Keyed(list), MacKey(addr, vid, IdOf(db)))
  {
    if list == [] {
    } else {
      assert Keyed(list)[1..] == Keyed(list[1..]);
      MacAddrFindIsByKey(list[1..], addr, vid, db);
    }
  }
}
