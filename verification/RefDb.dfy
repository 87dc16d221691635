/** The reference-counted databases of a shared (CPU or DSA) port: FDB, MDB and VLAN lists, and the
    FDB list of a LAG. The four list algorithms are the same but for the key they search by. */
module RefDb {
  datatype Entry<K> = Entry(key: K, refcount: nat)

  datatype Error = Ok | NoMemory | NotFound | HardwareError

  /** A database and the hardware table that its entries were written to. */
  datatype Db<K> = Db(entries: seq<Entry<K>>, hw: set<K>)

  /** One call, with the outcome of the allocation and of the hardware operation it may reach.
      `changed` is vlan->changed; the other lists have no such flag and pass false. */
  datatype Op<K> = Add(key: K, changed: bool, allocOk: bool, hwOk: bool) | Del(key: K, hwOk: bool)

  /** The position of the first entry with the key, or the length of the list. */
  function Find<K(==)>(entries: seq<Entry<K>>, key: K): (i: nat)
    ensures i <= |entries|
    ensures i < |entries| ==> entries[i].key == key
    ensures forall j {:trigger entries[j]} :: 0 <= j < i ==> entries[j].key != key
  {
    if entries == [] || entries[0].key == key then 0 else 1 + Find(entries[1..], key)
  }

  /** The list without entry i. */
  function Without<K>(entries: seq<Entry<K>>, i: nat): seq<Entry<K>>
    requires i < |entries|
  {
    entries[..i] + entries[i + 1..]
  }

  /** dsa_port_do_{fdb,mdb,vlan}_add; a user port goes to the hardware without counting. */
  function DoAdd<K(==)>(shared: bool, db: Db<K>, key: K, changed: bool, allocOk: bool, hwOk: bool): (Db<K>, Error) {
    if !shared then
      if hwOk then (db.(hw := db.hw + {key}), Ok) else (db, HardwareError)
    else if changed then (db, Ok)
    else
      var i := Find(db.entries, key);
      if i < |db.entries| then
        (db.(entries := db.entries[i := Entry(key, db.entries[i].refcount + 1)]), Ok)
      else if !allocOk then (db, NoMemory)
      else if !hwOk then (db, HardwareError)
      else (Db(db.entries + [Entry(key, 1)], db.hw + {key}), Ok)
  }

  /** dsa_port_do_{fdb,mdb,vlan}_del; a count of 1 whose hardware deletion fails is set back to 1. */
  function DoDel<K(==)>(shared: bool, db: Db<K>, key: K, hwOk: bool): (Db<K>, Error) {
    if !shared then
      if hwOk then (db.(hw := db.hw - {key}), Ok) else (db, HardwareError)
    else
      var i := Find(db.entries, key);
      if i == |db.entries| then (db, NotFound)
      else
        var left := db.entries[i].refcount - 1;
        if left > 0 then (db.(entries := db.entries[i := Entry(key, left)]), Ok)
        else if !hwOk then (db.(entries := db.entries[i := Entry(key, 1)]), HardwareError)
        else (Db(Without(db.entries, i), db.hw - {key}), Ok)
  }

  function Step<K(==)>(db: Db<K>, op: Op<K>): (Db<K>, Error) {
    match op
    case Add(key, changed, allocOk, hwOk) => DoAdd(true, db, key, changed, allocOk, hwOk)
    case Del(key, hwOk) => DoDel(true, db, key, hwOk)
  }

  /** The same calls on a user port. */
  function UserStep<K(==)>(db: Db<K>, op: Op<K>): (Db<K>, Error) {
    match op
    case Add(key, changed, allocOk, hwOk) => DoAdd(false, db, key, changed, allocOk, hwOk)
    case Del(key, hwOk) => DoDel(false, db, key, hwOk)
  }

  /** A user port's list counts nothing: a key is in the hardware table after a successful add, out of it after
      a successful delete, and a call fails exactly when the hardware refuses it, changing nothing. */
  lemma UserStepGives<K>(db: Db<K>, op: Op<K>)
    ensures var (db', err) := UserStep(db, op);
      && err == (if op.hwOk then Ok else HardwareError)
      && db'.entries == db.entries
      && (op.key in db'.hw <==> if err == Ok then op.Add? else op.key in db.hw)
      && forall k {:trigger k in db'.hw} :: k != op.key ==> (k in db'.hw <==> k in db.hw)
  {
  }

  // ----- the simple form: a multiset of keys -----

  /** An add counts unless only flags changed; it can fail only on the first reference. A delete takes
      one reference; it can fail only on the last. */
  function BagStep<K>(m: multiset<K>, op: Op<K>): (multiset<K>, Error) {
    match op
    case Add(key, changed, allocOk, hwOk) =>
      if changed then (m, Ok)
      else if key in m || (allocOk && hwOk) then (m + multiset{key}, Ok)
      else (m, if allocOk then HardwareError else NoMemory)
    case Del(key, hwOk) =>
      if key !in m then (m, NotFound)
      else if m[key] > 1 || hwOk then (m - multiset{key}, Ok)
      else (m, HardwareError)
  }

  /** The references held on a key. */
  function Count<K(==)>(entries: seq<Entry<K>>, key: K): nat {
    var i := Find(entries, key);
    if i < |entries| then entries[i].refcount else 0
  }

  /** Keys are unique, counts positive, and the hardware table holds exactly the listed keys. */
  ghost predicate Valid<K(!new)>(db: Db<K>) {
    && (forall i, j {:trigger db.entries[i], db.entries[j]} ::
          0 <= i < j < |db.entries| ==> db.entries[i].key != db.entries[j].key)
    && (forall i {:trigger db.entries[i]} :: 0 <= i < |db.entries| ==> db.entries[i].refcount > 0)
    && (forall i {:trigger db.entries[i]} :: 0 <= i < |db.entries| ==> db.entries[i].key in db.hw)
    && (forall k {:trigger k in db.hw} :: k in db.hw ==> Find(db.entries, k) < |db.entries|)
  }

  ghost predicate Represents<K(!new)>(db: Db<K>, m: multiset<K>) {
    Valid(db) && forall k {:trigger m[k]} {:trigger Count(db.entries, k)} :: m[k] == Count(db.entries, k)
  }

  lemma FindAt<K(!new)>(db: Db<K>, i: nat)
    requires Valid(db) && i < |db.entries|
    ensures Find(db.entries, db.entries[i].key) == i
  {
  }

  /** Rewriting one entry's count changes that key's count only. */
  lemma CountAfterUpdate<K(!new)>(db: Db<K>, i: nat, n: nat, k: K)
    requires Valid(db) && i < |db.entries| && n > 0
    ensures var entries' := db.entries[i := Entry(db.entries[i].key, n)];
      && Find(entries', k) == Find(db.entries, k)
      && Count(entries', k) == if k == db.entries[i].key then n else Count(db.entries, k)
  {
    var entries' := db.entries[i := Entry(db.entries[i].key, n)];
    FindAt(db, i);
    var a, b := Find(db.entries, k), Find(entries', k);
    assert a < |db.entries| ==> entries'[a].key == k;
    assert b < |db.entries| ==> db.entries[b].key == k;
  }

  lemma {:induction false} CountAfterAppend<K>(entries: seq<Entry<K>>, key: K, k: K)
    requires Find(entries, key) == |entries|
    ensures Count(entries + [Entry(key, 1)], k) == if k == key then 1 else Count(entries, k)
    ensures Find(entries + [Entry(key, 1)], k) ==
      if k == key then |entries| else if Find(entries, k) < |entries| then Find(entries, k) else |entries| + 1
  {
    if entries == [] {
      assert entries + [Entry(key, 1)] == [Entry(key, 1)];
    } else {
      assert (entries + [Entry(key, 1)])[1..] == entries[1..] + [Entry(key, 1)];
      CountAfterAppend(entries[1..], key, k);
    }
  }

  lemma WithoutTail<K>(entries: seq<Entry<K>>, i: nat)
    requires i < |entries|
    ensures if i == 0 then Without(entries, i) == entries[1..]
            else Without(entries, i) == [entries[0]] + Without(entries[1..], i - 1)
  {
  }

  lemma FindCons<K>(e: Entry<K>, rest: seq<Entry<K>>, k: K)
    ensures Find([e] + rest, k) == if e.key == k then 0 else 1 + Find(rest, k)
  {
    assert ([e] + rest)[1..] == rest;
  }

  /** After removal, the entries of the other keys are where they were, or one place down. */
  lemma {:induction false} FindOther<K>(entries: seq<Entry<K>>, i: nat, k: K)
    requires i < |entries| && k != entries[i].key
    ensures var a := Find(entries, k); Find(Without(entries, i), k) == if a < i then a else a - 1
  {
    WithoutTail(entries, i);
    if i == 0 {
    } else {
      FindOther(entries[1..], i - 1, k);
      FindCons(entries[0], Without(entries[1..], i - 1), k);
      hide Without;
    }
  }

  lemma {:induction false} FindRemoved<K>(entries: seq<Entry<K>>, i: nat)
    requires i < |entries| && Find(entries, entries[i].key) == i
    requires Find(entries[i + 1..], entries[i].key) == |entries| - i - 1
    ensures Find(Without(entries, i), entries[i].key) == |entries| - 1
  {
    WithoutTail(entries, i);
    if i == 0 {
    } else {
      assert entries[1..][i..] == entries[i + 1..];
      FindRemoved(entries[1..], i - 1);
      FindCons(entries[0], Without(entries[1..], i - 1), entries[i].key);
      hide Without;
    }
  }

  lemma CountAfterRemove<K(!new)>(db: Db<K>, i: nat, k: K)
    requires Valid(db) && i < |db.entries|
    ensures var entries' := Without(db.entries, i);
      && Count(entries', k) == (if k == db.entries[i].key then 0 else Count(db.entries, k))
      && (Find(entries', k) < |entries'| <==> k != db.entries[i].key && Find(db.entries, k) < |db.entries|)
  {
    FindAt(db, i);
    if k == db.entries[i].key {
      NotAfter(db, i);
      FindRemoved(db.entries, i);
    } else {
      FindOther(db.entries, i, k);
      var a := Find(db.entries, k);
      assert a < |db.entries| ==> Without(db.entries, i)[if a < i then a else a - 1] == db.entries[a];
    }
  }

  lemma NotAfter<K(!new)>(db: Db<K>, i: nat)
    requires Valid(db) && i < |db.entries|
    ensures Find(db.entries[i + 1..], db.entries[i].key) == |db.entries| - i - 1
  {
    var rest := db.entries[i + 1..];
    assert forall j {:trigger rest[j]} :: 0 <= j < |rest| ==> rest[j] == db.entries[i + 1 + j];
  }

  lemma UpdateRepresents<K(!new)>(db: Db<K>, m: multiset<K>, i: nat, n: nat)
    requires Represents(db, m) && i < |db.entries| && n > 0
    ensures Represents(db.(entries := db.entries[i := Entry(db.entries[i].key, n)]), m[db.entries[i].key := n])
  {
    forall k {
      CountAfterUpdate(db, i, n, k);
    }
  }

  lemma AppendRepresents<K(!new)>(db: Db<K>, m: multiset<K>, key: K)
    requires Represents(db, m) && Find(db.entries, key) == |db.entries|
    ensures Represents(Db(db.entries + [Entry(key, 1)], db.hw + {key}), m[key := 1])
  {
    forall k {
      CountAfterAppend(db.entries, key, k);
    }
  }

  lemma RemoveKeepsValid<K(!new)>(db: Db<K>, i: nat)
    requires Valid(db) && i < |db.entries|
    ensures Valid(Db(Without(db.entries, i), db.hw - {db.entries[i].key}))
  {
    var e' := Without(db.entries, i);
    assert forall j {:trigger e'[j]} :: 0 <= j < |e'| ==> e'[j] == db.entries[if j < i then j else j + 1];
    forall k {
      CountAfterRemove(db, i, k);
    }
    hide Count;
  }

  lemma RemoveRepresents<K(!new)>(db: Db<K>, m: multiset<K>, i: nat)
    requires Represents(db, m) && i < |db.entries|
    ensures Represents(Db(Without(db.entries, i), db.hw - {db.entries[i].key}), m[db.entries[i].key := 0])
  {
    RemoveKeepsValid(db, i);
    forall k {
      CountAfterRemove(db, i, k);
    }
    hide Count, Valid;
  }

  /** An add does to the list and its hardware table what it does to the multiset, with the same
      result; a failed add changes nothing. */
  lemma AddRefinesBag<K(!new)>(db: Db<K>, m: multiset<K>, key: K, changed: bool, allocOk: bool, hwOk: bool)
    requires Represents(db, m)
    ensures var (db', err) := DoAdd(true, db, key, changed, allocOk, hwOk);
      var (m', err') := BagStep(m, Add(key, changed, allocOk, hwOk));
      Represents(db', m') && err == err' && (err != Ok ==> db' == db)
  {
    var i := Find(db.entries, key);
    assert Count(db.entries, key) == m[key];
    assert m + multiset{key} == m[key := m[key] + 1];
    if i < |db.entries| {
      UpdateRepresents(db, m, i, m[key] + 1);
    } else {
      AppendRepresents(db, m, key);
    }
    hide Represents;
  }

  /** A delete of a listed key that is not the last reference, and of one that is. */
  lemma DelOneOfMany<K(!new)>(db: Db<K>, m: multiset<K>, key: K, hwOk: bool)
    requires Represents(db, m) && m[key] > 1
    ensures Represents(DoDel(true, db, key, hwOk).0, m - multiset{key}) && DoDel(true, db, key, hwOk).1 == Ok
  {
    var i := Find(db.entries, key);
    assert Count(db.entries, key) == m[key];
    assert m - multiset{key} == m[key := m[key] - 1];
    UpdateRepresents(db, m, i, m[key] - 1);
    hide Represents;
  }

  lemma DelLast<K(!new)>(db: Db<K>, m: multiset<K>, key: K, hwOk: bool)
    requires Represents(db, m) && m[key] == 1
    ensures DoDel(true, db, key, hwOk).1 == if hwOk then Ok else HardwareError
    ensures if hwOk then Represents(DoDel(true, db, key, hwOk).0, m - multiset{key})
            else DoDel(true, db, key, hwOk).0 == db
  {
    var i := Find(db.entries, key);
    assert Count(db.entries, key) == m[key];
    assert m - multiset{key} == m[key := 0];
    RemoveRepresents(db, m, i);
    hide Represents;
    assert db.entries[i := Entry(key, 1)] == db.entries;
  }

  lemma DelAbsent<K(!new)>(db: Db<K>, m: multiset<K>, key: K, hwOk: bool)
    requires Represents(db, m) && m[key] == 0
    ensures DoDel(true, db, key, hwOk) == (db, NotFound)
  {
    assert Count(db.entries, key) == m[key];
  }

  lemma DelRefinesBag<K(!new)>(db: Db<K>, m: multiset<K>, key: K, hwOk: bool)
    requires Represents(db, m)
    ensures var (db', err) := DoDel(true, db, key, hwOk);
      var (m', err') := BagStep(m, Del(key, hwOk));
      Represents(db', m') && err == err' && (err != Ok ==> db' == db)
  {
    hide Represents, DoDel;
    if m[key] > 1 {
      DelOneOfMany(db, m, key, hwOk);
    } else if m[key] == 1 {
      DelLast(db, m, key, hwOk);
    } else {
      DelAbsent(db, m, key, hwOk);
    }
  }

  lemma StepRefinesBag<K(!new)>(db: Db<K>, m: multiset<K>, op: Op<K>)
    requires Represents(db, m)
    ensures Represents(Step(db, op).0, BagStep(m, op).0) && Step(db, op).1 == BagStep(m, op).1
    ensures Step(db, op).1 != Ok ==> Step(db, op).0 == db
  {
    match op
    case Add(key, changed, allocOk, hwOk) => AddRefinesBag(db, m, key, changed, allocOk, hwOk);
    case Del(key, hwOk) => DelRefinesBag(db, m, key, hwOk);
  }

  /** The multiset that a list represents. */
  function BagOf<K>(entries: seq<Entry<K>>): multiset<K> {
    if entries == [] then multiset{} else BagOf(entries[1..])[entries[0].key := entries[0].refcount]
  }

  lemma {:induction false} BagOfCounts<K(!new)>(entries: seq<Entry<K>>, key: K)
    ensures BagOf(entries)[key] == Count(entries, key)
  {
    if entries == [] {
    } else {
      BagOfCounts(entries[1..], key);
    }
  }

  /** So a valid list represents a multiset, and stays valid whatever is done to it. */
  lemma StepKeepsValid<K(!new)>(db: Db<K>, op: Op<K>)
    requires Valid(db)
    ensures Valid(Step(db, op).0)
  {
    forall key {
      BagOfCounts(db.entries, key);
    }
    StepRefinesBag(db, BagOf(db.entries), op);
  }

  /** The result of an add, the key's count and the hardware table after it, in terms of whether the table held
      the key: a listed key is counted once more, whatever the hardware or the allocator would have answered. */
  lemma AddGives<K(!new)>(db: Db<K>, key: K, changed: bool, allocOk: bool, hwOk: bool)
    requires Valid(db)
    ensures var (db', err) := DoAdd(true, db, key, changed, allocOk, hwOk);
      && err == (if changed || key in db.hw || (allocOk && hwOk) then Ok
                 else if !allocOk then NoMemory else HardwareError)
      && Count(db'.entries, key) == Count(db.entries, key) + (if err == Ok && !changed then 1 else 0)
      && db'.hw == if err == Ok && !changed then db.hw + {key} else db.hw
  {
    BagOfCounts(db.entries, key);
    Listed(db, key);
    forall k {
      BagOfCounts(db.entries, k);
    }
    AddRefinesBag(db, BagOf(db.entries), key, changed, allocOk, hwOk);
    hide Valid, BagOf;
  }

  lemma Listed<K(!new)>(db: Db<K>, key: K)
    requires Valid(db)
    ensures key in db.hw <==> Find(db.entries, key) < |db.entries|
    ensures key in db.hw <==> Count(db.entries, key) > 0
  {
    var i := Find(db.entries, key);
    assert i < |db.entries| ==> db.entries[i].key in db.hw && db.entries[i].refcount > 0;
  }

  /** And of a delete: only the last reference reaches the hardware. */
  lemma DelGives<K(!new)>(db: Db<K>, key: K, hwOk: bool)
    requires Valid(db)
    ensures var (db', err) := DoDel(true, db, key, hwOk);
      var n := Count(db.entries, key);
      && err == (if key !in db.hw then NotFound else if n > 1 || hwOk then Ok else HardwareError)
      && Count(db'.entries, key) == n - (if err == Ok then 1 else 0)
      && db'.hw == if err == Ok && n == 1 then db.hw - {key} else db.hw
  {
    BagOfCounts(db.entries, key);
    Listed(db, key);
    forall k {
      BagOfCounts(db.entries, k);
    }
    DelRefinesBag(db, BagOf(db.entries), key, hwOk);
    hide Valid, BagOf;
  }

  // ----- every run -----

  function Run<K(==)>(db: Db<K>, ops: seq<Op<K>>): (Db<K>, seq<Error>)
    decreases |ops|
  {
    if ops == [] then (db, [])
    else
      var (db', err) := Step(db, ops[0]);
      var (end, errs) := Run(db', ops[1..]);
      (end, [err] + errs)
  }

  function BagRun<K>(m: multiset<K>, ops: seq<Op<K>>): (multiset<K>, seq<Error>)
    decreases |ops|
  {
    if ops == [] then (m, [])
    else
      var (m', err) := BagStep(m, ops[0]);
      var (end, errs) := BagRun(m', ops[1..]);
      (end, [err] + errs)
  }

  /** Successful adds of the key that were not mere flag changes, minus successful deletes. */
  function Balance<K(==)>(ops: seq<Op<K>>, errs: seq<Error>, key: K): int
    requires |errs| == |ops|
  {
    if ops == [] then 0
    else
      (if errs[0] != Ok || ops[0].key != key then 0
       else if ops[0].Del? then -1
       else if ops[0].changed then 0 else 1)
      + Balance(ops[1..], errs[1..], key)
  }

  /** Over every run of adds and deletes, whatever fails: the list and its results are those of a
      multiset of keys. */
  lemma {:induction false} RunRefinesBag<K(!new)>(db: Db<K>, m: multiset<K>, ops: seq<Op<K>>)
    requires Represents(db, m)
    ensures var (end, errs) := Run(db, ops);
      var (bag, errs') := BagRun(m, ops);
      Represents(end, bag) && errs == errs'
    decreases |ops|
  {
    if ops == [] {
    } else {
      StepRefinesBag(db, m, ops[0]);
      RunRefinesBag(Step(db, ops[0]).0, BagStep(m, ops[0]).0, ops[1..]);
    }
  }

  lemma {:induction false} BagCountsBalance<K(!new)>(m: multiset<K>, ops: seq<Op<K>>, key: K)
    ensures var (end, errs) := BagRun(m, ops);
      |errs| == |ops| && end[key] == m[key] + Balance(ops, errs, key)
    decreases |ops|
  {
    if ops == [] {
    } else {
      BagCountsBalance(BagStep(m, ops[0]).0, ops[1..], key);
    }
  }

  /** From an empty list and table: the count of a key is its successful adds minus its successful
      deletes, and the hardware table holds the key exactly while that is positive. */
  lemma CountIsBalance<K(!new)>(ops: seq<Op<K>>, key: K)
    ensures var (end, errs) := Run(Db([], {}), ops);
      && Valid(end) && |errs| == |ops|
      && Count(end.entries, key) == Balance(ops, errs, key)
      && (key in end.hw <==> Balance(ops, errs, key) > 0)
  {
    RunRefinesBag(Db([], {}), multiset{}, ops);
    BagCountsBalance(multiset{}, ops, key);
    var (end, errs) := Run(Db([], {}), ops);
    var (bag, _) := BagRun(multiset{}, ops);
    assert bag[key] == Count(end.entries, key);
  }

  // ----- the list operations in their own form -----

  class RefList<K(==)> {
    const shared: bool
    var entries: seq<Entry<K>>
    var hw: set<K>

    ghost function View(): Db<K>
      reads this
    {
      Db(entries, hw)
    }

    constructor (shared: bool)
      ensures this.shared == shared && View() == Db([], {})
    {
      this.shared := shared;
      entries, hw := [], {};
    }

    /** The list_for_each_entry loop of dsa_mac_addr_find and dsa_vlan_find. */
    method FindEntry(key: K) returns (i: nat)
      ensures i == Find(entries, key)
    {
      i := 0;
      while i < |entries| && entries[i].key != key
        invariant i <= |entries|
        invariant Find(entries, key) == i + Find(entries[i..], key)
      {
        i := i + 1;
      }
    }

    method Add(key: K, changed: bool, allocOk: bool, hwOk: bool) returns (err: Error)
      modifies this
      ensures (View(), err) == DoAdd(shared, old(View()), key, changed, allocOk, hwOk)
    {
      if !shared {
        if !hwOk {
          return HardwareError;
        }
        hw := hw + {key};
        return Ok;
      }
      if changed {
        return Ok;
      }
      var i := FindEntry(key);
      if i < |entries| {
        entries := entries[i := entries[i].(refcount := entries[i].refcount + 1)];
        return Ok;
      }
      if !allocOk {
        return NoMemory;
      }
      if !hwOk {
        return HardwareError;
      }
      hw := hw + {key};
      entries := entries + [Entry(key, 1)];
      return Ok;
    }

    method Del(key: K, hwOk: bool) returns (err: Error)
      requires forall i {:trigger entries[i]} :: 0 <= i < |entries| ==> entries[i].refcount > 0
      modifies this
      ensures (View(), err) == DoDel(shared, old(View()), key, hwOk)
    {
      if !shared {
        if !hwOk {
          return HardwareError;
        }
        hw := hw - {key};
        return Ok;
      }
      var i := FindEntry(key);
      if i == |entries| {
        return NotFound;
      }
      entries := entries[i := entries[i].(refcount := entries[i].refcount - 1)];
      if entries[i].refcount != 0 {
        return Ok;
      }
      if !hwOk {
        entries := entries[i := entries[i].(refcount := 1)];
        assert entries == old(entries)[i := Entry(key, 1)];
        return HardwareError;
      }
      hw := hw - {key};
      entries := entries[..i] + entries[i + 1..];
      return Ok;
    }
  }
}
