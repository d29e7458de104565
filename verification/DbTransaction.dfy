/**
 * Pending writes and deletes over a database (`CDBTransaction`).  Keys of
 * different types are kept apart until they are written out in serialised form.
 */
module DbTransaction {
  import opened Basics

  /** A key of some type. */
  datatype Key = Key(kind: nat, name: nat)

  /** A value of some type. */
  datatype Value = Value(kind: nat, content: seq<Byte>)

  type Bytes = seq<Byte>

  type Data = map<Bytes, Bytes>

  /** How keys and values are serialised, and what a stored value reads as in a type. */
  datatype Format = Format(ofKey: Key -> Bytes, ofValue: Value -> Bytes, decode: (nat, Bytes) -> Option<Value>)

  /** A value reads back in its own type. */
  ghost predicate FormatOk(f: Format) {
    forall v: Value :: f.decode(v.kind, f.ofValue(v)) == Some(v)
  }

  /** No two keys share a serialised form. */
  ghost predicate Apart(f: Format) {
    forall j: Key, k: Key :: f.ofKey(j) == f.ofKey(k) ==> j == k
  }

  datatype Op = Put(key: Key, value: Value) | Remove(key: Key)

  // ---------------------------------------------------------------- the log

  /** The database after the operations, one after the other. */
  function Replayed(f: Format, d: Data, log: seq<Op>): Data {
    if log == [] then d
    else
      var before := Replayed(f, d, log[..|log| - 1]);
      match log[|log| - 1]
      case Put(k, v) => before[f.ofKey(k) := f.ofValue(v)]
      case Remove(k) => before - {f.ofKey(k)}
  }

  datatype Pending = Pending(writes: map<Key, Value>, deletes: set<Key>)

  /** What is pending after the operations. */
  function Collected(log: seq<Op>): Pending {
    if log == [] then Pending(map[], {})
    else
      var p := Collected(log[..|log| - 1]);
      match log[|log| - 1]
      case Put(k, v) => Pending(p.writes[k := v], p.deletes - {k})
      case Remove(k) => Pending(p.writes - {k}, p.deletes + {k})
  }

  /** Nothing is to be both written and deleted. */
  lemma {:induction false} CollectedDisjoint(log: seq<Op>)
    ensures Collected(log).writes.Keys !! Collected(log).deletes
  {
    if log != [] { CollectedDisjoint(log[..|log| - 1]); }
  }

  /** What stands under a key when something is pending. */
  function Lookup(f: Format, d: Data, p: Pending, k: Key): Option<Bytes> {
    if k in p.deletes then None
    else if k in p.writes then Some(f.ofValue(p.writes[k]))
    else Stored(d, f.ofKey(k))
  }

  function Stored(d: Data, b: Bytes): Option<Bytes> {
    if b in d then Some(d[b]) else None
  }

  /** Pending changes look like the replayed log. */
  lemma {:induction false} LookupReplayed(f: Format, d: Data, log: seq<Op>, k: Key)
    requires Apart(f)
    ensures Lookup(f, d, Collected(log), k) == Stored(Replayed(f, d, log), f.ofKey(k))
  {
    if log != [] {
      LookupReplayed(f, d, log[..|log| - 1], k);
      CollectedDisjoint(log[..|log| - 1]);
      var j := log[|log| - 1].key;
      assert f.ofKey(j) == f.ofKey(k) ==> j == k;
    }
  }

  /** Reads agree with the replayed log, whatever the log. */
  ghost predicate LookupsReplay(f: Format) {
    forall d, log, k :: Lookup(f, d, Collected(log), k) == Stored(Replayed(f, d, log), f.ofKey(k))
  }

  /** They do exactly if no two keys share a serialised form: else one that is written stays hidden under the other. */
  lemma {:induction false} LookupExact(f: Format)
    ensures LookupsReplay(f) <==> Apart(f)
  {
    if Apart(f) {
      forall d, log, k ensures Lookup(f, d, Collected(log), k) == Stored(Replayed(f, d, log), f.ofKey(k)) {
        LookupReplayed(f, d, log, k);
      }
    } else {
      var j: Key, k: Key :| f.ofKey(j) == f.ofKey(k) && j != k;
      SharedFormHides(f, j, k);
    }
  }

  lemma {:induction false} SharedFormHides(f: Format, j: Key, k: Key)
    requires j != k && f.ofKey(j) == f.ofKey(k)
    ensures !LookupsReplay(f)
  {
    var v := Value(0, []);
    var log, none: Data := [Put(j, v)], map[];
    assert log[..0] == [];
    assert Collected(log) == Pending(map[j := v], {});
    assert Lookup(f, none, Collected(log), k) == None;
    assert Stored(Replayed(f, none, log), f.ofKey(k)) == Some(f.ofValue(v));
  }

  /** Bytes that are no pending key's are left alone. */
  lemma {:induction false} OthersReplayed(f: Format, d: Data, log: seq<Op>, b: Bytes)
    requires forall k :: k in Collected(log).writes || k in Collected(log).deletes ==> f.ofKey(k) != b
    ensures Stored(Replayed(f, d, log), b) == Stored(d, b)
  {
    if log != [] {
      var init, k := log[..|log| - 1], log[|log| - 1].key;
      assert k in Collected(log).writes || k in Collected(log).deletes;
      assert forall j :: j in Collected(init).writes || j in Collected(init).deletes ==>
        j == k || j in Collected(log).writes || j in Collected(log).deletes;
      OthersReplayed(f, d, init, b);
    }
  }

  // ---------------------------------------------------------------- committing

  /** A batch deletes first, then writes. */
  function Applied(d: Data, dels: set<Bytes>, puts: Data): Data {
    (d - dels) + puts
  }

  ghost predicate DelsOf(f: Format, deletes: set<Key>, dels: set<Bytes>) {
    forall b :: b in dels <==> exists k :: k in deletes && f.ofKey(k) == b
  }

  /** Each pending write is in the batch, and nothing else. */
  ghost predicate PutsOf(f: Format, writes: map<Key, Value>, puts: Data) {
    && (forall k :: k in writes ==> f.ofKey(k) in puts)
    && (forall b :: b in puts ==> exists k :: k in writes && f.ofKey(k) == b && f.ofValue(writes[k]) == puts[b])
  }

  /** With keys apart, a committed transaction is the replayed log. */
  lemma {:induction false} CommitReplays(f: Format, d: Data, log: seq<Op>, dels: set<Bytes>, puts: Data)
    requires Apart(f) && DelsOf(f, Collected(log).deletes, dels) && PutsOf(f, Collected(log).writes, puts)
    ensures Applied(d, dels, puts) == Replayed(f, d, log)
  {
    var p, a, r := Collected(log), Applied(d, dels, puts), Replayed(f, d, log);
    CollectedDisjoint(log);
    forall b
      ensures Stored(a, b) == Stored(r, b)
    {
      if k :| (k in p.writes || k in p.deletes) && f.ofKey(k) == b {
        LookupReplayed(f, d, log, k);
        if k in p.writes {
          assert b in puts;
          var j :| j in p.writes && f.ofKey(j) == b && f.ofValue(p.writes[j]) == puts[b];
          assert j == k;
        } else {
          assert b in dels;
        }
      } else {
        OthersReplayed(f, d, log, b);
      }
    }
    forall b ensures b in a <==> b in r { assert Stored(a, b) == Stored(r, b); }
    forall b | b in a ensures a[b] == r[b] { assert Stored(a, b) == Stored(r, b); }
  }

  /** A database after what was pending is committed to it. */
  ghost predicate Committed(f: Format, d: Data, p: Pending, d': Data) {
    exists dels, puts :: DelsOf(f, p.deletes, dels) && PutsOf(f, p.writes, puts) && d' == Applied(d, dels, puts)
  }

  /** Commits agree with the replayed log, whatever the log. */
  ghost predicate CommitsReplay(f: Format) {
    forall d, log, d' :: Committed(f, d, Collected(log), d') ==> d' == Replayed(f, d, log)
  }

  /** They do exactly if no two keys share a serialised form. */
  lemma {:induction false} CommitExact(f: Format)
    ensures CommitsReplay(f) <==> Apart(f)
  {
    if Apart(f) {
      forall d, log, d' | Committed(f, d, Collected(log), d')
        ensures d' == Replayed(f, d, log)
      {
        var dels, puts :| DelsOf(f, Collected(log).deletes, dels) && PutsOf(f, Collected(log).writes, puts)
                          && d' == Applied(d, dels, puts);
        CommitReplays(f, d, log, dels, puts);
      }
    } else {
      var j: Key, k: Key :| f.ofKey(j) == f.ofKey(k) && j != k;
      SharedFormBreaks(f, j, k);
    }
  }

  /** The first of two such keys written and then the second erased: the value stays in the database. */
  lemma {:induction false} SharedFormBreaks(f: Format, j: Key, k: Key)
    requires j != k && f.ofKey(j) == f.ofKey(k)
    ensures !CommitsReplay(f)
  {
    var v, b := Value(0, []), f.ofKey(j);
    var log := [Put(j, v), Remove(k)];
    assert log[..1] == [Put(j, v)] && [Put(j, v)][..0] == [];
    assert Collected([Put(j, v)]) == Pending(map[j := v], {});
    assert Collected(log) == Pending(map[j := v], {k});
    var dels, puts := {b}, map[b := f.ofValue(v)];
    assert k in Collected(log).deletes && f.ofKey(k) == b;
    assert DelsOf(f, {k}, dels);
    assert j in map[j := v] && f.ofKey(j) == b;
    assert PutsOf(f, map[j := v], puts);
    assert Committed(f, map[], Collected(log), Applied(map[], dels, puts));
    assert b in Applied(map[], dels, puts);
    assert b !in Replayed(f, map[], log);
  }

  class Database {
    var data: Data

    constructor (data: Data)
      ensures this.data == data
    {
      this.data := data;
    }
  }

  class Transaction {
    const f: Format
    const db: Database
    var writes: map<Key, Value>
    var deletes: set<Key>

    /** The operations since the transaction was clean. */
    ghost var log: seq<Op>

    ghost predicate Valid()
      reads this
    {
      Pending(writes, deletes) == Collected(log)
    }

    /** The database as the transaction shows it. */
    ghost function View(): Data
      reads this, db
    {
      Replayed(f, db.data, log)
    }

    constructor (f: Format, db: Database)
      ensures Valid() && log == [] && this.f == f && this.db == db
    {
      this.f, this.db := f, db;
      writes, deletes, log := map[], {}, [];
    }

    method Write(key: Key, value: Value)
      requires Valid()
      modifies this
      ensures Valid() && log == old(log) + [Put(key, value)]
      ensures writes.Keys !! deletes
    {
      deletes := deletes - {key};
      writes := writes[key := value];
      assert (log + [Put(key, value)])[..|log|] == log;
      log := log + [Put(key, value)];
      CollectedDisjoint(log);
    }

    method Erase(key: Key)
      requires Valid()
      modifies this
      ensures Valid() && log == old(log) + [Remove(key)]
      ensures writes.Keys !! deletes
    {
      writes := writes - {key};
      deletes := deletes + {key};
      assert (log + [Remove(key)])[..|log|] == log;
      log := log + [Remove(key)];
      CollectedDisjoint(log);
    }

    /** Reads a value of a type; a pending value of another type is not converted but refused. */
    method Read(key: Key, kind: nat) returns (r: Option<Value>)
      requires Valid()
      ensures key in writes && writes[key].kind != kind ==> r.None?
      ensures FormatOk(f) && (key in writes ==> writes[key].kind == kind) ==>
        var b := Lookup(f, db.data, Collected(log), key);
        r == if b.Some? then f.decode(kind, b.value) else None
      ensures FormatOk(f) && Apart(f) && (key in writes ==> writes[key].kind == kind) ==>
        r == if f.ofKey(key) in View() then f.decode(kind, View()[f.ofKey(key)]) else None
    {
      if Apart(f) { LookupReplayed(f, db.data, log, key); }
      CollectedDisjoint(log);
      if key in deletes {
        return None;
      }
      if key in writes {
        if writes[key].kind != kind {
          return None;
        }
        return Some(writes[key]);
      }
      var b := f.ofKey(key);
      r := if b in db.data then f.decode(kind, db.data[b]) else None;
    }

    method Exists(key: Key) returns (r: bool)
      requires Valid()
      ensures r <==> Lookup(f, db.data, Collected(log), key).Some?
      ensures Apart(f) ==> (r <==> f.ofKey(key) in View())
    {
      if Apart(f) { LookupReplayed(f, db.data, log, key); }
      CollectedDisjoint(log);
      if key in deletes {
        return false;
      }
      if key in writes {
        return true;
      }
      r := f.ofKey(key) in db.data;
    }

    /** The serialised pending writes. */
    method Puts() returns (puts: Data)
      ensures PutsOf(f, writes, puts)
    {
      puts := map[];
      var todo := writes;
      while todo != map[]
        invariant forall k :: k in todo ==> k in writes && todo[k] == writes[k]
        invariant forall k :: k in writes ==> k in todo || f.ofKey(k) in puts
        invariant forall b :: b in puts ==>
          exists k :: k in writes && f.ofKey(k) == b && f.ofValue(writes[k]) == puts[b]
        decreases |todo|
      {
        var k :| k in todo;
        puts := puts[f.ofKey(k) := f.ofValue(todo[k])];
        assert (todo - {k}).Keys == todo.Keys - {k};
        todo := todo - {k};
      }
    }

    /** Commits: the database becomes what the transaction showed, unless the batch cannot be
        written; nothing is pending afterwards in either case. */
    method Commit(fWritten: bool) returns (ret: bool)
      requires Valid()
      modifies this, db
      ensures Valid() && log == [] && writes == map[] && deletes == {} && View() == db.data && ret == fWritten
      ensures ret && Apart(f) ==> db.data == old(View())
      ensures ret ==> Committed(f, old(db.data), Pending(old(writes), old(deletes)), db.data)
      ensures !ret ==> db.data == old(db.data)
    {
      var dels := set k | k in deletes :: f.ofKey(k);
      var puts := Puts();
      if Apart(f) { CommitReplays(f, db.data, log, dels, puts); }
      assert DelsOf(f, deletes, dels);
      if fWritten {
        db.data := Applied(db.data, dels, puts);
      }
      ret := fWritten;
      writes, deletes, log := map[], {}, [];
    }

    /** Rolls back: the database was never touched. */
    method Rollback()
      requires Valid()
      modifies this
      ensures Valid() && log == [] && writes == map[] && deletes == {}
      ensures db.data == old(db.data) == View()
    {
      writes, deletes, log := map[], {}, [];
    }
  }
}
