/** A database table as the services see it through GORM: rows keyed by an
    auto-increment primary key, the `created_at` stamp of each row, and the
    row ids newest first (the order `ORDER BY created_at DESC` walks).
    The wall clock behind `created_at` is a counter owned by the store; it
    only ever increases, so rows created later carry larger stamps. */
module Tables {
  import opened Seqs

  type Id = nat

  datatype Table<R> = Table(rows: map<Id, R>, created: map<Id, nat>, newest: seq<Id>, nextId: Id)

  /** A freshly migrated, empty table; auto-increment starts at 1. */
  function Empty<R>(): Table<R> {
    Table(map[], map[], [], 1)
  }

  /** The table's bookkeeping is consistent: every row has a stamp,
      `newest` lists exactly the rows with decreasing stamps, and every id
      was handed out by the auto-increment counter. */
  ghost predicate Valid<R>(t: Table<R>) {
    && 1 <= t.nextId
    && (forall id :: id in t.rows <==> id in t.created)
    && Decreasing(t.newest, t.created)
    && (forall id :: id in t.rows ==> id in t.newest)
    && (forall id :: id in t.rows ==> id < t.nextId)
    && 0 !in t.rows
  }

  /** Every stamp in the table is older than `clock`. */
  ghost predicate StampsBelow<R>(t: Table<R>, clock: nat) {
    forall id :: id in t.created ==> t.created[id] < clock
  }

  lemma EmptyValid<R>(clock: nat)
    ensures Valid(Empty<R>()) && StampsBelow(Empty<R>(), clock)
  {
  }

  /** INSERT: the row gets the next auto-increment id and the stamp `clock`. */
  function Insert<R>(t: Table<R>, row: R, clock: nat): (r: Table<R>)
    requires Valid(t) && StampsBelow(t, clock)
    ensures Valid(r) && StampsBelow(r, clock + 1)
    ensures t.nextId !in t.rows
    ensures r.rows == t.rows[t.nextId := row] && r.nextId == t.nextId + 1
    ensures r.created == t.created[t.nextId := clock]
  {
    InsertKeepsValid(t, row, clock);
    Table(t.rows[t.nextId := row], t.created[t.nextId := clock], [t.nextId] + t.newest, t.nextId + 1)
  }

  lemma InsertKeepsValid<R>(t: Table<R>, row: R, clock: nat)
    requires Valid(t) && StampsBelow(t, clock)
    ensures var r := Table(t.rows[t.nextId := row], t.created[t.nextId := clock], [t.nextId] + t.newest, t.nextId + 1);
      Valid(r) && StampsBelow(r, clock + 1)
  {
    var created := t.created[t.nextId := clock];
    forall i | 0 <= i < |t.newest| ensures t.newest[i] in t.rows && created[t.newest[i]] == t.created[t.newest[i]] {
      assert t.newest[i] in t.created;
    }
    assert Decreasing(t.newest, created);
    forall j | 0 <= j < |t.newest| ensures created[t.nextId] > created[t.newest[j]] {
      assert t.newest[j] in t.created;
    }
    DecreasingCons(t.nextId, t.newest, created);
  }

  /** The row just inserted comes first in `ORDER BY created_at DESC`. */
  lemma InsertComesFirst<R>(t: Table<R>, row: R, clock: nat)
    requires Valid(t) && StampsBelow(t, clock)
    ensures var r := Insert(t, row, clock); |NewestFirst(r)| > 0 && NewestFirst(r)[0] == t.nextId
  {
  }

  /** UPDATE of one existing row (GORM `Save`); the stamp and the order stay. */
  function Put<R>(t: Table<R>, id: Id, row: R): (r: Table<R>)
    requires Valid(t) && id in t.rows
    ensures Valid(r)
    ensures r.rows == t.rows[id := row] && r.rows.Keys == t.rows.Keys
    ensures r.created == t.created && r.nextId == t.nextId
  {
    Table(t.rows[id := row], t.created, t.newest, t.nextId)
  }

  /** DELETE ... WHERE id = ?: the table afterwards and the number of rows
      affected, which is 1 if the row existed and 0 otherwise. */
  function Delete<R>(t: Table<R>, id: Id): (r: (Table<R>, nat))
    requires Valid(t)
    ensures Valid(r.0)
    ensures r.1 == (if id in t.rows then 1 else 0)
    ensures r.0.rows == t.rows - {id} && r.0.nextId == t.nextId
    ensures r.0.created == t.created - {id}
    ensures id !in t.rows ==> r.0 == t
  {
    if id !in t.rows then
      assert t.created - {id} == t.created;
      (t, 0)
    else
      var created := t.created - {id};
      var newest := Without(t.newest, id);
      WithoutKeepsDecreasing(t.newest, id, t.created);
      assert Decreasing(newest, created) by {
        forall i | 0 <= i < |newest| ensures newest[i] in created {
          assert newest[i] in t.newest && newest[i] != id;
        }
      }
      assert forall k :: k in t.rows && k != id ==> k in newest by {
        forall k | k in t.rows && k != id ensures k in newest {
          var i :| 0 <= i < |t.newest| && t.newest[i] == k;
        }
      }
      (Table(t.rows - {id}, created, newest, t.nextId), 1)
  }

  /** A DELETE keeps every remaining stamp below the clock. */
  lemma DeleteKeepsStampsBelow<R>(t: Table<R>, id: Id, clock: nat)
    requires Valid(t) && StampsBelow(t, clock)
    ensures StampsBelow(Delete(t, id).0, clock)
  {
  }

  /** Stamps below a clock stay below once the clock has moved on. */
  lemma StampsBelowLater<R>(t: Table<R>, clock: nat, later: nat)
    requires StampsBelow(t, clock) && clock <= later
    ensures StampsBelow(t, later)
  {
  }

  /** `newest` lists every row exactly once. */
  lemma NewestIsRows<R>(t: Table<R>)
    requires Valid(t)
    ensures |t.newest| == |t.rows|
    ensures forall id :: id in t.rows <==> id in t.newest
  {
    assert Elems(t.newest) == t.rows.Keys;
    assert Distinct(t.newest);
    ElemsCard(t.newest);
    assert |t.rows.Keys| == |t.rows|;
  }

  /** The ids in `ORDER BY created_at DESC` order: every row exactly once,
      newest first. */
  function NewestFirst<R>(t: Table<R>): (r: seq<Id>)
    requires Valid(t)
    ensures |r| == |t.rows|
    ensures forall k :: 0 <= k < |r| ==> r[k] in t.rows && r[k] in t.created
    ensures forall id :: id in t.rows ==> id in r
    ensures forall i, j :: 0 <= i < j < |r| ==> t.created[r[i]] > t.created[r[j]]
  {
    NewestIsRows(t);
    t.newest
  }
}
