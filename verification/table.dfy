/** One in-memory collection of src/data/database.js: an array of records and the
    counter that issues their identifiers. database.js repeats the same five
    operations for members, songs and scales; they are defined once here. */
module Table {
  import opened Wrappers

  /** A stored record: the identifier it was given and the entity's own fields. */
  datatype Row<F> = Row(id: int, fields: F)

  /** What an update spreads over a stored record. `id` is a key like any other in
      `{ ...old, ...updates }`, so an update that carries one replaces the identifier. */
  datatype Patch<P> = Patch(id: Option<int>, fields: P)

  datatype Table<F> = Table(rows: seq<Row<F>>, nextId: int)

  /** The collection as the module starts, and as `resetDatabase` leaves it. */
  function Empty<F>(): Table<F> {
    Table([], 1)
  }

  /** Ids are at least 1, strictly increase along the rows and stay below the counter. */
  predicate WellFormed<F>(t: Table<F>) {
    && 1 <= t.nextId
    && (forall k :: 0 <= k < |t.rows| ==> 1 <= t.rows[k].id < t.nextId)
    && (forall i, j :: 0 <= i < j < |t.rows| ==> t.rows[i].id < t.rows[j].id)
  }

  /** `findIndex`: the first position whose row satisfies `p`, or -1 when none does. */
  function FirstWhere<F>(rows: seq<Row<F>>, p: Row<F> -> bool): (i: int)
    ensures -1 <= i < |rows|
    ensures i == -1 <==> forall k :: 0 <= k < |rows| ==> !p(rows[k])
    ensures 0 <= i ==> p(rows[i]) && forall k :: 0 <= k < i ==> !p(rows[k])
    decreases |rows|
  {
    if |rows| == 0 then -1
    else if p(rows[0]) then 0
    else
      var j := FirstWhere(rows[1..], p);
      assert forall k :: 1 <= k < |rows| ==> rows[1..][k - 1] == rows[k];
      if j == -1 then -1 else j + 1
  }

  /** `findIndex(r => r.id === id)`. */
  function FindIndex<F>(rows: seq<Row<F>>, id: int): (i: int)
    ensures -1 <= i < |rows|
    ensures i == -1 <==> forall k :: 0 <= k < |rows| ==> rows[k].id != id
    ensures 0 <= i ==> rows[i].id == id && forall k :: 0 <= k < i ==> rows[k].id != id
  {
    FirstWhere(rows, (r: Row<F>) => r.id == id)
  }

  /** `find(r => r.id === id)`: getMemberById, getMusicById, getScaleById. */
  function Find<F>(rows: seq<Row<F>>, id: int): (r: Option<Row<F>>)
    ensures r.None? <==> forall k :: 0 <= k < |rows| ==> rows[k].id != id
    ensures r.Some? ==> r.value.id == id && r.value in rows
  {
    var i := FindIndex(rows, id);
    if i == -1 then None else Some(rows[i])
  }

  /** addMember / addMusic / addScale: the record is the caller's fields with the
      counter's value written last as `id`, so an id the caller supplied is discarded. */
  function Add<F>(t: Table<F>, callerId: Option<int>, fields: F): (r: (Table<F>, Row<F>))
    ensures r.1.id == t.nextId && r.1.fields == fields
    ensures r.0.rows == t.rows + [r.1]
    ensures r.0.nextId == t.nextId + 1
  {
    var row := Row(t.nextId, fields);
    (Table(t.rows + [row], t.nextId + 1), row)
  }

  /** updateMember / updateMusic / updateScale: a shallow merge of `p` over the first
      record with that id, stored at the same position; absent (null) when no record has it. */
  function Update<F, P>(t: Table<F>, id: int, p: Patch<P>, merge: (F, P) -> F): (r: (Table<F>, Option<Row<F>>))
    ensures r.0.nextId == t.nextId && |r.0.rows| == |t.rows|
    ensures r.1.None? <==> forall k :: 0 <= k < |t.rows| ==> t.rows[k].id != id
    ensures r.1.None? ==> r.0 == t
    ensures r.1.Some? ==>
      var i := FindIndex(t.rows, id);
      && r.0.rows[i] == r.1.value
      && r.1.value.id == p.id.GetOr(id)
      && r.1.value.fields == merge(t.rows[i].fields, p.fields)
      && forall k :: 0 <= k < |t.rows| && k != i ==> r.0.rows[k] == t.rows[k]
  {
    var i := FindIndex(t.rows, id);
    if i == -1 then (t, None)
    else
      var before := t.rows[i];
      var row := Row(p.id.GetOr(before.id), merge(before.fields, p.fields));
      (Table(t.rows[i := row], t.nextId), Some(row))
  }

  /** deleteMember / deleteMusic / deleteScale: splice out the first record with that
      id and report whether one was there. */
  function Delete<F>(t: Table<F>, id: int): (r: (Table<F>, bool))
    ensures r.0.nextId == t.nextId
    ensures r.1 <==> exists k :: 0 <= k < |t.rows| && t.rows[k].id == id
    ensures !r.1 ==> r.0 == t
    ensures r.1 ==> var i := FindIndex(t.rows, id); r.0.rows == t.rows[..i] + t.rows[i + 1..]
  {
    var i := FindIndex(t.rows, id);
    if i == -1 then (t, false)
    else (Table(t.rows[..i] + t.rows[i + 1..], t.nextId), true)
  }

  /** `find` returns the first match: a row no earlier row shares the id with is the
      one found, whatever later rows hold. */
  lemma FindFirst<F>(rows: seq<Row<F>>, id: int, k: int)
    requires 0 <= k < |rows| && rows[k].id == id
    requires forall j :: 0 <= j < k ==> rows[j].id != id
    ensures Find(rows, id) == Some(rows[k])
  {
    var i := FindIndex(rows, id);
    assert !(i < k) && !(k < i);
  }

  /** In a well-formed table every stored row is the one its id finds. */
  lemma FindStored<F>(t: Table<F>, k: int)
    requires WellFormed(t) && 0 <= k < |t.rows|
    ensures Find(t.rows, t.rows[k].id) == Some(t.rows[k])
  {
  }

  /** Adding issues an id above every stored one, keeps the table well formed, makes
      the new record findable and leaves what every other id finds unchanged. */
  lemma AddIssuesFreshId<F>(t: Table<F>, callerId: Option<int>, fields: F)
    requires WellFormed(t)
    ensures var (t', row) := Add(t, callerId, fields);
      && WellFormed(t')
      && (forall k :: 0 <= k < |t.rows| ==> t.rows[k].id < row.id)
      && Find(t'.rows, row.id) == Some(row)
      && (forall id :: id != row.id ==> Find(t'.rows, id) == Find(t.rows, id))
  {
    var (t', row) := Add(t, callerId, fields);
    FindStored(t', |t.rows|);
    forall id | id != row.id
      ensures Find(t'.rows, id) == Find(t.rows, id)
    {
      FindAppend(t.rows, row, id);
    }
  }

  /** Appending a row with another id does not change what an id finds. */
  lemma FindAppend<F>(rows: seq<Row<F>>, row: Row<F>, id: int)
    requires row.id != id
    ensures Find(rows + [row], id) == Find(rows, id)
  {
    assert forall k :: 0 <= k < |rows| ==> (rows + [row])[k] == rows[k];
  }

  /** Splicing out a row with another id does not change what an id finds. */
  lemma FindSplice<F>(rows: seq<Row<F>>, i: int, id: int)
    requires 0 <= i < |rows| && rows[i].id != id
    ensures Find(rows[..i] + rows[i + 1..], id) == Find(rows, id)
  {
    var rest := rows[..i] + rows[i + 1..];
    assert forall k :: 0 <= k < i ==> rest[k] == rows[k];
    assert forall k :: i <= k < |rest| ==> rest[k] == rows[k + 1];
    var j := FindIndex(rows, id);
    if j == -1 {
      assert forall k :: 0 <= k < |rest| ==> rest[k].id != id;
    } else if j < i {
      assert FindIndex(rest, id) == j;
    } else {
      assert rest[j - 1] == rows[j];
      assert FindIndex(rest, id) == j - 1;
    }
  }

  /** An update that carries no `id` key leaves the merged record findable under the
      same id and every other lookup unchanged. */
  lemma UpdateKeepsLookups<F, P>(t: Table<F>, id: int, p: Patch<P>, merge: (F, P) -> F)
    requires p.id.None?
    ensures var (t', r) := Update(t, id, p, merge);
      && Find(t'.rows, id) == r
      && (forall other :: other != id ==> Find(t'.rows, other) == Find(t.rows, other))
  {
    var (t', r) := Update(t, id, p, merge);
    assert forall k :: 0 <= k < |t.rows| ==> t'.rows[k].id == t.rows[k].id;
    forall other
      ensures FindIndex(t'.rows, other) == FindIndex(t.rows, other)
    {
      SameIdsSameIndex(t.rows, t'.rows, other);
    }
  }

  /** An update that carries no `id` key keeps the table well formed, and leaves the
      merged record findable under the same id with every other lookup unchanged. */
  lemma UpdateKeepsIds<F, P>(t: Table<F>, id: int, p: Patch<P>, merge: (F, P) -> F)
    requires WellFormed(t) && p.id.None?
    ensures var (t', r) := Update(t, id, p, merge);
      && WellFormed(t')
      && Find(t'.rows, id) == r
      && (forall other :: other != id ==> Find(t'.rows, other) == Find(t.rows, other))
  {
    UpdateKeepsLookups(t, id, p, merge);
    var (t', r) := Update(t, id, p, merge);
    assert forall k :: 0 <= k < |t.rows| ==> t'.rows[k].id == t.rows[k].id;
  }

  /** Two row sequences with the same ids position by position find the same index. */
  lemma SameIdsSameIndex<F>(a: seq<Row<F>>, b: seq<Row<F>>, id: int)
    requires |a| == |b|
    requires forall k :: 0 <= k < |a| ==> a[k].id == b[k].id
    ensures FindIndex(a, id) == FindIndex(b, id)
  {
  }

  /** Splicing a row out of a well-formed table leaves it well formed. */
  lemma SpliceKeepsWellFormed<F>(t: Table<F>, i: int)
    requires WellFormed(t) && 0 <= i < |t.rows|
    ensures WellFormed(Table(t.rows[..i] + t.rows[i + 1..], t.nextId))
  {
    var rest := t.rows[..i] + t.rows[i + 1..];
    assert forall k :: 0 <= k < |rest| ==> rest[k] == t.rows[if k < i then k else k + 1];
  }

  /** After deleting from a well-formed table the id is no longer found. */
  lemma DeleteLeavesNoMatch<F>(t: Table<F>, id: int)
    requires WellFormed(t)
    ensures Find(Delete(t, id).0.rows, id).None?
  {
    var t' := Delete(t, id).0;
    var i := FindIndex(t.rows, id);
    if i != -1 {
      forall k | 0 <= k < |t'.rows|
        ensures t'.rows[k].id != id
      {
        if k < i {
          assert t'.rows[k] == t.rows[k];
        } else {
          assert t'.rows[k] == t.rows[k + 1];
        }
      }
    }
  }

  /** Deleting from a well-formed table removes exactly the record with that id:
      one row fewer when it was there, the id no longer found, every other lookup
      unchanged. */
  lemma DeleteRemovesExactly<F>(t: Table<F>, id: int)
    requires WellFormed(t)
    ensures var (t', deleted) := Delete(t, id);
      && WellFormed(t')
      && Find(t'.rows, id).None?
      && (deleted ==> |t'.rows| == |t.rows| - 1)
      && (forall other :: other != id ==> Find(t'.rows, other) == Find(t.rows, other))
  {
    var i := FindIndex(t.rows, id);
    DeleteLeavesNoMatch(t, id);
    if i != -1 {
      SpliceKeepsWellFormed(t, i);
      forall other | other != id
        ensures Find(Delete(t, id).0.rows, other) == Find(t.rows, other)
      {
        FindSplice(t.rows, i, other);
      }
    }
  }

  /** One step of a history of operations on a single collection. An update carries
      the request's fields, which `merge` folds into the stored record; no `id` key is sent. */
  datatype Op<F, P> = Insert(fields: F) | Remove(id: int) | Replace(id: int, patch: P)

  /** One operation: the table after it and the ids it issued (one for an insert). */
  function Step<F, P>(t: Table<F>, op: Op<F, P>, merge: (F, P) -> F): (Table<F>, seq<int>) {
    match op
    case Insert(f) => var (t', row) := Add(t, None, f); (t', [row.id])
    case Remove(id) => (Delete(t, id).0, [])
    case Replace(id, p) => (Update(t, id, Patch(None, p), merge).0, [])
  }

  /** Applies `ops` in order and lists the ids the inserts were given. */
  function Replay<F, P>(t: Table<F>, ops: seq<Op<F, P>>, merge: (F, P) -> F): (Table<F>, seq<int>)
    decreases |ops|
  {
    if |ops| == 0 then (t, [])
    else
      var (t1, issued) := Step(t, ops[0], merge);
      var (t2, rest) := Replay(t1, ops[1..], merge);
      (t2, issued + rest)
  }

  /** A single step keeps the table well formed and issues exactly the ids between
      the old and the new counter. */
  lemma StepIssuesCounter<F, P>(t: Table<F>, op: Op<F, P>, merge: (F, P) -> F)
    requires WellFormed(t)
    ensures var (t', issued) := Step(t, op, merge);
      && WellFormed(t')
      && t'.nextId == t.nextId + |issued|
      && (issued == [] || issued == [t.nextId])
  {
    match op
    case Insert(f) => AddIssuesFreshId(t, None, f);
    case Remove(id) => DeleteRemovesExactly(t, id);
    case Replace(id, p) => UpdateKeepsIds(t, id, Patch(None, p), merge);
  }

  /** Across any history of inserts, deletes and updates, whatever merge the updates use,
      the ids handed out strictly increase and all lie at or above the counter the history
      started from, so no id is ever issued twice and none that was stored before is ever
      issued again. */
  lemma {:induction false} ReplayNeverReusesIds<F, P>(t: Table<F>, ops: seq<Op<F, P>>, merge: (F, P) -> F)
    requires WellFormed(t)
    ensures var (t', issued) := Replay(t, ops, merge);
      && WellFormed(t')
      && t.nextId <= t'.nextId
      && (forall i, j :: 0 <= i < j < |issued| ==> issued[i] < issued[j])
      && (forall i :: 0 <= i < |issued| ==> t.nextId <= issued[i] < t'.nextId)
    decreases |ops|
  {
    if |ops| > 0 {
      StepIssuesCounter(t, ops[0], merge);
      var (t1, first) := Step(t, ops[0], merge);
      ReplayNeverReusesIds(t1, ops[1..], merge);
      var (t2, rest) := Replay(t1, ops[1..], merge);
      assert Replay(t, ops, merge) == (t2, first + rest);
    }
  }
}
