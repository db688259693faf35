/** A full scan of a keyed table: the shape shared by `filter` and
    `withResponseTimeInRange`, which both select every row a predicate keeps
    and list a projection of each. */
module Scan {

  /** What a scan has gathered so far: `r` holds one projection per kept id,
      in the order `ids` lists them, and `ids` lists every kept id. */
  ghost predicate Gathered<K, V, S>(records: map<K, V>, project: V -> S,
                           r: seq<S>, ids: seq<K>, kept: set<K>)
  {
    && |ids| == |r| == |kept|
    && (forall i :: 0 <= i < |ids| ==> ids[i] in kept && ids[i] in records && r[i] == project(records[ids[i]]))
    && (forall id :: id in kept ==> id in ids)
    && (forall i, j :: 0 <= i < j < |ids| ==> ids[i] != ids[j])
  }

  /** Gathering one more kept id keeps the scan's bookkeeping. */
  lemma GatherOne<K, V, S>(records: map<K, V>, project: V -> S,
                  r: seq<S>, ids: seq<K>, kept: set<K>, id: K)
    requires Gathered(records, project, r, ids, kept) && id in records && id !in kept
    ensures Gathered(records, project, r + [project(records[id])], ids + [id], kept + {id})
  {
    var ids' := ids + [id];
    forall x | x in kept + {id}
      ensures x in ids'
    {
      if x != id {
        assert x in ids;
      }
    }
  }

  /** A listing whose entries are, position by position, the projections of
      kept records, and whose ids cover every kept record, holds exactly the
      projections of the kept records. */
  lemma ListsKept<K, V, S>(records: map<K, V>, keep: V -> bool, project: V -> S, r: seq<S>, ids: seq<K>)
    requires |ids| == |r|
    requires forall i :: 0 <= i < |r| ==> ids[i] in records && keep(records[ids[i]]) && r[i] == project(records[ids[i]])
    requires forall id :: id in records && keep(records[id]) ==> id in ids
    ensures forall s :: s in r ==> exists id :: id in records && keep(records[id]) && s == project(records[id])
    ensures forall id :: id in records && keep(records[id]) ==> project(records[id]) in r
  {
    forall s | s in r
      ensures exists id :: id in records && keep(records[id]) && s == project(records[id])
    {
      var i :| 0 <= i < |r| && r[i] == s;
      assert ids[i] in records && keep(records[ids[i]]);
    }
    forall id | id in records && keep(records[id])
      ensures project(records[id]) in r
    {
      var i :| 0 <= i < |ids| && ids[i] == id;
      assert r[i] == project(records[id]);
    }
  }

  /** A scan of a table: the projections of the records `keep` accepts (the
      ids they come from in `ids`), each once, in no promised order (the queries have no
      ORDER BY). */
  method Select<K, V, S>(records: map<K, V>, keep: V -> bool, project: V -> S)
    returns (r: seq<S>, ghost ids: seq<K>)
    ensures |ids| == |r|
    // every entry is the projection of a kept record ...
    ensures forall i :: 0 <= i < |r| ==> ids[i] in records && keep(records[ids[i]]) && r[i] == project(records[ids[i]])
    // ... no record is listed twice ...
    ensures forall i, j :: 0 <= i < j < |ids| ==> ids[i] != ids[j]
    // ... and every kept record is listed
    ensures forall id :: id in records && keep(records[id]) ==> id in ids
    // the same two facts, stated of the listing alone
    ensures forall s :: s in r ==> exists id :: id in records && keep(records[id]) && s == project(records[id])
    ensures forall id :: id in records && keep(records[id]) ==> project(records[id]) in r
  {
    r := [];
    var todo := records.Keys;
    ghost var done: set<K> := {};
    ghost var kept: set<K> := {};
    ids := [];
    while todo != {}
      invariant todo <= records.Keys && done == records.Keys - todo
      invariant kept <= done
      invariant forall x :: x in done ==> (x in kept <==> keep(records[x]))
      invariant Gathered(records, project, r, ids, kept)
      decreases |todo|
    {
      var id :| id in todo;
      if keep(records[id]) {
        GatherOne(records, project, r, ids, kept, id);
        r := r + [project(records[id])];
        ids := ids + [id];
        kept := kept + {id};
      }
      done := done + {id};
      todo := todo - {id};
    }
    forall i | 0 <= i < |r|
      ensures keep(records[ids[i]])
    {
      assert ids[i] in kept;
    }
    ListsKept(records, keep, project, r, ids);
  }
}
