/** Rows written one after another under a unique index, as `updateMany` writes them. */
module KeyedRows {
  import opened Options
  import opened OrgRows

  /** No two rows make the same claim; a row without one is outside the index. */
  ghost predicate KeysApart<R(!new), K(!new)>(rows: map<Id, R>, key: R -> Option<K>) {
    forall a, b :: a in rows && b in rows && a != b && key(rows[a]).Some? ==> key(rows[a]) != key(rows[b])
  }

  /** Each row is as it was or as it shall be. */
  ghost predicate Between<R(!new)>(before: map<Id, R>, now: map<Id, R>, after: map<Id, R>) {
    now.Keys == before.Keys == after.Keys && forall id :: id in now ==> now[id] == before[id] || now[id] == after[id]
  }

  /** A row that stands where another is to be written is to be written there too. */
  ghost predicate Absorbs<R(!new), K(!new)>(rows: map<Id, R>, target: map<Id, R>, key: R -> Option<K>)
    requires rows.Keys == target.Keys
  {
    forall a, b ::
      a in rows && b in rows && rows[a] != target[a] && key(target[a]).Some? && key(rows[b]) == key(target[a]) ==>
      key(target[b]) == key(target[a])
  }

  /** Another row already makes the claim. */
  predicate Taken<R(!new), K(==,!new)>(rows: map<Id, R>, id: Id, claim: Option<K>, key: R -> Option<K>) {
    claim.Some? && exists other :: other in rows && other != id && key(rows[other]) == claim
  }

  lemma {:induction false} WriteKeepsApart<R(!new), K(!new)>(rows: map<Id, R>, id: Id, row: R, key: R -> Option<K>)
    requires KeysApart(rows, key) && id in rows && !Taken(rows, id, key(row), key)
    ensures KeysApart(rows[id := row], key)
  {
  }

  /** The rows in `todo` are still as they were, the others as they shall be. */
  ghost predicate Halfway<R(!new)>(rows: map<Id, R>, out: map<Id, R>, target: map<Id, R>, todo: set<Id>) {
    && out.Keys == rows.Keys == target.Keys
    && (forall id :: id in todo ==> id in rows && rows[id] != target[id])
    && forall id :: id in rows ==> out[id] == if id in todo then rows[id] else target[id]
  }

  lemma {:induction false} TakenStays<R(!new), K(!new)>(
    rows: map<Id, R>, out: map<Id, R>, target: map<Id, R>, todo: set<Id>, id: Id, key: R -> Option<K>)
    requires Halfway(rows, out, target, todo) && Absorbs(rows, target, key)
    requires id in todo && Taken(out, id, key(target[id]), key)
    ensures !KeysApart(target, key)
  {
    var other :| other in out && other != id && key(out[other]) == key(target[id]);
    assert key(target[other]) == key(target[id]);
  }

  /**
   * Replaces the rows one by one, in any order, and stops at the first that would duplicate a claim.
   * It gets to the end exactly when the rows it is to leave have no duplicate; on the way the index
   * always holds.
   */
  method WriteRows<R(==,!new), K(==,!new)>(rows: map<Id, R>, target: map<Id, R>, key: R -> Option<K>)
    returns (ok: bool, out: map<Id, R>)
    requires rows.Keys == target.Keys && KeysApart(rows, key) && Absorbs(rows, target, key)
    ensures ok <==> KeysApart(target, key)
    ensures ok ==> out == target
    ensures KeysApart(out, key) && Between(rows, out, target)
  {
    hide KeysApart, Absorbs, Taken;
    out := rows;
    var todo := set id | id in rows && rows[id] != target[id];
    while todo != {}
      invariant Halfway(rows, out, target, todo) && KeysApart(out, key)
      decreases |todo|
    {
      assert exists id: Id :: id in todo;
      var id: Id :| id in todo;
      if Taken(out, id, key(target[id]), key) {
        TakenStays(rows, out, target, todo, id, key);
        return false, out;
      }
      WriteKeepsApart(out, id, target[id], key);
      out := out[id := target[id]];
      todo := todo - {id};
    }
    assert out == target;
    ok := true;
  }
}
