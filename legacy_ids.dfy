/**
 * Legacy ID mapping (episodes 5 and 6): a table keyed by old_id whose items
 * hold the new_id generated for it. Map(old) stores {old, generated} only if no
 * mapping for old exists, and otherwise answers the stored new_id, so that
 * every old ID is given one new ID however often it is mapped.
 *
 * Episode 5 does this with a conditional PutItem and, when the condition
 * fails, a GetItem; episode 6 with a one-item transaction whose cancellation
 * reason carries the stored mapping (ALL_OLD). The generated UUID is the
 * parameter `generated`.
 */
module LegacyIds {
  import opened Optional
  import opened Dynamo

  datatype Mapping = Mapping(oldId: string, newId: string)

  /** The mapping table: items by their hash key old_id. */
  type Rows = map<string, Mapping>

  const ConditionalCheckFailedException := "ConditionalCheckFailedException"
  const NilDereference := "invalid memory address or nil pointer dereference"

  /** Every item is stored under its own old_id. */
  predicate WellKeyed(rows: Rows)
  {
    forall k :: k in rows ==> rows[k].oldId == k
  }

  /** No two old IDs share a new ID. */
  predicate Injective(rows: Rows)
  {
    forall a, b :: a in rows && b in rows && a != b ==> rows[a].newId != rows[b].newId
  }

  predicate Unused(rows: Rows, generated: string)
  {
    forall k :: k in rows ==> rows[k].newId != generated
  }

  /**
   * What mapping `oldId` means: the stored new ID when there is one (the table
   * unchanged), otherwise `generated`, stored for it.
   */
  function Claim(rows: Rows, oldId: string, generated: string): (r: (Rows, string))
    ensures oldId in r.0 && r.0[oldId].newId == r.1
    ensures r.0.Keys == rows.Keys + {oldId}
    ensures forall k :: k in rows ==> r.0[k] == rows[k]
    ensures oldId !in rows ==> r.1 == generated
  {
    if oldId in rows then (rows, rows[oldId].newId)
    else (rows[oldId := Mapping(oldId, generated)], generated)
  }

  /** Mapping again answers the same new ID and changes nothing, whatever ID
      the second call generated. */
  lemma ClaimIdempotent(rows: Rows, oldId: string, generated: string, generated': string)
    ensures var (rows', id) := Claim(rows, oldId, generated);
            Claim(rows', oldId, generated') == (rows', id)
  {
  }

  /** Claiming keeps the table well keyed. */
  lemma ClaimKeepsWellKeyed(rows: Rows, oldId: string, generated: string)
    requires WellKeyed(rows)
    ensures WellKeyed(Claim(rows, oldId, generated).0)
  {
  }

  /** With freshly generated IDs that no mapping uses, distinct old IDs keep
      distinct new IDs. */
  lemma ClaimKeepsInjective(rows: Rows, oldId: string, generated: string)
    requires Injective(rows) && Unused(rows, generated)
    ensures Injective(Claim(rows, oldId, generated).0)
  {
    var rows' := Claim(rows, oldId, generated).0;
    forall a, b | a in rows' && b in rows' && a != b ensures rows'[a].newId != rows'[b].newId {
      if oldId !in rows && (a == oldId || b == oldId) {
        assert rows'[oldId].newId == generated;
      }
    }
  }

  /** Every new ID is non-empty and differs from the old ID it maps. */
  predicate Distinguished(rows: Rows)
  {
    forall k :: k in rows ==> rows[k].newId != "" && rows[k].newId != rows[k].oldId
  }

  /** With a non-empty generated ID that differs from the old ID, claiming keeps
      every new ID non-empty and distinct from its old ID. */
  lemma ClaimKeepsDistinguished(rows: Rows, oldId: string, generated: string)
    requires Distinguished(rows) && generated != "" && generated != oldId
    ensures Distinguished(Claim(rows, oldId, generated).0)
  {
  }

  /** The put of `{oldId, generated}` guarded by attribute_not_exists(old_id). */
  function PutIfAbsent(oldId: string, generated: string, returnOld: bool): WriteOp<string, Mapping>
  {
    WriteOp(oldId, Put(Mapping(oldId, generated)), Absent(), returnOld)
  }

  /** An error the SDK returns as an awserr.Error, with its code. */
  function AwsCode(e: Error): Option<string>
  {
    match e
    case ConditionalCheckFailed => Some(ConditionalCheckFailedException)
    case Service(code) => Some(code)
    case TransactionCanceled(_) => Some("TransactionCanceledException")
    case Transport(_) => None
    case Message(_) => None
  }

  /** Episode 5: conditional PutItem, then GetItem when the condition failed. */
  class MapperV5 {
    const table: string
    var rows: Rows

    ghost predicate Valid()
      reads this
    {
      WellKeyed(rows)
    }

    constructor(table: string, rows: Rows)
      requires WellKeyed(rows)
      ensures Valid() && this.table == table && this.rows == rows
    {
      this.table := table;
      this.rows := rows;
    }

    /**
     * Map(oldId) with the generated ID `generated`; `putFault` and `getFault` are
     * injected into the PutItem and the GetItem call.
     */
    method Map(oldId: string, generated: string, putFault: Option<Fault>, getFault: Option<Fault>) returns (r: Call<string>)
      requires Valid()
      modifies this
      ensures Valid()
      ensures putFault.None? && (getFault.None? || oldId !in old(rows)) ==>
        r == Return(Claim(old(rows), oldId, generated).1, None) && rows == Claim(old(rows), oldId, generated).0
      ensures putFault.Some? ==> rows == old(rows)
      ensures putFault.None? && oldId in old(rows) && getFault.Some? ==>
        r == Return("", Some(ErrorOf(getFault.value))) && rows == old(rows)
      ensures putFault.Some? && AwsCode(ErrorOf(putFault.value)).Some?
              && AwsCode(ErrorOf(putFault.value)) != Some(ConditionalCheckFailedException) ==>
        r == Return("", Some(ErrorOf(putFault.value)))
      ensures putFault.Some? && AwsCode(ErrorOf(putFault.value)) in {None, Some(ConditionalCheckFailedException)} ==>
        r == (if getFault.Some? then Return("", Some(ErrorOf(getFault.value)))
              else if oldId in rows then Return(rows[oldId].newId, None)
              else Panic(NilDereference))
    {
      var put := WriteItem(rows, PutIfAbsent(oldId, generated, false), putFault);
      if put.Wrote? {
        rows := put.after;
        return Return(generated, None);
      }
      var code := AwsCode(put.error);
      if code.Some? && code.value != ConditionalCheckFailedException {
        return Return("", Some(put.error));
      }
      var got := GetItem(rows, oldId, getFault);
      if got.Err? {
        return Return("", Some(got.error));
      }
      if got.value.None? {
        // out.Item["new_id"] is nil: reading .S dereferences it
        return Panic(NilDereference);
      }
      return Return(got.value.value.newId, None);
    }
  }

  /** Episode 6: a one-item transaction reporting the stored mapping on cancellation. */
  class MapperV6 {
    const table: string
    var rows: Rows

    ghost predicate Valid()
      reads this
    {
      WellKeyed(rows)
    }

    constructor(table: string, rows: Rows)
      requires WellKeyed(rows)
      ensures Valid() && this.table == table && this.rows == rows
    {
      this.table := table;
      this.rows := rows;
    }

    /** Map(oldId) with the generated ID `generated` and the fault injected into the transaction. */
    method Map(oldId: string, generated: string, fault: Option<Fault>) returns (id: string, err: Option<Error>)
      requires Valid()
      modifies this
      ensures Valid()
      ensures fault.None? ==> err.None? && (rows, id) == Claim(old(rows), oldId, generated)
      ensures fault == Some(ConflictFault) ==>
        id == "" && err == Some(TransactionCanceled([TransactionConflict])) && rows == old(rows)
      ensures fault.Some? && fault != Some(ConflictFault) ==>
        id == "" && err == Some(ErrorOf(fault.value)) && rows == old(rows)
    {
      var ops := [PutIfAbsent(oldId, generated, true)];
      assert ApplyAll(rows, ops) == ApplyAll(Apply(rows, ops[0]), []);
      var tx := TransactWriteItems(rows, ops, fault);
      if tx.Committed? {
        rows := tx.after;
        return generated, None;
      }
      if tx.Failed? {
        return "", Some(tx.error);
      }
      if tx.reasons[0].item.Some? {
        // ALL_OLD is not empty: the mapping exists
        return tx.reasons[0].item.value.newId, None;
      }
      assert CodesOf(tx.reasons) == [TransactionConflict];
      return "", Some(CanceledError(tx.reasons));
    }
  }
}
