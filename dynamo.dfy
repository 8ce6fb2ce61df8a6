/**
 * The key-value backend every component writes through, modelled as pure
 * functions over the table's contents: a map from primary key to item.
 *
 * A transactional write (TransactWriteItems) is one all-or-nothing step over
 * that map: it commits every operation or none and then reports, per
 * operation, a cancellation reason that carries the pre-existing item when the
 * operation asked for ALL_OLD. Single-item conditional writes (PutItem,
 * UpdateItem), GetItem and Query complete the interface. Conditions are
 * predicates over the stored item (None when the key is absent), and an update
 * is a function from the stored item to the new one.
 *
 * Failures of the service or the network are not decided here: every call
 * takes the `fault` the environment injects into it (None for a healthy call).
 */
module Dynamo {
  import opened Optional
  import Text

  /** Primary key of a table with a partition key and a sort key. */
  datatype Key = Key(pk: string, sk: string)

  /**
   * A failure the service or the network injects into one call. A conflict
   * with another transaction on the same items cancels a transaction (it
   * fails a single-item call with TransactionConflictException).
   */
  datatype Fault = ServiceFault(code: string) | TransportFault(message: string) | ConflictFault

  /** Per-operation code of a cancelled transaction: "None",
      "ConditionalCheckFailed" or "TransactionConflict". */
  datatype ReasonCode = Passed | ConditionFailed | TransactionConflict

  const TransactionConflictException := "TransactionConflictException"

  /** The error values repository code sees and returns. */
  datatype Error =
    | ConditionalCheckFailed                  // a single-item write whose condition failed
    | TransactionCanceled(codes: seq<ReasonCode>)
    | Service(code: string)                   // any other error the service answers with (an awserr.Error)
    | Transport(message: string)              // no answer from the service (not an awserr.Error)
    | Message(text: string)                   // an error built by the repository's own code

  function ErrorOf(f: Fault): (e: Error)
    ensures e.Service? || e.Transport?
  {
    match f
    case ServiceFault(code) => Service(code)
    case TransportFault(message) => Transport(message)
    case ConflictFault => Service(TransactionConflictException)
  }

  datatype Result<+T> = Ok(value: T) | Err(error: Error)

  /** What a Go function with results (T, error) ends with: a return, or a panic. */
  datatype Call<+T> = Return(value: T, err: Option<Error>) | Panic(message: string)

  const ValidationException := "ValidationException"
  const MaxTransactionItems: nat := 100

  function Lookup<K, V>(rows: map<K, V>, k: K): (r: Option<V>)
    ensures r.Some? <==> k in rows
    ensures r.Some? ==> r.value == rows[k]
  {
    if k in rows then Some(rows[k]) else None
  }

  /** A string attribute as the unmarshaller reads it: "" when the item lacks it. */
  function Attr(item: map<string, string>, name: string): (v: string)
    ensures name in item ==> v == item[name]
    ensures name !in item ==> v == ""
  {
    if name in item then item[name] else ""
  }

  // ---------------------------------------------------------------- writes

  datatype Action<!V> = Put(item: V) | Update(change: Option<V> -> V)

  /** One write: its key, what it writes, its condition, and whether a failed
      condition reports the stored item (ReturnValuesOnConditionCheckFailure: ALL_OLD). */
  datatype WriteOp<K, !V> = WriteOp(key: K, action: Action<V>, condition: Option<V> -> bool, returnOld: bool)

  /** The condition every unconditional write carries. */
  function Always<V>(): Option<V> -> bool
  {
    _ => true
  }

  /** attribute_not_exists on the key attribute: the item is not stored. */
  function Absent<V>(): Option<V> -> bool
  {
    (o: Option<V>) => o.None?
  }

  predicate Passes<K, V>(rows: map<K, V>, op: WriteOp<K, V>)
  {
    op.condition(Lookup(rows, op.key))
  }

  /** The item `op` leaves under its key. */
  function Written<K, V>(rows: map<K, V>, op: WriteOp<K, V>): V
  {
    match op.action
    case Put(item) => item
    case Update(change) => change(Lookup(rows, op.key))
  }

  function Apply<K, V>(rows: map<K, V>, op: WriteOp<K, V>): map<K, V>
  {
    rows[op.key := Written(rows, op)]
  }

  function ApplyAll<K, V>(rows: map<K, V>, ops: seq<WriteOp<K, V>>): map<K, V>
    decreases |ops|
  {
    if ops == [] then rows else ApplyAll(Apply(rows, ops[0]), ops[1..])
  }

  function KeysOf<K, V>(ops: seq<WriteOp<K, V>>): set<K>
  {
    set i | 0 <= i < |ops| :: ops[i].key
  }

  predicate DistinctKeys<K(==), V>(ops: seq<WriteOp<K, V>>)
  {
    forall i, j :: 0 <= i < j < |ops| ==> ops[i].key != ops[j].key
  }

  /** What the service accepts as a transaction: 1 to 100 operations on distinct items. */
  predicate WellFormed<K(==), V>(ops: seq<WriteOp<K, V>>)
  {
    0 < |ops| <= MaxTransactionItems && DistinctKeys(ops)
  }

  predicate AllPass<K, V>(rows: map<K, V>, ops: seq<WriteOp<K, V>>)
  {
    forall i :: 0 <= i < |ops| ==> Passes(rows, ops[i])
  }

  datatype Reason<V> = Reason(code: ReasonCode, item: Option<V>)

  function ReasonFor<K, V>(rows: map<K, V>, op: WriteOp<K, V>): Reason<V>
  {
    if Passes(rows, op) then Reason(Passed, None)
    else Reason(ConditionFailed, if op.returnOld then Lookup(rows, op.key) else None)
  }

  datatype TxResult<K, V> =
    | Committed(after: map<K, V>)
    | Canceled(reasons: seq<Reason<V>>)
    | Failed(error: Error)

  function CodesOf<V>(reasons: seq<Reason<V>>): seq<ReasonCode>
  {
    seq(|reasons|, i requires 0 <= i < |reasons| => reasons[i].code)
  }

  /** The error value a cancelled transaction surfaces as. */
  function CanceledError<V>(reasons: seq<Reason<V>>): Error
  {
    TransactionCanceled(CodesOf(reasons))
  }

  /** The reason every operation of a transaction cancelled by a conflict carries. */
  function ConflictReason<V>(): Reason<V>
  {
    Reason(TransactionConflict, None)
  }

  /**
   * TransactWriteItems: every operation takes effect, or none does. A
   * cancellation reports a reason per operation: the outcome of its condition,
   * or a conflict for every operation.
   */
  function TransactWriteItems<K(==), V>(rows: map<K, V>, ops: seq<WriteOp<K, V>>, fault: Option<Fault>): (r: TxResult<K, V>)
    ensures r.Committed? <==> fault.None? && WellFormed(ops) && AllPass(rows, ops)
    ensures r.Canceled? <==>
      WellFormed(ops) && ((fault.None? && !AllPass(rows, ops)) || fault == Some(ConflictFault))
    ensures r.Committed? ==> r.after == ApplyAll(rows, ops)
    ensures r.Canceled? ==>
      && |r.reasons| == |ops|
      && forall i :: 0 <= i < |ops| ==>
           r.reasons[i] == if fault.None? then ReasonFor(rows, ops[i]) else ConflictReason()
    ensures r.Failed? ==>
      r.error == if fault.Some? && fault != Some(ConflictFault) then ErrorOf(fault.value) else Service(ValidationException)
  {
    if fault.Some? && fault != Some(ConflictFault) then Failed(ErrorOf(fault.value))
    else if !WellFormed(ops) then Failed(Service(ValidationException))
    else if fault.Some? then Canceled(seq(|ops|, i requires 0 <= i < |ops| => ConflictReason()))
    else if AllPass(rows, ops) then Committed(ApplyAll(rows, ops))
    else Canceled(seq(|ops|, i requires 0 <= i < |ops| => ReasonFor(rows, ops[i])))
  }

  /** A committed transaction writes each operation's item under its key and
      leaves every other key as it was. */
  lemma {:induction false} ApplyAllEffect<K, V>(rows: map<K, V>, ops: seq<WriteOp<K, V>>)
    requires DistinctKeys(ops)
    ensures ApplyAll(rows, ops).Keys == rows.Keys + KeysOf(ops)
    ensures forall i :: 0 <= i < |ops| ==> ApplyAll(rows, ops)[ops[i].key] == Written(rows, ops[i])
    ensures forall k :: k in rows && k !in KeysOf(ops) ==> ApplyAll(rows, ops)[k] == rows[k]
    decreases |ops|
  {
    if ops != [] {
      var rows' := Apply(rows, ops[0]);
      var rest := ops[1..];
      assert DistinctKeys(rest) by {
        forall i, j | 0 <= i < j < |rest| ensures rest[i].key != rest[j].key {
          assert rest[i] == ops[i + 1] && rest[j] == ops[j + 1];
        }
      }
      ApplyAllEffect(rows', rest);
      assert KeysOf(ops) == {ops[0].key} + KeysOf(rest) by {
        forall k | k in KeysOf(ops) ensures k in {ops[0].key} + KeysOf(rest) {
          var i :| 0 <= i < |ops| && ops[i].key == k;
          if i > 0 { assert rest[i - 1].key == k; }
        }
        forall k | k in KeysOf(rest) ensures k in KeysOf(ops) {
          var i :| 0 <= i < |rest| && rest[i].key == k;
          assert ops[i + 1].key == k;
        }
      }
      forall i | 0 <= i < |ops|
        ensures ApplyAll(rows, ops)[ops[i].key] == Written(rows, ops[i])
      {
        if i == 0 {
          assert ops[0].key !in KeysOf(rest) by {
            forall j | 0 <= j < |rest| ensures rest[j].key != ops[0].key {
              assert rest[j] == ops[j + 1];
            }
          }
        } else {
          assert rest[i - 1] == ops[i];
          assert ops[i].key != ops[0].key;
          assert Lookup(rows', ops[i].key) == Lookup(rows, ops[i].key);
        }
      }
    }
  }

  /** A two-operation transaction writes the first item, then the second. */
  lemma ApplyTwo<K, V>(rows: map<K, V>, a: WriteOp<K, V>, b: WriteOp<K, V>)
    ensures ApplyAll(rows, [a, b]) == Apply(Apply(rows, a), b)
  {
    assert [a, b][1..] == [b];
    assert [b][1..] == [];
    var once := Apply(rows, a);
    assert ApplyAll(rows, [a, b]) == ApplyAll(once, [b]);
    assert ApplyAll(once, [b]) == ApplyAll(Apply(once, b), []);
  }

  datatype WriteResult<K, V> = Wrote(after: map<K, V>, item: V) | WriteFailed(error: Error)

  /** PutItem / UpdateItem with a condition expression: the new item (as
      ReturnValues ALL_NEW reports it) or ConditionalCheckFailed. */
  function WriteItem<K, V>(rows: map<K, V>, op: WriteOp<K, V>, fault: Option<Fault>): (r: WriteResult<K, V>)
    ensures r.Wrote? <==> fault.None? && Passes(rows, op)
    ensures r.Wrote? ==> r.after == rows[op.key := r.item] && r.item == Written(rows, op)
    ensures r.WriteFailed? ==> r.error == if fault.Some? then ErrorOf(fault.value) else ConditionalCheckFailed
  {
    if fault.Some? then WriteFailed(ErrorOf(fault.value))
    else if Passes(rows, op) then Wrote(Apply(rows, op), Written(rows, op))
    else WriteFailed(ConditionalCheckFailed)
  }

  /** GetItem: the stored item, if any. */
  function GetItem<K, V>(rows: map<K, V>, k: K, fault: Option<Fault>): (r: Result<Option<V>>)
    ensures fault.None? <==> r.Ok?
    ensures r.Ok? ==> r.value == Lookup(rows, k)
    ensures r.Err? ==> r.error == ErrorOf(fault.value)
  {
    if fault.Some? then Err(ErrorOf(fault.value)) else Ok(Lookup(rows, k))
  }

  // ---------------------------------------------------------------- query

  /** The sort-key half of a key condition expression. */
  datatype SortKeyCondition = AnySortKey | AtMost(bound: string) | BeginsWith(prefix: string)

  predicate SortKeyMatches(sk: string, c: SortKeyCondition)
  {
    match c
    case AnySortKey => true
    case AtMost(bound) => sk == bound || Text.Less(sk, bound)
    case BeginsWith(prefix) => Text.IsPrefix(prefix, sk)
  }

  predicate Matches(k: Key, pk: string, c: SortKeyCondition)
  {
    k.pk == pk && SortKeyMatches(k.sk, c)
  }

  /** `a` is returned before `b`: ascending sort keys when scanning forward. */
  predicate Precedes(a: string, b: string, forward: bool)
  {
    if forward then Text.Less(a, b) else Text.Less(b, a)
  }

  function KeysListed<V>(items: seq<(Key, V)>): set<Key>
  {
    set i | 0 <= i < |items| :: items[i].0
  }

  /**
   * `items` is a correct answer to the query: stored items of the partition
   * that meet the sort-key condition, in strictly increasing (forward) or
   * decreasing sort-key order, at most `limit` of them, and every matching
   * item left out sorts after all returned ones, which only a full page allows.
   */
  ghost predicate QueryAnswer<V>(rows: map<Key, V>, pk: string, c: SortKeyCondition, forward: bool,
                                  limit: Option<nat>, items: seq<(Key, V)>)
  {
    && Listing(rows, pk, c, forward, items)
    && (limit.Some? ==> |items| <= limit.value)
    && (forall k :: k in rows && Matches(k, pk, c) && k !in KeysListed(items) ==>
          && limit.Some? && |items| == limit.value
          && forall i :: 0 <= i < |items| ==> Precedes(items[i].0.sk, k.sk, forward))
  }

  /** The first three clauses of QueryAnswer: what a partial answer already satisfies. */
  ghost predicate Listing<V>(rows: map<Key, V>, pk: string, c: SortKeyCondition, forward: bool, items: seq<(Key, V)>)
  {
    && (forall i :: 0 <= i < |items| ==>
          items[i].0 in rows && Matches(items[i].0, pk, c) && items[i].1 == rows[items[i].0])
    && (forall i, j :: 0 <= i < j < |items| ==> Precedes(items[i].0.sk, items[j].0.sk, forward))
  }

  lemma KeysListedSnoc<V>(items: seq<(Key, V)>, item: (Key, V))
    ensures KeysListed(items + [item]) == KeysListed(items) + {item.0}
  {
    var items' := items + [item];
    forall x | x in KeysListed(items') ensures x in KeysListed(items) + {item.0} {
      var i :| 0 <= i < |items'| && items'[i].0 == x;
      if i < |items| { assert items[i].0 == x; }
    }
    forall x | x in KeysListed(items) ensures x in KeysListed(items') {
      var i :| 0 <= i < |items| && items[i].0 == x;
      assert items'[i].0 == x;
    }
    assert items'[|items|].0 == item.0;
  }

  lemma ListingSnoc<V>(rows: map<Key, V>, pk: string, c: SortKeyCondition, forward: bool, items: seq<(Key, V)>, k: Key)
    requires Listing(rows, pk, c, forward, items)
    requires k in rows && Matches(k, pk, c)
    requires forall i :: 0 <= i < |items| ==> Precedes(items[i].0.sk, k.sk, forward)
    ensures Listing(rows, pk, c, forward, items + [(k, rows[k])])
  {
    var items' := items + [(k, rows[k])];
    forall i, j | 0 <= i < j < |items'| ensures Precedes(items'[i].0.sk, items'[j].0.sk, forward) {
      assert items'[i] == items[i];
    }
  }

  /** Loop invariant of Query: `items` lists, in order, the matching keys no
      longer pending, and each of them precedes every pending key. */
  ghost predicate Scanned<V>(rows: map<Key, V>, pk: string, c: SortKeyCondition, forward: bool,
                             matching: set<Key>, pending: set<Key>, items: seq<(Key, V)>)
  {
    && matching == (set k | k in rows && Matches(k, pk, c))
    && pending == matching - KeysListed(items)
    && Listing(rows, pk, c, forward, items)
    && (forall i, k :: 0 <= i < |items| && k in pending ==> Precedes(items[i].0.sk, k.sk, forward))
  }

  /** The pending key that comes first in the scan direction. */
  method First(pending: set<Key>, pk: string, forward: bool) returns (k: Key)
    requires pending != {} && forall j :: j in pending ==> j.pk == pk
    ensures k in pending && forall j :: j in pending && j != k ==> Precedes(k.sk, j.sk, forward)
  {
    FirstExists(pending, pk, forward);
    k :| k in pending && forall j :: j in pending && j != k ==> Precedes(k.sk, j.sk, forward);
  }

  lemma ScanStep<V>(rows: map<Key, V>, pk: string, c: SortKeyCondition, forward: bool,
                    matching: set<Key>, pending: set<Key>, items: seq<(Key, V)>, k: Key)
    requires Scanned(rows, pk, c, forward, matching, pending, items)
    requires k in pending && forall j :: j in pending && j != k ==> Precedes(k.sk, j.sk, forward)
    ensures k in rows
    ensures Scanned(rows, pk, c, forward, matching, pending - {k}, items + [(k, rows[k])])
    ensures |pending - {k}| < |pending|
  {
    KeysListedSnoc(items, (k, rows[k]));
    ListingSnoc(rows, pk, c, forward, items, k);
    PickKeepsOrder(items, pending, k, rows[k], forward);
  }

  lemma PickKeepsOrder<V>(items: seq<(Key, V)>, pending: set<Key>, k: Key, v: V, forward: bool)
    requires forall i, j :: 0 <= i < |items| && j in pending ==> Precedes(items[i].0.sk, j.sk, forward)
    requires k in pending && forall j :: j in pending && j != k ==> Precedes(k.sk, j.sk, forward)
    ensures forall i, j :: 0 <= i < |items| + 1 && j in pending - {k} ==>
      Precedes((items + [(k, v)])[i].0.sk, j.sk, forward)
  {
    forall i, j | 0 <= i < |items| + 1 && j in pending - {k}
      ensures Precedes((items + [(k, v)])[i].0.sk, j.sk, forward)
    {
      if i < |items| { assert (items + [(k, v)])[i] == items[i]; }
    }
  }

  lemma FinishQuery<V>(rows: map<Key, V>, pk: string, c: SortKeyCondition, forward: bool, limit: Option<nat>,
                       matching: set<Key>, pending: set<Key>, items: seq<(Key, V)>)
    requires Scanned(rows, pk, c, forward, matching, pending, items)
    requires limit.Some? ==> |items| <= limit.value
    requires pending == {} || (limit.Some? && |items| == limit.value)
    ensures QueryAnswer(rows, pk, c, forward, limit, items)
  {
    forall k | k in rows && Matches(k, pk, c) && k !in KeysListed(items)
      ensures limit.Some? && |items| == limit.value
      ensures forall i :: 0 <= i < |items| ==> Precedes(items[i].0.sk, k.sk, forward)
    {
      assert k in pending;
    }
  }

  /** Among keys of one partition some key precedes all others. */
  lemma {:induction false} FirstExists(s: set<Key>, pk: string, forward: bool)
    requires s != {} && forall k :: k in s ==> k.pk == pk
    ensures exists m :: m in s && forall j :: j in s && j != m ==> Precedes(m.sk, j.sk, forward)
  {
    var x :| x in s;
    if s != {x} {
      var rest := s - {x};
      FirstExists(rest, pk, forward);
      var m :| m in rest && forall j :: j in rest && j != m ==> Precedes(m.sk, j.sk, forward);
      Text.LessTotal(m.sk, x.sk);
      if Precedes(m.sk, x.sk, forward) {
        assert forall j :: j in s && j != m ==> Precedes(m.sk, j.sk, forward);
      } else {
        forall j | j in s && j != x ensures Precedes(x.sk, j.sk, forward) {
          if j != m {
            if forward { Text.LessTransitive(x.sk, m.sk, j.sk); }
            else { Text.LessTransitive(j.sk, m.sk, x.sk); }
          }
        }
      }
    }
  }

  /**
   * Query on a table with a composite key: the partition `pk`, the sort-key
   * condition `c`, ScanIndexForward `forward` and an optional Limit. A Limit
   * below 1 is refused by the service.
   */
  method Query<V>(rows: map<Key, V>, pk: string, c: SortKeyCondition, forward: bool,
                  limit: Option<int>, fault: Option<Fault>) returns (r: Result<seq<(Key, V)>>)
    ensures fault.Some? ==> r == Err(ErrorOf(fault.value))
    ensures fault.None? && limit.Some? && limit.value < 1 ==> r == Err(Service(ValidationException))
    ensures fault.None? && (limit.None? || limit.value >= 1) ==>
      r.Ok? && QueryAnswer(rows, pk, c, forward, if limit.Some? then Some(limit.value as nat) else None, r.value)
  {
    if fault.Some? {
      return Err(ErrorOf(fault.value));
    }
    if limit.Some? && limit.value < 1 {
      return Err(Service(ValidationException));
    }
    var matching := set k | k in rows && Matches(k, pk, c);
    var pending := matching;
    var items: seq<(Key, V)> := [];
    while pending != {} && (limit.None? || |items| < limit.value)
      invariant Scanned(rows, pk, c, forward, matching, pending, items)
      invariant limit.Some? ==> |items| <= limit.value
      decreases |pending|
    {
      var k := First(pending, pk, forward);
      ScanStep(rows, pk, c, forward, matching, pending, items, k);
      items := items + [(k, rows[k])];
      pending := pending - {k};
    }
    FinishQuery(rows, pk, c, forward, if limit.Some? then Some(limit.value as nat) else None, matching, pending, items);
    r := Ok(items);
  }
}
