/**
 * Expression parameters of a request and how the service reads them.
 *
 * A request names attributes and values only through placeholders: `#x`
 * aliases in ExpressionAttributeNames and `:x` aliases in
 * ExpressionAttributeValues. The service first resolves every alias (and
 * refuses a request that uses an undefined alias or defines one it does not
 * use), then evaluates the resolved key condition, condition and update
 * against the stored item. Only string attributes occur.
 */
module Expressions {
  import opened Optional
  import opened Dynamo

  /** An item's attributes: name to string value. */
  type Attrs = map<string, string>
  type Rows = map<Key, Attrs>

  const PartitionKey := "pk"
  const SortKey := "sk"

  // ------------------------------------------------- as the request states it

  /** `#name = :value`, or attribute_not_exists(#name). */
  datatype Condition = Equal(name: string, value: string) | AttributeNotExists(name: string)

  /** `REMOVE #r1, … SET #s1 = :v1, …`: name aliases to remove, (name, value) aliases to set. */
  datatype UpdateExpression = UpdateExpression(remove: seq<string>, assign: seq<(string, string)>)

  datatype Expression = Expression(
    keyCondition: Option<Condition>,
    condition: Option<Condition>,
    update: Option<UpdateExpression>,
    names: map<string, string>,
    values: map<string, string>)

  // ------------------------------------------------------- as it is resolved

  datatype Test = Equals(attribute: string, value: string) | Missing(attribute: string)
  datatype Change = Change(remove: seq<string>, assign: seq<(string, string)>)
  datatype Resolved = Resolved(keyCondition: Option<Test>, condition: Option<Test>, change: Option<Change>)

  function ConditionNames(c: Option<Condition>): set<string>
  {
    if c.None? then {} else {c.value.name}
  }

  function ConditionValues(c: Option<Condition>): set<string>
  {
    if c.Some? && c.value.Equal? then {c.value.value} else {}
  }

  function UpdateNames(u: Option<UpdateExpression>): set<string>
  {
    if u.None? then {}
    else (set i | 0 <= i < |u.value.remove| :: u.value.remove[i]) + (set i | 0 <= i < |u.value.assign| :: u.value.assign[i].0)
  }

  function UpdateValues(u: Option<UpdateExpression>): set<string>
  {
    if u.None? then {} else set i | 0 <= i < |u.value.assign| :: u.value.assign[i].1
  }

  /** The name aliases the expressions of `e` use. */
  function NamesUsed(e: Expression): set<string>
  {
    ConditionNames(e.keyCondition) + ConditionNames(e.condition) + UpdateNames(e.update)
  }

  /** The value aliases the expressions of `e` use. */
  function ValuesUsed(e: Expression): set<string>
  {
    ConditionValues(e.keyCondition) + ConditionValues(e.condition) + UpdateValues(e.update)
  }

  /** Every alias used is defined and every alias defined is used. */
  predicate Aliased(e: Expression)
  {
    NamesUsed(e) == e.names.Keys && ValuesUsed(e) == e.values.Keys
  }

  function ResolveCondition(c: Condition, names: map<string, string>, values: map<string, string>): (t: Test)
    requires c.name in names && (c.Equal? ==> c.value in values)
    ensures t.attribute == names[c.name]
    ensures t.Equals? <==> c.Equal?
    ensures t.Equals? ==> t.value == values[c.value]
  {
    match c
    case Equal(n, v) => Equals(names[n], values[v])
    case AttributeNotExists(n) => Missing(names[n])
  }

  function ResolveUpdate(u: UpdateExpression, names: map<string, string>, values: map<string, string>): (c: Change)
    requires UpdateNames(Some(u)) <= names.Keys && UpdateValues(Some(u)) <= values.Keys
    ensures |c.remove| == |u.remove| && |c.assign| == |u.assign|
    ensures forall i :: 0 <= i < |u.remove| ==> c.remove[i] == names[u.remove[i]]
    ensures forall i :: 0 <= i < |u.assign| ==> c.assign[i] == (names[u.assign[i].0], values[u.assign[i].1])
  {
    Change(
      seq(|u.remove|, i requires 0 <= i < |u.remove| && UpdateNames(Some(u)) <= names.Keys =>
        assert u.remove[i] in UpdateNames(Some(u)); names[u.remove[i]]),
      seq(|u.assign|, i requires 0 <= i < |u.assign| && UpdateNames(Some(u)) <= names.Keys && UpdateValues(Some(u)) <= values.Keys =>
        assert u.assign[i].0 in UpdateNames(Some(u)) && u.assign[i].1 in UpdateValues(Some(u));
        (names[u.assign[i].0], values[u.assign[i].1])))
  }

  /** The attribute paths an update writes, removed ones first. */
  function Paths(c: Change): seq<string>
  {
    c.remove + seq(|c.assign|, i requires 0 <= i < |c.assign| => c.assign[i].0)
  }

  /** An update the service executes: no key attribute is changed and no two
      clauses touch the same attribute. */
  predicate Acceptable(c: Change)
  {
    && PartitionKey !in Paths(c) && SortKey !in Paths(c)
    && forall i, j :: 0 <= i < j < |Paths(c)| ==> Paths(c)[i] != Paths(c)[j]
  }

  /**
   * Resolves every alias of `e`. A ValidationException when an alias is
   * undefined or unused, or the update is not acceptable.
   */
  function Resolve(e: Expression): (r: Result<Resolved>)
    ensures r.Ok? <==> Aliased(e) && (e.update.Some? ==> Acceptable(ResolveUpdate(e.update.value, e.names, e.values)))
    ensures r.Err? ==> r.error == Service(ValidationException)
    ensures r.Ok? ==> (r.value.keyCondition.Some? <==> e.keyCondition.Some?)
    ensures r.Ok? ==> (r.value.condition.Some? <==> e.condition.Some?)
    ensures r.Ok? ==> (r.value.change.Some? <==> e.update.Some?)
  {
    if !Aliased(e) then Err(Service(ValidationException))
    else
      var change := if e.update.Some? then Some(ResolveUpdate(e.update.value, e.names, e.values)) else None;
      if change.Some? && !Acceptable(change.value) then Err(Service(ValidationException))
      else Ok(Resolved(
        if e.keyCondition.Some? then Some(ResolveCondition(e.keyCondition.value, e.names, e.values)) else None,
        if e.condition.Some? then Some(ResolveCondition(e.condition.value, e.names, e.values)) else None,
        change))
  }

  // -------------------------------------------------------------- evaluation

  /** The attributes a condition sees: none when no item is stored. */
  function Current(stored: Option<Attrs>): Attrs
  {
    if stored.Some? then stored.value else map[]
  }

  predicate Holds(t: Test, item: Attrs)
  {
    match t
    case Equals(n, v) => n in item && item[n] == v
    case Missing(n) => n !in item
  }

  predicate Permits(t: Option<Test>, item: Attrs)
  {
    t.None? || Holds(t.value, item)
  }

  function KeyAttrs(k: Key): (r: Attrs)
    ensures r.Keys == {PartitionKey, SortKey}
    ensures r[PartitionKey] == k.pk && r[SortKey] == k.sk
  {
    map[PartitionKey := k.pk, SortKey := k.sk]
  }

  /** The item an update starts from: the stored one, or only its key when none is stored. */
  function Base(k: Key, stored: Option<Attrs>): Attrs
  {
    if stored.Some? then stored.value else KeyAttrs(k)
  }

  /** The attributes an assignment list writes. */
  function Targets(assign: seq<(string, string)>): set<string>
  {
    set i | 0 <= i < |assign| :: assign[i].0
  }

  function Assigned(item: Attrs, assign: seq<(string, string)>): (r: Attrs)
    ensures r.Keys == item.Keys + Targets(assign)
    decreases |assign|
  {
    if assign == [] then item
    else
      var r := Assigned(item[assign[0].0 := assign[0].1], assign[1..]);
      assert Targets(assign) == {assign[0].0} + Targets(assign[1..]) by {
        forall x | x in Targets(assign) ensures x in {assign[0].0} + Targets(assign[1..]) {
          var i :| 0 <= i < |assign| && assign[i].0 == x;
          if i > 0 {
            assert assign[1..][i - 1].0 == x;
          }
        }
      }
      r
  }

  /** The item after `c`: removed attributes dropped, then the assignments made. */
  function Changed(c: Change, item: Attrs): (r: Attrs)
    ensures r.Keys == (item.Keys - (set i | 0 <= i < |c.remove| :: c.remove[i])) + Targets(c.assign)
  {
    Assigned(item - (set i | 0 <= i < |c.remove| :: c.remove[i]), c.assign)
  }

  // ----------------------------------------------------- the calls themselves

  /** The partition a Query's key condition selects: `pk = :v`, with no other expression. */
  function PartitionOf(e: Expression): (r: Option<string>)
    ensures r.Some? ==> Resolve(e) == Ok(Resolved(Some(Equals(PartitionKey, r.value)), None, None))
  {
    var res := Resolve(e);
    if res.Ok? && res.value.keyCondition.Some? && res.value.keyCondition.value.Equals?
       && res.value.keyCondition.value.attribute == PartitionKey
       && res.value.condition.None? && res.value.change.None?
    then Some(res.value.keyCondition.value.value)
    else None
  }

  /** Query with a key condition expression on the partition key, in ascending sort-key order. */
  method QueryItems(rows: Rows, e: Expression, fault: Option<Fault>) returns (r: Result<seq<(Key, Attrs)>>)
    ensures fault.Some? ==> r == Err(ErrorOf(fault.value))
    ensures fault.None? && PartitionOf(e).None? ==> r == Err(Service(ValidationException))
    ensures fault.None? && PartitionOf(e).Some? ==>
      r.Ok? && QueryAnswer(rows, PartitionOf(e).value, AnySortKey, true, None, r.value)
  {
    if fault.Some? {
      return Err(ErrorOf(fault.value));
    }
    var pk := PartitionOf(e);
    if pk.None? {
      return Err(Service(ValidationException));
    }
    r := Query(rows, pk.value, AnySortKey, true, None, None);
  }

  /** The condition and change an UpdateItem request carries, once resolved. */
  function UpdateOf(e: Expression): (r: Option<(Option<Test>, Change)>)
    ensures r.Some? ==> Resolve(e) == Ok(Resolved(None, r.value.0, Some(r.value.1)))
  {
    var res := Resolve(e);
    if res.Ok? && res.value.keyCondition.None? && res.value.change.Some?
    then Some((res.value.condition, res.value.change.value))
    else None
  }

  /**
   * UpdateItem of the item under `k` with ReturnValues ALL_NEW: when the
   * condition holds of the stored item, the change is applied to it (or to a
   * new item holding only the key) and the new item is reported.
   */
  function UpdateItem(rows: Rows, k: Key, e: Expression, fault: Option<Fault>): (r: WriteResult<Key, Attrs>)
    ensures fault.Some? ==> r == WriteFailed(ErrorOf(fault.value))
    ensures fault.None? && UpdateOf(e).None? ==> r == WriteFailed(Service(ValidationException))
    ensures fault.None? && UpdateOf(e).Some? ==>
      var (test, change) := UpdateOf(e).value;
      && (r.Wrote? <==> Permits(test, Current(Lookup(rows, k))))
      && (r.Wrote? ==> r.item == Changed(change, Base(k, Lookup(rows, k))) && r.after == rows[k := r.item])
      && (r.WriteFailed? ==> r.error == ConditionalCheckFailed)
  {
    if fault.Some? then WriteFailed(ErrorOf(fault.value))
    else match UpdateOf(e)
      case None => WriteFailed(Service(ValidationException))
      case Some((test, change)) =>
        WriteItem(rows, WriteOp(k, Update((o: Option<Attrs>) => Changed(change, Base(k, o))),
                                (o: Option<Attrs>) => Permits(test, Current(o)), false), None)
  }

  /** The condition a PutItem request carries, once resolved. */
  function PutConditionOf(e: Expression): (r: Option<Option<Test>>)
    ensures r.Some? ==> Resolve(e) == Ok(Resolved(None, r.value, None))
  {
    var res := Resolve(e);
    if res.Ok? && res.value.keyCondition.None? && res.value.change.None?
    then Some(res.value.condition)
    else None
  }

  /** The key of an item to put: its pk and sk attributes. */
  function KeyOf(item: Attrs): (r: Option<Key>)
    ensures r.Some? <==> PartitionKey in item && SortKey in item
    ensures r.Some? ==> r.value == Key(item[PartitionKey], item[SortKey])
  {
    if PartitionKey in item && SortKey in item then Some(Key(item[PartitionKey], item[SortKey])) else None
  }

  /** PutItem of `item` under the key it carries, when the condition holds of the stored item. */
  function PutItem(rows: Rows, item: Attrs, e: Expression, fault: Option<Fault>): (r: WriteResult<Key, Attrs>)
    ensures fault.Some? ==> r == WriteFailed(ErrorOf(fault.value))
    ensures fault.None? && (PutConditionOf(e).None? || KeyOf(item).None?) ==> r == WriteFailed(Service(ValidationException))
    ensures fault.None? && PutConditionOf(e).Some? && KeyOf(item).Some? ==>
      var k := KeyOf(item).value;
      && (r.Wrote? <==> Permits(PutConditionOf(e).value, Current(Lookup(rows, k))))
      && (r.Wrote? ==> r.item == item && r.after == rows[k := item])
      && (r.WriteFailed? ==> r.error == ConditionalCheckFailed)
  {
    if fault.Some? then WriteFailed(ErrorOf(fault.value))
    else if PutConditionOf(e).None? || KeyOf(item).None? then WriteFailed(Service(ValidationException))
    else
      var test := PutConditionOf(e).value;
      WriteItem(rows, WriteOp(KeyOf(item).value, Put(item), (o: Option<Attrs>) => Permits(test, Current(o)), false), None)
  }
}
