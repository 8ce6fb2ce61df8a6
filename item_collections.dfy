/**
 * Episode 11: three operations on items {pk, sk, a, b}, each written twice —
 * once with hand-written expression strings and placeholders (V1), once with
 * the placeholders the expression builder generates (V2):
 *
 *   GetItemCollection(pk)         every item of the partition pk;
 *   UpdateAWhenBAndUnsetB(k, a, b) set a and remove b, only while b holds the
 *                                 expected value, reporting the new item;
 *   PutIfNotExists(k)             put a key-only item unless one is stored.
 *
 * Both versions of an operation are proved to return the same results and
 * leave the same table, because their requests resolve to the same meaning.
 */
module ItemCollections {
  import opened Optional
  import opened Dynamo
  import opened Expressions
  import Text

  datatype Item = Item(key: Key, a: string, b: string)

  /** The zero Item{} returned alongside an error. */
  const EmptyItem := Item(Key("", ""), "", "")

  const AttributeA := "a"
  const AttributeB := "b"
  const AlreadyExists := "Item with this Key already exists"

  function NotB(whenB: string): string
  {
    "b is not " + whenB + ", aborting update"
  }

  // -------------------------------------------------------------- marshalling

  function Unmarshal(attrs: Attrs): (i: Item)
    ensures i.key == Key(Attr(attrs, PartitionKey), Attr(attrs, SortKey))
    ensures i.a == Attr(attrs, AttributeA) && i.b == Attr(attrs, AttributeB)
  {
    Item(Key(Attr(attrs, PartitionKey), Attr(attrs, SortKey)), Attr(attrs, AttributeA), Attr(attrs, AttributeB))
  }

  function UnmarshalAll(out: seq<(Key, Attrs)>): (items: seq<Item>)
    ensures |items| == |out|
    ensures forall i :: 0 <= i < |out| ==> items[i] == Unmarshal(out[i].1)
  {
    seq(|out|, i requires 0 <= i < |out| => Unmarshal(out[i].1))
  }

  /** Every item is stored under the key its own pk and sk attributes hold. */
  predicate Keyed(rows: Rows)
  {
    forall k :: k in rows ==> KeyOf(rows[k]) == Some(k)
  }

  // ---------------------------------------------------------------- requests

  function CollectionRequestV1(pk: string): Expression
  {
    Expression(Some(Equal("#key", ":value")), None, None, map["#key" := PartitionKey], map[":value" := pk])
  }

  function CollectionRequestV2(pk: string): Expression
  {
    Expression(Some(Equal("#0", ":0")), None, None, map["#0" := PartitionKey], map[":0" := pk])
  }

  function UpdateRequestV1(newA: string, whenB: string): Expression
  {
    Expression(None, Some(Equal("#b", ":b")), Some(UpdateExpression(["#b"], [("#a", ":a")])),
               map["#b" := AttributeB, "#a" := AttributeA], map[":b" := whenB, ":a" := newA])
  }

  function UpdateRequestV2(newA: string, whenB: string): Expression
  {
    Expression(None, Some(Equal("#0", ":0")), Some(UpdateExpression(["#0"], [("#1", ":1")])),
               map["#0" := AttributeB, "#1" := AttributeA], map[":0" := whenB, ":1" := newA])
  }

  function PutRequestV1(): Expression
  {
    Expression(None, Some(AttributeNotExists("#pk")), None, map["#pk" := PartitionKey], map[])
  }

  function PutRequestV2(): Expression
  {
    Expression(None, Some(AttributeNotExists("#0")), None, map["#0" := PartitionKey], map[])
  }

  /** Both key conditions select the partition `pk` and nothing else. */
  lemma CollectionRequestsSelect(pk: string)
    ensures PartitionOf(CollectionRequestV1(pk)) == Some(pk)
    ensures PartitionOf(CollectionRequestV2(pk)) == Some(pk)
  {
    assert Aliased(CollectionRequestV1(pk));
    assert Aliased(CollectionRequestV2(pk));
  }

  /** The meaning both update requests resolve to: b = whenB; REMOVE b SET a = newA. */
  function UnsetB(newA: string): Change
  {
    Change([AttributeB], [(AttributeA, newA)])
  }

  lemma UpdateRequestResolves(e: Expression, nb: string, na: string, vb: string, va: string, newA: string, whenB: string)
    requires nb != na && vb != va
    requires e == Expression(None, Some(Equal(nb, vb)), Some(UpdateExpression([nb], [(na, va)])),
                             map[nb := AttributeB, na := AttributeA], map[vb := whenB, va := newA])
    ensures UpdateOf(e) == Some((Some(Equals(AttributeB, whenB)), UnsetB(newA)))
  {
    var u := e.update.value;
    assert (set i | 0 <= i < |u.remove| :: u.remove[i]) == {nb} by {
      assert u.remove[0] == nb;
    }
    assert (set i | 0 <= i < |u.assign| :: u.assign[i].0) == {na} by {
      assert u.assign[0].0 == na;
    }
    assert (set i | 0 <= i < |u.assign| :: u.assign[i].1) == {va} by {
      assert u.assign[0].1 == va;
    }
    assert Aliased(e);
    var c := ResolveUpdate(u, e.names, e.values);
    assert c == UnsetB(newA);
    assert Paths(c) == [AttributeB, AttributeA];
  }

  /** Both update requests resolve to the same condition and change. */
  lemma UpdateRequestsAgree(newA: string, whenB: string)
    ensures UpdateOf(UpdateRequestV1(newA, whenB)) == Some((Some(Equals(AttributeB, whenB)), UnsetB(newA)))
    ensures UpdateOf(UpdateRequestV2(newA, whenB)) == Some((Some(Equals(AttributeB, whenB)), UnsetB(newA)))
  {
    UpdateRequestResolves(UpdateRequestV1(newA, whenB), "#b", "#a", ":b", ":a", newA, whenB);
    UpdateRequestResolves(UpdateRequestV2(newA, whenB), "#0", "#1", ":0", ":1", newA, whenB);
  }

  /** Both put requests resolve to attribute_not_exists(pk). */
  lemma PutRequestsAgree()
    ensures PutConditionOf(PutRequestV1()) == Some(Some(Missing(PartitionKey)))
    ensures PutConditionOf(PutRequestV2()) == Some(Some(Missing(PartitionKey)))
  {
    assert Aliased(PutRequestV1());
    assert Aliased(PutRequestV2());
  }

  /** SET a = newA after REMOVE b, on any item. */
  lemma UnsetBEffect(newA: string, item: Attrs)
    ensures Changed(UnsetB(newA), item) == (item - {AttributeB})[AttributeA := newA]
  {
    var c := UnsetB(newA);
    assert (set i | 0 <= i < |c.remove| :: c.remove[i]) == {AttributeB} by {
      assert c.remove[0] == AttributeB;
    }
    assert c.assign[1..] == [];
    var removed := item - {AttributeB};
    assert Changed(c, item) == Assigned(removed, c.assign);
    assert Assigned(removed, c.assign) == Assigned(removed[AttributeA := newA], []);
  }

  // ---------------------------------------------------------- what is meant

  /**
   * `items` is the item collection of `pk`: every stored item of that
   * partition, each once, in ascending sort-key order.
   */
  ghost predicate ItemCollection(rows: Rows, pk: string, items: seq<Item>)
  {
    && (forall i :: 0 <= i < |items| ==>
          items[i].key in rows && items[i].key.pk == pk && items[i] == Unmarshal(rows[items[i].key]))
    && SortedBySortKey(items)
    && (forall k :: k in rows && k.pk == pk ==> k in KeysOfItems(items))
  }

  function KeysOfItems(items: seq<Item>): set<Key>
  {
    set i | 0 <= i < |items| :: items[i].key
  }

  /** Items in strictly ascending sort-key order. */
  predicate SortedBySortKey(items: seq<Item>)
  {
    forall i, j :: 0 <= i < j < |items| ==> Text.Less(items[i].key.sk, items[j].key.sk)
  }

  /** The first item of a sorted list is stored under no other key of the list. */
  lemma HeadKeyOnce(items: seq<Item>)
    requires |items| > 0 && SortedBySortKey(items)
    ensures KeysOfItems(items[1..]) == KeysOfItems(items) - {items[0].key}
  {
    forall i | 0 < i < |items| ensures items[i].key != items[0].key {
      if items[i].key == items[0].key {
        Text.LessIrreflexive(items[0].key.sk);
      }
    }
    assert forall i :: 0 <= i < |items[1..]| ==> items[1..][i] == items[i + 1];
    forall k | k in KeysOfItems(items) - {items[0].key} ensures k in KeysOfItems(items[1..]) {
      var i :| 0 <= i < |items| && items[i].key == k;
      assert items[1..][i - 1] == items[i];
    }
  }

  lemma NoKeysNoItems(items: seq<Item>)
    ensures KeysOfItems(items) == {} <==> items == []
  {
    if items != [] {
      assert items[0].key in KeysOfItems(items);
    }
  }

  /**
   * Two sorted lists over the same keys, agreeing on the item stored under
   * each key, are the same list.
   */
  lemma {:induction false} SortedSame(xs: seq<Item>, ys: seq<Item>)
    requires SortedBySortKey(xs) && SortedBySortKey(ys)
    requires KeysOfItems(xs) == KeysOfItems(ys)
    requires forall i, j :: 0 <= i < |xs| && 0 <= j < |ys| && xs[i].key == ys[j].key ==> xs[i] == ys[j]
    ensures xs == ys
    decreases |xs|
  {
    if xs == [] {
      NoKeysNoItems(ys);
    } else {
      assert xs[0].key in KeysOfItems(ys);
      var j :| 0 <= j < |ys| && ys[j].key == xs[0].key;
      assert ys[0].key in KeysOfItems(xs);
      var i :| 0 <= i < |xs| && xs[i].key == ys[0].key;
      if j > 0 {
        if i > 0 {
          Text.LessAsymmetric(xs[0].key.sk, xs[i].key.sk);
        } else {
          Text.LessIrreflexive(xs[0].key.sk);
        }
      }
      assert xs[0] == ys[0];
      HeadKeyOnce(xs);
      HeadKeyOnce(ys);
      forall i', j' | 0 <= i' < |xs[1..]| && 0 <= j' < |ys[1..]| && xs[1..][i'].key == ys[1..][j'].key
        ensures xs[1..][i'] == ys[1..][j']
      {
        assert xs[1..][i'] == xs[i' + 1] && ys[1..][j'] == ys[j' + 1];
      }
      SortedSame(xs[1..], ys[1..]);
      assert xs == [xs[0]] + xs[1..] && ys == [ys[0]] + ys[1..];
    }
  }

  /** A partition has exactly one item collection. */
  lemma ItemCollectionUnique(rows: Rows, pk: string, xs: seq<Item>, ys: seq<Item>)
    requires ItemCollection(rows, pk, xs) && ItemCollection(rows, pk, ys)
    ensures xs == ys
  {
    forall k | k in KeysOfItems(xs) ensures k in KeysOfItems(ys) {
      var i :| 0 <= i < |xs| && xs[i].key == k;
    }
    forall k | k in KeysOfItems(ys) ensures k in KeysOfItems(xs) {
      var i :| 0 <= i < |ys| && ys[i].key == k;
    }
    SortedSame(xs, ys);
  }

  /** A correct answer to the partition query, unmarshalled, is the item collection. */
  lemma CollectionOfAnswer(rows: Rows, pk: string, out: seq<(Key, Attrs)>)
    requires Keyed(rows)
    requires QueryAnswer(rows, pk, AnySortKey, true, None, out)
    ensures ItemCollection(rows, pk, UnmarshalAll(out))
  {
    var items := UnmarshalAll(out);
    forall i | 0 <= i < |items| ensures items[i].key == out[i].0 {
      assert KeyOf(rows[out[i].0]) == Some(out[i].0);
    }
    forall k | k in rows && k.pk == pk ensures k in KeysOfItems(items) {
      assert Matches(k, pk, AnySortKey);
      assert k in KeysListed(out);
      var i :| 0 <= i < |out| && out[i].0 == k;
      assert items[i].key == k;
    }
  }

  /**
   * What UpdateAWhenBAndUnsetB answers and leaves: while the item's b is
   * `whenB`, the item with a set to `newA` and b removed; otherwise an empty
   * Item with "b is not <whenB>, aborting update", or the service's error.
   */
  function UpdateOutcome(rows: Rows, k: Key, newA: string, whenB: string, fault: Option<Fault>): (r: (Item, Option<Error>, Rows))
    ensures r.1.None? <==> fault.None? && k in rows && AttributeB in rows[k] && rows[k][AttributeB] == whenB
    ensures r.1.Some? ==> r.0 == EmptyItem && r.2 == rows
    ensures r.1.None? ==> r.0 == Item(k, newA, "") && r.2.Keys == rows.Keys
    ensures fault.Some? ==> r.1 == Some(ErrorOf(fault.value))
  {
    if fault.Some? then (EmptyItem, Some(ErrorOf(fault.value)), rows)
    else if k in rows && AttributeB in rows[k] && rows[k][AttributeB] == whenB then
      (Item(k, newA, ""), None, rows[k := (rows[k] - {AttributeB})[AttributeA := newA]])
    else (EmptyItem, Some(Message(NotB(whenB))), rows)
  }

  /**
   * What PutIfNotExists reports and leaves: a key-only item put when no item
   * has the key; otherwise "Item with this Key already exists", or the
   * service's error.
   */
  function PutOutcome(rows: Rows, k: Key, fault: Option<Fault>): (r: (Option<Error>, Rows))
    ensures r.0.None? <==> fault.None? && k !in rows
    ensures r.0.Some? ==> r.1 == rows
    ensures r.0.None? ==> r.1 == rows[k := KeyAttrs(k)]
    ensures fault.None? && k in rows ==> r.0 == Some(Message(AlreadyExists))
  {
    if fault.Some? then (Some(ErrorOf(fault.value)), rows)
    else if k in rows then (Some(Message(AlreadyExists)), rows)
    else (None, rows[k := KeyAttrs(k)])
  }

  /** A successful update sets a, removes b, keeps every other attribute and every other item. */
  lemma UpdateChangesOnlyAAndB(rows: Rows, k: Key, newA: string, whenB: string)
    requires UpdateOutcome(rows, k, newA, whenB, None).1.None?
    ensures var after := UpdateOutcome(rows, k, newA, whenB, None).2;
      && after[k][AttributeA] == newA && AttributeB !in after[k]
      && (forall n :: n in rows[k] && n != AttributeA && n != AttributeB ==> n in after[k] && after[k][n] == rows[k][n])
      && (forall j :: j in rows && j != k ==> after[j] == rows[j])
  {
  }

  /** The update cannot succeed twice: once b is removed, the same call reports "b is not …". */
  lemma UpdateNotRepeatable(rows: Rows, k: Key, newA: string, newA': string, whenB: string)
    ensures var after := UpdateOutcome(rows, k, newA, whenB, None).2;
      UpdateOutcome(after, k, newA', whenB, None) == (EmptyItem, Some(Message(NotB(whenB))), after)
  {
    var after := UpdateOutcome(rows, k, newA, whenB, None).2;
    if k in rows && AttributeB in rows[k] && rows[k][AttributeB] == whenB {
      assert AttributeB !in after[k];
    }
  }

  /** Putting the same key twice: the second call fails and leaves the table as the first left it. */
  lemma PutOnce(rows: Rows, k: Key)
    ensures var after := PutOutcome(rows, k, None).1;
      PutOutcome(after, k, None) == (Some(Message(AlreadyExists)), after)
  {
  }

  lemma UpdateKeepsKeyed(rows: Rows, k: Key, newA: string, whenB: string, fault: Option<Fault>)
    requires Keyed(rows)
    ensures Keyed(UpdateOutcome(rows, k, newA, whenB, fault).2)
  {
  }

  lemma PutKeepsKeyed(rows: Rows, k: Key, fault: Option<Fault>)
    requires Keyed(rows)
    ensures Keyed(PutOutcome(rows, k, fault).1)
  {
  }

  // ---------------------------------------------------------------- the table

  class ItemTable {
    const table: string
    var rows: Rows

    ghost predicate Valid()
      reads this
    {
      Keyed(rows)
    }

    constructor(table: string, rows: Rows)
      requires Keyed(rows)
      ensures Valid() && this.table == table && this.rows == rows
    {
      this.table := table;
      this.rows := rows;
    }

    /** Queries with "#key = :value", #key → pk. */
    method GetItemCollectionV1(pk: string, fault: Option<Fault>) returns (items: seq<Item>, err: Option<Error>)
      requires Valid()
      ensures fault.Some? ==> items == [] && err == Some(ErrorOf(fault.value))
      ensures fault.None? ==> err.None? && ItemCollection(rows, pk, items)
    {
      CollectionRequestsSelect(pk);
      var out := QueryItems(rows, CollectionRequestV1(pk), fault);
      if out.Err? {
        return [], Some(out.error);
      }
      CollectionOfAnswer(rows, pk, out.value);
      return UnmarshalAll(out.value), None;
    }

    /** Queries with the builder's KeyEqual(Key("pk"), Value(pk)). */
    method GetItemCollectionV2(pk: string, fault: Option<Fault>) returns (items: seq<Item>, err: Option<Error>)
      requires Valid()
      ensures fault.Some? ==> items == [] && err == Some(ErrorOf(fault.value))
      ensures fault.None? ==> err.None? && ItemCollection(rows, pk, items)
    {
      CollectionRequestsSelect(pk);
      var out := QueryItems(rows, CollectionRequestV2(pk), fault);
      if out.Err? {
        return [], Some(out.error);
      }
      CollectionOfAnswer(rows, pk, out.value);
      return UnmarshalAll(out.value), None;
    }

    /** UpdateItem with "#b = :b" and "REMOVE #b SET #a = :a", ReturnValues ALL_NEW. */
    method UpdateAWhenBAndUnsetBV1(k: Key, newA: string, whenB: string, fault: Option<Fault>) returns (item: Item, err: Option<Error>)
      requires Valid()
      modifies this
      ensures Valid()
      ensures (item, err, rows) == UpdateOutcome(old(rows), k, newA, whenB, fault)
    {
      UpdateRequestsAgree(newA, whenB);
      var out := UpdateItem(rows, k, UpdateRequestV1(newA, whenB), fault);
      item, err := Report(k, newA, whenB, fault, UpdateRequestV1(newA, whenB), out);
    }

    /** UpdateItem with the builder's Equal(Name("b"), Value(whenB)) and Set(a).Remove(b). */
    method UpdateAWhenBAndUnsetBV2(k: Key, newA: string, whenB: string, fault: Option<Fault>) returns (item: Item, err: Option<Error>)
      requires Valid()
      modifies this
      ensures Valid()
      ensures (item, err, rows) == UpdateOutcome(old(rows), k, newA, whenB, fault)
    {
      UpdateRequestsAgree(newA, whenB);
      var out := UpdateItem(rows, k, UpdateRequestV2(newA, whenB), fault);
      item, err := Report(k, newA, whenB, fault, UpdateRequestV2(newA, whenB), out);
    }

    /**
     * The error handling both versions share: a failed condition becomes
     * "b is not <whenB>, aborting update", other errors pass through, and
     * the ALL_NEW attributes are unmarshalled.
     */
    method Report(k: Key, newA: string, whenB: string, fault: Option<Fault>, ghost e: Expression, out: WriteResult<Key, Attrs>)
      returns (item: Item, err: Option<Error>)
      requires Valid()
      requires UpdateOf(e) == Some((Some(Equals(AttributeB, whenB)), UnsetB(newA)))
      requires out == UpdateItem(rows, k, e, fault)
      modifies this
      ensures Valid()
      ensures (item, err, rows) == UpdateOutcome(old(rows), k, newA, whenB, fault)
    {
      if out.WriteFailed? {
        if out.error == ConditionalCheckFailed {
          return EmptyItem, Some(Message(NotB(whenB)));
        }
        return EmptyItem, Some(out.error);
      }
      UnsetBEffect(newA, rows[k]);
      assert KeyOf(rows[k]) == Some(k);
      rows := out.after;
      return Unmarshal(out.item), None;
    }

    /** PutItem of the key with "attribute_not_exists(#pk)", #pk → pk. */
    method PutIfNotExistsV1(k: Key, fault: Option<Fault>) returns (err: Option<Error>)
      requires Valid()
      modifies this
      ensures Valid()
      ensures (err, rows) == PutOutcome(old(rows), k, fault)
    {
      PutRequestsAgree();
      var out := PutItem(rows, KeyAttrs(k), PutRequestV1(), fault);
      if out.WriteFailed? {
        if out.error == ConditionalCheckFailed {
          return Some(Message(AlreadyExists));
        }
        return Some(out.error);
      }
      rows := out.after;
      return None;
    }

    /** PutItem of the key with the builder's AttributeNotExists(Name("pk")). */
    method PutIfNotExistsV2(k: Key, fault: Option<Fault>) returns (err: Option<Error>)
      requires Valid()
      modifies this
      ensures Valid()
      ensures (err, rows) == PutOutcome(old(rows), k, fault)
    {
      PutRequestsAgree();
      var out := PutItem(rows, KeyAttrs(k), PutRequestV2(), fault);
      if out.WriteFailed? {
        if out.error == ConditionalCheckFailed {
          return Some(Message(AlreadyExists));
        }
        return Some(out.error);
      }
      rows := out.after;
      return None;
    }
  }
}
