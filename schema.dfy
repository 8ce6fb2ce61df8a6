/**
 * Translation of a CloudFormation table resource into the SDK's
 * CreateTableInput: attribute definitions, the key schema and the local and
 * global secondary indexes are copied element by element, in order; an index
 * whose projection type is anything but ALL aborts with a panic.
 */
module Schema {
  import opened Optional
  import opened Dynamo

  const ProjectAll := "ALL"
  const NotImplemented := "not implemented"

  // ---------------------------------------------------- CloudFormation side

  datatype TemplateAttribute = TemplateAttribute(attributeName: string, attributeType: string)
  datatype TemplateKey = TemplateKey(attributeName: string, keyType: string)
  datatype TemplateIndex = TemplateIndex(indexName: string, keySchema: seq<TemplateKey>, projectionType: string)
  datatype TemplateTable = TemplateTable(
    tableName: string,
    billingMode: string,
    attributeDefinitions: seq<TemplateAttribute>,
    keySchema: seq<TemplateKey>,
    localSecondaryIndexes: seq<TemplateIndex>,
    globalSecondaryIndexes: seq<TemplateIndex>)

  // ---------------------------------------------------------------- SDK side

  datatype AttributeDefinition = AttributeDefinition(attributeName: string, attributeType: string)
  datatype KeySchemaElement = KeySchemaElement(attributeName: string, keyType: string)
  datatype Projection = Projection(projectionType: string)
  datatype SecondaryIndex = SecondaryIndex(indexName: string, keySchema: seq<KeySchemaElement>, projection: Projection)
  datatype CreateTableInput = CreateTableInput(
    tableName: string,
    billingMode: string,
    attributeDefinitions: seq<AttributeDefinition>,
    keySchema: seq<KeySchemaElement>,
    localSecondaryIndexes: seq<SecondaryIndex>,
    globalSecondaryIndexes: seq<SecondaryIndex>)

  // ------------------------------------------------- what a faithful copy is

  predicate SameAttributes(src: seq<TemplateAttribute>, dst: seq<AttributeDefinition>)
  {
    && |src| == |dst|
    && forall i :: 0 <= i < |src| ==>
         dst[i].attributeName == src[i].attributeName && dst[i].attributeType == src[i].attributeType
  }

  predicate SameKeys(src: seq<TemplateKey>, dst: seq<KeySchemaElement>)
  {
    && |src| == |dst|
    && forall i :: 0 <= i < |src| ==>
         dst[i].attributeName == src[i].attributeName && dst[i].keyType == src[i].keyType
  }

  predicate SameIndex(src: TemplateIndex, dst: SecondaryIndex)
  {
    && dst.indexName == src.indexName
    && SameKeys(src.keySchema, dst.keySchema)
    && dst.projection == Projection(ProjectAll)
  }

  predicate SameIndexes(src: seq<TemplateIndex>, dst: seq<SecondaryIndex>)
  {
    |src| == |dst| && forall i :: 0 <= i < |src| ==> SameIndex(src[i], dst[i])
  }

  /** `input` carries every definition of `t`, in order, and nothing else. */
  predicate Mirrors(t: TemplateTable, input: CreateTableInput)
  {
    && input.tableName == t.tableName
    && input.billingMode == t.billingMode
    && SameAttributes(t.attributeDefinitions, input.attributeDefinitions)
    && SameKeys(t.keySchema, input.keySchema)
    && SameIndexes(t.localSecondaryIndexes, input.localSecondaryIndexes)
    && SameIndexes(t.globalSecondaryIndexes, input.globalSecondaryIndexes)
  }

  predicate ProjectsAll(indexes: seq<TemplateIndex>)
  {
    forall i :: 0 <= i < |indexes| ==> indexes[i].projectionType == ProjectAll
  }

  /** The only templates the translation supports. */
  predicate Supported(t: TemplateTable)
  {
    ProjectsAll(t.localSecondaryIndexes) && ProjectsAll(t.globalSecondaryIndexes)
  }

  // --------------------------------------------------------- the way back

  function KeysBack(keys: seq<KeySchemaElement>): (r: seq<TemplateKey>)
    ensures SameKeys(r, keys)
  {
    seq(|keys|, i requires 0 <= i < |keys| => TemplateKey(keys[i].attributeName, keys[i].keyType))
  }

  function IndexesBack(indexes: seq<SecondaryIndex>): (r: seq<TemplateIndex>)
    ensures |r| == |indexes|
    ensures forall i :: 0 <= i < |r| ==>
      r[i].indexName == indexes[i].indexName && SameKeys(r[i].keySchema, indexes[i].keySchema)
    ensures forall i :: 0 <= i < |r| ==> r[i].projectionType == indexes[i].projection.projectionType
  {
    seq(|indexes|, i requires 0 <= i < |indexes| =>
      TemplateIndex(indexes[i].indexName, KeysBack(indexes[i].keySchema), indexes[i].projection.projectionType))
  }

  /** The template a CreateTableInput was translated from. */
  function TemplateOf(input: CreateTableInput): TemplateTable
  {
    TemplateTable(
      input.tableName,
      input.billingMode,
      seq(|input.attributeDefinitions|, i requires 0 <= i < |input.attributeDefinitions| =>
        TemplateAttribute(input.attributeDefinitions[i].attributeName, input.attributeDefinitions[i].attributeType)),
      KeysBack(input.keySchema),
      IndexesBack(input.localSecondaryIndexes),
      IndexesBack(input.globalSecondaryIndexes))
  }

  lemma KeysBackOfSame(src: seq<TemplateKey>, dst: seq<KeySchemaElement>)
    requires SameKeys(src, dst)
    ensures KeysBack(dst) == src
  {
  }

  lemma IndexesBackOfSame(src: seq<TemplateIndex>, dst: seq<SecondaryIndex>)
    requires SameIndexes(src, dst) && ProjectsAll(src)
    ensures IndexesBack(dst) == src
  {
    var back := IndexesBack(dst);
    forall i | 0 <= i < |src| ensures back[i] == src[i] {
      KeysBackOfSame(src[i].keySchema, dst[i].keySchema);
    }
  }

  /**
   * A supported template is recovered from any input that mirrors it: the
   * translation loses nothing, and two inputs mirroring one template agree.
   */
  lemma MirrorsLosesNothing(t: TemplateTable, input: CreateTableInput)
    requires Supported(t) && Mirrors(t, input)
    ensures TemplateOf(input) == t
  {
    IndexesBackOfSame(t.localSecondaryIndexes, input.localSecondaryIndexes);
    IndexesBackOfSame(t.globalSecondaryIndexes, input.globalSecondaryIndexes);
  }

  lemma MirrorsIsUnique(t: TemplateTable, a: CreateTableInput, b: CreateTableInput)
    requires Mirrors(t, a) && Mirrors(t, b)
    ensures a == b
  {
    assert a.attributeDefinitions == b.attributeDefinitions;
    assert a.keySchema == b.keySchema;
    forall i | 0 <= i < |a.localSecondaryIndexes|
      ensures a.localSecondaryIndexes[i] == b.localSecondaryIndexes[i]
    {
      assert a.localSecondaryIndexes[i].keySchema == b.localSecondaryIndexes[i].keySchema;
    }
    forall i | 0 <= i < |a.globalSecondaryIndexes|
      ensures a.globalSecondaryIndexes[i] == b.globalSecondaryIndexes[i]
    {
      assert a.globalSecondaryIndexes[i].keySchema == b.globalSecondaryIndexes[i].keySchema;
    }
  }

  // ----------------------------------------------------------- translation

  method CopyKeySchema(keys: seq<TemplateKey>) returns (out: seq<KeySchemaElement>)
    ensures SameKeys(keys, out)
  {
    out := [];
    var i := 0;
    while i < |keys|
      invariant 0 <= i <= |keys|
      invariant SameKeys(keys[..i], out)
    {
      out := out + [KeySchemaElement(keys[i].attributeName, keys[i].keyType)];
      i := i + 1;
    }
    assert keys[..i] == keys;
  }

  /**
   * FromCloudFormationToCreateInput(t): a supported template yields an input
   * mirroring it; any index without projection ALL panics with
   * "not implemented".
   */
  method FromCloudFormationToCreateInput(t: TemplateTable) returns (r: Call<CreateTableInput>)
    ensures r.Panic? <==> !Supported(t)
    ensures r.Panic? ==> r.message == NotImplemented
    ensures r.Return? ==> r.err.None? && Mirrors(t, r.value)
  {
    var attributes: seq<AttributeDefinition> := [];
    var i := 0;
    while i < |t.attributeDefinitions|
      invariant 0 <= i <= |t.attributeDefinitions|
      invariant SameAttributes(t.attributeDefinitions[..i], attributes)
    {
      var a := t.attributeDefinitions[i];
      attributes := attributes + [AttributeDefinition(a.attributeName, a.attributeType)];
      i := i + 1;
    }
    assert t.attributeDefinitions[..i] == t.attributeDefinitions;

    var keySchema := CopyKeySchema(t.keySchema);

    var locals: seq<SecondaryIndex> := [];
    i := 0;
    while i < |t.localSecondaryIndexes|
      invariant 0 <= i <= |t.localSecondaryIndexes|
      invariant ProjectsAll(t.localSecondaryIndexes[..i])
      invariant SameIndexes(t.localSecondaryIndexes[..i], locals)
    {
      var idx := t.localSecondaryIndexes[i];
      if idx.projectionType != ProjectAll {
        return Panic(NotImplemented);
      }
      var indexKeySchema := CopyKeySchema(idx.keySchema);
      locals := locals + [SecondaryIndex(idx.indexName, indexKeySchema, Projection(idx.projectionType))];
      i := i + 1;
    }
    assert t.localSecondaryIndexes[..i] == t.localSecondaryIndexes;

    var globals: seq<SecondaryIndex> := [];
    i := 0;
    while i < |t.globalSecondaryIndexes|
      invariant 0 <= i <= |t.globalSecondaryIndexes|
      invariant ProjectsAll(t.globalSecondaryIndexes[..i])
      invariant SameIndexes(t.globalSecondaryIndexes[..i], globals)
    {
      var idx := t.globalSecondaryIndexes[i];
      if idx.projectionType != ProjectAll {
        return Panic(NotImplemented);
      }
      var indexKeySchema := CopyKeySchema(idx.keySchema);
      globals := globals + [SecondaryIndex(idx.indexName, indexKeySchema, Projection(idx.projectionType))];
      i := i + 1;
    }
    assert t.globalSecondaryIndexes[..i] == t.globalSecondaryIndexes;

    return Return(CreateTableInput(t.tableName, t.billingMode, attributes, keySchema, locals, globals), None);
  }
}
