/**
 * The two sources of field information for the documentation: ModelAdapter (an Eloquent model,
 * whose columns come from the database schema) and HttpRequestAdapter (a smart model without a
 * table, whose column list is always empty). Each keeps its column list in a `columns` field that
 * is filled on first use.
 */
module Adapters {
  import opened Php
  import ModelAttributes

  /** What the adapters read from the wrapped model. */
  datatype Model = Model(
    isSmart: bool,               // instanceof SmartModel
    hasIsFillable: bool,         // method_exists($model, 'isFillable')
    rules: seq<(Key, Value)>,    // attributesRules() of a smart model
    labels: seq<(Key, Value)>,   // attributesLabels() of a smart model
    perPage: int,                // getPerPage()
    isFillable: Key -> bool)

  /** A Doctrine column: a name, an integer type here, and a default. */
  datatype Column = Column(name: string, isInteger: bool, default: Value)

  /** The exception newSmartSource() throws, with its message. */
  datatype SourceError = SmartSourceNotFound(message: string)

  /**
   * How reading the schema ends: the columns, a DBALException inside the `try` (swallowed), or
   * any other failure, such as getDoctrineSchemaManager() throwing before the `try` or a
   * non-DBAL exception inside it, which propagates to the caller.
   */
  datatype SchemaRead = Read(columns: seq<Column>) | DbalFailure | OtherFailure

  /** A failure that getTableColumns() lets through. */
  datatype SchemaError = SchemaError

  /** The four accessors that all answer with the table's columns. */
  datatype ColumnsKind = Fields | Filters | Relations | Output

  /** attributesRules(): the model's rules when it is a smart model, else none. */
  function AttributesRules(model: Model): (rules: seq<(Key, Value)>)
    ensures model.isSmart ==> rules == model.rules
    ensures !model.isSmart ==> rules == []
  {
    if model.isSmart then model.rules else []
  }

  /** attributesLabels(): the model's labels when it is a smart model, else none. */
  function AttributesLabels(model: Model): (labels: seq<(Key, Value)>)
    ensures model.isSmart ==> labels == model.labels
    ensures !model.isSmart ==> labels == []
  {
    if model.isSmart then model.labels else []
  }

  /** pages(): `page` defaulting to 1 and `per_page` defaulting to the model's page size. */
  function Pages(model: Model): (columns: seq<Column>)
    ensures |columns| == 2
    ensures columns[0] == Column("page", true, Int(1))
    ensures columns[1] == Column("per_page", true, Int(model.perPage))
  {
    [Column("page", true, Int(1)), Column("per_page", true, Int(model.perPage))]
  }

  /** newSmartSource(): an adapter never has a smart source of its own. */
  function NewSmartSource(): (r: Result<(), SourceError>)
    ensures r.Err? && r.error.SmartSourceNotFound?
  {
    Err(SmartSourceNotFound("禁止访问"))
  }

  // ---------------------------------------------------------------------------
  // ModelAdapter
  // ---------------------------------------------------------------------------

  class ModelAdapter {
    const model: Model
    var columns: Option<seq<Column>>

    constructor(model: Model)
      ensures this.model == model && columns.None?
    {
      this.model := model;
      columns := None;
    }

    /**
     * getTableColumns(): the cached list once there is one. Otherwise `[]` is cached first, then
     * the schema is read (`schema` stands for that database I/O): its columns replace the cache,
     * a DBALException leaves `[]`, and any other failure propagates with `[]` already cached.
     */
    method TableColumns(schema: SchemaRead) returns (r: Result<seq<Column>, SchemaError>)
      modifies this
      ensures old(columns).Some? ==> r == Ok(old(columns).value) && columns == old(columns)
      ensures old(columns).None? && schema.Read? ==> r == Ok(schema.columns) && columns == Some(schema.columns)
      ensures old(columns).None? && schema.DbalFailure? ==> r == Ok([]) && columns == Some([])
      ensures old(columns).None? && schema.OtherFailure? ==> r == Err(SchemaError) && columns == Some([])
    {
      if columns.Some? {
        return Ok(columns.value);
      }
      columns := Some([]);
      match schema {
        case Read(cols) =>
          columns := Some(cols);
        case DbalFailure =>
        case OtherFailure =>
          return Err(SchemaError);
      }
      r := Ok(columns.value);
    }

    /** fields(), filters(), relations() and output(): each is getTableColumns(). */
    method Columns(kind: ColumnsKind, schema: SchemaRead) returns (r: Result<seq<Column>, SchemaError>)
      modifies this
      ensures old(columns).Some? ==> r == Ok(old(columns).value) && columns == old(columns)
      ensures old(columns).None? ==> columns == Some(if schema.Read? then schema.columns else [])
      ensures old(columns).None? ==> r == (if schema.OtherFailure? then Err(SchemaError) else Ok(columns.value))
    {
      r := TableColumns(schema);
    }

    /** fillableAttributesRules(): the rules of the columns the model lets a caller fill. */
    method FillableAttributesRules() returns (rules: seq<(Key, Value)>)
      ensures rules == PutEach(model.isFillable, ModelAttributes.Second(), AttributesRules(model))
    {
      rules := ModelAttributes.FillableEntries(AttributesRules(model), model.isFillable);
    }
  }

  /**
   * A second call answers the same columns whatever the schema says by then; after a failure
   * that propagated, it answers the `[]` cached before the read.
   */
  method ModelAdapterColumnsMemoised(adapter: ModelAdapter, first: SchemaRead, later: SchemaRead)
      returns (a: Result<seq<Column>, SchemaError>, b: Result<seq<Column>, SchemaError>)
    modifies adapter
    ensures b.Ok?
    ensures a.Ok? ==> b == a
    ensures a.Err? ==> b == Ok([])
  {
    a := adapter.TableColumns(first);
    b := adapter.TableColumns(later);
  }

  // ---------------------------------------------------------------------------
  // HttpRequestAdapter
  // ---------------------------------------------------------------------------

  class HttpRequestAdapter {
    const model: Model
    var columns: Option<seq<Column>>

    /** The cache only ever holds the empty list. */
    predicate Valid()
      reads this
    {
      model.isSmart && (columns.None? || columns == Some([]))
    }

    /** The constructor takes a SmartModel, so the wrapped model always is one. */
    constructor(model: Model)
      requires model.isSmart
      ensures Valid() && this.model == model && columns.None?
    {
      this.model := model;
      columns := None;
    }

    /** getTableColumns(): always the empty list, stored on first use. */
    method TableColumns() returns (r: seq<Column>)
      requires Valid()
      modifies this
      ensures Valid() && r == [] && columns == Some([])
    {
      if columns.Some? {
        return columns.value;
      }
      columns := Some([]);
      r := columns.value;
    }

    /** fields(), filters(), relations() and output(): each is getTableColumns(). */
    method Columns(kind: ColumnsKind) returns (r: seq<Column>)
      requires Valid()
      modifies this
      ensures Valid() && r == []
    {
      r := TableColumns();
    }

    /**
     * fillableAttributesRules(): every rule when the model has no isFillable(), else the rules
     * of the fillable columns.
     */
    method FillableAttributesRules() returns (rules: seq<(Key, Value)>)
      requires Valid()
      ensures !model.hasIsFillable ==> rules == model.rules
      ensures model.hasIsFillable ==> rules == PutEach(model.isFillable, ModelAttributes.Second(), model.rules)
    {
      var data := AttributesRules(model);
      if !model.hasIsFillable {
        return data;
      }
      rules := ModelAttributes.FillableEntries(data, model.isFillable);
    }

    /** attributesRules() of the adapter: the wrapped smart model's rules, always. */
    function Rules(): (rules: seq<(Key, Value)>)
      requires Valid()
      reads this
      ensures rules == model.rules
    {
      AttributesRules(model)
    }

    /** attributesLabels() of the adapter: the wrapped smart model's labels, always. */
    function Labels(): (labels: seq<(Key, Value)>)
      requires Valid()
      reads this
      ensures labels == model.labels
    {
      AttributesLabels(model)
    }
  }

  /** Over a PHP array of rules, a model with isFillable() loses exactly the columns it may not fill. */
  lemma HttpFillableExactly(model: Model)
    requires model.hasIsFillable && DistinctKeys(model.rules)
    ensures var rules := PutEach(model.isFillable, ModelAttributes.Second(), model.rules);
      && (forall k :: HasKey(rules, k) ==> HasKey(model.rules, k) && model.isFillable(k))
      && (forall i :: 0 <= i < |model.rules| && model.isFillable(model.rules[i].0) ==> model.rules[i] in rules)
  {
    ModelAttributes.FillableExactly(model.rules, model.isFillable);
  }

  /** A plain Eloquent model has no rules, so none of them is fillable either. */
  lemma PlainModelNoRules(model: Model)
    requires !model.isSmart
    ensures PutEach(model.isFillable, ModelAttributes.Second(), AttributesRules(model)) == []
  {
  }
}
