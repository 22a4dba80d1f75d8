/** The gateway's root routing tables: every Query and Mutation root field is
    routed to exactly one upstream, the first in ascending priority order that
    lists it. */
module RootSchemaMerger {
  import opened Wrappers
  import opened SchemaTypes
  import opened Sorting
  import opened Introspection

  /** A root field of the gateway and the upstream that serves it. */
  datatype RoutedField = RoutedField(fieldName: string, service: UpstreamService, definition: FieldDefinition)

  /** A merged root operation type with its routed fields in insertion order. */
  datatype RootTypeDefinition = RootTypeDefinition(typeName: string, fields: seq<RoutedField>)

  datatype GatewayRootSchema = GatewayRootSchema(query: RootTypeDefinition, mutation: Option<RootTypeDefinition>)

  datatype RootOperation = QueryRoot | MutationRoot

  /** One root field name listed by one upstream schema. */
  datatype Claim = Claim(schema: UpstreamSchema, operation: RootOperation, fieldName: string)

  // ---------------------------------------------------------------------
  // Routing maps
  // ---------------------------------------------------------------------

  /** `fields.associate { it.fieldName to it.service }`: a later entry for the
      same name overwrites an earlier one. */
  function Associate(fields: seq<RoutedField>): (m: map<string, UpstreamService>)
    ensures forall n :: n in m <==> n in NamesOf(fields)
  {
    if |fields| == 0 then map[]
    else
      var last := fields[|fields| - 1];
      var m := Associate(fields[..|fields| - 1]);
      assert NamesOf(fields) == NamesOf(fields[..|fields| - 1]) + [last.fieldName];
      m[last.fieldName := last.service]
  }

  /** `RootTypeDefinition.routing()`. */
  function Routing(root: RootTypeDefinition): map<string, UpstreamService>
  {
    Associate(root.fields)
  }

  function QueryRouting(schema: GatewayRootSchema): map<string, UpstreamService>
  {
    Routing(schema.query)
  }

  /** `mutationRouting()`: empty without a mutation root. */
  function MutationRouting(schema: GatewayRootSchema): map<string, UpstreamService>
  {
    if schema.mutation.Some? then Routing(schema.mutation.value) else map[]
  }

  /** The routed field names, in order (the linked map's keys). */
  function NamesOf(fields: seq<RoutedField>): (r: seq<string>)
    ensures |r| == |fields|
    ensures forall i :: 0 <= i < |fields| ==> r[i] == fields[i].fieldName
  {
    if |fields| == 0 then [] else [fields[0].fieldName] + NamesOf(fields[1..])
  }

  /** No two routed fields share a name. */
  predicate DistinctNames(fields: seq<RoutedField>)
  {
    forall i, j :: 0 <= i < j < |fields| ==> fields[i].fieldName != fields[j].fieldName
  }

  /** With distinct names, the routing map sends each routed field's name to its service. */
  lemma {:induction false} AssociateDistinct(fields: seq<RoutedField>, f: RoutedField)
    requires DistinctNames(fields)
    requires f in fields
    ensures Associate(fields)[f.fieldName] == f.service
  {
    var init := fields[..|fields| - 1];
    var last := fields[|fields| - 1];
    if f != last {
      var i :| 0 <= i < |fields| && fields[i] == f;
      assert i < |fields| - 1;
      assert f in init;
      assert f.fieldName != last.fieldName;
      AssociateDistinct(init, f);
    }
  }

  // ---------------------------------------------------------------------
  // The per-root claims of one schema
  // ---------------------------------------------------------------------

  function RootTypeNameOf(schema: UpstreamSchema, op: RootOperation): Option<string>
  {
    if op == QueryRoot then schema.queryTypeName else schema.mutationTypeName
  }

  function RootFieldNamesOf(schema: UpstreamSchema, op: RootOperation): seq<string>
  {
    if op == QueryRoot then schema.queryFieldNames else schema.mutationFieldNames
  }

  /** `fields.find { it.name == name }`: the first field with that name. */
  function FindField(fields: seq<FieldDefinition>, name: string): (r: Option<FieldDefinition>)
    ensures r.Some? ==> r.value in fields && r.value.name == name
    ensures r.None? <==> forall f :: f in fields ==> f.name != name
  {
    if |fields| == 0 then None
    else if fields[0].name == name then Some(fields[0])
    else FindField(fields[1..], name)
  }

  /** The definition backing a listed root field: the field of that name in the
      schema's own root type definition, if there is one. */
  function ResolveField(schema: UpstreamSchema, op: RootOperation, name: string): Option<FieldDefinition>
  {
    var rootTypeName := RootTypeNameOf(schema, op);
    var definition := if rootTypeName.Some? then Lookup(schema.typeDefinitions, rootTypeName.value) else None;
    if definition.Some? then FindField(definition.value.fields, name) else None
  }

  function MissingFieldMessage(c: Claim): string
  {
    "Missing field definition for " + (if c.operation == QueryRoot then "query" else "mutation")
      + " field " + c.fieldName + " on service " + c.schema.service.name
  }

  /** `queryFields[name]` on the linked map of routed fields. */
  function FindRouted(fields: seq<RoutedField>, name: string): (r: Option<RoutedField>)
    ensures r.Some? <==> name in NamesOf(fields)
    ensures r.Some? ==> r.value in fields && r.value.fieldName == name
  {
    if |fields| == 0 then None
    else if fields[0].fieldName == name then Some(fields[0])
    else FindRouted(fields[1..], name)
  }

  /** The first of `names` that has no backing definition in `schema`. */
  function FirstMissingIn(schema: UpstreamSchema, op: RootOperation, names: seq<string>): (r: Option<Claim>)
    ensures r.None? <==> forall n :: n in names ==> ResolveField(schema, op, n).Some?
    ensures r.Some? ==> r.value == Claim(schema, op, r.value.fieldName) && r.value.fieldName in names
                        && ResolveField(schema, op, r.value.fieldName).None?
  {
    if |names| == 0 then None
    else
      var prior := FirstMissingIn(schema, op, names[..|names| - 1]);
      var last := names[|names| - 1];
      assert forall n :: n in names <==> n in names[..|names| - 1] || n == last by {
        assert names == names[..|names| - 1] + [last];
      }
      if prior.Some? then prior
      else if ResolveField(schema, op, last).None? then Some(Claim(schema, op, last))
      else None
  }

  /** The routed fields after adding the listed `names` of `schema`, in order,
      to `fields`: a name that is already routed, or that has no definition,
      adds nothing. */
  function AddClaims(fields: seq<RoutedField>, schema: UpstreamSchema, op: RootOperation, names: seq<string>)
    : seq<RoutedField>
  {
    if |names| == 0 then fields
    else
      var table := AddClaims(fields, schema, op, names[..|names| - 1]);
      var last := names[|names| - 1];
      var definition := ResolveField(schema, op, last);
      if FindRouted(table, last).Some? || definition.None? then table
      else table + [RoutedField(last, schema.service, definition.value)]
  }

  /** Every listed name of every schema has a backing definition. */
  predicate Resolvable(schemas: seq<UpstreamSchema>, op: RootOperation)
  {
    forall s, n :: s in schemas && n in RootFieldNamesOf(s, op) ==> ResolveField(s, op, n).Some?
  }

  /** Adding one schema's listed names keeps routed names distinct, keeps
      every existing entry, and routes exactly the names listed in addition. */
  lemma {:induction false} AddClaimsNames(fields: seq<RoutedField>, schema: UpstreamSchema, op: RootOperation, names: seq<string>)
    requires DistinctNames(fields)
    requires forall n :: n in names ==> ResolveField(schema, op, n).Some?
    ensures DistinctNames(AddClaims(fields, schema, op, names))
    ensures forall n :: n in NamesOf(AddClaims(fields, schema, op, names)) <==> (n in NamesOf(fields) || n in names)
    ensures fields <= AddClaims(fields, schema, op, names)
  {
    if |names| > 0 {
      var init := names[..|names| - 1];
      var last := names[|names| - 1];
      assert names == init + [last];
      AddClaimsNames(fields, schema, op, init);
      var table := AddClaims(fields, schema, op, init);
      if FindRouted(table, last).None? {
        var result := table + [RoutedField(last, schema.service, ResolveField(schema, op, last).value)];
        assert NamesOf(result) == NamesOf(table) + [last];
        forall i, j | 0 <= i < j < |result| ensures result[i].fieldName != result[j].fieldName {
          if j == |table| {
            assert result[i].fieldName == NamesOf(table)[i];
          }
        }
      }
    }
  }

  /** A routed field after adding one schema's listed names is an existing
      entry, or a listed name that was not yet routed, owned by this schema's
      service with this schema's definition. */
  lemma {:induction false} AddClaimsMembers(
    fields: seq<RoutedField>, schema: UpstreamSchema, op: RootOperation, names: seq<string>, f: RoutedField)
    requires DistinctNames(fields)
    requires forall n :: n in names ==> ResolveField(schema, op, n).Some?
    ensures f in AddClaims(fields, schema, op, names)
        <==> || f in fields
             || (&& f.fieldName !in NamesOf(fields)
                 && f.fieldName in names
                 && f.service == schema.service
                 && ResolveField(schema, op, f.fieldName) == Some(f.definition))
  {
    if |names| > 0 {
      var init := names[..|names| - 1];
      var last := names[|names| - 1];
      assert names == init + [last];
      AddClaimsMembers(fields, schema, op, init, f);
      AddClaimsNames(fields, schema, op, init);
    }
  }

  // ---------------------------------------------------------------------
  // The merged tables
  // ---------------------------------------------------------------------

  /** The routing table of `op` after processing `schemas` in order. */
  function Table(schemas: seq<UpstreamSchema>, op: RootOperation): seq<RoutedField>
  {
    if |schemas| == 0 then []
    else
      var last := schemas[|schemas| - 1];
      AddClaims(Table(schemas[..|schemas| - 1], op), last, op, RootFieldNamesOf(last, op))
  }

  /** The first schema, in processing order, that lists `n` for `op`. */
  function FirstClaimant(schemas: seq<UpstreamSchema>, op: RootOperation, n: string): (r: Option<UpstreamSchema>)
    ensures r.None? <==> forall s :: s in schemas ==> n !in RootFieldNamesOf(s, op)
    ensures r.Some? ==> exists i :: 0 <= i < |schemas| && schemas[i] == r.value && n in RootFieldNamesOf(r.value, op)
                          && forall j :: 0 <= j < i ==> n !in RootFieldNamesOf(schemas[j], op)
  {
    if |schemas| == 0 then None
    else
      var init := schemas[..|schemas| - 1];
      var last := schemas[|schemas| - 1];
      assert forall s :: s in schemas <==> s in init || s == last by {
        assert schemas == init + [last];
      }
      var prior := FirstClaimant(init, op, n);
      if prior.Some? then prior
      else if n in RootFieldNamesOf(last, op) then Some(last)
      else None
  }

  /** The first listed root field without a definition, in processing order:
      each schema's query fields, then its mutation fields. */
  function FirstMissing(schemas: seq<UpstreamSchema>): Option<Claim>
  {
    if |schemas| == 0 then None
    else
      var prior := FirstMissing(schemas[..|schemas| - 1]);
      var last := schemas[|schemas| - 1];
      if prior.Some? then prior
      else
        var inQuery := FirstMissingIn(last, QueryRoot, last.queryFieldNames);
        if inQuery.Some? then inQuery else FirstMissingIn(last, MutationRoot, last.mutationFieldNames)
  }

  /** The first schema's root type name for `op` that is not null (`firstNotNullOfOrNull`). */
  function FirstRootTypeName(schemas: seq<UpstreamSchema>, op: RootOperation): (r: Option<string>)
    ensures r.None? <==> forall s :: s in schemas ==> RootTypeNameOf(s, op).None?
    ensures r.Some? ==> exists i :: 0 <= i < |schemas| && RootTypeNameOf(schemas[i], op) == r
                          && forall j :: 0 <= j < i ==> RootTypeNameOf(schemas[j], op).None?
  {
    if |schemas| == 0 then None
    else if RootTypeNameOf(schemas[0], op).Some? then RootTypeNameOf(schemas[0], op)
    else
      var r := FirstRootTypeName(schemas[1..], op);
      assert forall s :: s in schemas <==> s == schemas[0] || s in schemas[1..] by {
        assert schemas == [schemas[0]] + schemas[1..];
      }
      r
  }

  /** The ascending order of `sortedBy { it.service.priority }`. */
  predicate ByPriority(a: UpstreamSchema, b: UpstreamSchema)
  {
    a.service.priority <= b.service.priority
  }

  lemma ByPriorityTotalPreorder()
    ensures TotalPreorder(ByPriority)
  {
  }

  /** The merged root schema of schemas already in processing order. */
  function Merged(sorted: seq<UpstreamSchema>): GatewayRootSchema
  {
    var queryTypeName := FirstRootTypeName(sorted, QueryRoot);
    var mutationTypeName := FirstRootTypeName(sorted, MutationRoot);
    GatewayRootSchema(
      RootTypeDefinition(if queryTypeName.Some? then queryTypeName.value else "Query", Table(sorted, QueryRoot)),
      if mutationTypeName.Some? then Some(RootTypeDefinition(mutationTypeName.value, Table(sorted, MutationRoot)))
      else None)
  }

  /** What `merge` returns for `upstreamSchemas`, or the error it raises. */
  function MergeOutcome(upstreamSchemas: seq<UpstreamSchema>): Result<GatewayRootSchema, string>
  {
    var sorted := Sort(upstreamSchemas, ByPriority);
    match FirstMissing(sorted)
    case Some(c) => Failure(MissingFieldMessage(c))
    case None => Success(Merged(sorted))
  }

  // ---------------------------------------------------------------------
  // The merge
  // ---------------------------------------------------------------------

  /** One schema's `forEach` over its listed root field names of `op`: the
      missing-definition check comes first, then a name already routed is
      skipped and a new one is routed to this schema's service. */
  method AddRootFields(fields: seq<RoutedField>, schema: UpstreamSchema, op: RootOperation)
    returns (r: Result<seq<RoutedField>, string>)
    ensures var missing := FirstMissingIn(schema, op, RootFieldNamesOf(schema, op));
      && (r.Failure? <==> missing.Some?)
      && (r.Failure? ==> r.error == MissingFieldMessage(missing.value))
      && (r.Success? ==> r.value == AddClaims(fields, schema, op, RootFieldNamesOf(schema, op)))
  {
    var names := RootFieldNamesOf(schema, op);
    var routed := fields;
    for i := 0 to |names|
      invariant FirstMissingIn(schema, op, names[..i]).None?
      invariant routed == AddClaims(fields, schema, op, names[..i])
    {
      assert names[..i + 1][..i] == names[..i];
      var fieldName := names[i];
      var existing := FindRouted(routed, fieldName);
      var fieldDefinition := ResolveField(schema, op, fieldName);
      if fieldDefinition.None? {
        FirstMissingInPrefix(schema, op, names, i + 1);
        return Failure(MissingFieldMessage(Claim(schema, op, fieldName)));
      }
      if existing.None? {
        routed := routed + [RoutedField(fieldName, schema.service, fieldDefinition.value)];
      }
    }
    assert names[..|names|] == names;
    return Success(routed);
  }

  /** `merge`: the schemas in stable ascending priority order, each contributing
      its query fields and then its mutation fields; the first listed field
      without a definition aborts the merge. */
  method Merge(upstreamSchemas: seq<UpstreamSchema>) returns (r: Result<GatewayRootSchema, string>)
    ensures r == MergeOutcome(upstreamSchemas)
  {
    var sortedSchemas := Sort(upstreamSchemas, ByPriority);
    var queryFields: seq<RoutedField> := [];
    var mutationFields: seq<RoutedField> := [];
    for i := 0 to |sortedSchemas|
      invariant FirstMissing(sortedSchemas[..i]).None?
      invariant queryFields == Table(sortedSchemas[..i], QueryRoot)
      invariant mutationFields == Table(sortedSchemas[..i], MutationRoot)
    {
      assert sortedSchemas[..i + 1][..i] == sortedSchemas[..i];
      var schema := sortedSchemas[i];
      var query := AddRootFields(queryFields, schema, QueryRoot);
      if query.Failure? {
        FirstMissingPrefix(sortedSchemas, i + 1);
        return Failure(query.error);
      }
      var mutation := AddRootFields(mutationFields, schema, MutationRoot);
      if mutation.Failure? {
        FirstMissingPrefix(sortedSchemas, i + 1);
        return Failure(mutation.error);
      }
      queryFields := query.value;
      mutationFields := mutation.value;
    }
    assert sortedSchemas[..|sortedSchemas|] == sortedSchemas;

    var queryTypeName := FirstRootTypeName(sortedSchemas, QueryRoot);
    var mutationTypeName := FirstRootTypeName(sortedSchemas, MutationRoot);
    var query := RootTypeDefinition(if queryTypeName.Some? then queryTypeName.value else "Query", queryFields);
    var mutation := if mutationTypeName.Some? then Some(RootTypeDefinition(mutationTypeName.value, mutationFields)) else None;
    return Success(GatewayRootSchema(query, mutation));
  }

  lemma {:induction false} FirstMissingInPrefix(schema: UpstreamSchema, op: RootOperation, names: seq<string>, k: nat)
    requires k <= |names|
    requires FirstMissingIn(schema, op, names[..k]).Some?
    ensures FirstMissingIn(schema, op, names) == FirstMissingIn(schema, op, names[..k])
  {
    if k < |names| {
      assert names[..|names| - 1][..k] == names[..k];
      FirstMissingInPrefix(schema, op, names[..|names| - 1], k);
    } else {
      assert names[..k] == names;
    }
  }

  lemma {:induction false} FirstMissingPrefix(schemas: seq<UpstreamSchema>, k: nat)
    requires k <= |schemas|
    requires FirstMissing(schemas[..k]).Some?
    ensures FirstMissing(schemas) == FirstMissing(schemas[..k])
  {
    if k < |schemas| {
      assert schemas[..|schemas| - 1][..k] == schemas[..k];
      FirstMissingPrefix(schemas[..|schemas| - 1], k);
    } else {
      assert schemas[..k] == schemas;
    }
  }

  // ---------------------------------------------------------------------
  // What the merge promises
  // ---------------------------------------------------------------------

  /** No listed root field is missing exactly when every schema can back every
      name it lists, for both roots; a reported field is one of them. */
  lemma {:induction false} FirstMissingIff(schemas: seq<UpstreamSchema>)
    ensures FirstMissing(schemas).None? <==> Resolvable(schemas, QueryRoot) && Resolvable(schemas, MutationRoot)
    ensures FirstMissing(schemas).Some? ==>
      var c := FirstMissing(schemas).value;
      c.schema in schemas && c.fieldName in RootFieldNamesOf(c.schema, c.operation)
      && ResolveField(c.schema, c.operation, c.fieldName).None?
  {
    if |schemas| > 0 {
      var init := schemas[..|schemas| - 1];
      var last := schemas[|schemas| - 1];
      assert schemas == init + [last];
      FirstMissingIff(init);
      if FirstMissing(schemas).None? {
        forall op ensures Resolvable(schemas, op) {
          forall s, n | s in schemas && n in RootFieldNamesOf(s, op) ensures ResolveField(s, op, n).Some? {
            if s != last {
              assert s in init;
            }
          }
        }
      }
    }
  }

  /** The merge fails exactly when some upstream lists a root field that its
      own root type does not define, whether or not another upstream already
      owns that name. */
  lemma MergeFailsIff(upstreamSchemas: seq<UpstreamSchema>)
    ensures MergeOutcome(upstreamSchemas).Failure?
        <==> exists s, op, n :: s in upstreamSchemas && n in RootFieldNamesOf(s, op) && ResolveField(s, op, n).None?
  {
    var sorted := Sort(upstreamSchemas, ByPriority);
    SortPermutes(upstreamSchemas, ByPriority);
    SortMembers(upstreamSchemas, ByPriority);
    FirstMissingIff(sorted);
    if exists s, op, n :: s in upstreamSchemas && n in RootFieldNamesOf(s, op) && ResolveField(s, op, n).None? {
      var s, op, n :| s in upstreamSchemas && n in RootFieldNamesOf(s, op) && ResolveField(s, op, n).None?;
      assert !Resolvable(sorted, op);
    }
  }

  /** The table of `op` routes each name at most once, and exactly the names
      some schema lists. */
  lemma {:induction false} TableNames(schemas: seq<UpstreamSchema>, op: RootOperation)
    requires Resolvable(schemas, op)
    ensures DistinctNames(Table(schemas, op))
    ensures forall n :: n in NamesOf(Table(schemas, op)) <==> FirstClaimant(schemas, op, n).Some?
  {
    if |schemas| > 0 {
      var init := schemas[..|schemas| - 1];
      var last := schemas[|schemas| - 1];
      assert schemas == init + [last];
      assert Resolvable(init, op);
      TableNames(init, op);
      AddClaimsNames(Table(init, op), last, op, RootFieldNamesOf(last, op));
    }
  }

  /** Each routed field belongs to the first schema in processing order that
      lists its name, with that schema's definition of the field. */
  lemma {:induction false} TableMembers(schemas: seq<UpstreamSchema>, op: RootOperation, f: RoutedField)
    requires Resolvable(schemas, op)
    ensures f in Table(schemas, op) <==>
      && FirstClaimant(schemas, op, f.fieldName).Some?
      && f.service == FirstClaimant(schemas, op, f.fieldName).value.service
      && ResolveField(FirstClaimant(schemas, op, f.fieldName).value, op, f.fieldName) == Some(f.definition)
  {
    if |schemas| > 0 {
      var init := schemas[..|schemas| - 1];
      var last := schemas[|schemas| - 1];
      assert schemas == init + [last];
      assert Resolvable(init, op);
      TableMembers(init, op, f);
      TableNames(init, op);
      AddClaimsMembers(Table(init, op), last, op, RootFieldNamesOf(last, op), f);
    }
  }

  /** A routed field's owner is a schema that lists it with the lowest priority
      number among all such schemas. */
  lemma OwnerHasLowestPriority(upstreamSchemas: seq<UpstreamSchema>, op: RootOperation, f: RoutedField)
    requires Resolvable(upstreamSchemas, op)
    requires f in Table(Sort(upstreamSchemas, ByPriority), op)
    ensures exists s :: s in upstreamSchemas && f.fieldName in RootFieldNamesOf(s, op)
                        && s.service == f.service && ResolveField(s, op, f.fieldName) == Some(f.definition)
    ensures forall s :: s in upstreamSchemas && f.fieldName in RootFieldNamesOf(s, op) ==>
              f.service.priority <= s.service.priority
  {
    var sorted := Sort(upstreamSchemas, ByPriority);
    SortMembers(upstreamSchemas, ByPriority);
    ByPriorityTotalPreorder();
    SortSorted(upstreamSchemas, ByPriority);
    assert Resolvable(sorted, op);
    TableMembers(sorted, op, f);
    var owner := FirstClaimant(sorted, op, f.fieldName).value;
    assert owner in upstreamSchemas;
    forall s | s in upstreamSchemas && f.fieldName in RootFieldNamesOf(s, op)
      ensures owner.service.priority <= s.service.priority
    {
      assert s in sorted;
      FirstClaimantLowest(sorted, op, f.fieldName, s);
    }
  }

  /** In a priority-sorted sequence the first claimant has the lowest priority
      number among the claimants. */
  lemma FirstClaimantLowest(sorted: seq<UpstreamSchema>, op: RootOperation, n: string, s: UpstreamSchema)
    requires Sorted(sorted, ByPriority)
    requires s in sorted && n in RootFieldNamesOf(s, op)
    ensures FirstClaimant(sorted, op, n).Some?
    ensures FirstClaimant(sorted, op, n).value.service.priority <= s.service.priority
  {
    var owner := FirstClaimant(sorted, op, n).value;
    var i :| 0 <= i < |sorted| && sorted[i] == owner
             && forall j :: 0 <= j < i ==> n !in RootFieldNamesOf(sorted[j], op);
    var k :| 0 <= k < |sorted| && sorted[k] == s;
    if i < k {
      assert ByPriority(sorted[i], sorted[k]);
    }
  }

  /** On success, each routing table names every listed root field once, owned
      by a listing upstream of lowest priority number, and the routing maps
      send each routed name to its owner. */
  lemma MergeRoutes(upstreamSchemas: seq<UpstreamSchema>, op: RootOperation, n: string)
    requires MergeOutcome(upstreamSchemas).Success?
    ensures var merged := MergeOutcome(upstreamSchemas).value;
      var table := Table(Sort(upstreamSchemas, ByPriority), op);
      var routing := if op == QueryRoot then QueryRouting(merged) else MutationRouting(merged);
      && DistinctNames(table)
      && (op == QueryRoot ==> merged.query.fields == table)
      && (op == MutationRoot && merged.mutation.Some? ==> merged.mutation.value.fields == table)
      && (FindRouted(table, n).Some? <==> exists s :: s in upstreamSchemas && n in RootFieldNamesOf(s, op))
      && (FindRouted(table, n).Some? && (op == QueryRoot || merged.mutation.Some?) ==>
            n in routing && routing[n] == FindRouted(table, n).value.service)
      && (FindRouted(table, n).Some? ==>
            forall s :: s in upstreamSchemas && n in RootFieldNamesOf(s, op) ==>
              FindRouted(table, n).value.service.priority <= s.service.priority)
  {
    var sorted := Sort(upstreamSchemas, ByPriority);
    MergeFailsIff(upstreamSchemas);
    FirstMissingIff(sorted);
    SortPermutes(upstreamSchemas, ByPriority);
    SortMembers(upstreamSchemas, ByPriority);
    var table := Table(sorted, op);
    TableNames(sorted, op);
    if FindRouted(table, n).Some? {
      var f := FindRouted(table, n).value;
      AssociateDistinct(table, f);
      OwnerHasLowestPriority(upstreamSchemas, op, f);
    }
  }

  /** The query root is named after the first schema in priority order that
      names one, else `Query`. */
  lemma MergeQueryRootName(upstreamSchemas: seq<UpstreamSchema>)
    requires MergeOutcome(upstreamSchemas).Success?
    ensures var merged := MergeOutcome(upstreamSchemas).value;
      && ((forall s :: s in upstreamSchemas ==> s.queryTypeName.None?) ==> merged.query.typeName == "Query")
      && ((exists s :: s in upstreamSchemas && s.queryTypeName.Some?) ==>
            exists s :: s in upstreamSchemas && s.queryTypeName == Some(merged.query.typeName)
              && forall t :: t in upstreamSchemas && t.queryTypeName.Some? ==> s.service.priority <= t.service.priority)
  {
    var sorted := Sort(upstreamSchemas, ByPriority);
    SortSorted(upstreamSchemas, ByPriority);
    SortMembers(upstreamSchemas, ByPriority);
    FirstRootTypeNameLowest(sorted, QueryRoot);
  }

  /** In priority order, the first schema naming a root type has the lowest
      priority number among those that name one. */
  lemma FirstRootTypeNameLowest(sorted: seq<UpstreamSchema>, op: RootOperation)
    requires Sorted(sorted, ByPriority)
    ensures FirstRootTypeName(sorted, op).Some? ==>
      exists s :: s in sorted && RootTypeNameOf(s, op) == FirstRootTypeName(sorted, op)
        && forall t :: t in sorted && RootTypeNameOf(t, op).Some? ==> s.service.priority <= t.service.priority
  {
    var q := FirstRootTypeName(sorted, op);
    if q.Some? {
      var i :| 0 <= i < |sorted| && RootTypeNameOf(sorted[i], op) == q
               && forall j :: 0 <= j < i ==> RootTypeNameOf(sorted[j], op).None?;
      forall t | t in sorted && RootTypeNameOf(t, op).Some? ensures sorted[i].service.priority <= t.service.priority {
        var k :| 0 <= k < |sorted| && sorted[k] == t;
        if k != i {
          assert ByPriority(sorted[i], sorted[k]);
        }
      }
      assert sorted[i] in sorted;
    }
  }

  /** The mutation root exists exactly when some schema names a mutation
      type; without one there is no mutation routing. */
  lemma MergeMutationRoot(upstreamSchemas: seq<UpstreamSchema>)
    requires MergeOutcome(upstreamSchemas).Success?
    ensures var merged := MergeOutcome(upstreamSchemas).value;
      && (merged.mutation.Some? <==> exists s :: s in upstreamSchemas && s.mutationTypeName.Some?)
      && (merged.mutation.None? ==> MutationRouting(merged) == map[])
  {
    SortMembers(upstreamSchemas, ByPriority);
  }

  /** With no two upstreams sharing a priority, the merge does not depend on
      the order in which the upstreams are given. */
  lemma MergeIgnoresInputOrder(a: seq<UpstreamSchema>, b: seq<UpstreamSchema>)
    requires multiset(a) == multiset(b)
    requires forall i, j :: 0 <= i < |a| && 0 <= j < |a| && a[i].service.priority == a[j].service.priority ==> a[i] == a[j]
    ensures MergeOutcome(a) == MergeOutcome(b)
  {
    ByPriorityTotalPreorder();
    SortIgnoresInputOrder(a, b, ByPriority);
  }
}
