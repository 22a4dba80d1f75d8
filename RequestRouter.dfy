/** The routing decision for an incoming GraphQL request: the operation is
    selected as section 6.1 of the GraphQL specification describes, a chain
    of checks rejects what the gateway cannot forward, and every root field
    must be served by one and the same upstream. */
module RequestRouter {
  import opened Wrappers
  import opened Strings
  import opened SchemaTypes
  import opened RootSchemaMerger
  import opened GraphQLDocument

  /** A request routed to one upstream, with its root field names in order. */
  datatype RoutedRequest = RoutedRequest(service: UpstreamService, operationType: OperationType, rootFieldNames: seq<string>)

  // ---------------------------------------------------------------------
  // Operation selection
  // ---------------------------------------------------------------------

  /** The position of the first operation named `name`. */
  function FindOperation(operations: seq<OperationDefinition>, name: string): (r: Option<nat>)
    ensures r.Some? ==> r.value < |operations| && operations[r.value].name == Some(name)
    ensures r.Some? ==> forall j :: 0 <= j < r.value ==> operations[j].name != Some(name)
    ensures r.None? ==> forall j :: 0 <= j < |operations| ==> operations[j].name != Some(name)
  {
    if |operations| == 0 then None
    else if operations[0].name == Some(name) then Some(0)
    else
      match FindOperation(operations[1..], name)
      case None => None
      case Some(k) => Some(k + 1)
  }

  /** `resolveOperation`: the first operation with the requested name; without
      a name, the only operation. */
  function ResolveOperation(operations: seq<OperationDefinition>, operationName: Option<string>): Result<OperationDefinition, string>
    requires |operations| > 0
  {
    if operationName.Some? then
      match FindOperation(operations, operationName.value)
      case Some(k) => Success(operations[k])
      case None => Failure("Operation '" + operationName.value + "' was not found in the GraphQL document")
    else if |operations| > 1 then Failure("operationName must be provided when multiple operations are present")
    else Success(operations[0])
  }

  /** GetOperation of section 6.1 of the GraphQL specification: with a name,
      an operation of that name (the first, when a document repeats it);
      without one, the document's only operation. */
  ghost predicate Selected(operations: seq<OperationDefinition>, operationName: Option<string>, op: OperationDefinition)
  {
    if operationName.Some? then
      exists k :: 0 <= k < |operations| && operations[k] == op && op.name == operationName
        && forall j :: 0 <= j < k ==> operations[j].name != operationName
    else
      |operations| == 1 && op == operations[0]
  }

  lemma {:induction false} FindOperationFirst(operations: seq<OperationDefinition>, name: string, k: nat)
    requires k < |operations| && operations[k].name == Some(name)
    requires forall j :: 0 <= j < k ==> operations[j].name != Some(name)
    ensures FindOperation(operations, name) == Some(k)
  {
    if k > 0 {
      FindOperationFirst(operations[1..], name, k - 1);
    }
  }

  /** `resolveOperation` succeeds exactly when section 6.1 of the GraphQL specification selects an
      operation, and then returns that operation. */
  lemma ResolveOperationSelects(operations: seq<OperationDefinition>, operationName: Option<string>, op: OperationDefinition)
    requires |operations| > 0
    ensures ResolveOperation(operations, operationName) == Success(op) <==> Selected(operations, operationName, op)
  {
    if operationName.Some? {
      if Selected(operations, operationName, op) {
        var k :| 0 <= k < |operations| && operations[k] == op && op.name == operationName
          && forall j :: 0 <= j < k ==> operations[j].name != operationName;
        FindOperationFirst(operations, operationName.value, k);
      }
    }
  }

  // ---------------------------------------------------------------------
  // Root fields and their owners
  // ---------------------------------------------------------------------

  /** Every root selection is a plain field. */
  predicate AllFields(selections: seq<Selection>)
  {
    forall i :: 0 <= i < |selections| ==> selections[i].Field?
  }

  /** The root field names, failing at the first selection that is not a field. */
  function RootFieldNames(selections: seq<Selection>): (r: Result<seq<string>, string>)
    ensures r.Success? <==> AllFields(selections)
    ensures r.Success? ==> |r.value| == |selections| && forall i :: 0 <= i < |selections| ==> r.value[i] == selections[i].name
    ensures r.Failure? ==> exists k :: (0 <= k < |selections| && !selections[k].Field?
      && (forall j :: 0 <= j < k ==> selections[j].Field?)
      && r.error == "Unsupported selection " + SelectionKindName(selections[k]) + " at operation root")
  {
    if |selections| == 0 then Success([])
    else if !selections[0].Field? then
      Failure("Unsupported selection " + SelectionKindName(selections[0]) + " at operation root")
    else
      match RootFieldNames(selections[1..])
      case Failure(e) =>
        var k :| 0 <= k < |selections[1..]| && !selections[1..][k].Field?
          && (forall j :: 0 <= j < k ==> selections[1..][j].Field?)
          && e == "Unsupported selection " + SelectionKindName(selections[1..][k]) + " at operation root";
        assert !selections[k + 1].Field?;
        Failure(e)
      case Success(names) => Success([selections[0].name] + names)
  }

  /** Each field's owner from the routing table, failing at the first field the table lacks. */
  function ResolveServices(table: map<string, UpstreamService>, fieldNames: seq<string>): (r: Result<seq<UpstreamService>, string>)
    ensures r.Success? <==> forall i :: 0 <= i < |fieldNames| ==> fieldNames[i] in table
    ensures r.Success? ==> |r.value| == |fieldNames| && forall i :: 0 <= i < |fieldNames| ==> r.value[i] == table[fieldNames[i]]
  {
    if |fieldNames| == 0 then Success([])
    else if fieldNames[0] !in table then MissingField(fieldNames[0])
    else
      match ResolveServices(table, fieldNames[1..])
      case Failure(e) => Failure(e)
      case Success(services) => Success([table[fieldNames[0]]] + services)
  }

  function MissingField(fieldName: string): Result<seq<UpstreamService>, string>
  {
    Failure("Field '" + fieldName + "' is not available in gateway schema")
  }

  /** The first field the table lacks is the one reported. */
  lemma {:induction false} ResolveServicesReportsFirstMissing(table: map<string, UpstreamService>, fieldNames: seq<string>, k: nat)
    requires k < |fieldNames| && fieldNames[k] !in table
    requires forall j :: 0 <= j < k ==> fieldNames[j] in table
    ensures ResolveServices(table, fieldNames) == MissingField(fieldNames[k])
  {
    if k > 0 {
      ResolveServicesReportsFirstMissing(table, fieldNames[1..], k - 1);
    }
  }

  /** The position of the first occurrence of `s` in `services`. */
  function FirstIndex(services: seq<UpstreamService>, s: UpstreamService): (k: nat)
    requires s in services
    ensures k < |services| && services[k] == s
    ensures forall j :: 0 <= j < k ==> services[j] != s
  {
    if services[0] == s then 0 else 1 + FirstIndex(services[1..], s)
  }

  lemma FirstIndexInPrefix(services: seq<UpstreamService>, n: nat, s: UpstreamService)
    requires n <= |services| && s in services[..n]
    ensures FirstIndex(services, s) == FirstIndex(services[..n], s)
  {
    assert forall j :: 0 <= j < n ==> services[..n][j] == services[j];
  }

  /** `services.distinct()`: each service once, in order of first appearance. */
  function DistinctServices(services: seq<UpstreamService>): (r: seq<UpstreamService>)
    ensures forall s :: s in r <==> s in services
    ensures forall i, j :: 0 <= i < j < |r| ==> r[i] != r[j]
    ensures forall i, j :: 0 <= i < j < |r| ==> FirstIndex(services, r[i]) < FirstIndex(services, r[j])
  {
    if |services| == 0 then []
    else
      var prefix := services[..|services| - 1];
      var init := DistinctServices(prefix);
      var last := services[|services| - 1];
      assert forall s :: s in services <==> s in prefix || s == last;
      assert forall s | s in init :: FirstIndex(services, s) == FirstIndex(prefix, s) by {
        forall s | s in init ensures FirstIndex(services, s) == FirstIndex(prefix, s) {
          FirstIndexInPrefix(services, |services| - 1, s);
        }
      }
      if last in init then init
      else
        assert FirstIndex(services, last) == |services| - 1 by {
          forall j | 0 <= j < |services| - 1 ensures services[j] != last {
            assert services[j] == prefix[j];
          }
        }
        init + [last]
  }

  lemma {:induction false} DistinctServicesConstant(services: seq<UpstreamService>)
    requires |services| > 0
    requires forall i :: 0 <= i < |services| ==> services[i] == services[0]
    ensures DistinctServices(services) == [services[0]]
  {
    if |services| > 1 {
      DistinctServicesConstant(services[..|services| - 1]);
    }
  }

  /** The distinct list has one entry exactly when every service is the first,
      and it is never empty. */
  lemma DistinctServicesSingle(services: seq<UpstreamService>)
    requires |services| > 0
    ensures |DistinctServices(services)| == 1 <==> forall i :: 0 <= i < |services| ==> services[i] == services[0]
    ensures |DistinctServices(services)| >= 1
    ensures |DistinctServices(services)| == 1 ==> DistinctServices(services)[0] == services[0]
  {
    var r := DistinctServices(services);
    assert services[0] in r;
    if |r| == 1 {
      forall i | 0 <= i < |services| ensures services[i] == services[0] {
        assert services[i] in r;
      }
    }
    if forall i :: 0 <= i < |services| ==> services[i] == services[0] {
      DistinctServicesConstant(services);
    }
  }

  function ServiceNames(services: seq<UpstreamService>): (r: seq<string>)
    ensures |r| == |services|
    ensures forall i :: 0 <= i < |services| ==> r[i] == services[i].name
  {
    seq(|services|, i requires 0 <= i < |services| => services[i].name)
  }

  // ---------------------------------------------------------------------
  // The routing decision
  // ---------------------------------------------------------------------

  /** The routing table for a query or mutation operation. */
  function RoutingTable(root: GatewayRootSchema, t: OperationType): map<string, UpstreamService>
  {
    if t == Query then QueryRouting(root) else MutationRouting(root)
  }

  /** `route`: the routed request, or the message of the first check it fails. */
  function Route(root: GatewayRootSchema, document: Document, operationName: Option<string>): Result<RoutedRequest, string>
  {
    match document
    case ParseFailed(message) =>
      Failure(if message.Some? then message.value else "Failed to parse GraphQL query")
    case Parsed(operations, _) =>
      if |operations| == 0 then Failure("No operations defined in GraphQL document")
      else
        match ResolveOperation(operations, operationName)
        case Failure(e) => Failure(e)
        case Success(op) => RouteOperation(root, op)
  }

  /** The checks on the selected operation, in the order `route` makes them. */
  function RouteOperation(root: GatewayRootSchema, op: OperationDefinition): Result<RoutedRequest, string>
  {
    if op.operation != Query && op.operation != Mutation then
      Failure("Unsupported operation type: " + OperationTypeName(op.operation))
    else if |op.selections| == 0 then Failure("Operation contains no fields")
    else
      match RootFieldNames(op.selections)
      case Failure(e) => Failure(e)
      case Success(fieldNames) =>
        var table := RoutingTable(root, op.operation);
        if table == map[] then
          Failure("No routing information available for " + OperationTypeName(op.operation) + " operations")
        else
          match ResolveServices(table, fieldNames)
          case Failure(e) => Failure(e)
          case Success(services) =>
            var distinct := DistinctServices(services);
            if |distinct| > 1 then
              Failure("Query references fields from multiple upstream services: " + Join(ServiceNames(distinct), ", "))
            else if |distinct| == 0 then Failure("No routed fields were resolved for the requested operation")
            else Success(RoutedRequest(distinct[0], op.operation, fieldNames))
  }

  /** The names of root selections that are all fields. */
  function FieldNamesOf(selections: seq<Selection>): (r: seq<string>)
    requires AllFields(selections)
    ensures |r| == |selections|
    ensures forall i :: 0 <= i < |selections| ==> r[i] == selections[i].name
  {
    seq(|selections|, i requires 0 <= i < |selections| && AllFields(selections) => selections[i].name)
  }

  /** An operation the gateway forwards whole to `req.service`: a query or a
      mutation whose root selections are fields, at least one, all routed to
      that service. */
  ghost predicate Forwardable(root: GatewayRootSchema, op: OperationDefinition, req: RoutedRequest)
  {
    && (op.operation == Query || op.operation == Mutation)
    && |op.selections| > 0
    && AllFields(op.selections)
    && req.operationType == op.operation
    && req.rootFieldNames == FieldNamesOf(op.selections)
    && forall i :: 0 <= i < |op.selections| ==>
         op.selections[i].name in RoutingTable(root, op.operation)
         && RoutingTable(root, op.operation)[op.selections[i].name] == req.service
  }

  /** A forwardable operation is routed to its one service. */
  lemma RouteOperationAccepts(root: GatewayRootSchema, op: OperationDefinition, req: RoutedRequest)
    requires Forwardable(root, op, req)
    ensures RouteOperation(root, op) == Success(req)
  {
    var fieldNames := RootFieldNames(op.selections).value;
    assert fieldNames == FieldNamesOf(op.selections);
    var table := RoutingTable(root, op.operation);
    assert fieldNames[0] in table;
    var services := ResolveServices(table, fieldNames).value;
    DistinctServicesSingle(services);
  }

  /** A routed operation is forwardable to the service it is routed to. */
  lemma RouteOperationSound(root: GatewayRootSchema, op: OperationDefinition)
    requires RouteOperation(root, op).Success?
    ensures Forwardable(root, op, RouteOperation(root, op).value)
  {
    var fieldNames := RootFieldNames(op.selections).value;
    assert fieldNames == FieldNamesOf(op.selections);
    var table := RoutingTable(root, op.operation);
    var services := ResolveServices(table, fieldNames).value;
    DistinctServicesSingle(services);
  }

  /** The selected operation is routed exactly when it is forwardable, and then
      to the one service that serves all its root fields. */
  lemma RouteOperationIff(root: GatewayRootSchema, op: OperationDefinition, req: RoutedRequest)
    ensures RouteOperation(root, op) == Success(req) <==> Forwardable(root, op, req)
  {
    if Forwardable(root, op, req) {
      RouteOperationAccepts(root, op, req);
    }
    if RouteOperation(root, op) == Success(req) {
      RouteOperationSound(root, op);
    }
  }

  /** `route` succeeds exactly when the document parsed, section 6.1 of the GraphQL specification selects an
      operation, and that operation is forwardable to the routed service. */
  lemma RouteIff(root: GatewayRootSchema, document: Document, operationName: Option<string>, req: RoutedRequest)
    ensures Route(root, document, operationName) == Success(req) <==>
      && document.Parsed? && |document.operations| > 0
      && exists op :: Selected(document.operations, operationName, op) && Forwardable(root, op, req)
  {
    if document.Parsed? && |document.operations| > 0 {
      var operations := document.operations;
      match ResolveOperation(operations, operationName)
      case Failure(_) =>
        forall op | Selected(operations, operationName, op) ensures false {
          ResolveOperationSelects(operations, operationName, op);
        }
      case Success(selected) =>
        ResolveOperationSelects(operations, operationName, selected);
        RouteOperationIff(root, selected, req);
        forall op | Selected(operations, operationName, op) ensures op == selected {
          ResolveOperationSelects(operations, operationName, op);
        }
    }
  }

  /** A root field missing from the table is reported before any mixing of
      services is: the first missing field is named. */
  lemma RouteReportsFirstMissingField(root: GatewayRootSchema, op: OperationDefinition, k: nat)
    requires op.operation == Query || op.operation == Mutation
    requires AllFields(op.selections)
    requires RoutingTable(root, op.operation) != map[]
    requires k < |op.selections| && op.selections[k].name !in RoutingTable(root, op.operation)
    requires forall j :: 0 <= j < k ==> op.selections[j].name in RoutingTable(root, op.operation)
    ensures RouteOperation(root, op) == Failure("Field '" + op.selections[k].name + "' is not available in gateway schema")
  {
    var fieldNames := RootFieldNames(op.selections).value;
    ResolveServicesReportsFirstMissing(RoutingTable(root, op.operation), fieldNames, k);
  }

  /** Root fields served by two different services are rejected, naming each
      service once, in the order of their first fields. */
  lemma RouteRejectsMixedServices(root: GatewayRootSchema, op: OperationDefinition, i: nat, j: nat)
    requires op.operation == Query || op.operation == Mutation
    requires AllFields(op.selections)
    requires forall k :: 0 <= k < |op.selections| ==> op.selections[k].name in RoutingTable(root, op.operation)
    requires i < |op.selections| && j < |op.selections|
    requires RoutingTable(root, op.operation)[op.selections[i].name] != RoutingTable(root, op.operation)[op.selections[j].name]
    ensures var services := ResolveServices(RoutingTable(root, op.operation), FieldNamesOf(op.selections)).value;
      RouteOperation(root, op)
        == Failure("Query references fields from multiple upstream services: " + Join(ServiceNames(DistinctServices(services)), ", "))
  {
    var table := RoutingTable(root, op.operation);
    var fieldNames := RootFieldNames(op.selections).value;
    assert fieldNames == FieldNamesOf(op.selections);
    assert fieldNames[0] in table;
    var services := ResolveServices(table, fieldNames).value;
    DistinctServicesSingle(services);
    assert services[i] != services[j];
  }
}
