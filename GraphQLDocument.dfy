/** A parsed GraphQL request document, reduced to what the router and the
    introspection detector look at. Parsing itself is not modelled: a
    document is either its definitions or the parser's failure. */
module GraphQLDocument {
  import opened Wrappers

  /** The operation types of section 2.3 of the GraphQL specification. */
  datatype OperationType = Query | Mutation | Subscription

  /** A selection (section 2.4 of the GraphQL specification): a field, an inline fragment with its own
      selections, or a spread of a named fragment. */
  datatype Selection =
    | Field(name: string)
    | InlineFragment(selections: seq<Selection>)
    | FragmentSpread(fragmentName: string)

  /** An operation with its type, its optional name and its root selections. */
  datatype OperationDefinition = OperationDefinition(operation: OperationType, name: Option<string>, selections: seq<Selection>)

  datatype FragmentDefinition = FragmentDefinition(name: string, selections: seq<Selection>)

  /** The operations and fragment definitions in document order, or the
      parser's failure with its message, if it had one. */
  datatype Document =
    | Parsed(operations: seq<OperationDefinition>, fragments: seq<FragmentDefinition>)
    | ParseFailed(message: Option<string>)

  /** `operation.name.lowercase()`. */
  function OperationTypeName(t: OperationType): string
  {
    match t
    case Query => "query"
    case Mutation => "mutation"
    case Subscription => "subscription"
  }

  /** The simple class name of a selection's node, as error messages print it. */
  function SelectionKindName(s: Selection): string
  {
    match s
    case Field(_) => "Field"
    case InlineFragment(_) => "InlineFragment"
    case FragmentSpread(_) => "FragmentSpread"
  }
}
