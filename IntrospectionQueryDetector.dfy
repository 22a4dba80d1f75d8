/** Recognises requests that only ask for the schema's meta-fields (names
    beginning with `__`, section 4 of the GraphQL specification), which the
    gateway answers itself. */
module IntrospectionQueryDetector {
  import opened Wrappers
  import opened Strings
  import opened GraphQLDocument

  /** `associateBy { it.name }`: each fragment's selections by name; a later
      definition of a name replaces an earlier one. */
  function FragmentMap(fragments: seq<FragmentDefinition>): (r: map<string, seq<Selection>>)
    ensures forall n :: n in r <==> exists i :: 0 <= i < |fragments| && fragments[i].name == n
  {
    if |fragments| == 0 then map[]
    else
      var last := fragments[|fragments| - 1];
      var r := FragmentMap(fragments[..|fragments| - 1]);
      assert forall i :: 0 <= i < |fragments| - 1 ==> fragments[..|fragments| - 1][i] == fragments[i];
      r[last.name := last.selections]
  }

  /** `isIntrospectionSelection`: a field whose name starts with `__`, an inline
      fragment all of whose selections qualify, or a spread of a defined
      fragment all of whose selections qualify. `visiting` holds the fragments
      whose spreads are being expanded; spreading one of them again is
      rejected. */
  function IsIntrospectionSelection(fragments: map<string, seq<Selection>>, visiting: set<string>, s: Selection): bool
    decreases fragments.Keys - visiting, s, 1
  {
    match s
    case Field(name) => StartsWith(name, "__")
    case InlineFragment(selections) => AllIntrospective(fragments, visiting, selections)
    case FragmentSpread(name) =>
      name in fragments && name !in visiting && AllIntrospective(fragments, visiting + {name}, fragments[name])
  }

  /** `selections.all { it.isIntrospectionSelection(fragments) }`. */
  function AllIntrospective(fragments: map<string, seq<Selection>>, visiting: set<string>, selections: seq<Selection>): bool
    decreases fragments.Keys - visiting, selections, 0
  {
    forall i :: 0 <= i < |selections| ==> IsIntrospectionSelection(fragments, visiting, selections[i])
  }

  /** The operations a request targets: those with the requested name, or all of them. */
  function Targets(operations: seq<OperationDefinition>, operationName: Option<string>): (r: seq<OperationDefinition>)
    ensures forall op :: op in r <==> op in operations && (operationName.Some? ==> op.name == operationName)
  {
    if operationName.None? then operations
    else if |operations| == 0 then []
    else
      var init := Targets(operations[..|operations| - 1], operationName);
      var last := operations[|operations| - 1];
      assert forall op :: op in operations <==> op in operations[..|operations| - 1] || op == last;
      init + (if last.name == operationName then [last] else [])
  }

  /** A query whose root selections all qualify. */
  predicate IsIntrospectionOperation(fragments: map<string, seq<Selection>>, op: OperationDefinition)
  {
    op.operation == Query && AllIntrospective(fragments, {}, op.selections)
  }

  /** `isIntrospectionQuery`: false for a document that did not parse, that
      has no operations or no operation of the requested name; otherwise
      whether every targeted operation qualifies. */
  function IsIntrospectionQuery(document: Document, operationName: Option<string>): bool
  {
    match document
    case ParseFailed(_) => false
    case Parsed(operations, fragments) =>
      if |operations| == 0 then false
      else
        var targets := Targets(operations, operationName);
        if |targets| == 0 then false
        else forall i :: 0 <= i < |targets| ==> IsIntrospectionOperation(FragmentMap(fragments), targets[i])
  }

  /** A request is answered as introspection exactly when the document parsed,
      some operation is targeted, and every targeted operation (each one with
      the requested name, or every operation when no name is given) is a
      query of meta-fields only. */
  lemma IsIntrospectionQueryIff(document: Document, operationName: Option<string>)
    ensures IsIntrospectionQuery(document, operationName) <==>
      && document.Parsed?
      && (exists op :: op in document.operations && (operationName.Some? ==> op.name == operationName))
      && (forall op :: op in document.operations && (operationName.Some? ==> op.name == operationName)
            ==> IsIntrospectionOperation(FragmentMap(document.fragments), op))
  {
    if document.Parsed? {
      var fragments := FragmentMap(document.fragments);
      var targets := Targets(document.operations, operationName);
      assert (exists op :: op in document.operations && (operationName.Some? ==> op.name == operationName)) <==> |targets| > 0 by {
        if |targets| > 0 {
          assert targets[0] in targets;
        }
      }
      assert (forall op :: op in document.operations && (operationName.Some? ==> op.name == operationName)
                ==> IsIntrospectionOperation(fragments, op))
         <==> (forall i :: 0 <= i < |targets| ==> IsIntrospectionOperation(fragments, targets[i])) by {
        if forall i :: 0 <= i < |targets| ==> IsIntrospectionOperation(fragments, targets[i]) {
          forall op | op in document.operations && (operationName.Some? ==> op.name == operationName)
            ensures IsIntrospectionOperation(fragments, op)
          {
            assert op in targets;
          }
        }
      }
      if |targets| > 0 {
        assert targets[0] in document.operations;
      }
    }
  }

  /** Fragments already on the spread path can only turn an answer to false:
      the guard that ends a cyclic expansion never makes a selection qualify. */
  lemma {:induction false} VisitingOnlyRejects(fragments: map<string, seq<Selection>>, v: set<string>, w: set<string>, s: Selection)
    requires v <= w
    ensures IsIntrospectionSelection(fragments, w, s) ==> IsIntrospectionSelection(fragments, v, s)
    decreases fragments.Keys - w, s, 1
  {
    match s
    case Field(_) =>
    case InlineFragment(selections) =>
      AllVisitingOnlyRejects(fragments, v, w, selections);
    case FragmentSpread(name) =>
      if name in fragments && name !in w {
        AllVisitingOnlyRejects(fragments, v + {name}, w + {name}, fragments[name]);
      }
  }

  lemma {:induction false} AllVisitingOnlyRejects(fragments: map<string, seq<Selection>>, v: set<string>, w: set<string>, selections: seq<Selection>)
    requires v <= w
    ensures AllIntrospective(fragments, w, selections) ==> AllIntrospective(fragments, v, selections)
    decreases fragments.Keys - w, selections, 0
  {
    forall i | 0 <= i < |selections|
      ensures IsIntrospectionSelection(fragments, w, selections[i]) ==> IsIntrospectionSelection(fragments, v, selections[i])
    {
      VisitingOnlyRejects(fragments, v, w, selections[i]);
    }
  }

  /** The field names a selection asks for once its fragments are expanded,
      following each fragment at most once along a spread path. */
  function RequestedFields(fragments: map<string, seq<Selection>>, visiting: set<string>, s: Selection): set<string>
    decreases fragments.Keys - visiting, s, 1
  {
    match s
    case Field(name) => {name}
    case InlineFragment(selections) => AllRequestedFields(fragments, visiting, selections)
    case FragmentSpread(name) =>
      if name in fragments && name !in visiting then AllRequestedFields(fragments, visiting + {name}, fragments[name]) else {}
  }

  function AllRequestedFields(fragments: map<string, seq<Selection>>, visiting: set<string>, selections: seq<Selection>): set<string>
    decreases fragments.Keys - visiting, selections, 0
  {
    if |selections| == 0 then {}
    else
      AllRequestedFields(fragments, visiting, selections[..|selections| - 1])
        + RequestedFields(fragments, visiting, selections[|selections| - 1])
  }

  /** A qualifying selection asks for meta-fields only. */
  lemma {:induction false} IntrospectiveAsksMetaOnly(fragments: map<string, seq<Selection>>, visiting: set<string>, s: Selection, n: string)
    requires IsIntrospectionSelection(fragments, visiting, s)
    requires n in RequestedFields(fragments, visiting, s)
    ensures StartsWith(n, "__")
    decreases fragments.Keys - visiting, s, 1
  {
    match s
    case Field(_) =>
    case InlineFragment(selections) =>
      AllIntrospectiveAsksMetaOnly(fragments, visiting, selections, n);
    case FragmentSpread(name) =>
      AllIntrospectiveAsksMetaOnly(fragments, visiting + {name}, fragments[name], n);
  }

  lemma {:induction false} AllIntrospectiveAsksMetaOnly(fragments: map<string, seq<Selection>>, visiting: set<string>, selections: seq<Selection>, n: string)
    requires AllIntrospective(fragments, visiting, selections)
    requires n in AllRequestedFields(fragments, visiting, selections)
    ensures StartsWith(n, "__")
    decreases fragments.Keys - visiting, selections, 0
  {
    var init := selections[..|selections| - 1];
    var last := selections[|selections| - 1];
    if n in RequestedFields(fragments, visiting, last) {
      IntrospectiveAsksMetaOnly(fragments, visiting, last, n);
    } else {
      assert AllIntrospective(fragments, visiting, init) by {
        forall i | 0 <= i < |init| ensures IsIntrospectionSelection(fragments, visiting, init[i]) {
          assert init[i] == selections[i];
        }
      }
      AllIntrospectiveAsksMetaOnly(fragments, visiting, init, n);
    }
  }
}
