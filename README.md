# A verified model of a GraphQL federation gateway's core

The gateway sits in front of several upstream GraphQL services, each with a
numeric priority (a lower number wins). At start-up it introspects every
upstream, merges their root fields into one query root and one mutation root
with a routing table per root, merges their object and input-object types
into one type registry, and composes the SDL of the gateway schema from the
types the root fields reach. At request time it routes an incoming operation
whole to the single upstream that owns all its root fields, recognises
requests that only ask introspection meta-fields, and reports readiness.

This project models that core in Dafny, one module per source file:

- `SchemaTypes`: type kinds, type references and their SDL rendering, with a
  parser for the rendered text that proves rendering loses nothing.
- `Introspection`: the conversion of raw introspection records into type
  definitions, the assembly of one upstream's schema from an overview and
  detail queries (`Introspect`), and the batch over all upstreams
  (`IntrospectAll`). The HTTP fetches are function parameters.
- `RootSchemaMerger`: the merge of root fields in ascending priority order,
  the routing maps, and the failure on a listed field without definition.
- `TypeMerger`: the per-type accumulators as classes whose `AddField`
  updates a field map in place, the loop of `merge` over schemas and
  definitions, and the resulting registry, each proved against a functional
  specification (`MergedRegistry`) about which ownership, shape and
  completeness lemmas are proved.
- `SchemaComposer`: the worklist that marks reachable types (proved to
  terminate and to reach exactly the types named from the roots), and the
  rendering of the SDL sections.
- `GraphQLDocument` and `RequestRouter`: an abstract parsed document and the
  routing decision, with operation selection as section 6.1 of the GraphQL
  specification (GetOperation) describes.
- `IntrospectionQueryDetector`: whether a request asks only `__` fields.
- `GatewayReadiness`: the readiness flag and its list of reasons.
- `Wrappers`, `Strings`, `Sorting`: `Option`/`Result`, the string operations
  the sources use (join, split, lexicographic order, decimal digits), and a
  stable insertion sort standing for Kotlin's `sortedBy`.

## Model

| member | source | states |
|---|---|---|
| Strings.JoinAvoids | src/main/kotlin/com/gateway/schema/SchemaComposer.kt:131 | a character absent from every section and from the separator is absent from the joined SDL |
| Strings.AppendLinesSplit | src/main/kotlin/com/gateway/schema/SchemaComposer.kt:170-178 | lines written with `appendLine` and a last string split back at line breaks into exactly those lines |
| Strings.LexLeTotal | src/main/kotlin/com/gateway/schema/SchemaComposer.kt:87 | the string order of `sorted()` compares any two names |
| Strings.LexLeTransitive | src/main/kotlin/com/gateway/schema/SchemaComposer.kt:87 | the string order of `sorted()` is transitive |
| Strings.LexLeAntisymmetric | src/main/kotlin/com/gateway/schema/SchemaComposer.kt:87 | two names ordered both ways are equal |
| Strings.NatToStringRoundTrip | bin/main/com/gateway/health/GatewayReadiness.kt:29 | the decimal count in the missing-schemas reason reads back as the number it was written from |
| Sorting.SortPermutes | src/main/kotlin/com/gateway/schema/RootSchemaMerger.kt:43 | `sortedBy` rearranges the schemas without dropping or duplicating one |
| Sorting.SortSorted | src/main/kotlin/com/gateway/schema/RootSchemaMerger.kt:43 | for any total preorder the sorted sequence is ordered |
| Sorting.SortStable | src/main/kotlin/com/gateway/schema/RootSchemaMerger.kt:43 | schemas of equal priority keep their input order (`sortedBy` is stable) |
| Sorting.SortIgnoresInputOrder | src/main/kotlin/com/gateway/schema/RootSchemaMerger.kt:43 | when no two elements share a key, the sorted result does not depend on the input order |
| SchemaTypes.KindOf | bin/main/com/gateway/introspection/SchemaTypes.kt:6-15 | `valueOf` gives only a kind whose name is the given string |
| SchemaTypes.KindOfKindName | bin/main/com/gateway/introspection/SchemaTypes.kt:6-15 | every kind is recovered from its own name |
| SchemaTypes.Render | bin/main/com/gateway/introspection/SchemaTypes.kt:25-29 | `render()`: the SDL text of a type reference, `!` after a non-null type, brackets around a list, `Unknown` for a missing inner type; specified by the five Render lemmas below |
| SchemaTypes.RenderParseRoundTrip | bin/main/com/gateway/introspection/SchemaTypes.kt:25-29 | the rendering of a well-formed type reference parses back to the type syntax it denotes (`T!`, `[T]`, names) |
| SchemaTypes.RenderInjective | bin/main/com/gateway/introspection/SchemaTypes.kt:25-29 | two well-formed references with the same rendering denote the same type |
| SchemaTypes.RenderNonEmpty | bin/main/com/gateway/introspection/SchemaTypes.kt:25-29 | a well-formed reference renders to non-empty text |
| SchemaTypes.RenderLastChar | bin/main/com/gateway/introspection/SchemaTypes.kt:26-28 | only NON_NULL renderings end in `!` |
| SchemaTypes.RenderExamples | bin/main/com/gateway/introspection/SchemaTypes.kt:25-29 | `StudentInput!`, `[Student]`, `[Student]!`, `Unknown!` for a wrapper without inner type, and the kind name for an unnamed type |
| Introspection.Lookup | bin/main/com/gateway/introspection/IntrospectionService.kt:164 | a key is found exactly when an entry carries it, and the definition found is stored under it |
| Introspection.ToFetchableTypeName | bin/main/com/gateway/introspection/IntrospectionService.kt:289-299 | `toFetchableTypeName`; specified by FetchableTypeNameIff |
| Introspection.FetchableTypeNameIff | bin/main/com/gateway/introspection/IntrospectionService.kt:289-299 | a summary yields a name exactly when it is named, not `__`-prefixed, and of kind OBJECT, INPUT_OBJECT or ENUM; an unknown kind string yields none |
| Introspection.ToSet | bin/main/com/gateway/introspection/IntrospectionService.kt:150-152 | the linked set holds each name once and exactly the names it was built from |
| Introspection.FetchableNamesMembers | bin/main/com/gateway/introspection/IntrospectionService.kt:150-152 | a name is collected exactly when some overview summary yields it |
| Introspection.NamesToFetchContents | bin/main/com/gateway/introspection/IntrospectionService.kt:150-155 | each name is fetched once; the query and mutation type names are always fetched, any other only when the overview lists it as fetchable |
| Introspection.ToTypeRef | bin/main/com/gateway/introspection/IntrospectionService.kt:357-362 | `toGraphQLTypeRef`; specified by ToTypeRefCharacterised and ToTypeRefRoundTrip |
| Introspection.ToTypeRefCharacterised | bin/main/com/gateway/introspection/IntrospectionService.kt:357-362 | conversion succeeds exactly when every kind on the `ofType` chain is present and known, and then keeps names and nesting unchanged |
| Introspection.ToTypeRefRoundTrip | bin/main/com/gateway/introspection/IntrospectionService.kt:357-362 | converting the description of a reference gives that reference back |
| Introspection.MapNotNullFailure | bin/main/com/gateway/introspection/IntrospectionService.kt:344-355 | a list conversion fails exactly when some element's conversion fails, with the first such error |
| Introspection.MapNotNullMembers | bin/main/com/gateway/introspection/IntrospectionService.kt:344-355 | the converted list keeps exactly the present results (entries without name or type are dropped) |
| Introspection.ToInputValueDefinition | bin/main/com/gateway/introspection/IntrospectionService.kt:351-355 | `toGraphQLInputValueDefinition`: none without a name or a type; specified by InputValueRoundTrip and MapNotNullMembers |
| Introspection.InputValueRoundTrip | bin/main/com/gateway/introspection/IntrospectionService.kt:351-355 | an input value survives being described and converted back |
| Introspection.ToFieldDefinition | bin/main/com/gateway/introspection/IntrospectionService.kt:344-349 | `toGraphQLFieldDefinition`: none without a name or a type; specified by FieldRoundTrip and MapNotNullMembers |
| Introspection.FieldRoundTrip | bin/main/com/gateway/introspection/IntrospectionService.kt:344-349 | a field with its arguments survives being described and converted back |
| Introspection.InputValuesRoundTrip | bin/main/com/gateway/introspection/IntrospectionService.kt:344-355 | a list of arguments survives description and conversion, in order |
| Introspection.FieldsRoundTrip | bin/main/com/gateway/introspection/IntrospectionService.kt:364-377 | a list of fields survives description and conversion, in order |
| Introspection.PresentNames | bin/main/com/gateway/introspection/IntrospectionService.kt:369 | a name is kept exactly when some entry holds it |
| Introspection.PresentNamesInOrder | bin/main/com/gateway/introspection/IntrospectionService.kt:369 | `mapNotNull { it.name }` keeps every present name, duplicates included, in the order of the entries: an increasing list of positions picks out exactly the entries that hold a name |
| Introspection.PresentNamesRoundTrip | bin/main/com/gateway/introspection/IntrospectionService.kt:364-377 | enum value names all present are kept in order |
| Introspection.ToTypeDefinition | bin/main/com/gateway/introspection/IntrospectionService.kt:364-377 | `toGraphQLTypeDefinition`; specified by ToTypeDefinitionDrops, TypeDefinitionRoundTrip and PresentNamesInOrder |
| Introspection.ToTypeDefinitionDrops | bin/main/com/gateway/introspection/IntrospectionService.kt:364-377 | a type record yields no definition exactly when its name or its kind is missing |
| Introspection.TypeDefinitionRoundTrip | bin/main/com/gateway/introspection/IntrospectionService.kt:364-377 | a type definition survives being described and converted back |
| Introspection.FetchedEntriesMembers | bin/main/com/gateway/introspection/IntrospectionService.kt:157-162 | the type map holds exactly the fetched names whose detail produced a definition, each with that definition |
| Introspection.FetchedEntriesDistinct | bin/main/com/gateway/introspection/IntrospectionService.kt:157-162 | a name fetched once is stored once |
| Introspection.FetchTypeDefinitions | bin/main/com/gateway/introspection/IntrospectionService.kt:157-162 | the fetch loop fails exactly when some detail query fails, with the first failure, and otherwise builds the type map |
| Introspection.LookupFetched | bin/main/com/gateway/introspection/IntrospectionService.kt:157-165 | looking up a fetched name gives what its detail query produced |
| Introspection.Introspect | bin/main/com/gateway/introspection/IntrospectionService.kt:139-179 | a failed overview gives its error; a missing query type gives "Introspection for <upstream> did not include a queryType definition"; a failed detail query gives the error of the first failing name in fetch order; a query type whose detail query yields nothing gives "Introspection for <upstream> did not return fields for <type>"; it fails exactly in these cases, and otherwise returns the schema built from the fetched definitions |
| Introspection.IntrospectAll | bin/main/com/gateway/introspection/IntrospectionService.kt:105-137 | every upstream is introspected in turn; successes and failures are recorded in input order and a failure does not stop the batch |
| Introspection.BatchPartitions | bin/main/com/gateway/introspection/IntrospectionService.kt:105-137 | each upstream lands in exactly one list, failures carrying their service and reason |
| Introspection.HasFailuresIff | bin/main/com/gateway/introspection/IntrospectionService.kt:248-249 | `hasFailures` holds exactly when some upstream's introspection failed |
| RootSchemaMerger.Routing | src/main/kotlin/com/gateway/schema/RootSchemaMerger.kt:24 | `routing()`: the field-name-to-service map of a root type; specified by Associate and AssociateDistinct |
| RootSchemaMerger.QueryRouting | src/main/kotlin/com/gateway/schema/RootSchemaMerger.kt:34 | `queryRouting()`; specified by MergeRoutes |
| RootSchemaMerger.MutationRouting | src/main/kotlin/com/gateway/schema/RootSchemaMerger.kt:36 | `mutationRouting()`, empty without a mutation root; specified by MergeMutationRoot and MergeRoutes |
| RootSchemaMerger.Associate | src/main/kotlin/com/gateway/schema/RootSchemaMerger.kt:24 | the routing map is keyed by exactly the routed field names |
| RootSchemaMerger.AssociateDistinct | src/main/kotlin/com/gateway/schema/RootSchemaMerger.kt:24 | with distinct names the routing map sends each routed field to its service |
| RootSchemaMerger.FindField | src/main/kotlin/com/gateway/schema/RootSchemaMerger.kt:54-57 | `find` gives a field of the requested name, and none exactly when no field has it |
| RootSchemaMerger.FindRouted | src/main/kotlin/com/gateway/schema/RootSchemaMerger.kt:53 | a name is found in the routed fields exactly when it is routed |
| RootSchemaMerger.FirstMissingIn | src/main/kotlin/com/gateway/schema/RootSchemaMerger.kt:52-57 | no name is reported exactly when every listed name has a definition in the schema's own root type |
| RootSchemaMerger.FirstClaimant | src/main/kotlin/com/gateway/schema/RootSchemaMerger.kt:49-68 | the first schema listing a name exists exactly when some schema lists it |
| RootSchemaMerger.FirstRootTypeName | src/main/kotlin/com/gateway/schema/RootSchemaMerger.kt:92-93 | `firstNotNullOfOrNull` finds a root type name exactly when some schema has one |
| RootSchemaMerger.ByPriorityTotalPreorder | src/main/kotlin/com/gateway/schema/RootSchemaMerger.kt:43 | ordering by priority number is a total preorder |
| RootSchemaMerger.AddClaimsNames | src/main/kotlin/com/gateway/schema/RootSchemaMerger.kt:52-67 | adding a schema's fields keeps names distinct, keeps earlier entries, and routes exactly the listed names in addition |
| RootSchemaMerger.AddClaimsMembers | src/main/kotlin/com/gateway/schema/RootSchemaMerger.kt:52-67 | a new routed field is a listed name not routed before, owned by the schema's service with its own definition |
| RootSchemaMerger.AddRootFields | src/main/kotlin/com/gateway/schema/RootSchemaMerger.kt:49-68 | one schema's loop: the missing-definition check first, then an already routed name is skipped and a new one is routed to the schema |
| RootSchemaMerger.Merge | src/main/kotlin/com/gateway/schema/RootSchemaMerger.kt:42-101 | the merge's outcome: stable ascending priority order, query then mutation fields per schema, the first missing definition aborting |
| RootSchemaMerger.FirstMissingIff | src/main/kotlin/com/gateway/schema/RootSchemaMerger.kt:54-57 | no field is reported missing exactly when every schema backs every listed query and mutation name |
| RootSchemaMerger.MergeFailsIff | src/main/kotlin/com/gateway/schema/RootSchemaMerger.kt:54-57 | the merge fails exactly when some upstream lists a root field its own root type lacks, even one already owned by another upstream |
| RootSchemaMerger.TableNames | src/main/kotlin/com/gateway/schema/RootSchemaMerger.kt:45-68 | each routing table routes a name at most once and exactly the names some schema lists |
| RootSchemaMerger.TableMembers | src/main/kotlin/com/gateway/schema/RootSchemaMerger.kt:49-68 | a routed field belongs to the first schema in processing order that lists its name, with that schema's definition |
| RootSchemaMerger.OwnerHasLowestPriority | src/main/kotlin/com/gateway/schema/RootSchemaMerger.kt:43-68 | a routed field's owner has the lowest priority number among the upstreams that list it |
| RootSchemaMerger.FirstClaimantLowest | src/main/kotlin/com/gateway/schema/RootSchemaMerger.kt:43-68 | in priority order the first claimant has the lowest priority number among claimants |
| RootSchemaMerger.MergeRoutes | src/main/kotlin/com/gateway/schema/RootSchemaMerger.kt:95-100 | on success each routing map sends every listed name to an owner of lowest priority number that lists it |
| RootSchemaMerger.MergeQueryRootName | src/main/kotlin/com/gateway/schema/RootSchemaMerger.kt:92 | the query root is named by the lowest-priority-number upstream that names one, else `Query` |
| RootSchemaMerger.FirstRootTypeNameLowest | src/main/kotlin/com/gateway/schema/RootSchemaMerger.kt:92-93 | in priority order the first root type name comes from the lowest priority number among those naming one |
| RootSchemaMerger.MergeMutationRoot | src/main/kotlin/com/gateway/schema/RootSchemaMerger.kt:93-99 | the mutation root exists exactly when some upstream names a mutation type; without it the mutation routing is empty |
| RootSchemaMerger.MergeIgnoresInputOrder | src/main/kotlin/com/gateway/schema/RootSchemaMerger.kt:43 | with distinct priorities the merged root schema does not depend on the order of the upstreams |
| TypeMerger.FieldDefinitionsEqual | src/main/kotlin/com/gateway/schema/TypeMerger.kt:215-225 | `fieldDefinitionsEqual`; specified by FieldDefinitionsEqualIff and DeclarationsMatchIff |
| TypeMerger.InputFieldDefinitionsEqual | src/main/kotlin/com/gateway/schema/TypeMerger.kt:210-213 | `inputFieldDefinitionsEqual`: the type alone decides; specified through InputFieldShape and SameDeclarationMatches |
| TypeMerger.ByArgumentNameTotalPreorder | src/main/kotlin/com/gateway/schema/TypeMerger.kt:222-223 | ordering argument pairs by name is a total preorder |
| TypeMerger.FieldDefinitionsEqualIff | src/main/kotlin/com/gateway/schema/TypeMerger.kt:215-225 | equal shapes have the same type and the same arguments up to order; with unique argument names the converse holds |
| TypeMerger.DeclarationsMatchIff | src/main/kotlin/com/gateway/schema/TypeMerger.kt:197-225 | a field stored from one declaration matches a later declaration exactly when the return types are equal and the argument declarations are the same up to order; the "if" direction needs unique argument names |
| TypeMerger.GatewayArgumentsRoundTrip | src/main/kotlin/com/gateway/schema/TypeMerger.kt:199 | converting a field's arguments to gateway arguments loses nothing: each name and type comes back, in order |
| TypeMerger.GatewayArgumentsPermutation | src/main/kotlin/com/gateway/schema/TypeMerger.kt:197-224 | two argument lists are reorderings of each other exactly when their gateway conversions are, so comparing the converted lists compares the declarations |
| TypeMerger.SameDeclarationMatches | src/main/kotlin/com/gateway/schema/TypeMerger.kt:210-225 | a field matches its own declaration, so between identical declarations only priority decides |
| TypeMerger.AddObjectField | src/main/kotlin/com/gateway/schema/TypeMerger.kt:112-147 | adding a field keeps the accumulator's names distinct and equal to its keys |
| TypeMerger.AddInputField | src/main/kotlin/com/gateway/schema/TypeMerger.kt:157-192 | adding an input field keeps the accumulator's names distinct and equal to its keys |
| TypeMerger.LastObjectContribution | src/main/kotlin/com/gateway/schema/TypeMerger.kt:112-147 | the last declaration of a name exists exactly when some declaration has it |
| TypeMerger.ObjectFieldWinner | src/main/kotlin/com/gateway/schema/TypeMerger.kt:112-147 | fed in descending priority-number order, the stored field is a declaration of its name owned with the priority of the last declaration |
| TypeMerger.ObjectFieldShape | src/main/kotlin/com/gateway/schema/TypeMerger.kt:120-146 | a stored field has the shape of the last declaration of its name, whatever the priorities |
| TypeMerger.ObjectFieldOwnerLowest | src/main/kotlin/com/gateway/schema/TypeMerger.kt:112-147 | a stored field's owner has the lowest priority number among the declarations of the name |
| TypeMerger.InputFieldWinner | src/main/kotlin/com/gateway/schema/TypeMerger.kt:157-192 | the same as for object fields, with the type-only shape rule |
| TypeMerger.InputFieldShape | src/main/kotlin/com/gateway/schema/TypeMerger.kt:165-191 | a stored input field has the type of the last declaration of its name |
| TypeMerger.InputFieldOwnerLowest | src/main/kotlin/com/gateway/schema/TypeMerger.kt:157-192 | a stored input field's owner has the lowest priority number among the declarations of the name |
| TypeMerger.ContributionsNonIncreasing | src/main/kotlin/com/gateway/schema/TypeMerger.kt:55-68 | schemas in descending priority-number order contribute their fields in that order |
| TypeMerger.ContributionsMembers | src/main/kotlin/com/gateway/schema/TypeMerger.kt:60-68 | a contribution is a field of some schema's definition, attributed to that schema's service |
| TypeMerger.ObjectTableEmptyIff | src/main/kotlin/com/gateway/schema/TypeMerger.kt:70-76 | an accumulator ends empty exactly when nothing was contributed to it |
| TypeMerger.ObjectContributionIff | src/main/kotlin/com/gateway/schema/TypeMerger.kt:81-93 | the contributions to an object type are exactly the fields declared for it outside root types |
| TypeMerger.InputContributionIff | src/main/kotlin/com/gateway/schema/TypeMerger.kt:95-104 | the contributions to an input type are exactly the input fields declared for it |
| TypeMerger.MergedObjectTypePresent | src/main/kotlin/com/gateway/schema/TypeMerger.kt:70-76 | an object type is in the registry exactly when some upstream declares a field for it outside its root types |
| TypeMerger.MergedInputTypePresent | src/main/kotlin/com/gateway/schema/TypeMerger.kt:70-76 | an input type is in the registry exactly when some upstream declares an input field for it |
| TypeMerger.MergedObjectTypeFields | src/main/kotlin/com/gateway/schema/TypeMerger.kt:149 | a merged object type lists its accumulator's fields, fed in descending priority-number order |
| TypeMerger.MergedObjectFieldDeclared | src/main/kotlin/com/gateway/schema/TypeMerger.kt:112-147 | each merged object field is a declaration of the type, owned by the service declaring it |
| TypeMerger.MergedObjectFieldOwner | src/main/kotlin/com/gateway/schema/TypeMerger.kt:120-146 | a merged object field's owner has the lowest priority number among its declarers |
| TypeMerger.MergedObjectFieldNamesDistinct | src/main/kotlin/com/gateway/schema/TypeMerger.kt:115-118 | no two fields of a merged object type share a name |
| TypeMerger.MergedObjectFieldCovered | src/main/kotlin/com/gateway/schema/TypeMerger.kt:60-76 | every declared field name appears in the merged object type |
| TypeMerger.MergedInputTypeFields | src/main/kotlin/com/gateway/schema/TypeMerger.kt:194 | a merged input type lists its accumulator's fields, fed in descending priority-number order |
| TypeMerger.MergedInputFieldDeclared | src/main/kotlin/com/gateway/schema/TypeMerger.kt:157-192 | each merged input field is a declaration of the type, owned by the service declaring it |
| TypeMerger.MergedInputFieldOwner | src/main/kotlin/com/gateway/schema/TypeMerger.kt:165-191 | a merged input field's owner has the lowest priority number among its declarers |
| TypeMerger.MergedInputFieldNamesDistinct | src/main/kotlin/com/gateway/schema/TypeMerger.kt:160-163 | no two fields of a merged input type share a name |
| TypeMerger.MergedInputFieldCovered | src/main/kotlin/com/gateway/schema/TypeMerger.kt:60-76 | every declared input field name appears in the merged input type |
| TypeMerger.MergedRegistryIgnoresInputOrder | src/main/kotlin/com/gateway/schema/TypeMerger.kt:55 | with distinct priorities the registry does not depend on the order of the upstreams |
| TypeMerger.ObjectTypeAccumulator.constructor | src/main/kotlin/com/gateway/schema/TypeMerger.kt:107-110 | a new accumulator for a type name holds no field |
| TypeMerger.ObjectTypeAccumulator.AddField | src/main/kotlin/com/gateway/schema/TypeMerger.kt:112-147 | `addField` updates the field map as the add-or-replace rule says and keeps it well formed |
| TypeMerger.ObjectTypeAccumulator.AddFields | src/main/kotlin/com/gateway/schema/TypeMerger.kt:89-92 | adding every field of a definition merges them in order |
| TypeMerger.InputObjectTypeAccumulator.constructor | src/main/kotlin/com/gateway/schema/TypeMerger.kt:152-155 | a new accumulator for an input type name holds no field |
| TypeMerger.InputObjectTypeAccumulator.AddField | src/main/kotlin/com/gateway/schema/TypeMerger.kt:157-192 | `addField` updates the input field map by the add-or-replace rule |
| TypeMerger.InputObjectTypeAccumulator.AddFields | src/main/kotlin/com/gateway/schema/TypeMerger.kt:100-103 | adding every input field of a definition merges them in order |
| TypeMerger.MergeObjectType | src/main/kotlin/com/gateway/schema/TypeMerger.kt:81-93 | a root type is skipped; otherwise the type's accumulator, fetched or created, receives every field |
| TypeMerger.MergeInputObjectType | src/main/kotlin/com/gateway/schema/TypeMerger.kt:95-104 | the input type's accumulator, fetched or created, receives every input field |
| TypeMerger.MergeEntry | src/main/kotlin/com/gateway/schema/TypeMerger.kt:61-67 | OBJECT and INPUT_OBJECT definitions feed their accumulators; other kinds change nothing |
| TypeMerger.MergeSchema | src/main/kotlin/com/gateway/schema/TypeMerger.kt:60-68 | one schema's definitions are merged in order |
| TypeMerger.ToRegistry | src/main/kotlin/com/gateway/schema/TypeMerger.kt:70-78 | every accumulator becomes its gateway type and types without fields are dropped |
| TypeMerger.Merge | src/main/kotlin/com/gateway/schema/TypeMerger.kt:54-79 | the registry is the merge of the schemas in descending priority-number order |
| SchemaComposer.IsBuiltInScalar | src/main/kotlin/com/gateway/schema/SchemaComposer.kt:190-193 | `isBuiltInScalar`; specified by ScalarSectionsReached: no built-in scalar gets a `scalar` declaration |
| SchemaComposer.Unwrap | src/main/kotlin/com/gateway/schema/SchemaComposer.kt:139-142 | unwrapping ends at a non-wrapper or at a wrapper without inner type |
| SchemaComposer.UnwrapNamesBase | src/main/kotlin/com/gateway/schema/SchemaComposer.kt:139-142 | a well-formed reference unwraps to the named type its syntax is built on |
| SchemaComposer.Add | src/main/kotlin/com/gateway/schema/SchemaComposer.kt:30-42 | a linked-set add keeps names distinct and adds exactly the new name |
| SchemaComposer.MarkType | src/main/kotlin/com/gateway/schema/SchemaComposer.kt:27-43 | `markType` keeps the reachable sets inside the registry, without repetition, each queue a suffix of its set |
| SchemaComposer.MarkAllGrows | src/main/kotlin/com/gateway/schema/SchemaComposer.kt:30-35 | marking only appends, and a queue receives exactly what its set receives |
| SchemaComposer.MarkAllMembers | src/main/kotlin/com/gateway/schema/SchemaComposer.kt:27-43 | after marking, a name is reachable exactly when it was or a marked reference's base type qualifies it |
| SchemaComposer.MarkArguments | src/main/kotlin/com/gateway/schema/SchemaComposer.kt:45-47 | `markArguments` marks each argument's type in order |
| SchemaComposer.MarkRootFields | src/main/kotlin/com/gateway/schema/SchemaComposer.kt:49-56 | each root field's type is marked, then its arguments |
| SchemaComposer.MarkObjectFields | src/main/kotlin/com/gateway/schema/SchemaComposer.kt:61-64 | each field of a reached object marks its type, then its arguments |
| SchemaComposer.MarkInputFields | src/main/kotlin/com/gateway/schema/SchemaComposer.kt:70 | each field of a reached input object marks its type |
| SchemaComposer.ObjectStep | src/main/kotlin/com/gateway/schema/SchemaComposer.kt:58-65 | taking one object off the queue keeps the worklist state consistent, and the pair (unreached objects, queue length) decreases lexicographically: fewer unreached objects, or as many with a shorter queue |
| SchemaComposer.InputStep | src/main/kotlin/com/gateway/schema/SchemaComposer.kt:67-71 | taking one input off the queue keeps the worklist state consistent and the objects untouched, and the pair (unreached inputs, queue length) decreases lexicographically: fewer unreached inputs, or as many with a shorter queue |
| SchemaComposer.DrainObjects | src/main/kotlin/com/gateway/schema/SchemaComposer.kt:58-65 | the object loop ends with an empty queue and a consistent state |
| SchemaComposer.DrainInputs | src/main/kotlin/com/gateway/schema/SchemaComposer.kt:67-71 | the input loop ends with an empty queue and a consistent state, leaving taken objects as they were |
| SchemaComposer.Reach | src/main/kotlin/com/gateway/schema/SchemaComposer.kt:20-71 | the marking half of `compose` terminates in the reached state |
| SchemaComposer.ReachedLeast | src/main/kotlin/com/gateway/schema/SchemaComposer.kt:20-71 | every reached name lies in every closed set holding the root types: nothing unreferenced is reached |
| SchemaComposer.ReachedRoots | src/main/kotlin/com/gateway/schema/SchemaComposer.kt:49-56 | every registry type and custom scalar a root field or argument names is reached |
| SchemaComposer.ReachedInputsClosed | src/main/kotlin/com/gateway/schema/SchemaComposer.kt:67-71 | every registry type an input field of a reached input names is reached |
| SchemaComposer.ReachedObjectsExpanded | src/main/kotlin/com/gateway/schema/SchemaComposer.kt:58-71 | when no input field names an object type, every reached object was expanded |
| SchemaComposer.ReachedExactly | src/main/kotlin/com/gateway/schema/SchemaComposer.kt:20-71 | when no input field names an object type, the reachable sets are exactly the registry types and custom scalars named by the roots and the reached types' fields |
| SchemaComposer.ReachedObjectsClosed | src/main/kotlin/com/gateway/schema/SchemaComposer.kt:58-65 | when no input field names an object type, every registry type a reached object's field names is reached |
| SchemaComposer.RenderOneLine | bin/main/com/gateway/introspection/SchemaTypes.kt:25-29 | a well-formed reference renders on one line |
| SchemaComposer.RenderRootField | src/main/kotlin/com/gateway/schema/SchemaComposer.kt:144-154 | `renderField` for a root field; specified by RootFieldOneLine |
| SchemaComposer.RenderObjectField | src/main/kotlin/com/gateway/schema/SchemaComposer.kt:156-166 | `renderField` for a merged field; specified by ObjectFieldOneLine |
| SchemaComposer.RenderInputField | src/main/kotlin/com/gateway/schema/SchemaComposer.kt:168 | `renderInputField`; specified by InputFieldOneLine |
| SchemaComposer.ObjectFieldOneLine | src/main/kotlin/com/gateway/schema/SchemaComposer.kt:156-166 | a field with a valid name, type and arguments renders as one SDL line |
| SchemaComposer.RootFieldOneLine | src/main/kotlin/com/gateway/schema/SchemaComposer.kt:144-154 | a root field renders as one SDL line |
| SchemaComposer.InputFieldOneLine | src/main/kotlin/com/gateway/schema/SchemaComposer.kt:168 | an input field with a valid name and type renders as one SDL line |
| SchemaComposer.ArgumentListOneLine | src/main/kotlin/com/gateway/schema/SchemaComposer.kt:148-152 | an argument list of one-line texts is one line |
| SchemaComposer.RenderObjectType | src/main/kotlin/com/gateway/schema/SchemaComposer.kt:170-178 | the block is the header, each field line indented by two spaces in order, and the closing brace |
| SchemaComposer.RenderEnumType | src/main/kotlin/com/gateway/schema/SchemaComposer.kt:180-188 | the enum block is built as an object block under the keyword `enum` |
| SchemaComposer.BlockLines | src/main/kotlin/com/gateway/schema/SchemaComposer.kt:170-188 | a block split at line breaks gives the header, the indented lines in order and `}` |
| SchemaComposer.SchemaDirectiveLines | src/main/kotlin/com/gateway/schema/SchemaComposer.kt:76-84 | the directive has a mutation line exactly when there is a mutation root |
| SchemaComposer.AppendScalarSections | src/main/kotlin/com/gateway/schema/SchemaComposer.kt:87-89 | the scalar loop appends one declaration per name |
| SchemaComposer.AppendObjectSections | src/main/kotlin/com/gateway/schema/SchemaComposer.kt:105-113 | the object loop appends the block of each registry object among the names |
| SchemaComposer.AppendInputSections | src/main/kotlin/com/gateway/schema/SchemaComposer.kt:115-123 | the input loop appends the block of each registry input object among the names |
| SchemaComposer.AppendEnumSections | src/main/kotlin/com/gateway/schema/SchemaComposer.kt:125-129 | the enum loop appends the block of each registry enum among the names |
| SchemaComposer.Sections | src/main/kotlin/com/gateway/schema/SchemaComposer.kt:73-131 | the SDL sections in order; specified by RenderSections, SectionCount, ScalarSectionsReached and the three SectionsComplete lemmas |
| SchemaComposer.RenderSections | src/main/kotlin/com/gateway/schema/SchemaComposer.kt:73-129 | directive, scalars, query, optional mutation, objects, inputs, enums, each group sorted by name |
| SchemaComposer.Compose | src/main/kotlin/com/gateway/schema/SchemaComposer.kt:19-137 | the result holds the reached object and input names and the sections joined by blank lines |
| SchemaComposer.SortedNames | src/main/kotlin/com/gateway/schema/SchemaComposer.kt:87-125 | `sorted()` keeps the same names, as many, in lexicographic order |
| SchemaComposer.ObjectSectionsComplete | src/main/kotlin/com/gateway/schema/SchemaComposer.kt:105-113 | every reached object, being in the registry, gets its block |
| SchemaComposer.InputSectionsComplete | src/main/kotlin/com/gateway/schema/SchemaComposer.kt:115-123 | every reached input object gets its block |
| SchemaComposer.EnumSectionsComplete | src/main/kotlin/com/gateway/schema/SchemaComposer.kt:125-129 | every reached enum gets its block |
| SchemaComposer.ScalarSectionsReached | src/main/kotlin/com/gateway/schema/SchemaComposer.kt:87-89 | right after the directive come the `scalar` declarations: one per custom scalar named from the roots or from a reached type, each once, in name order, and none for a built-in scalar |
| SchemaComposer.SectionCount | src/main/kotlin/com/gateway/schema/SchemaComposer.kt:73-131 | one section per reached type and custom scalar, besides the directive and the one or two root blocks |
| RequestRouter.FindOperation | src/main/kotlin/com/gateway/routing/GraphQLRequestRouter.kt:96-98 | the first operation of the requested name, and none exactly when no operation has it |
| RequestRouter.ResolveOperation | src/main/kotlin/com/gateway/routing/GraphQLRequestRouter.kt:92-106 | `resolveOperation`; specified by ResolveOperationSelects |
| RequestRouter.ResolveOperationSelects | src/main/kotlin/com/gateway/routing/GraphQLRequestRouter.kt:92-106 | `resolveOperation` succeeds exactly when GraphQL operation selection picks an operation, and returns it |
| RequestRouter.RootFieldNames | src/main/kotlin/com/gateway/routing/GraphQLRequestRouter.kt:53-58 | the root field names succeed exactly when every root selection is a field, else the first other selection is reported |
| RequestRouter.ResolveServices | src/main/kotlin/com/gateway/routing/GraphQLRequestRouter.kt:70-73 | services resolve exactly when every root field is routed, each to its table entry |
| RequestRouter.ResolveServicesReportsFirstMissing | src/main/kotlin/com/gateway/routing/GraphQLRequestRouter.kt:70-73 | the first unrouted field is the one reported |
| RequestRouter.DistinctServices | src/main/kotlin/com/gateway/routing/GraphQLRequestRouter.kt:75 | `distinct()` keeps each service once and every service present, in order of first appearance |
| RequestRouter.DistinctServicesSingle | src/main/kotlin/com/gateway/routing/GraphQLRequestRouter.kt:75-89 | the distinct list has one entry exactly when every field has the same service, and is never empty |
| RequestRouter.RouteOperation | src/main/kotlin/com/gateway/routing/GraphQLRequestRouter.kt:42-89 | the checks and routing after an operation is selected; specified by RouteOperationIff |
| RequestRouter.Route | src/main/kotlin/com/gateway/routing/GraphQLRequestRouter.kt:28-40 | `route`; specified by RouteIff, RouteReportsFirstMissingField and RouteRejectsMixedServices |
| RequestRouter.RouteOperationIff | src/main/kotlin/com/gateway/routing/GraphQLRequestRouter.kt:42-89 | the selected operation is routed exactly when it is a query or mutation of root fields, at least one, all owned by the routed service |
| RequestRouter.RouteIff | src/main/kotlin/com/gateway/routing/GraphQLRequestRouter.kt:28-106 | `route` succeeds exactly when the document parsed, an operation is selected and it is forwardable to the routed service |
| RequestRouter.RouteReportsFirstMissingField | src/main/kotlin/com/gateway/routing/GraphQLRequestRouter.kt:66-73 | an unrouted root field is reported, the first one, before services are compared |
| RequestRouter.RouteRejectsMixedServices | src/main/kotlin/com/gateway/routing/GraphQLRequestRouter.kt:75-79 | fields owned by two services are rejected with the exact message, naming each service once, in order of first appearance |
| IntrospectionQueryDetector.FragmentMap | bin/main/com/gateway/graphql/IntrospectionQueryDetector.kt:18-20 | the fragment map holds exactly the defined fragment names |
| IntrospectionQueryDetector.Targets | bin/main/com/gateway/graphql/IntrospectionQueryDetector.kt:25-33 | the targeted operations are those of the requested name, or all of them |
| IntrospectionQueryDetector.IsIntrospectionQuery | bin/main/com/gateway/graphql/IntrospectionQueryDetector.kt:14-44 | `isIntrospectionQuery`; specified by IsIntrospectionQueryIff |
| IntrospectionQueryDetector.IsIntrospectionQueryIff | bin/main/com/gateway/graphql/IntrospectionQueryDetector.kt:14-44 | a request is introspection exactly when the document parsed, some operation is targeted, and every targeted operation is a query of introspective selections |
| IntrospectionQueryDetector.VisitingOnlyRejects | bin/main/com/gateway/graphql/IntrospectionQueryDetector.kt:53-55 | the guard ending a cyclic spread never makes a selection qualify |
| IntrospectionQueryDetector.IsIntrospectionSelection | bin/main/com/gateway/graphql/IntrospectionQueryDetector.kt:46-57 | `isIntrospectionSelection`; specified by IntrospectiveAsksMetaOnly and VisitingOnlyRejects |
| IntrospectionQueryDetector.IntrospectiveAsksMetaOnly | bin/main/com/gateway/graphql/IntrospectionQueryDetector.kt:46-57 | a qualifying selection asks only for `__` fields, through any inline fragments and spreads |
| IntrospectionQueryDetector.AllIntrospectiveAsksMetaOnly | bin/main/com/gateway/graphql/IntrospectionQueryDetector.kt:35-40 | a qualifying selection set asks only for `__` fields |
| GatewayReadiness.IsReady | bin/main/com/gateway/health/GatewayReadiness.kt:14-15 | `isReady`; specified by NoReasonsIff |
| GatewayReadiness.FailureReason | bin/main/com/gateway/health/GatewayReadiness.kt:24 | a failure's reason names its upstream |
| GatewayReadiness.FailureReasons | bin/main/com/gateway/health/GatewayReadiness.kt:23-25 | one reason per failure, in order |
| GatewayReadiness.ReasonList | bin/main/com/gateway/health/GatewayReadiness.kt:17-36 | `reasons()`; specified by Reasons, FailuresReportedInOrder, MissingReasonIff, CompositionReasonLast and NoReasonsIff |
| GatewayReadiness.Reasons | bin/main/com/gateway/health/GatewayReadiness.kt:17-36 | the reasons: none when ready, else the failures' reasons, the missing count if positive, the composition reason if unavailable |
| GatewayReadiness.FailuresReportedInOrder | bin/main/com/gateway/health/GatewayReadiness.kt:23-25 | when not ready the list opens with one reason per failure, in order, each naming its upstream |
| GatewayReadiness.MissingReasonIff | bin/main/com/gateway/health/GatewayReadiness.kt:26-31 | a missing-schemas reason appears exactly when not ready and the shortfall is positive, and it carries the shortfall |
| GatewayReadiness.CompositionReasonLast | bin/main/com/gateway/health/GatewayReadiness.kt:32-34 | the composition reason is reported exactly when GraphQL is unavailable, and then last |
| GatewayReadiness.NoReasonsIff | bin/main/com/gateway/health/GatewayReadiness.kt:17-36 | the list is empty exactly when ready, or when the only fault is a surplus of schemas |

## Left out

- HTTP, JSON decoding and the query strings of the introspection client: each overview and detail fetch is a function parameter returning a raw record or an error message.
- The graphql-java parser: requests arrive as an abstract parsed document or a parse failure carrying the parser's message; a null selection set is an empty one.
- Logging calls in the mergers are left out; they change no state the model keeps.
- Forwarding, configuration loading, the HTTP server and the graphql-java schema factory are outside this core.
- IntrospectionQueryDetector.IsIntrospectionQueryIff: a fragment spread that re-enters a fragment already being expanded is treated as not introspective, where the source recurses until the stack overflows; `VisitingOnlyRejects` shows the guard can only turn an answer to false.
- SchemaComposer.ReachedObjectsClosed: closure of the reached object types is proved only when no registry input type has a field naming a registry object type, because the source drains the object queue before the input queue and never expands an object first reached from an input field.
- SchemaComposer: the registry carries an `enumTypes` map of enum value names that the composer reads; `TypeMerger` leaves it empty, as the source's registry has no enum map; an enum block is named by its registry key.
- SchemaComposer.Compose: the marking state it returns as proof witness is ghost; the reachable sets it returns are real.
- Strings.LexLe: names are compared by Dafny character, whereas Kotlin compares UTF-16 code units; the two agree on names made of GraphQL Name characters.
- GatewayReadiness: the counts are unbounded integers; Kotlin's 32-bit `Int` subtraction could wrap for extreme values.
- RequestRouter.RouteIff: the branch reporting "No routed fields were resolved" is modelled but unreachable, because `DistinctServicesSingle` shows a non-empty field list always yields at least one service.
- Introspection.ToTypeDefinition: an unknown kind raises the message `Enum.valueOf` would raise; the message text of that library exception is modelled, not its exception type.
