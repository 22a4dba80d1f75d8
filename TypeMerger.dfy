/** The merge of the non-root object and input-object types of all upstreams
    into the gateway's type registry. Schemas are visited in descending
    priority-number order, so the upstream with the lowest number speaks last;
    an existing field is replaced when the newcomer has a strictly lower
    priority number or declares a different shape. */
module TypeMerger {
  import opened Wrappers
  import opened Strings
  import opened Sorting
  import opened SchemaTypes
  import opened Introspection

  datatype GatewayInputValue = GatewayInputValue(name: string, typeRef: TypeRef)

  datatype GatewayObjectField = GatewayObjectField(
    name: string, typeRef: TypeRef, arguments: seq<GatewayInputValue>, owner: UpstreamService)

  datatype GatewayObjectType = GatewayObjectType(name: string, fields: seq<GatewayObjectField>)

  datatype GatewayInputField = GatewayInputField(name: string, typeRef: TypeRef, owner: UpstreamService)

  datatype GatewayInputObjectType = GatewayInputObjectType(name: string, inputFields: seq<GatewayInputField>)

  /** The merged types by name; enum types map a name to its values. */
  datatype GatewayTypeRegistry = GatewayTypeRegistry(
    objectTypes: map<string, GatewayObjectType>,
    inputObjectTypes: map<string, GatewayInputObjectType>,
    enumTypes: map<string, seq<string>>)

  // ---------------------------------------------------------------------
  // Gateway fields and their shape equality
  // ---------------------------------------------------------------------

  function ToGatewayArguments(arguments: seq<InputValueDefinition>): (r: seq<GatewayInputValue>)
    ensures |r| == |arguments|
    ensures forall i :: 0 <= i < |arguments| ==> r[i] == GatewayInputValue(arguments[i].name, arguments[i].typeRef)
  {
    seq(|arguments|, i requires 0 <= i < |arguments| => GatewayInputValue(arguments[i].name, arguments[i].typeRef))
  }

  /** The declarations a list of gateway arguments was converted from. */
  function FromGatewayArguments(arguments: seq<GatewayInputValue>): (r: seq<InputValueDefinition>)
    ensures ToGatewayArguments(r) == arguments
  {
    seq(|arguments|, i requires 0 <= i < |arguments| => InputValueDefinition(arguments[i].name, arguments[i].typeRef))
  }

  /** Converting declarations and back loses nothing. */
  lemma GatewayArgumentsRoundTrip(arguments: seq<InputValueDefinition>)
    ensures FromGatewayArguments(ToGatewayArguments(arguments)) == arguments
  {
  }

  /** The conversion keeps how often each (name, type) pair occurs. */
  lemma {:induction false} GatewayArgumentCounts(arguments: seq<InputValueDefinition>, name: string, typeRef: TypeRef)
    ensures multiset(ToGatewayArguments(arguments))[GatewayInputValue(name, typeRef)]
         == multiset(arguments)[InputValueDefinition(name, typeRef)]
  {
    if |arguments| > 0 {
      var init := arguments[..|arguments| - 1];
      var last := arguments[|arguments| - 1];
      GatewayArgumentCounts(init, name, typeRef);
      assert arguments == init + [last];
      assert ToGatewayArguments(arguments) == ToGatewayArguments(init) + [GatewayInputValue(last.name, last.typeRef)];
    }
  }

  /** Two argument lists are permutations of each other exactly when their
      conversions are. */
  lemma GatewayArgumentsPermutation(a: seq<InputValueDefinition>, b: seq<InputValueDefinition>)
    ensures multiset(ToGatewayArguments(a)) == multiset(ToGatewayArguments(b)) <==> multiset(a) == multiset(b)
  {
    if multiset(a) == multiset(b) {
      forall v: GatewayInputValue
        ensures multiset(ToGatewayArguments(a))[v] == multiset(ToGatewayArguments(b))[v]
      {
        GatewayArgumentCounts(a, v.name, v.typeRef);
        GatewayArgumentCounts(b, v.name, v.typeRef);
      }
    }
    if multiset(ToGatewayArguments(a)) == multiset(ToGatewayArguments(b)) {
      forall d: InputValueDefinition ensures multiset(a)[d] == multiset(b)[d] {
        GatewayArgumentCounts(a, d.name, d.typeRef);
        GatewayArgumentCounts(b, d.name, d.typeRef);
      }
    }
  }

  function ToGatewayObjectField(definition: FieldDefinition, service: UpstreamService): GatewayObjectField
  {
    GatewayObjectField(definition.name, definition.typeRef, ToGatewayArguments(definition.arguments), service)
  }

  function ToGatewayInputField(definition: InputValueDefinition, service: UpstreamService): GatewayInputField
  {
    GatewayInputField(definition.name, definition.typeRef, service)
  }

  /** Arguments ordered by name, as `sortedBy { it.first }` orders the pairs. */
  predicate ByArgumentName(a: GatewayInputValue, b: GatewayInputValue)
  {
    LexLe(a.name, b.name)
  }

  lemma ByArgumentNameTotalPreorder()
    ensures TotalPreorder(ByArgumentName)
  {
    forall a, b ensures ByArgumentName(a, b) || ByArgumentName(b, a) {
      LexLeTotal(a.name, b.name);
    }
    forall a, b, c | ByArgumentName(a, b) && ByArgumentName(b, c) ensures ByArgumentName(a, c) {
      LexLeTransitive(a.name, b.name, c.name);
    }
  }

  /** `fieldDefinitionsEqual`: the same return type, as many arguments, and the
      same (name, type) pairs once both lists are sorted by name. */
  predicate FieldDefinitionsEqual(existing: GatewayObjectField, candidate: FieldDefinition)
  {
    && existing.typeRef == candidate.typeRef
    && |existing.arguments| == |candidate.arguments|
    && Sort(existing.arguments, ByArgumentName) == Sort(ToGatewayArguments(candidate.arguments), ByArgumentName)
  }

  /** `inputFieldDefinitionsEqual`: the type alone decides. */
  predicate InputFieldDefinitionsEqual(existing: GatewayInputField, candidate: InputValueDefinition)
  {
    existing.typeRef == candidate.typeRef
  }

  predicate DistinctArgumentNames(arguments: seq<GatewayInputValue>)
  {
    forall i, j :: 0 <= i < j < |arguments| ==> arguments[i].name != arguments[j].name
  }

  /** Matching shapes have the same type and the same arguments in some order;
      when argument names are unique, the converse holds too, so the order in
      which arguments are declared does not matter. */
  lemma FieldDefinitionsEqualIff(existing: GatewayObjectField, candidate: FieldDefinition)
    ensures FieldDefinitionsEqual(existing, candidate) ==>
      existing.typeRef == candidate.typeRef
      && multiset(existing.arguments) == multiset(ToGatewayArguments(candidate.arguments))
    ensures DistinctArgumentNames(existing.arguments)
            && existing.typeRef == candidate.typeRef
            && multiset(existing.arguments) == multiset(ToGatewayArguments(candidate.arguments))
        ==> FieldDefinitionsEqual(existing, candidate)
  {
    var theirs := ToGatewayArguments(candidate.arguments);
    SortPermutes(existing.arguments, ByArgumentName);
    SortPermutes(theirs, ByArgumentName);
    if DistinctArgumentNames(existing.arguments) && multiset(existing.arguments) == multiset(theirs) {
      ByArgumentNameTotalPreorder();
      var args := existing.arguments;
      forall i, j | 0 <= i < |args| && 0 <= j < |args| && Equivalent(ByArgumentName, args[i], args[j])
        ensures args[i] == args[j]
      {
        LexLeAntisymmetric(args[i].name, args[j].name);
      }
      SortIgnoresInputOrder(args, theirs, ByArgumentName);
      assert |args| == |multiset(args)| == |multiset(theirs)| == |theirs|;
    }
  }

  /** A field stored from one declaration matches a later declaration exactly
      when the two have the same type and the same argument declarations in
      some order (the converse needs the stored argument names to be unique). */
  lemma DeclarationsMatchIff(stored: FieldDefinition, service: UpstreamService, candidate: FieldDefinition)
    ensures FieldDefinitionsEqual(ToGatewayObjectField(stored, service), candidate) ==>
      stored.typeRef == candidate.typeRef && multiset(stored.arguments) == multiset(candidate.arguments)
    ensures DistinctArgumentNames(ToGatewayArguments(stored.arguments))
            && stored.typeRef == candidate.typeRef
            && multiset(stored.arguments) == multiset(candidate.arguments)
        ==> FieldDefinitionsEqual(ToGatewayObjectField(stored, service), candidate)
  {
    FieldDefinitionsEqualIff(ToGatewayObjectField(stored, service), candidate);
    GatewayArgumentsPermutation(stored.arguments, candidate.arguments);
  }

  /** A field always matches its own declaration, so between identical
      declarations only priority decides ownership. */
  lemma SameDeclarationMatches(definition: FieldDefinition, service: UpstreamService)
    ensures FieldDefinitionsEqual(ToGatewayObjectField(definition, service), definition)
    ensures InputFieldDefinitionsEqual(ToGatewayInputField(InputValueDefinition(definition.name, definition.typeRef), service),
                                       InputValueDefinition(definition.name, definition.typeRef))
  {
  }

  // ---------------------------------------------------------------------
  // Field tables: an accumulator's linked map, as a value
  // ---------------------------------------------------------------------

  /** Field names in first-insertion order and the field stored under each. */
  datatype ObjectFieldTable = ObjectFieldTable(names: seq<string>, fields: map<string, GatewayObjectField>)

  datatype InputFieldTable = InputFieldTable(names: seq<string>, fields: map<string, GatewayInputField>)

  const EmptyObjectTable := ObjectFieldTable([], map[])
  const EmptyInputTable := InputFieldTable([], map[])

  /** The names are distinct and are exactly the keys of the map. */
  ghost predicate WellFormedObjectTable(t: ObjectFieldTable)
  {
    Distinct(t.names) && forall n :: n in t.fields <==> n in t.names
  }

  ghost predicate WellFormedInputTable(t: InputFieldTable)
  {
    Distinct(t.names) && forall n :: n in t.fields <==> n in t.names
  }

  /** `fields.values.toList()`. */
  function ObjectTableFields(t: ObjectFieldTable): (r: seq<GatewayObjectField>)
    requires WellFormedObjectTable(t)
    ensures |r| == |t.names|
    ensures forall i :: 0 <= i < |t.names| ==> r[i] == t.fields[t.names[i]]
  {
    seq(|t.names|, i requires 0 <= i < |t.names| => t.fields[t.names[i]])
  }

  function InputTableFields(t: InputFieldTable): (r: seq<GatewayInputField>)
    requires WellFormedInputTable(t)
    ensures |r| == |t.names|
    ensures forall i :: 0 <= i < |t.names| ==> r[i] == t.fields[t.names[i]]
  {
    seq(|t.names|, i requires 0 <= i < |t.names| => t.fields[t.names[i]])
  }

  /** `addField` of the object accumulator: a new name is appended; an existing
      entry is overwritten in place when the newcomer has a strictly lower
      priority number or a different shape, and kept otherwise. */
  function AddObjectField(t: ObjectFieldTable, definition: FieldDefinition, service: UpstreamService): (r: ObjectFieldTable)
    ensures WellFormedObjectTable(t) ==> WellFormedObjectTable(r)
  {
    var candidate := ToGatewayObjectField(definition, service);
    if definition.name !in t.fields then
      ObjectFieldTable(t.names + [definition.name], t.fields[definition.name := candidate])
    else
      var existing := t.fields[definition.name];
      if service.priority < existing.owner.priority || !FieldDefinitionsEqual(existing, definition) then
        ObjectFieldTable(t.names, t.fields[definition.name := candidate])
      else t
  }

  /** `addField` of the input-object accumulator, with the input shape rule. */
  function AddInputField(t: InputFieldTable, definition: InputValueDefinition, service: UpstreamService): (r: InputFieldTable)
    ensures WellFormedInputTable(t) ==> WellFormedInputTable(r)
  {
    var candidate := ToGatewayInputField(definition, service);
    if definition.name !in t.fields then
      InputFieldTable(t.names + [definition.name], t.fields[definition.name := candidate])
    else
      var existing := t.fields[definition.name];
      if service.priority < existing.owner.priority || !InputFieldDefinitionsEqual(existing, definition) then
        InputFieldTable(t.names, t.fields[definition.name := candidate])
      else t
  }

  /** A field declaration together with the upstream that declares it. */
  datatype Contribution<D> = Contribution(definition: D, service: UpstreamService)

  function MergeObjectFields(t: ObjectFieldTable, cs: seq<Contribution<FieldDefinition>>): (r: ObjectFieldTable)
    ensures WellFormedObjectTable(t) ==> WellFormedObjectTable(r)
  {
    if |cs| == 0 then t
    else
      var last := cs[|cs| - 1];
      AddObjectField(MergeObjectFields(t, cs[..|cs| - 1]), last.definition, last.service)
  }

  function MergeInputFields(t: InputFieldTable, cs: seq<Contribution<InputValueDefinition>>): (r: InputFieldTable)
    ensures WellFormedInputTable(t) ==> WellFormedInputTable(r)
  {
    if |cs| == 0 then t
    else
      var last := cs[|cs| - 1];
      AddInputField(MergeInputFields(t, cs[..|cs| - 1]), last.definition, last.service)
  }

  /** Contributions arrive in descending priority-number order. */
  predicate NonIncreasing<D>(cs: seq<Contribution<D>>)
  {
    forall i, j :: 0 <= i < j < |cs| ==> cs[i].service.priority >= cs[j].service.priority
  }

  /** The index of the last contribution of a field named `n`. */
  function LastObjectContribution(cs: seq<Contribution<FieldDefinition>>, n: string): (r: Option<nat>)
    ensures r.None? <==> forall k :: 0 <= k < |cs| ==> cs[k].definition.name != n
    ensures r.Some? ==> r.value < |cs| && cs[r.value].definition.name == n
                        && forall k :: r.value < k < |cs| ==> cs[k].definition.name != n
  {
    if |cs| == 0 then None
    else if cs[|cs| - 1].definition.name == n then Some(|cs| - 1)
    else LastObjectContribution(cs[..|cs| - 1], n)
  }

  function LastInputContribution(cs: seq<Contribution<InputValueDefinition>>, n: string): (r: Option<nat>)
    ensures r.None? <==> forall k :: 0 <= k < |cs| ==> cs[k].definition.name != n
    ensures r.Some? ==> r.value < |cs| && cs[r.value].definition.name == n
                        && forall k :: r.value < k < |cs| ==> cs[k].definition.name != n
  {
    if |cs| == 0 then None
    else if cs[|cs| - 1].definition.name == n then Some(|cs| - 1)
    else LastInputContribution(cs[..|cs| - 1], n)
  }

  /** Merging contributions in descending priority-number order keeps one field
      per declared name. The field is one of the declarations of the name, and
      its owner has the priority number of the last of them. */
  lemma {:induction false} ObjectFieldWinner(cs: seq<Contribution<FieldDefinition>>, n: string)
    requires NonIncreasing(cs)
    ensures var t := MergeObjectFields(EmptyObjectTable, cs);
      && (n in t.fields <==> LastObjectContribution(cs, n).Some?)
      && (n in t.fields ==>
            var last := cs[LastObjectContribution(cs, n).value];
            && t.fields[n].owner.priority == last.service.priority
            && exists k :: 0 <= k < |cs| && cs[k].definition.name == n && t.fields[n] == ToGatewayObjectField(cs[k].definition, cs[k].service))
  {
    if |cs| > 0 {
      var init := cs[..|cs| - 1];
      var x := cs[|cs| - 1];
      ObjectFieldWinner(init, n);
      var before := MergeObjectFields(EmptyObjectTable, init);
      var t := MergeObjectFields(EmptyObjectTable, cs);
      assert t == AddObjectField(before, x.definition, x.service);
      var candidate := ToGatewayObjectField(x.definition, x.service);
      if x.definition.name != n {
        assert LastObjectContribution(cs, n) == LastObjectContribution(init, n);
        if n in t.fields {
          assert n in before.fields && t.fields[n] == before.fields[n];
          var k :| 0 <= k < |init| && init[k].definition.name == n
                   && before.fields[n] == ToGatewayObjectField(init[k].definition, init[k].service);
          assert init[k] == cs[k];
        }
      } else if n !in before.fields {
        assert t.fields[n] == candidate;
      } else {
        var existing := before.fields[n];
        if x.service.priority < existing.owner.priority || !FieldDefinitionsEqual(existing, x.definition) {
          assert t.fields[n] == candidate;
        } else {
          assert t == before;
          var j := LastObjectContribution(init, n).value;
          assert init[j] == cs[j];
          assert cs[j].service.priority >= x.service.priority;
          var k :| 0 <= k < |init| && init[k].definition.name == n
                   && before.fields[n] == ToGatewayObjectField(init[k].definition, init[k].service);
          assert init[k] == cs[k];
        }
      }
    }
  }


  /** A merged field has the shape of the last declaration of its name,
      whatever the priorities: a different shape always replaces the stored
      field, and an equal one may only keep a field of equal shape. */
  lemma {:induction false} ObjectFieldShape(cs: seq<Contribution<FieldDefinition>>, n: string)
    ensures var t := MergeObjectFields(EmptyObjectTable, cs);
      n in t.fields && LastObjectContribution(cs, n).Some? ==>
        var last := cs[LastObjectContribution(cs, n).value];
        FieldDefinitionsEqual(t.fields[n], last.definition)
  {
    if |cs| > 0 {
      var init := cs[..|cs| - 1];
      var x := cs[|cs| - 1];
      ObjectFieldShape(init, n);
      var before := MergeObjectFields(EmptyObjectTable, init);
      var t := MergeObjectFields(EmptyObjectTable, cs);
      assert t == AddObjectField(before, x.definition, x.service);
      if x.definition.name != n {
        assert LastObjectContribution(cs, n) == LastObjectContribution(init, n);
        if n in t.fields && LastObjectContribution(init, n).Some? {
          assert t.fields[n] == before.fields[n];
          assert init[LastObjectContribution(init, n).value] == cs[LastObjectContribution(init, n).value];
        }
      } else if n in before.fields {
        var existing := before.fields[n];
        if x.service.priority < existing.owner.priority || !FieldDefinitionsEqual(existing, x.definition) {
          assert t.fields[n] == ToGatewayObjectField(x.definition, x.service);
          SameDeclarationMatches(x.definition, x.service);
        } else {
          assert t == before;
        }
      } else {
        assert t.fields[n] == ToGatewayObjectField(x.definition, x.service);
        SameDeclarationMatches(x.definition, x.service);
      }
    }
  }

  /** The owner of a merged field has the lowest priority number among all
      declarations of the field. */
  lemma ObjectFieldOwnerLowest(cs: seq<Contribution<FieldDefinition>>, n: string, k: nat)
    requires NonIncreasing(cs)
    requires k < |cs| && cs[k].definition.name == n
    ensures n in MergeObjectFields(EmptyObjectTable, cs).fields
    ensures MergeObjectFields(EmptyObjectTable, cs).fields[n].owner.priority <= cs[k].service.priority
  {
    LastObjectContributionLowest(cs, n, k);
    ObjectFieldWinner(cs, n);
  }

  lemma LastObjectContributionLowest(cs: seq<Contribution<FieldDefinition>>, n: string, k: nat)
    requires NonIncreasing(cs)
    requires k < |cs| && cs[k].definition.name == n
    ensures LastObjectContribution(cs, n).Some?
    ensures cs[k].service.priority >= cs[LastObjectContribution(cs, n).value].service.priority
  {
    assert k <= LastObjectContribution(cs, n).value;
  }

  /** The same for input-object fields. */
  lemma {:induction false} InputFieldWinner(cs: seq<Contribution<InputValueDefinition>>, n: string)
    requires NonIncreasing(cs)
    ensures var t := MergeInputFields(EmptyInputTable, cs);
      && (n in t.fields <==> LastInputContribution(cs, n).Some?)
      && (n in t.fields ==>
            var last := cs[LastInputContribution(cs, n).value];
            && t.fields[n].owner.priority == last.service.priority
            && exists k :: 0 <= k < |cs| && cs[k].definition.name == n && t.fields[n] == ToGatewayInputField(cs[k].definition, cs[k].service))
  {
    if |cs| > 0 {
      var init := cs[..|cs| - 1];
      var x := cs[|cs| - 1];
      InputFieldWinner(init, n);
      var before := MergeInputFields(EmptyInputTable, init);
      var t := MergeInputFields(EmptyInputTable, cs);
      assert t == AddInputField(before, x.definition, x.service);
      var candidate := ToGatewayInputField(x.definition, x.service);
      if x.definition.name != n {
        assert LastInputContribution(cs, n) == LastInputContribution(init, n);
        if n in t.fields {
          assert n in before.fields && t.fields[n] == before.fields[n];
          var k :| 0 <= k < |init| && init[k].definition.name == n
                   && before.fields[n] == ToGatewayInputField(init[k].definition, init[k].service);
          assert init[k] == cs[k];
        }
      } else if n !in before.fields {
        assert t.fields[n] == candidate;
      } else {
        var existing := before.fields[n];
        if x.service.priority < existing.owner.priority || !InputFieldDefinitionsEqual(existing, x.definition) {
          assert t.fields[n] == candidate;
        } else {
          assert t == before;
          var j := LastInputContribution(init, n).value;
          assert init[j] == cs[j];
          assert cs[j].service.priority >= x.service.priority;
          var k :| 0 <= k < |init| && init[k].definition.name == n
                   && before.fields[n] == ToGatewayInputField(init[k].definition, init[k].service);
          assert init[k] == cs[k];
        }
      }
    }
  }


  /** A merged field has the shape of the last declaration of its name,
      whatever the priorities: a different shape always replaces the stored
      field, and an equal one may only keep a field of equal shape. */
  lemma {:induction false} InputFieldShape(cs: seq<Contribution<InputValueDefinition>>, n: string)
    ensures var t := MergeInputFields(EmptyInputTable, cs);
      n in t.fields && LastInputContribution(cs, n).Some? ==>
        var last := cs[LastInputContribution(cs, n).value];
        t.fields[n].typeRef == last.definition.typeRef
  {
    if |cs| > 0 {
      var init := cs[..|cs| - 1];
      var x := cs[|cs| - 1];
      InputFieldShape(init, n);
      var before := MergeInputFields(EmptyInputTable, init);
      var t := MergeInputFields(EmptyInputTable, cs);
      assert t == AddInputField(before, x.definition, x.service);
      if x.definition.name != n {
        assert LastInputContribution(cs, n) == LastInputContribution(init, n);
        if n in t.fields && LastInputContribution(init, n).Some? {
          assert t.fields[n] == before.fields[n];
          assert init[LastInputContribution(init, n).value] == cs[LastInputContribution(init, n).value];
        }
      } else if n in before.fields {
        var existing := before.fields[n];
        if x.service.priority < existing.owner.priority || !InputFieldDefinitionsEqual(existing, x.definition) {
          assert t.fields[n] == ToGatewayInputField(x.definition, x.service);
        } else {
          assert t == before;
        }
      } else {
        assert t.fields[n] == ToGatewayInputField(x.definition, x.service);
      }
    }
  }

  /** The owner of a merged field has the lowest priority number among all
      declarations of the field. */
  lemma InputFieldOwnerLowest(cs: seq<Contribution<InputValueDefinition>>, n: string, k: nat)
    requires NonIncreasing(cs)
    requires k < |cs| && cs[k].definition.name == n
    ensures n in MergeInputFields(EmptyInputTable, cs).fields
    ensures MergeInputFields(EmptyInputTable, cs).fields[n].owner.priority <= cs[k].service.priority
  {
    LastInputContributionLowest(cs, n, k);
    InputFieldWinner(cs, n);
  }

  lemma LastInputContributionLowest(cs: seq<Contribution<InputValueDefinition>>, n: string, k: nat)
    requires NonIncreasing(cs)
    requires k < |cs| && cs[k].definition.name == n
    ensures LastInputContribution(cs, n).Some?
    ensures cs[k].service.priority >= cs[LastInputContribution(cs, n).value].service.priority
  {
    assert k <= LastInputContribution(cs, n).value;
  }

  // ---------------------------------------------------------------------
  // Contributions of the upstream schemas to one type
  // ---------------------------------------------------------------------

  /** An OBJECT definition named `typeName` that is not one of its schema's root types. */
  predicate ContributesObject(schema: UpstreamSchema, definition: TypeDefinition, typeName: string)
  {
    && definition.kind == Object
    && definition.name == typeName
    && schema.queryTypeName != Some(typeName)
    && schema.mutationTypeName != Some(typeName)
  }

  /** An INPUT_OBJECT definition named `typeName`; root types are not skipped here. */
  predicate ContributesInput(definition: TypeDefinition, typeName: string)
  {
    definition.kind == InputObject && definition.name == typeName
  }

  function ObjectFieldsOf(typeName: string): (UpstreamSchema, TypeDefinition) -> seq<FieldDefinition>
  {
    (schema: UpstreamSchema, definition: TypeDefinition) =>
      if ContributesObject(schema, definition, typeName) then definition.fields else []
  }

  function InputFieldsOf(typeName: string): (UpstreamSchema, TypeDefinition) -> seq<InputValueDefinition>
  {
    (schema: UpstreamSchema, definition: TypeDefinition) =>
      if ContributesInput(definition, typeName) then definition.inputFields else []
  }

  function Attribute<D>(definitions: seq<D>, service: UpstreamService): (r: seq<Contribution<D>>)
    ensures |r| == |definitions|
    ensures forall i :: 0 <= i < |definitions| ==> r[i] == Contribution(definitions[i], service)
  {
    seq(|definitions|, i requires 0 <= i < |definitions| => Contribution(definitions[i], service))
  }

  /** The declarations that `entries` of `schema` contribute, in order. */
  function EntryContributions<D>(schema: UpstreamSchema, entries: seq<TypeEntry>, fieldsOf: (UpstreamSchema, TypeDefinition) -> seq<D>)
    : seq<Contribution<D>>
  {
    if |entries| == 0 then []
    else
      EntryContributions(schema, entries[..|entries| - 1], fieldsOf)
        + Attribute(fieldsOf(schema, entries[|entries| - 1].definition), schema.service)
  }

  /** The declarations that `schemas` contribute, in processing order. */
  function Contributions<D>(schemas: seq<UpstreamSchema>, fieldsOf: (UpstreamSchema, TypeDefinition) -> seq<D>)
    : seq<Contribution<D>>
  {
    if |schemas| == 0 then []
    else
      var last := schemas[|schemas| - 1];
      Contributions(schemas[..|schemas| - 1], fieldsOf) + EntryContributions(last, last.typeDefinitions, fieldsOf)
  }

  lemma {:induction false} EntryContributionsMembers<D>(
    schema: UpstreamSchema, entries: seq<TypeEntry>, fieldsOf: (UpstreamSchema, TypeDefinition) -> seq<D>, c: Contribution<D>)
    ensures c in EntryContributions(schema, entries, fieldsOf)
        <==> c.service == schema.service && exists e :: e in entries && c.definition in fieldsOf(schema, e.definition)
  {
    if |entries| > 0 {
      var init := entries[..|entries| - 1];
      var last := entries[|entries| - 1];
      EntryContributionsMembers(schema, init, fieldsOf, c);
      assert entries == init + [last];
      var added := Attribute(fieldsOf(schema, last.definition), schema.service);
      if c in added {
        var i :| 0 <= i < |added| && added[i] == c;
      }
      if c.service == schema.service && c.definition in fieldsOf(schema, last.definition) {
        var i :| 0 <= i < |fieldsOf(schema, last.definition)| && fieldsOf(schema, last.definition)[i] == c.definition;
        assert added[i] == c;
      }
    }
  }

  /** A contribution is a declaration of some schema, attributed to that schema's service. */
  lemma {:induction false} ContributionsMembers<D>(
    schemas: seq<UpstreamSchema>, fieldsOf: (UpstreamSchema, TypeDefinition) -> seq<D>, c: Contribution<D>)
    ensures c in Contributions(schemas, fieldsOf)
        <==> exists s, e :: s in schemas && e in s.typeDefinitions && c.service == s.service
                            && c.definition in fieldsOf(s, e.definition)
  {
    if |schemas| > 0 {
      var init := schemas[..|schemas| - 1];
      var last := schemas[|schemas| - 1];
      ContributionsMembers(init, fieldsOf, c);
      EntryContributionsMembers(last, last.typeDefinitions, fieldsOf, c);
      assert schemas == init + [last];
    }
  }

  /** The descending order `sortedByDescending { it.service.priority }`. */
  predicate ByPriorityDescending(a: UpstreamSchema, b: UpstreamSchema)
  {
    a.service.priority >= b.service.priority
  }

  lemma ByPriorityDescendingTotalPreorder()
    ensures TotalPreorder(ByPriorityDescending)
  {
  }

  /** Schemas in descending priority-number order contribute in that order too. */
  lemma {:induction false} ContributionsNonIncreasing<D>(
    schemas: seq<UpstreamSchema>, fieldsOf: (UpstreamSchema, TypeDefinition) -> seq<D>)
    requires Sorted(schemas, ByPriorityDescending)
    ensures NonIncreasing(Contributions(schemas, fieldsOf))
  {
    if |schemas| > 0 {
      var init := schemas[..|schemas| - 1];
      var last := schemas[|schemas| - 1];
      ContributionsNonIncreasing(init, fieldsOf);
      var a := Contributions(init, fieldsOf);
      var b := EntryContributions(last, last.typeDefinitions, fieldsOf);
      var cs := a + b;
      forall i, j | 0 <= i < j < |cs| ensures cs[i].service.priority >= cs[j].service.priority {
        if j >= |a| {
          EntryContributionsMembers(last, last.typeDefinitions, fieldsOf, cs[j]);
          if i >= |a| {
            EntryContributionsMembers(last, last.typeDefinitions, fieldsOf, cs[i]);
          } else {
            assert cs[i] in a;
            ContributionsMembers(init, fieldsOf, cs[i]);
            var s, e :| s in init && e in s.typeDefinitions && cs[i].service == s.service
                        && cs[i].definition in fieldsOf(s, e.definition);
            var k :| 0 <= k < |init| && init[k] == s;
            assert schemas[k] == s;
            assert ByPriorityDescending(schemas[k], schemas[|schemas| - 1]);
          }
        }
      }
    }
  }

  /** Some schema has a definition that opens an accumulator for the type. */
  function DeclaresIn(schema: UpstreamSchema, entries: seq<TypeEntry>, declares: (UpstreamSchema, TypeDefinition) -> bool): bool
  {
    |entries| > 0
    && (DeclaresIn(schema, entries[..|entries| - 1], declares) || declares(schema, entries[|entries| - 1].definition))
  }

  function Declares(schemas: seq<UpstreamSchema>, declares: (UpstreamSchema, TypeDefinition) -> bool): bool
  {
    |schemas| > 0
    && (Declares(schemas[..|schemas| - 1], declares)
        || DeclaresIn(schemas[|schemas| - 1], schemas[|schemas| - 1].typeDefinitions, declares))
  }

  function ObjectDeclaration(typeName: string): (UpstreamSchema, TypeDefinition) -> bool
  {
    (schema: UpstreamSchema, definition: TypeDefinition) => ContributesObject(schema, definition, typeName)
  }

  function InputDeclaration(typeName: string): (UpstreamSchema, TypeDefinition) -> bool
  {
    (schema: UpstreamSchema, definition: TypeDefinition) => ContributesInput(definition, typeName)
  }

  lemma {:induction false} DeclaresInMembers(schema: UpstreamSchema, entries: seq<TypeEntry>, declares: (UpstreamSchema, TypeDefinition) -> bool)
    ensures DeclaresIn(schema, entries, declares) <==> exists e :: e in entries && declares(schema, e.definition)
  {
    if |entries| > 0 {
      DeclaresInMembers(schema, entries[..|entries| - 1], declares);
      assert entries == entries[..|entries| - 1] + [entries[|entries| - 1]];
    }
  }

  lemma {:induction false} DeclaresMembers(schemas: seq<UpstreamSchema>, declares: (UpstreamSchema, TypeDefinition) -> bool)
    ensures Declares(schemas, declares) <==> exists s, e :: s in schemas && e in s.typeDefinitions && declares(s, e.definition)
  {
    if |schemas| > 0 {
      var init := schemas[..|schemas| - 1];
      var last := schemas[|schemas| - 1];
      DeclaresMembers(init, declares);
      DeclaresInMembers(last, last.typeDefinitions, declares);
      assert schemas == init + [last];
    }
  }

  /** Every type name any schema defines: a finite bound for the registry's keys. */
  function DefinedNames(schemas: seq<UpstreamSchema>): set<string>
  {
    set s, e | s in schemas && e in s.typeDefinitions :: e.definition.name
  }

  // ---------------------------------------------------------------------
  // The merged registry, as values
  // ---------------------------------------------------------------------

  function MergedObjectTable(sorted: seq<UpstreamSchema>, typeName: string): (r: ObjectFieldTable)
    ensures WellFormedObjectTable(r)
  {
    assert WellFormedObjectTable(EmptyObjectTable);
    MergeObjectFields(EmptyObjectTable, Contributions(sorted, ObjectFieldsOf(typeName)))
  }

  function MergedInputTable(sorted: seq<UpstreamSchema>, typeName: string): (r: InputFieldTable)
    ensures WellFormedInputTable(r)
  {
    assert WellFormedInputTable(EmptyInputTable);
    MergeInputFields(EmptyInputTable, Contributions(sorted, InputFieldsOf(typeName)))
  }

  /** One accumulator per type name some schema declares as an object it contributes. */
  function MergedObjectTables(sorted: seq<UpstreamSchema>): map<string, ObjectFieldTable>
  {
    map n | n in DefinedNames(sorted) && Declares(sorted, ObjectDeclaration(n)) :: MergedObjectTable(sorted, n)
  }

  function MergedInputTables(sorted: seq<UpstreamSchema>): map<string, InputFieldTable>
  {
    map n | n in DefinedNames(sorted) && Declares(sorted, InputDeclaration(n)) :: MergedInputTable(sorted, n)
  }

  /** `mapValues { it.toGatewayType() }.filterValues { fields not empty }` on both maps. */
  function RegistryOf(objectTables: map<string, ObjectFieldTable>, inputTables: map<string, InputFieldTable>): GatewayTypeRegistry
    requires forall n :: n in objectTables ==> WellFormedObjectTable(objectTables[n])
    requires forall n :: n in inputTables ==> WellFormedInputTable(inputTables[n])
  {
    GatewayTypeRegistry(
      map n | n in objectTables && |objectTables[n].names| > 0 :: GatewayObjectType(n, ObjectTableFields(objectTables[n])),
      map n | n in inputTables && |inputTables[n].names| > 0 :: GatewayInputObjectType(n, InputTableFields(inputTables[n])),
      map[])
  }

  /** The registry `merge` builds from the schemas in descending priority-number order. */
  function MergedRegistry(upstreamSchemas: seq<UpstreamSchema>): GatewayTypeRegistry
  {
    var sorted := Sort(upstreamSchemas, ByPriorityDescending);
    RegistryOf(MergedObjectTables(sorted), MergedInputTables(sorted))
  }

  // ---------------------------------------------------------------------
  // What the merged registry holds
  // ---------------------------------------------------------------------

  /** `service` declares the field `definition` in an OBJECT definition named
      `typeName` that is not one of its schema's root types. */
  ghost predicate ObjectFieldDeclared(upstreamSchemas: seq<UpstreamSchema>, typeName: string, definition: FieldDefinition, service: UpstreamService)
  {
    exists s, e :: s in upstreamSchemas && e in s.typeDefinitions && s.service == service
                   && ContributesObject(s, e.definition, typeName) && definition in e.definition.fields
  }

  /** `service` declares the input field `definition` in an INPUT_OBJECT definition named `typeName`. */
  ghost predicate InputFieldDeclared(upstreamSchemas: seq<UpstreamSchema>, typeName: string, definition: InputValueDefinition, service: UpstreamService)
  {
    exists s, e :: s in upstreamSchemas && e in s.typeDefinitions && s.service == service
                   && ContributesInput(e.definition, typeName) && definition in e.definition.inputFields
  }

  /** Every field stored under a name carries that name. */
  lemma {:induction false} ObjectFieldsNamed(cs: seq<Contribution<FieldDefinition>>)
    ensures forall n :: n in MergeObjectFields(EmptyObjectTable, cs).fields ==> MergeObjectFields(EmptyObjectTable, cs).fields[n].name == n
  {
    if |cs| > 0 {
      var x := cs[|cs| - 1];
      var before := MergeObjectFields(EmptyObjectTable, cs[..|cs| - 1]);
      ObjectFieldsNamed(cs[..|cs| - 1]);
      var t := MergeObjectFields(EmptyObjectTable, cs);
      assert t == AddObjectField(before, x.definition, x.service);
      forall n | n in t.fields ensures t.fields[n].name == n {
        if n != x.definition.name {
          assert t.fields[n] == before.fields[n];
        } else if n in before.fields && t.fields[n] == before.fields[n] {
        } else {
          assert t.fields[n] == ToGatewayObjectField(x.definition, x.service);
        }
      }
    }
  }

  lemma {:induction false} InputFieldsNamed(cs: seq<Contribution<InputValueDefinition>>)
    ensures forall n :: n in MergeInputFields(EmptyInputTable, cs).fields ==> MergeInputFields(EmptyInputTable, cs).fields[n].name == n
  {
    if |cs| > 0 {
      var x := cs[|cs| - 1];
      var before := MergeInputFields(EmptyInputTable, cs[..|cs| - 1]);
      InputFieldsNamed(cs[..|cs| - 1]);
      var t := MergeInputFields(EmptyInputTable, cs);
      assert t == AddInputField(before, x.definition, x.service);
      forall n | n in t.fields ensures t.fields[n].name == n {
        if n != x.definition.name {
          assert t.fields[n] == before.fields[n];
        } else if n in before.fields && t.fields[n] == before.fields[n] {
        } else {
          assert t.fields[n] == ToGatewayInputField(x.definition, x.service);
        }
      }
    }
  }

  /** An accumulator ends with no field exactly when nothing was contributed to it. */
  lemma {:induction false} ObjectTableEmptyIff(cs: seq<Contribution<FieldDefinition>>)
    ensures |MergeObjectFields(EmptyObjectTable, cs).names| == 0 <==> |cs| == 0
  {
    if |cs| > 0 {
      var x := cs[|cs| - 1];
      var before := MergeObjectFields(EmptyObjectTable, cs[..|cs| - 1]);
      assert MergeObjectFields(EmptyObjectTable, cs) == AddObjectField(before, x.definition, x.service);
      assert WellFormedObjectTable(EmptyObjectTable);
      assert x.definition.name in MergeObjectFields(EmptyObjectTable, cs).fields;
    }
  }

  lemma {:induction false} InputTableEmptyIff(cs: seq<Contribution<InputValueDefinition>>)
    ensures |MergeInputFields(EmptyInputTable, cs).names| == 0 <==> |cs| == 0
  {
    if |cs| > 0 {
      var x := cs[|cs| - 1];
      var before := MergeInputFields(EmptyInputTable, cs[..|cs| - 1]);
      assert MergeInputFields(EmptyInputTable, cs) == AddInputField(before, x.definition, x.service);
      assert WellFormedInputTable(EmptyInputTable);
      assert x.definition.name in MergeInputFields(EmptyInputTable, cs).fields;
    }
  }

  /** The contributions to a type, gathered in priority order, are exactly its declared fields. */
  lemma ObjectContributionIff(upstreamSchemas: seq<UpstreamSchema>, typeName: string, definition: FieldDefinition, service: UpstreamService)
    ensures Contribution(definition, service) in Contributions(Sort(upstreamSchemas, ByPriorityDescending), ObjectFieldsOf(typeName))
        <==> ObjectFieldDeclared(upstreamSchemas, typeName, definition, service)
  {
    var sorted := Sort(upstreamSchemas, ByPriorityDescending);
    SortMembers(upstreamSchemas, ByPriorityDescending);
    ContributionsMembers(sorted, ObjectFieldsOf(typeName), Contribution(definition, service));
  }

  lemma InputContributionIff(upstreamSchemas: seq<UpstreamSchema>, typeName: string, definition: InputValueDefinition, service: UpstreamService)
    ensures Contribution(definition, service) in Contributions(Sort(upstreamSchemas, ByPriorityDescending), InputFieldsOf(typeName))
        <==> InputFieldDeclared(upstreamSchemas, typeName, definition, service)
  {
    var sorted := Sort(upstreamSchemas, ByPriorityDescending);
    SortMembers(upstreamSchemas, ByPriorityDescending);
    ContributionsMembers(sorted, InputFieldsOf(typeName), Contribution(definition, service));
  }

  /** A declared field makes its type declared, and so defined. */
  lemma ObjectFieldDeclaresType(upstreamSchemas: seq<UpstreamSchema>, typeName: string, definition: FieldDefinition, service: UpstreamService)
    requires ObjectFieldDeclared(upstreamSchemas, typeName, definition, service)
    ensures var sorted := Sort(upstreamSchemas, ByPriorityDescending);
      typeName in DefinedNames(sorted) && Declares(sorted, ObjectDeclaration(typeName))
  {
    var sorted := Sort(upstreamSchemas, ByPriorityDescending);
    SortMembers(upstreamSchemas, ByPriorityDescending);
    var s, e :| s in upstreamSchemas && e in s.typeDefinitions && s.service == service
                && ContributesObject(s, e.definition, typeName) && definition in e.definition.fields;
    assert ObjectDeclaration(typeName)(s, e.definition);
    DeclaresMembers(sorted, ObjectDeclaration(typeName));
    DeclaredNameDefined(sorted, typeName);
  }

  lemma InputFieldDeclaresType(upstreamSchemas: seq<UpstreamSchema>, typeName: string, definition: InputValueDefinition, service: UpstreamService)
    requires InputFieldDeclared(upstreamSchemas, typeName, definition, service)
    ensures var sorted := Sort(upstreamSchemas, ByPriorityDescending);
      typeName in DefinedNames(sorted) && Declares(sorted, InputDeclaration(typeName))
  {
    var sorted := Sort(upstreamSchemas, ByPriorityDescending);
    SortMembers(upstreamSchemas, ByPriorityDescending);
    var s, e :| s in upstreamSchemas && e in s.typeDefinitions && s.service == service
                && ContributesInput(e.definition, typeName) && definition in e.definition.inputFields;
    assert InputDeclaration(typeName)(s, e.definition);
    DeclaresMembers(sorted, InputDeclaration(typeName));
    DeclaredNameDefined(sorted, typeName);
  }

  /** An object type is in the registry exactly when some upstream declares a
      field for it outside its root types: types that end with no field are dropped. */
  lemma MergedObjectTypePresent(upstreamSchemas: seq<UpstreamSchema>, typeName: string)
    ensures typeName in MergedRegistry(upstreamSchemas).objectTypes
        <==> exists d, svc :: ObjectFieldDeclared(upstreamSchemas, typeName, d, svc)
  {
    var sorted := Sort(upstreamSchemas, ByPriorityDescending);
    var cs := Contributions(sorted, ObjectFieldsOf(typeName));
    ObjectTableEmptyIff(cs);
    if |cs| > 0 {
      ObjectContributionIff(upstreamSchemas, typeName, cs[0].definition, cs[0].service);
      ObjectFieldDeclaresType(upstreamSchemas, typeName, cs[0].definition, cs[0].service);
    }
    if exists d, svc :: ObjectFieldDeclared(upstreamSchemas, typeName, d, svc) {
      var d, svc :| ObjectFieldDeclared(upstreamSchemas, typeName, d, svc);
      ObjectContributionIff(upstreamSchemas, typeName, d, svc);
      ObjectFieldDeclaresType(upstreamSchemas, typeName, d, svc);
    }
  }

  /** An input-object type is in the registry exactly when some upstream declares an input field for it. */
  lemma MergedInputTypePresent(upstreamSchemas: seq<UpstreamSchema>, typeName: string)
    ensures typeName in MergedRegistry(upstreamSchemas).inputObjectTypes
        <==> exists d, svc :: InputFieldDeclared(upstreamSchemas, typeName, d, svc)
  {
    var sorted := Sort(upstreamSchemas, ByPriorityDescending);
    var cs := Contributions(sorted, InputFieldsOf(typeName));
    InputTableEmptyIff(cs);
    if |cs| > 0 {
      InputContributionIff(upstreamSchemas, typeName, cs[0].definition, cs[0].service);
      InputFieldDeclaresType(upstreamSchemas, typeName, cs[0].definition, cs[0].service);
    }
    if exists d, svc :: InputFieldDeclared(upstreamSchemas, typeName, d, svc) {
      var d, svc :| InputFieldDeclared(upstreamSchemas, typeName, d, svc);
      InputContributionIff(upstreamSchemas, typeName, d, svc);
      InputFieldDeclaresType(upstreamSchemas, typeName, d, svc);
    }
  }

  /** A merged object type lists the fields of its accumulator, which was fed in
      descending priority-number order. */
  lemma MergedObjectTypeFields(upstreamSchemas: seq<UpstreamSchema>, typeName: string)
    requires typeName in MergedRegistry(upstreamSchemas).objectTypes
    ensures var cs := Contributions(Sort(upstreamSchemas, ByPriorityDescending), ObjectFieldsOf(typeName));
      && NonIncreasing(cs)
      && WellFormedObjectTable(MergeObjectFields(EmptyObjectTable, cs))
      && MergedRegistry(upstreamSchemas).objectTypes[typeName].fields == ObjectTableFields(MergeObjectFields(EmptyObjectTable, cs))
  {
    var sorted := Sort(upstreamSchemas, ByPriorityDescending);
    ByPriorityDescendingTotalPreorder();
    SortSorted(upstreamSchemas, ByPriorityDescending);
    ContributionsNonIncreasing(sorted, ObjectFieldsOf(typeName));
    assert MergedRegistry(upstreamSchemas).objectTypes[typeName]
        == GatewayObjectType(typeName, ObjectTableFields(MergedObjectTable(sorted, typeName)));
  }

  /** Each field of a merged object type is one of the declarations of that type,
      owned by the service that declares it. */
  lemma MergedObjectFieldDeclared(upstreamSchemas: seq<UpstreamSchema>, typeName: string, i: nat)
    requires typeName in MergedRegistry(upstreamSchemas).objectTypes
    requires i < |MergedRegistry(upstreamSchemas).objectTypes[typeName].fields|
    ensures exists d, svc :: ObjectFieldDeclared(upstreamSchemas, typeName, d, svc) && MergedRegistry(upstreamSchemas).objectTypes[typeName].fields[i] == ToGatewayObjectField(d, svc)
  {
    MergedObjectTypeFields(upstreamSchemas, typeName);
    var cs := Contributions(Sort(upstreamSchemas, ByPriorityDescending), ObjectFieldsOf(typeName));
    var t := MergeObjectFields(EmptyObjectTable, cs);
    var n := t.names[i];
    ObjectFieldWinner(cs, n);
    var k :| 0 <= k < |cs| && cs[k].definition.name == n && t.fields[n] == ToGatewayObjectField(cs[k].definition, cs[k].service);
    ObjectContributionIff(upstreamSchemas, typeName, cs[k].definition, cs[k].service);
  }

  /** The owner of a field of a merged object type has the lowest priority number
      among the services that declare a field of that name for the type. */
  lemma MergedObjectFieldOwner(upstreamSchemas: seq<UpstreamSchema>, typeName: string, i: nat, definition: FieldDefinition, service: UpstreamService)
    requires typeName in MergedRegistry(upstreamSchemas).objectTypes
    requires i < |MergedRegistry(upstreamSchemas).objectTypes[typeName].fields|
    requires ObjectFieldDeclared(upstreamSchemas, typeName, definition, service)
    requires definition.name == MergedRegistry(upstreamSchemas).objectTypes[typeName].fields[i].name
    ensures MergedRegistry(upstreamSchemas).objectTypes[typeName].fields[i].owner.priority <= service.priority
  {
    MergedObjectTypeFields(upstreamSchemas, typeName);
    var cs := Contributions(Sort(upstreamSchemas, ByPriorityDescending), ObjectFieldsOf(typeName));
    var t := MergeObjectFields(EmptyObjectTable, cs);
    ObjectFieldsNamed(cs);
    ObjectContributionIff(upstreamSchemas, typeName, definition, service);
    var k :| 0 <= k < |cs| && cs[k] == Contribution(definition, service);
    ObjectFieldOwnerLowest(cs, t.names[i], k);
  }

  /** No two fields of a merged object type share a name. */
  lemma MergedObjectFieldNamesDistinct(upstreamSchemas: seq<UpstreamSchema>, typeName: string, i: nat, j: nat)
    requires typeName in MergedRegistry(upstreamSchemas).objectTypes
    requires i < j < |MergedRegistry(upstreamSchemas).objectTypes[typeName].fields|
    ensures MergedRegistry(upstreamSchemas).objectTypes[typeName].fields[i].name != MergedRegistry(upstreamSchemas).objectTypes[typeName].fields[j].name
  {
    MergedObjectTypeFields(upstreamSchemas, typeName);
    var cs := Contributions(Sort(upstreamSchemas, ByPriorityDescending), ObjectFieldsOf(typeName));
    var t := MergeObjectFields(EmptyObjectTable, cs);
    ObjectFieldsNamed(cs);
    assert t.names[i] != t.names[j];
  }

  /** Every field name declared for a type appears among the merged type's fields. */
  lemma MergedObjectFieldCovered(upstreamSchemas: seq<UpstreamSchema>, typeName: string, definition: FieldDefinition, service: UpstreamService)
    requires ObjectFieldDeclared(upstreamSchemas, typeName, definition, service)
    ensures typeName in MergedRegistry(upstreamSchemas).objectTypes
    ensures exists i :: 0 <= i < |MergedRegistry(upstreamSchemas).objectTypes[typeName].fields| && MergedRegistry(upstreamSchemas).objectTypes[typeName].fields[i].name == definition.name
  {
    MergedObjectTypePresent(upstreamSchemas, typeName);
    MergedObjectTypeFields(upstreamSchemas, typeName);
    var cs := Contributions(Sort(upstreamSchemas, ByPriorityDescending), ObjectFieldsOf(typeName));
    var t := MergeObjectFields(EmptyObjectTable, cs);
    ObjectContributionIff(upstreamSchemas, typeName, definition, service);
    var k :| 0 <= k < |cs| && cs[k] == Contribution(definition, service);
    ObjectFieldOwnerLowest(cs, definition.name, k);
    ObjectFieldsNamed(cs);
    var i :| 0 <= i < |t.names| && t.names[i] == definition.name;
    assert MergedRegistry(upstreamSchemas).objectTypes[typeName].fields[i] == t.fields[definition.name];
  }

  /** A merged input type lists the fields of its accumulator, which was fed in
      descending priority-number order. */
  lemma MergedInputTypeFields(upstreamSchemas: seq<UpstreamSchema>, typeName: string)
    requires typeName in MergedRegistry(upstreamSchemas).inputObjectTypes
    ensures var cs := Contributions(Sort(upstreamSchemas, ByPriorityDescending), InputFieldsOf(typeName));
      && NonIncreasing(cs)
      && WellFormedInputTable(MergeInputFields(EmptyInputTable, cs))
      && MergedRegistry(upstreamSchemas).inputObjectTypes[typeName].inputFields == InputTableFields(MergeInputFields(EmptyInputTable, cs))
  {
    var sorted := Sort(upstreamSchemas, ByPriorityDescending);
    ByPriorityDescendingTotalPreorder();
    SortSorted(upstreamSchemas, ByPriorityDescending);
    ContributionsNonIncreasing(sorted, InputFieldsOf(typeName));
    assert MergedRegistry(upstreamSchemas).inputObjectTypes[typeName]
        == GatewayInputObjectType(typeName, InputTableFields(MergedInputTable(sorted, typeName)));
  }

  /** Each field of a merged input type is one of the declarations of that type,
      owned by the service that declares it. */
  lemma MergedInputFieldDeclared(upstreamSchemas: seq<UpstreamSchema>, typeName: string, i: nat)
    requires typeName in MergedRegistry(upstreamSchemas).inputObjectTypes
    requires i < |MergedRegistry(upstreamSchemas).inputObjectTypes[typeName].inputFields|
    ensures exists d, svc :: InputFieldDeclared(upstreamSchemas, typeName, d, svc) && MergedRegistry(upstreamSchemas).inputObjectTypes[typeName].inputFields[i] == ToGatewayInputField(d, svc)
  {
    MergedInputTypeFields(upstreamSchemas, typeName);
    var cs := Contributions(Sort(upstreamSchemas, ByPriorityDescending), InputFieldsOf(typeName));
    var t := MergeInputFields(EmptyInputTable, cs);
    var n := t.names[i];
    InputFieldWinner(cs, n);
    var k :| 0 <= k < |cs| && cs[k].definition.name == n && t.fields[n] == ToGatewayInputField(cs[k].definition, cs[k].service);
    InputContributionIff(upstreamSchemas, typeName, cs[k].definition, cs[k].service);
  }

  /** The owner of a field of a merged input type has the lowest priority number
      among the services that declare a field of that name for the type. */
  lemma MergedInputFieldOwner(upstreamSchemas: seq<UpstreamSchema>, typeName: string, i: nat, definition: InputValueDefinition, service: UpstreamService)
    requires typeName in MergedRegistry(upstreamSchemas).inputObjectTypes
    requires i < |MergedRegistry(upstreamSchemas).inputObjectTypes[typeName].inputFields|
    requires InputFieldDeclared(upstreamSchemas, typeName, definition, service)
    requires definition.name == MergedRegistry(upstreamSchemas).inputObjectTypes[typeName].inputFields[i].name
    ensures MergedRegistry(upstreamSchemas).inputObjectTypes[typeName].inputFields[i].owner.priority <= service.priority
  {
    MergedInputTypeFields(upstreamSchemas, typeName);
    var cs := Contributions(Sort(upstreamSchemas, ByPriorityDescending), InputFieldsOf(typeName));
    var t := MergeInputFields(EmptyInputTable, cs);
    InputFieldsNamed(cs);
    InputContributionIff(upstreamSchemas, typeName, definition, service);
    var k :| 0 <= k < |cs| && cs[k] == Contribution(definition, service);
    InputFieldOwnerLowest(cs, t.names[i], k);
  }

  /** No two fields of a merged input type share a name. */
  lemma MergedInputFieldNamesDistinct(upstreamSchemas: seq<UpstreamSchema>, typeName: string, i: nat, j: nat)
    requires typeName in MergedRegistry(upstreamSchemas).inputObjectTypes
    requires i < j < |MergedRegistry(upstreamSchemas).inputObjectTypes[typeName].inputFields|
    ensures MergedRegistry(upstreamSchemas).inputObjectTypes[typeName].inputFields[i].name != MergedRegistry(upstreamSchemas).inputObjectTypes[typeName].inputFields[j].name
  {
    MergedInputTypeFields(upstreamSchemas, typeName);
    var cs := Contributions(Sort(upstreamSchemas, ByPriorityDescending), InputFieldsOf(typeName));
    var t := MergeInputFields(EmptyInputTable, cs);
    InputFieldsNamed(cs);
    assert t.names[i] != t.names[j];
  }

  /** Every field name declared for a type appears among the merged type's fields. */
  lemma MergedInputFieldCovered(upstreamSchemas: seq<UpstreamSchema>, typeName: string, definition: InputValueDefinition, service: UpstreamService)
    requires InputFieldDeclared(upstreamSchemas, typeName, definition, service)
    ensures typeName in MergedRegistry(upstreamSchemas).inputObjectTypes
    ensures exists i :: 0 <= i < |MergedRegistry(upstreamSchemas).inputObjectTypes[typeName].inputFields| && MergedRegistry(upstreamSchemas).inputObjectTypes[typeName].inputFields[i].name == definition.name
  {
    MergedInputTypePresent(upstreamSchemas, typeName);
    MergedInputTypeFields(upstreamSchemas, typeName);
    var cs := Contributions(Sort(upstreamSchemas, ByPriorityDescending), InputFieldsOf(typeName));
    var t := MergeInputFields(EmptyInputTable, cs);
    InputContributionIff(upstreamSchemas, typeName, definition, service);
    var k :| 0 <= k < |cs| && cs[k] == Contribution(definition, service);
    InputFieldOwnerLowest(cs, definition.name, k);
    InputFieldsNamed(cs);
    var i :| 0 <= i < |t.names| && t.names[i] == definition.name;
    assert MergedRegistry(upstreamSchemas).inputObjectTypes[typeName].inputFields[i] == t.fields[definition.name];
  }

  /** With no two upstreams sharing a priority, the registry does not depend on
      the order in which the upstreams are given. */
  lemma MergedRegistryIgnoresInputOrder(a: seq<UpstreamSchema>, b: seq<UpstreamSchema>)
    requires multiset(a) == multiset(b)
    requires forall i, j :: 0 <= i < |a| && 0 <= j < |a| && a[i].service.priority == a[j].service.priority ==> a[i] == a[j]
    ensures MergedRegistry(a) == MergedRegistry(b)
  {
    ByPriorityDescendingTotalPreorder();
    SortIgnoresInputOrder(a, b, ByPriorityDescending);
  }

  // ---------------------------------------------------------------------
  // The accumulators
  // ---------------------------------------------------------------------

  /** `MutableObjectTypeAccumulator`: the merged fields of one object type. */
  class ObjectTypeAccumulator {
    const typeName: string
    var names: seq<string>
    var fields: map<string, GatewayObjectField>

    function Table(): ObjectFieldTable
      reads this
    {
      ObjectFieldTable(names, fields)
    }

    ghost predicate Valid()
      reads this
    {
      WellFormedObjectTable(Table())
    }

    constructor(typeName: string)
      ensures this.typeName == typeName
      ensures Table() == EmptyObjectTable && Valid()
    {
      this.typeName := typeName;
      names := [];
      fields := map[];
    }

    method AddField(definition: FieldDefinition, service: UpstreamService)
      requires Valid()
      modifies this
      ensures Valid()
      ensures Table() == AddObjectField(old(Table()), definition, service)
    {
      var candidate := ToGatewayObjectField(definition, service);
      if definition.name !in fields {
        fields := fields[definition.name := candidate];
        names := names + [definition.name];
        return;
      }
      var existing := fields[definition.name];
      var higherPriority := service.priority < existing.owner.priority;
      var definitionsMatch := FieldDefinitionsEqual(existing, definition);
      if higherPriority || !definitionsMatch {
        fields := fields[definition.name := candidate];
      }
    }

    /** The loop of `mergeObjectType` that adds every field of a definition. */
    method AddFields(definitions: seq<FieldDefinition>, service: UpstreamService)
      requires Valid()
      modifies this
      ensures Valid()
      ensures Table() == MergeObjectFields(old(Table()), Attribute(definitions, service))
    {
      for k := 0 to |definitions|
        invariant Valid()
        invariant Table() == MergeObjectFields(old(Table()), Attribute(definitions[..k], service))
      {
        assert Attribute(definitions[..k + 1], service)[..k] == Attribute(definitions[..k], service);
        AddField(definitions[k], service);
      }
      assert definitions[..|definitions|] == definitions;
    }

    /** `toGatewayType()`. */
    function ToGatewayType(): GatewayObjectType
      requires Valid()
      reads this
    {
      GatewayObjectType(typeName, ObjectTableFields(Table()))
    }
  }

  /** `MutableInputObjectTypeAccumulator`: the merged fields of one input object type. */
  class InputObjectTypeAccumulator {
    const typeName: string
    var names: seq<string>
    var fields: map<string, GatewayInputField>

    function Table(): InputFieldTable
      reads this
    {
      InputFieldTable(names, fields)
    }

    ghost predicate Valid()
      reads this
    {
      WellFormedInputTable(Table())
    }

    constructor(typeName: string)
      ensures this.typeName == typeName
      ensures Table() == EmptyInputTable && Valid()
    {
      this.typeName := typeName;
      names := [];
      fields := map[];
    }

    method AddField(definition: InputValueDefinition, service: UpstreamService)
      requires Valid()
      modifies this
      ensures Valid()
      ensures Table() == AddInputField(old(Table()), definition, service)
    {
      var candidate := ToGatewayInputField(definition, service);
      if definition.name !in fields {
        fields := fields[definition.name := candidate];
        names := names + [definition.name];
        return;
      }
      var existing := fields[definition.name];
      var higherPriority := service.priority < existing.owner.priority;
      var definitionsMatch := InputFieldDefinitionsEqual(existing, definition);
      if higherPriority || !definitionsMatch {
        fields := fields[definition.name := candidate];
      }
    }

    /** The loop of `mergeInputObjectType` that adds every input field of a definition. */
    method AddFields(definitions: seq<InputValueDefinition>, service: UpstreamService)
      requires Valid()
      modifies this
      ensures Valid()
      ensures Table() == MergeInputFields(old(Table()), Attribute(definitions, service))
    {
      for k := 0 to |definitions|
        invariant Valid()
        invariant Table() == MergeInputFields(old(Table()), Attribute(definitions[..k], service))
      {
        assert Attribute(definitions[..k + 1], service)[..k] == Attribute(definitions[..k], service);
        AddField(definitions[k], service);
      }
      assert definitions[..|definitions|] == definitions;
    }

    /** `toGatewayType()`. */
    function ToGatewayType(): GatewayInputObjectType
      requires Valid()
      reads this
    {
      GatewayInputObjectType(typeName, InputTableFields(Table()))
    }
  }

  /** Each accumulator is valid, is stored under its own type name, and no
      accumulator is stored under two names. */
  ghost predicate ObjectAccumulatorsValid(accumulators: map<string, ObjectTypeAccumulator>)
    reads accumulators.Values
  {
    && (forall n :: n in accumulators ==> accumulators[n].Valid() && accumulators[n].typeName == n)
    && (forall n, m :: n in accumulators && m in accumulators && n != m ==> accumulators[n] != accumulators[m])
  }

  ghost predicate InputAccumulatorsValid(accumulators: map<string, InputObjectTypeAccumulator>)
    reads accumulators.Values
  {
    && (forall n :: n in accumulators ==> accumulators[n].Valid() && accumulators[n].typeName == n)
    && (forall n, m :: n in accumulators && m in accumulators && n != m ==> accumulators[n] != accumulators[m])
  }

  /** The accumulators' tables, as values. */
  ghost function ObjectTables(accumulators: map<string, ObjectTypeAccumulator>): map<string, ObjectFieldTable>
    reads accumulators.Values
  {
    map n | n in accumulators :: accumulators[n].Table()
  }

  ghost function InputTables(accumulators: map<string, InputObjectTypeAccumulator>): map<string, InputFieldTable>
    reads accumulators.Values
  {
    map n | n in accumulators :: accumulators[n].Table()
  }

  function TableOf<V>(tables: map<string, V>, n: string, empty: V): V
  {
    if n in tables then tables[n] else empty
  }

  // ---------------------------------------------------------------------
  // How the loops move the tables
  // ---------------------------------------------------------------------

  /** `after` is `before` once `definition` of `schema` is merged. */
  ghost predicate ObjectTablesAdvance(
    after: map<string, ObjectFieldTable>, before: map<string, ObjectFieldTable>, schema: UpstreamSchema, definition: TypeDefinition)
  {
    && (forall n :: n in after <==> n in before || ContributesObject(schema, definition, n))
    && (forall n :: n in after ==>
          after[n] == MergeObjectFields(TableOf(before, n, EmptyObjectTable),
                                        Attribute(ObjectFieldsOf(n)(schema, definition), schema.service)))
  }

  ghost predicate InputTablesAdvance(
    after: map<string, InputFieldTable>, before: map<string, InputFieldTable>, schema: UpstreamSchema, definition: TypeDefinition)
  {
    && (forall n :: n in after <==> n in before || ContributesInput(definition, n))
    && (forall n :: n in after ==>
          after[n] == MergeInputFields(TableOf(before, n, EmptyInputTable),
                                       Attribute(InputFieldsOf(n)(schema, definition), schema.service)))
  }

  /** `after` is `before` once the definitions of `entries` of `schema` are merged. */
  ghost predicate ObjectTablesExtend(
    after: map<string, ObjectFieldTable>, before: map<string, ObjectFieldTable>, schema: UpstreamSchema, entries: seq<TypeEntry>)
  {
    && (forall n :: n in after <==> n in before || DeclaresIn(schema, entries, ObjectDeclaration(n)))
    && (forall n :: n in after ==>
          after[n] == MergeObjectFields(TableOf(before, n, EmptyObjectTable), EntryContributions(schema, entries, ObjectFieldsOf(n))))
    && (forall n :: n !in after ==> EntryContributions(schema, entries, ObjectFieldsOf(n)) == [])
  }

  ghost predicate InputTablesExtend(
    after: map<string, InputFieldTable>, before: map<string, InputFieldTable>, schema: UpstreamSchema, entries: seq<TypeEntry>)
  {
    && (forall n :: n in after <==> n in before || DeclaresIn(schema, entries, InputDeclaration(n)))
    && (forall n :: n in after ==>
          after[n] == MergeInputFields(TableOf(before, n, EmptyInputTable), EntryContributions(schema, entries, InputFieldsOf(n))))
    && (forall n :: n !in after ==> EntryContributions(schema, entries, InputFieldsOf(n)) == [])
  }

  /** `tables` holds exactly the merge of `schemas`. */
  ghost predicate ObjectTablesMerged(tables: map<string, ObjectFieldTable>, schemas: seq<UpstreamSchema>)
  {
    && (forall n :: n in tables <==> Declares(schemas, ObjectDeclaration(n)))
    && (forall n :: n in tables ==> tables[n] == MergedObjectTable(schemas, n))
    && (forall n :: n !in tables ==> Contributions(schemas, ObjectFieldsOf(n)) == [])
  }

  ghost predicate InputTablesMerged(tables: map<string, InputFieldTable>, schemas: seq<UpstreamSchema>)
  {
    && (forall n :: n in tables <==> Declares(schemas, InputDeclaration(n)))
    && (forall n :: n in tables ==> tables[n] == MergedInputTable(schemas, n))
    && (forall n :: n !in tables ==> Contributions(schemas, InputFieldsOf(n)) == [])
  }

  lemma {:induction false} MergeObjectFieldsAppend(t: ObjectFieldTable, a: seq<Contribution<FieldDefinition>>, b: seq<Contribution<FieldDefinition>>)
    ensures MergeObjectFields(t, a + b) == MergeObjectFields(MergeObjectFields(t, a), b)
  {
    if |b| == 0 {
      assert a + b == a;
    } else {
      MergeObjectFieldsAppend(t, a, b[..|b| - 1]);
      assert (a + b)[..|a + b| - 1] == a + b[..|b| - 1];
    }
  }

  lemma {:induction false} MergeInputFieldsAppend(t: InputFieldTable, a: seq<Contribution<InputValueDefinition>>, b: seq<Contribution<InputValueDefinition>>)
    ensures MergeInputFields(t, a + b) == MergeInputFields(MergeInputFields(t, a), b)
  {
    if |b| == 0 {
      assert a + b == a;
    } else {
      MergeInputFieldsAppend(t, a, b[..|b| - 1]);
      assert (a + b)[..|a + b| - 1] == a + b[..|b| - 1];
    }
  }

  /** A definition of another kind leaves the tables as they are. */
  lemma ObjectTablesSkip(tables: map<string, ObjectFieldTable>, schema: UpstreamSchema, definition: TypeDefinition)
    requires definition.kind != Object
    ensures ObjectTablesAdvance(tables, tables, schema, definition)
  {
  }

  lemma InputTablesSkip(tables: map<string, InputFieldTable>, schema: UpstreamSchema, definition: TypeDefinition)
    requires definition.kind != InputObject
    ensures InputTablesAdvance(tables, tables, schema, definition)
  {
  }

  lemma ObjectTablesExtendStep(
    after: map<string, ObjectFieldTable>, mid: map<string, ObjectFieldTable>, before: map<string, ObjectFieldTable>,
    schema: UpstreamSchema, entries: seq<TypeEntry>, j: nat)
    requires j < |entries|
    requires ObjectTablesExtend(mid, before, schema, entries[..j])
    requires ObjectTablesAdvance(after, mid, schema, entries[j].definition)
    ensures ObjectTablesExtend(after, before, schema, entries[..j + 1])
  {
    var e := entries[..j + 1];
    assert e[..j] == entries[..j];
    forall n
      ensures n in after <==> n in before || DeclaresIn(schema, e, ObjectDeclaration(n))
    {
      assert DeclaresIn(schema, e, ObjectDeclaration(n)) == (DeclaresIn(schema, entries[..j], ObjectDeclaration(n)) || ContributesObject(schema, entries[j].definition, n));
    }
    forall n | n in after
      ensures after[n] == MergeObjectFields(TableOf(before, n, EmptyObjectTable), EntryContributions(schema, e, ObjectFieldsOf(n)))
    {
      MergeObjectFieldsAppend(TableOf(before, n, EmptyObjectTable), EntryContributions(schema, entries[..j], ObjectFieldsOf(n)),
        Attribute(ObjectFieldsOf(n)(schema, entries[j].definition), schema.service));
    }
    forall n | n !in after
      ensures EntryContributions(schema, e, ObjectFieldsOf(n)) == []
    {
      assert !ContributesObject(schema, entries[j].definition, n);
    }
  }

  lemma InputTablesExtendStep(
    after: map<string, InputFieldTable>, mid: map<string, InputFieldTable>, before: map<string, InputFieldTable>,
    schema: UpstreamSchema, entries: seq<TypeEntry>, j: nat)
    requires j < |entries|
    requires InputTablesExtend(mid, before, schema, entries[..j])
    requires InputTablesAdvance(after, mid, schema, entries[j].definition)
    ensures InputTablesExtend(after, before, schema, entries[..j + 1])
  {
    var e := entries[..j + 1];
    assert e[..j] == entries[..j];
    forall n
      ensures n in after <==> n in before || DeclaresIn(schema, e, InputDeclaration(n))
    {
      assert DeclaresIn(schema, e, InputDeclaration(n)) == (DeclaresIn(schema, entries[..j], InputDeclaration(n)) || ContributesInput(entries[j].definition, n));
    }
    forall n | n in after
      ensures after[n] == MergeInputFields(TableOf(before, n, EmptyInputTable), EntryContributions(schema, e, InputFieldsOf(n)))
    {
      MergeInputFieldsAppend(TableOf(before, n, EmptyInputTable), EntryContributions(schema, entries[..j], InputFieldsOf(n)),
        Attribute(InputFieldsOf(n)(schema, entries[j].definition), schema.service));
    }
    forall n | n !in after
      ensures EntryContributions(schema, e, InputFieldsOf(n)) == []
    {
      assert !ContributesInput(entries[j].definition, n);
    }
  }


  lemma ContributionsSnoc<D>(schemas: seq<UpstreamSchema>, i: nat, fieldsOf: (UpstreamSchema, TypeDefinition) -> seq<D>)
    requires i < |schemas|
    ensures Contributions(schemas[..i + 1], fieldsOf)
         == Contributions(schemas[..i], fieldsOf) + EntryContributions(schemas[i], schemas[i].typeDefinitions, fieldsOf)
  {
    assert schemas[..i + 1][..i] == schemas[..i];
  }

  lemma DeclaresSnoc(schemas: seq<UpstreamSchema>, i: nat, declares: (UpstreamSchema, TypeDefinition) -> bool)
    requires i < |schemas|
    ensures Declares(schemas[..i + 1], declares)
         == (Declares(schemas[..i], declares) || DeclaresIn(schemas[i], schemas[i].typeDefinitions, declares))
  {
    assert schemas[..i + 1][..i] == schemas[..i];
  }

  lemma ObjectTablesMergedStep(
    after: map<string, ObjectFieldTable>, mid: map<string, ObjectFieldTable>, schemas: seq<UpstreamSchema>, i: nat)
    requires i < |schemas|
    requires ObjectTablesMerged(mid, schemas[..i])
    requires ObjectTablesExtend(after, mid, schemas[i], schemas[i].typeDefinitions)
    ensures ObjectTablesMerged(after, schemas[..i + 1])
  {
    forall n ensures n in after <==> Declares(schemas[..i + 1], ObjectDeclaration(n)) {
      DeclaresSnoc(schemas, i, ObjectDeclaration(n));
    }
    forall n | n in after ensures after[n] == MergedObjectTable(schemas[..i + 1], n) {
      var earlier := Contributions(schemas[..i], ObjectFieldsOf(n));
      var added := EntryContributions(schemas[i], schemas[i].typeDefinitions, ObjectFieldsOf(n));
      ContributionsSnoc(schemas, i, ObjectFieldsOf(n));
      MergeObjectFieldsAppend(EmptyObjectTable, earlier, added);
      if n !in mid {
        assert earlier + added == added;
      }
    }
    forall n | n !in after ensures Contributions(schemas[..i + 1], ObjectFieldsOf(n)) == [] {
      ContributionsSnoc(schemas, i, ObjectFieldsOf(n));
    }
  }

  lemma InputTablesMergedStep(
    after: map<string, InputFieldTable>, mid: map<string, InputFieldTable>, schemas: seq<UpstreamSchema>, i: nat)
    requires i < |schemas|
    requires InputTablesMerged(mid, schemas[..i])
    requires InputTablesExtend(after, mid, schemas[i], schemas[i].typeDefinitions)
    ensures InputTablesMerged(after, schemas[..i + 1])
  {
    forall n ensures n in after <==> Declares(schemas[..i + 1], InputDeclaration(n)) {
      DeclaresSnoc(schemas, i, InputDeclaration(n));
    }
    forall n | n in after ensures after[n] == MergedInputTable(schemas[..i + 1], n) {
      var earlier := Contributions(schemas[..i], InputFieldsOf(n));
      var added := EntryContributions(schemas[i], schemas[i].typeDefinitions, InputFieldsOf(n));
      ContributionsSnoc(schemas, i, InputFieldsOf(n));
      MergeInputFieldsAppend(EmptyInputTable, earlier, added);
      if n !in mid {
        assert earlier + added == added;
      }
    }
    forall n | n !in after ensures Contributions(schemas[..i + 1], InputFieldsOf(n)) == [] {
      ContributionsSnoc(schemas, i, InputFieldsOf(n));
    }
  }

  /** A declared type name is one of the names the schemas define. */
  lemma DeclaredNameDefined(schemas: seq<UpstreamSchema>, n: string)
    ensures Declares(schemas, ObjectDeclaration(n)) ==> n in DefinedNames(schemas)
    ensures Declares(schemas, InputDeclaration(n)) ==> n in DefinedNames(schemas)
  {
    DeclaresMembers(schemas, ObjectDeclaration(n));
    DeclaresMembers(schemas, InputDeclaration(n));
    if Declares(schemas, ObjectDeclaration(n)) {
      var s, e :| s in schemas && e in s.typeDefinitions && ObjectDeclaration(n)(s, e.definition);
      assert e.definition.name == n;
    }
    if Declares(schemas, InputDeclaration(n)) {
      var s, e :| s in schemas && e in s.typeDefinitions && InputDeclaration(n)(s, e.definition);
      assert e.definition.name == n;
    }
  }

  lemma ObjectTablesMergedAre(tables: map<string, ObjectFieldTable>, sorted: seq<UpstreamSchema>)
    requires ObjectTablesMerged(tables, sorted)
    ensures tables == MergedObjectTables(sorted)
  {
    forall n ensures n in tables <==> n in MergedObjectTables(sorted) {
      DeclaredNameDefined(sorted, n);
    }
  }

  lemma InputTablesMergedAre(tables: map<string, InputFieldTable>, sorted: seq<UpstreamSchema>)
    requires InputTablesMerged(tables, sorted)
    ensures tables == MergedInputTables(sorted)
  {
    forall n ensures n in tables <==> n in MergedInputTables(sorted) {
      DeclaredNameDefined(sorted, n);
    }
  }

  // ---------------------------------------------------------------------
  // The merge
  // ---------------------------------------------------------------------

  /** `mergeObjectType`: a root type of the schema is skipped; otherwise the
      accumulator for the name is fetched or created and receives every field. */
  method MergeObjectType(accumulators: map<string, ObjectTypeAccumulator>, definition: TypeDefinition, schema: UpstreamSchema)
    returns (updated: map<string, ObjectTypeAccumulator>)
    requires definition.kind == Object
    requires ObjectAccumulatorsValid(accumulators)
    modifies accumulators.Values
    ensures ObjectAccumulatorsValid(updated)
    ensures forall n :: n in updated ==> updated[n] in accumulators.Values || fresh(updated[n])
    ensures ObjectTablesAdvance(ObjectTables(updated), old(ObjectTables(accumulators)), schema, definition)
  {
    ghost var before := ObjectTables(accumulators);
    if schema.queryTypeName == Some(definition.name) || schema.mutationTypeName == Some(definition.name) {
      forall n | n in accumulators ensures Attribute(ObjectFieldsOf(n)(schema, definition), schema.service) == [] {
      }
      return accumulators;
    }
    var accumulator: ObjectTypeAccumulator;
    if definition.name in accumulators {
      accumulator := accumulators[definition.name];
    } else {
      accumulator := new ObjectTypeAccumulator(definition.name);
    }
    accumulator.AddFields(definition.fields, schema.service);
    updated := accumulators[definition.name := accumulator];
    forall n | n in updated
      ensures ObjectTables(updated)[n]
           == MergeObjectFields(TableOf(before, n, EmptyObjectTable), Attribute(ObjectFieldsOf(n)(schema, definition), schema.service))
    {
      if n != definition.name {
        assert accumulators[n] != accumulator;
        assert Attribute(ObjectFieldsOf(n)(schema, definition), schema.service) == [];
      }
    }
  }

  /** `mergeInputObjectType`: the accumulator for the name is fetched or created
      and receives every input field. */
  method MergeInputObjectType(accumulators: map<string, InputObjectTypeAccumulator>, definition: TypeDefinition, schema: UpstreamSchema)
    returns (updated: map<string, InputObjectTypeAccumulator>)
    requires definition.kind == InputObject
    requires InputAccumulatorsValid(accumulators)
    modifies accumulators.Values
    ensures InputAccumulatorsValid(updated)
    ensures forall n :: n in updated ==> updated[n] in accumulators.Values || fresh(updated[n])
    ensures InputTablesAdvance(InputTables(updated), old(InputTables(accumulators)), schema, definition)
  {
    ghost var before := InputTables(accumulators);
    var accumulator: InputObjectTypeAccumulator;
    if definition.name in accumulators {
      accumulator := accumulators[definition.name];
    } else {
      accumulator := new InputObjectTypeAccumulator(definition.name);
    }
    accumulator.AddFields(definition.inputFields, schema.service);
    updated := accumulators[definition.name := accumulator];
    forall n | n in updated
      ensures InputTables(updated)[n]
           == MergeInputFields(TableOf(before, n, EmptyInputTable), Attribute(InputFieldsOf(n)(schema, definition), schema.service))
    {
      if n != definition.name {
        assert accumulators[n] != accumulator;
        assert Attribute(InputFieldsOf(n)(schema, definition), schema.service) == [];
      }
    }
  }

  /** One type definition of `merge`'s loop: OBJECT and INPUT_OBJECT definitions
      feed their accumulators, every other kind is ignored. */
  method MergeEntry(
    objects: map<string, ObjectTypeAccumulator>, inputs: map<string, InputObjectTypeAccumulator>,
    definition: TypeDefinition, schema: UpstreamSchema)
    returns (objects': map<string, ObjectTypeAccumulator>, inputs': map<string, InputObjectTypeAccumulator>)
    requires ObjectAccumulatorsValid(objects) && InputAccumulatorsValid(inputs)
    modifies objects.Values, inputs.Values
    ensures ObjectAccumulatorsValid(objects') && InputAccumulatorsValid(inputs')
    ensures forall n :: n in objects' ==> objects'[n] in objects.Values || fresh(objects'[n])
    ensures forall n :: n in inputs' ==> inputs'[n] in inputs.Values || fresh(inputs'[n])
    ensures ObjectTablesAdvance(ObjectTables(objects'), old(ObjectTables(objects)), schema, definition)
    ensures InputTablesAdvance(InputTables(inputs'), old(InputTables(inputs)), schema, definition)
  {
    objects', inputs' := objects, inputs;
    if definition.kind == Object {
      InputTablesSkip(InputTables(inputs), schema, definition);
      objects' := MergeObjectType(objects, definition, schema);
    } else if definition.kind == InputObject {
      ObjectTablesSkip(ObjectTables(objects), schema, definition);
      inputs' := MergeInputObjectType(inputs, definition, schema);
    } else {
      ObjectTablesSkip(ObjectTables(objects), schema, definition);
      InputTablesSkip(InputTables(inputs), schema, definition);
    }
  }

  /** The body of `merge`'s loop for one schema: its type definitions in order. */
  method MergeSchema(
    objects: map<string, ObjectTypeAccumulator>, inputs: map<string, InputObjectTypeAccumulator>, schema: UpstreamSchema)
    returns (objects': map<string, ObjectTypeAccumulator>, inputs': map<string, InputObjectTypeAccumulator>)
    requires ObjectAccumulatorsValid(objects) && InputAccumulatorsValid(inputs)
    modifies objects.Values, inputs.Values
    ensures ObjectAccumulatorsValid(objects') && InputAccumulatorsValid(inputs')
    ensures forall n :: n in objects' ==> objects'[n] in objects.Values || fresh(objects'[n])
    ensures forall n :: n in inputs' ==> inputs'[n] in inputs.Values || fresh(inputs'[n])
    ensures ObjectTablesExtend(ObjectTables(objects'), old(ObjectTables(objects)), schema, schema.typeDefinitions)
    ensures InputTablesExtend(InputTables(inputs'), old(InputTables(inputs)), schema, schema.typeDefinitions)
  {
    var entries := schema.typeDefinitions;
    ghost var objectsBefore := ObjectTables(objects);
    ghost var inputsBefore := InputTables(inputs);
    objects', inputs' := objects, inputs;
    for j := 0 to |entries|
      invariant ObjectAccumulatorsValid(objects') && InputAccumulatorsValid(inputs')
      invariant forall n :: n in objects' ==> objects'[n] in objects.Values || fresh(objects'[n])
      invariant forall n :: n in inputs' ==> inputs'[n] in inputs.Values || fresh(inputs'[n])
      invariant ObjectTablesExtend(ObjectTables(objects'), objectsBefore, schema, entries[..j])
      invariant InputTablesExtend(InputTables(inputs'), inputsBefore, schema, entries[..j])
    {
      ghost var objectsMid := ObjectTables(objects');
      ghost var inputsMid := InputTables(inputs');
      objects', inputs' := MergeEntry(objects', inputs', entries[j].definition, schema);
      ObjectTablesExtendStep(ObjectTables(objects'), objectsMid, objectsBefore, schema, entries, j);
      InputTablesExtendStep(InputTables(inputs'), inputsMid, inputsBefore, schema, entries, j);
    }
    assert entries[..|entries|] == entries;
  }

  /** The object types of the end of `merge`: each accumulator with fields
      turned into its gateway type. */
  method ObjectTypesOf(objects: map<string, ObjectTypeAccumulator>) returns (types: map<string, GatewayObjectType>)
    requires ObjectAccumulatorsValid(objects)
    ensures types == RegistryOf(ObjectTables(objects), map[]).objectTypes
  {
    types := map n | n in objects && |objects[n].ToGatewayType().fields| > 0 :: objects[n].ToGatewayType();
    ghost var tables := ObjectTables(objects);
    forall n | n in objects ensures objects[n].ToGatewayType() == GatewayObjectType(n, ObjectTableFields(tables[n])) {
    }
  }

  /** The input object types of the end of `merge`, likewise. */
  method InputObjectTypesOf(inputs: map<string, InputObjectTypeAccumulator>) returns (types: map<string, GatewayInputObjectType>)
    requires InputAccumulatorsValid(inputs)
    ensures types == RegistryOf(map[], InputTables(inputs)).inputObjectTypes
  {
    types := map n | n in inputs && |inputs[n].ToGatewayType().inputFields| > 0 :: inputs[n].ToGatewayType();
    ghost var tables := InputTables(inputs);
    forall n | n in inputs ensures inputs[n].ToGatewayType() == GatewayInputObjectType(n, InputTableFields(tables[n])) {
    }
  }

  /** The end of `merge`: every accumulator turned into its gateway type, and
      the types without fields dropped. */
  method ToRegistry(objects: map<string, ObjectTypeAccumulator>, inputs: map<string, InputObjectTypeAccumulator>)
    returns (registry: GatewayTypeRegistry)
    requires ObjectAccumulatorsValid(objects) && InputAccumulatorsValid(inputs)
    ensures registry == RegistryOf(ObjectTables(objects), InputTables(inputs))
  {
    var objectTypes := ObjectTypesOf(objects);
    var inputObjectTypes := InputObjectTypesOf(inputs);
    registry := GatewayTypeRegistry(objectTypes, inputObjectTypes, map[]);
  }

  /** `merge`: schemas in descending priority-number order, each merged in turn. */
  method Merge(upstreamSchemas: seq<UpstreamSchema>) returns (registry: GatewayTypeRegistry)
    ensures registry == MergedRegistry(upstreamSchemas)
  {
    var sorted := Sort(upstreamSchemas, ByPriorityDescending);
    var objects, inputs := MergeSorted(sorted);
    ObjectTablesMergedAre(ObjectTables(objects), sorted);
    InputTablesMergedAre(InputTables(inputs), sorted);
    registry := ToRegistry(objects, inputs);
  }

  /** The loop of `merge` over the schemas, already in merge order. */
  method MergeSorted(sorted: seq<UpstreamSchema>)
    returns (objects: map<string, ObjectTypeAccumulator>, inputs: map<string, InputObjectTypeAccumulator>)
    ensures ObjectAccumulatorsValid(objects) && InputAccumulatorsValid(inputs)
    ensures ObjectTablesMerged(ObjectTables(objects), sorted)
    ensures InputTablesMerged(InputTables(inputs), sorted)
  {
    objects := map[];
    inputs := map[];
    for i := 0 to |sorted|
      invariant ObjectAccumulatorsValid(objects) && InputAccumulatorsValid(inputs)
      invariant forall n :: n in objects ==> fresh(objects[n])
      invariant forall n :: n in inputs ==> fresh(inputs[n])
      invariant ObjectTablesMerged(ObjectTables(objects), sorted[..i])
      invariant InputTablesMerged(InputTables(inputs), sorted[..i])
    {
      objects, inputs := MergeNext(objects, inputs, sorted, i);
    }
    assert sorted[..|sorted|] == sorted;
  }

  /** One turn of the loop of `merge`: the schema at position `i` merged into
      the accumulators built from the ones before it. */
  method MergeNext(
    objects: map<string, ObjectTypeAccumulator>, inputs: map<string, InputObjectTypeAccumulator>,
    sorted: seq<UpstreamSchema>, i: nat)
    returns (objects': map<string, ObjectTypeAccumulator>, inputs': map<string, InputObjectTypeAccumulator>)
    requires i < |sorted|
    requires ObjectAccumulatorsValid(objects) && InputAccumulatorsValid(inputs)
    requires ObjectTablesMerged(ObjectTables(objects), sorted[..i])
    requires InputTablesMerged(InputTables(inputs), sorted[..i])
    modifies objects.Values, inputs.Values
    ensures ObjectAccumulatorsValid(objects') && InputAccumulatorsValid(inputs')
    ensures forall n :: n in objects' ==> objects'[n] in objects.Values || fresh(objects'[n])
    ensures forall n :: n in inputs' ==> inputs'[n] in inputs.Values || fresh(inputs'[n])
    ensures ObjectTablesMerged(ObjectTables(objects'), sorted[..i + 1])
    ensures InputTablesMerged(InputTables(inputs'), sorted[..i + 1])
  {
    ghost var objectsMid := ObjectTables(objects);
    ghost var inputsMid := InputTables(inputs);
    objects', inputs' := MergeSchema(objects, inputs, sorted[i]);
    ObjectTablesMergedStep(ObjectTables(objects'), objectsMid, sorted, i);
    InputTablesMergedStep(InputTables(inputs'), inputsMid, sorted, i);
  }
}
