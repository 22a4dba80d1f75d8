/** The part of the introspection client that runs after the HTTP calls: it
    filters the overview's type list, converts the raw `__Type` records of the
    detail queries into definitions, assembles one upstream's schema, and
    partitions a batch of upstreams into schemas and failures. The HTTP calls
    themselves are parameters: the overview response and a function from a
    type name to that type's detail response (or the error it raised). */
module Introspection {
  import opened Wrappers
  import opened Strings
  import opened SchemaTypes

  // ---------------------------------------------------------------------
  // Raw introspection records, every property nullable as decoded from JSON
  // ---------------------------------------------------------------------

  datatype RawTypeRef = RawTypeRef(kind: Option<string>, name: Option<string>, ofType: Option<RawTypeRef>)

  datatype RawInputValue = RawInputValue(name: Option<string>, typeRef: Option<RawTypeRef>)

  datatype RawField = RawField(name: Option<string>, typeRef: Option<RawTypeRef>, args: Option<seq<RawInputValue>>)

  /** A `__type(name:)` result; each enum value is reduced to its nullable name. */
  datatype RawFullType = RawFullType(
    kind: Option<string>,
    name: Option<string>,
    fields: Option<seq<RawField>>,
    inputFields: Option<seq<RawInputValue>>,
    enumValues: Option<seq<Option<string>>>)

  /** One `{kind name}` entry of the overview's `types` list. */
  datatype RawTypeSummary = RawTypeSummary(kind: Option<string>, name: Option<string>)

  /** The overview query's `__schema`: `queryType.name`, `mutationType.name` and `types`. */
  datatype RawOverview = RawOverview(
    queryTypeName: Option<string>,
    mutationTypeName: Option<string>,
    types: Option<seq<RawTypeSummary>>)

  /** One upstream's type definitions in the order they were fetched (a linked map). */
  datatype TypeEntry = TypeEntry(key: string, definition: TypeDefinition)

  /** The per-service schema that both mergers consume. */
  datatype UpstreamSchema = UpstreamSchema(
    service: UpstreamService,
    queryTypeName: Option<string>,
    queryFieldNames: seq<string>,
    mutationTypeName: Option<string>,
    mutationFieldNames: seq<string>,
    typeDefinitions: seq<TypeEntry>)

  datatype IntrospectionFailure = IntrospectionFailure(service: UpstreamService, reason: string)

  datatype IntrospectionBatchResult = IntrospectionBatchResult(
    schemas: seq<UpstreamSchema>,
    failures: seq<IntrospectionFailure>)
  {
    predicate HasFailures() { |failures| > 0 }
  }

  /** `typeDefinitions[key]` on the linked map: the entry stored under `key`. */
  function Lookup(entries: seq<TypeEntry>, key: string): (r: Option<TypeDefinition>)
    ensures r.Some? <==> exists i :: 0 <= i < |entries| && entries[i].key == key
    ensures r.Some? ==> TypeEntry(key, r.value) in entries
  {
    if |entries| == 0 then None
    else if entries[0].key == key then Some(entries[0].definition)
    else Lookup(entries[1..], key)
  }

  function Keys(entries: seq<TypeEntry>): (r: seq<string>)
    ensures |r| == |entries|
    ensures forall i :: 0 <= i < |entries| ==> r[i] == entries[i].key
  {
    if |entries| == 0 then [] else [entries[0].key] + Keys(entries[1..])
  }

  function FieldNames(fields: seq<FieldDefinition>): (r: seq<string>)
    ensures |r| == |fields|
    ensures forall i :: 0 <= i < |fields| ==> r[i] == fields[i].name
  {
    if |fields| == 0 then [] else [fields[0].name] + FieldNames(fields[1..])
  }

  // ---------------------------------------------------------------------
  // Overview filtering
  // ---------------------------------------------------------------------

  /** The summary's name when it is worth a detail query: named, not a `__`
      meta-type, and of kind OBJECT, INPUT_OBJECT or ENUM. An unrecognised
      kind string gives no name rather than an error. */
  function ToFetchableTypeName(summary: RawTypeSummary): Option<string>
  {
    if summary.name.None? then None
    else if StartsWith(summary.name.value, "__") then None
    else
      var kind := if summary.kind.Some? then KindOf(summary.kind.value) else None;
      if kind == Some(Object) || kind == Some(InputObject) || kind == Some(Enum) then summary.name
      else None
  }

  /** A summary is fetched exactly when it is named, the name does not start
      with `__`, and its kind string is one of the three fetchable kind names. */
  lemma FetchableTypeNameIff(summary: RawTypeSummary, n: string)
    ensures ToFetchableTypeName(summary) == Some(n)
        <==> && summary.name == Some(n)
             && !StartsWith(n, "__")
             && summary.kind.Some?
             && summary.kind.value in {"OBJECT", "INPUT_OBJECT", "ENUM"}
  {
    if summary.kind.Some? {
      var k := KindOf(summary.kind.value);
      assert k.Some? ==> KindName(k.value) == summary.kind.value;
    }
  }

  /** Kotlin's `toMutableSet()` followed by `+=`: a linked set keeps first insertion order. */
  function AddToSet(s: seq<string>, x: string): (r: seq<string>)
    ensures Distinct(s) ==> Distinct(r)
    ensures forall y :: y in r <==> y in s || y == x
  {
    if x in s then s else s + [x]
  }

  predicate Distinct(s: seq<string>)
  {
    forall i, j :: 0 <= i < j < |s| ==> s[i] != s[j]
  }

  function ToSet(xs: seq<string>): (r: seq<string>)
    ensures Distinct(r)
    ensures forall y :: y in r <==> y in xs
  {
    if |xs| == 0 then [] else AddToSet(ToSet(xs[..|xs| - 1]), xs[|xs| - 1])
  }

  function FetchableNames(summaries: seq<RawTypeSummary>): seq<string>
  {
    if |summaries| == 0 then []
    else
      var rest := FetchableNames(summaries[1..]);
      match ToFetchableTypeName(summaries[0])
      case Some(n) => [n] + rest
      case None => rest
  }

  lemma {:induction false} FetchableNamesMembers(summaries: seq<RawTypeSummary>, n: string)
    ensures n in FetchableNames(summaries)
        <==> exists i :: 0 <= i < |summaries| && ToFetchableTypeName(summaries[i]) == Some(n)
  {
    if |summaries| > 0 {
      FetchableNamesMembers(summaries[1..], n);
      if n in FetchableNames(summaries[1..]) {
        var i :| 0 <= i < |summaries[1..]| && ToFetchableTypeName(summaries[1..][i]) == Some(n);
        assert summaries[i + 1] == summaries[1..][i];
      }
      forall i | 0 < i < |summaries| && ToFetchableTypeName(summaries[i]) == Some(n)
        ensures n in FetchableNames(summaries[1..])
      {
        assert summaries[1..][i - 1] == summaries[i];
      }
    }
  }

  /** The names the detail queries are issued for, in order: the fetchable
      names of the overview, then the query type and the mutation type when
      they are not already among them. */
  function NamesToFetch(overview: RawOverview, queryTypeName: string): seq<string>
  {
    var listed := ToSet(FetchableNames(if overview.types.Some? then overview.types.value else []));
    var withQuery := AddToSet(listed, queryTypeName);
    if overview.mutationTypeName.Some? then AddToSet(withQuery, overview.mutationTypeName.value) else withQuery
  }

  /** Each name is fetched once; the query type and the mutation type are always
      fetched; any other fetched name is a fetchable entry of the overview. */
  lemma NamesToFetchContents(overview: RawOverview, queryTypeName: string, n: string)
    ensures Distinct(NamesToFetch(overview, queryTypeName))
    ensures n in NamesToFetch(overview, queryTypeName)
        <==> || n == queryTypeName
             || overview.mutationTypeName == Some(n)
             || (overview.types.Some?
                 && exists i :: 0 <= i < |overview.types.value| && ToFetchableTypeName(overview.types.value[i]) == Some(n))
  {
    FetchableNamesMembers(if overview.types.Some? then overview.types.value else [], n);
  }

  // ---------------------------------------------------------------------
  // Conversion of raw records
  // ---------------------------------------------------------------------

  /** The message of the exception a failed kind lookup raises: the gateway's
      own for a missing kind, `Enum.valueOf`'s for an unknown one. */
  function UnknownKindMessage(kind: Option<string>): string
  {
    if kind.None? then "Unknown GraphQL type kind: null"
    else "No enum constant com.gateway.introspection.GraphQLTypeKind." + kind.value
  }

  /** `toGraphQLTypeRef`: fails on a missing or unknown kind anywhere in the
      `ofType` chain, keeps the name, and converts `ofType` recursively. */
  function ToTypeRef(raw: RawTypeRef): Result<TypeRef, string>
  {
    var kind := if raw.kind.Some? then KindOf(raw.kind.value) else None;
    if kind.None? then Failure(UnknownKindMessage(raw.kind))
    else if raw.ofType.None? then Success(TypeRef(kind.value, raw.name, None))
    else
      match ToTypeRef(raw.ofType.value)
      case Failure(e) => Failure(e)
      case Success(inner) => Success(TypeRef(kind.value, raw.name, Some(inner)))
  }

  /** The introspection record that describes a type reference. */
  function RawOf(t: TypeRef): RawTypeRef
  {
    RawTypeRef(Some(KindName(t.kind)), t.name, if t.ofType.Some? then Some(RawOf(t.ofType.value)) else None)
  }

  /** Every kind in the `ofType` chain is present and recognised. */
  predicate KindsKnown(raw: RawTypeRef)
  {
    && raw.kind.Some?
    && KindOf(raw.kind.value).Some?
    && (raw.ofType.Some? ==> KindsKnown(raw.ofType.value))
  }

  /** Conversion succeeds exactly when every kind on the chain is known, and then
      it loses nothing: the raw record is the description of the result. */
  lemma {:induction false} ToTypeRefCharacterised(raw: RawTypeRef)
    ensures ToTypeRef(raw).Success? <==> KindsKnown(raw)
    ensures ToTypeRef(raw).Success? ==> RawOf(ToTypeRef(raw).value) == raw
  {
    if raw.ofType.Some? {
      ToTypeRefCharacterised(raw.ofType.value);
    }
  }

  /** Converting the description of a reference gives back that reference. */
  lemma {:induction false} ToTypeRefRoundTrip(t: TypeRef)
    ensures ToTypeRef(RawOf(t)) == Success(t)
  {
    KindOfKindName(t.kind);
    if t.ofType.Some? {
      ToTypeRefRoundTrip(t.ofType.value);
    }
  }

  /** `toGraphQLInputValueDefinition`: no definition when the name or the type is
      missing; a type whose conversion fails makes the whole call fail. */
  function ToInputValueDefinition(raw: RawInputValue): Result<Option<InputValueDefinition>, string>
  {
    if raw.name.None? || raw.typeRef.None? then Success(None)
    else
      match ToTypeRef(raw.typeRef.value)
      case Failure(e) => Failure(e)
      case Success(t) => Success(Some(InputValueDefinition(raw.name.value, t)))
  }

  /** Kotlin's `mapNotNull` over a converter that may throw: the first failure
      aborts, null results are dropped, the rest keep their order. */
  function MapNotNull<A, B>(xs: seq<A>, convert: A -> Result<Option<B>, string>): Result<seq<B>, string>
  {
    if |xs| == 0 then Success([])
    else
      match convert(xs[0])
      case Failure(e) => Failure(e)
      case Success(head) =>
        match MapNotNull(xs[1..], convert)
        case Failure(e) => Failure(e)
        case Success(rest) => Success((if head.Some? then [head.value] else []) + rest)
  }

  /** `MapNotNull` fails exactly when some element's conversion fails, with the
      first such element's error. */
  lemma {:induction false} MapNotNullFailure<A, B>(xs: seq<A>, convert: A -> Result<Option<B>, string>)
    ensures MapNotNull(xs, convert).Failure?
        <==> exists i :: 0 <= i < |xs| && convert(xs[i]).Failure?
    ensures MapNotNull(xs, convert).Failure? ==>
              exists i :: 0 <= i < |xs| && convert(xs[i]).Failure?
                && MapNotNull(xs, convert).error == convert(xs[i]).error
                && forall j :: 0 <= j < i ==> convert(xs[j]).Success?
  {
    if |xs| > 0 {
      MapNotNullFailure(xs[1..], convert);
      if convert(xs[0]).Success? {
        if exists i :: 0 <= i < |xs| && convert(xs[i]).Failure? {
          var i :| 0 <= i < |xs| && convert(xs[i]).Failure?;
          assert xs[1..][i - 1] == xs[i];
        }
        if MapNotNull(xs[1..], convert).Failure? {
          var i :| 0 <= i < |xs[1..]| && convert(xs[1..][i]).Failure?
                   && MapNotNull(xs[1..], convert).error == convert(xs[1..][i]).error
                   && forall j :: 0 <= j < i ==> convert(xs[1..][j]).Success?;
          assert xs[i + 1] == xs[1..][i];
          forall j | 0 <= j < i + 1 ensures convert(xs[j]).Success? {
            if j > 0 { assert xs[j] == xs[1..][j - 1]; }
          }
        }
      }
    }
  }

  /** `MapNotNull` works element by element: converting a concatenation converts
      each part, in order. */
  lemma {:induction false} MapNotNullAppend<A, B>(xs: seq<A>, ys: seq<A>, convert: A -> Result<Option<B>, string>)
    ensures MapNotNull(xs + ys, convert)
         == match MapNotNull(xs, convert)
            case Failure(e) => Failure(e)
            case Success(a) =>
              match MapNotNull(ys, convert)
              case Failure(e) => Failure(e)
              case Success(b) => Success(a + b)
  {
    if |xs| > 0 {
      assert (xs + ys)[0] == xs[0];
      assert (xs + ys)[1..] == xs[1..] + ys;
      MapNotNullAppend(xs[1..], ys, convert);
      match convert(xs[0]) {
        case Failure(_) =>
        case Success(h) =>
          match MapNotNull(xs[1..], convert) {
            case Failure(_) =>
            case Success(a) =>
              match MapNotNull(ys, convert) {
                case Failure(_) =>
                case Success(b) =>
                  var hs := if h.Some? then [h.value] else [];
                  assert hs + (a + b) == (hs + a) + b;
              }
          }
      }
    } else {
      assert xs + ys == ys;
      if MapNotNull(ys, convert).Success? {
        assert [] + MapNotNull(ys, convert).value == MapNotNull(ys, convert).value;
      }
    }
  }

  /** The elements `MapNotNull` keeps are exactly the present results. */
  lemma {:induction false} MapNotNullMembers<A, B>(xs: seq<A>, convert: A -> Result<Option<B>, string>, y: B)
    requires MapNotNull(xs, convert).Success?
    ensures y in MapNotNull(xs, convert).value
        <==> exists i :: 0 <= i < |xs| && convert(xs[i]) == Success(Some(y))
  {
    if |xs| > 0 {
      MapNotNullMembers(xs[1..], convert, y);
      if exists i :: 0 < i < |xs| && convert(xs[i]) == Success(Some(y)) {
        var i :| 0 < i < |xs| && convert(xs[i]) == Success(Some(y));
        assert xs[1..][i - 1] == xs[i];
      }
      if exists i :: 0 <= i < |xs[1..]| && convert(xs[1..][i]) == Success(Some(y)) {
        var i :| 0 <= i < |xs[1..]| && convert(xs[1..][i]) == Success(Some(y));
        assert xs[i + 1] == xs[1..][i];
      }
    }
  }

  /** `toGraphQLFieldDefinition`: no definition when the name or the type is
      missing; otherwise the type is converted, then the arguments, dropping
      arguments without a name or a type. */
  function ToFieldDefinition(raw: RawField): Result<Option<FieldDefinition>, string>
  {
    if raw.name.None? || raw.typeRef.None? then Success(None)
    else
      match ToTypeRef(raw.typeRef.value)
      case Failure(e) => Failure(e)
      case Success(t) =>
        match MapNotNull(if raw.args.Some? then raw.args.value else [], ToInputValueDefinition)
        case Failure(e) => Failure(e)
        case Success(arguments) => Success(Some(FieldDefinition(raw.name.value, t, arguments)))
  }

  /** `enumValues.mapNotNull { it.name }`. */
  function PresentNames(names: seq<Option<string>>): (r: seq<string>)
    ensures forall n :: n in r <==> Some(n) in names
  {
    if |names| == 0 then []
    else (if names[0].Some? then [names[0].value] else []) + PresentNames(names[1..])
  }

  /** `toGraphQLTypeDefinition`: no definition without a name or a kind; an
      unknown kind, or a failing field or input-field conversion, fails. */
  function ToTypeDefinition(raw: RawFullType): Result<Option<TypeDefinition>, string>
  {
    if raw.name.None? || raw.kind.None? then Success(None)
    else
      match KindOf(raw.kind.value)
      case None => Failure(UnknownKindMessage(raw.kind))
      case Some(kind) =>
        match MapNotNull(if raw.fields.Some? then raw.fields.value else [], ToFieldDefinition)
        case Failure(e) => Failure(e)
        case Success(fields) =>
          match MapNotNull(if raw.inputFields.Some? then raw.inputFields.value else [], ToInputValueDefinition)
          case Failure(e) => Failure(e)
          case Success(inputFields) =>
            var enumValues := PresentNames(if raw.enumValues.Some? then raw.enumValues.value else []);
            Success(Some(TypeDefinition(raw.name.value, kind, fields, inputFields, enumValues)))
  }

  /** A record without a name or a kind is dropped, not an error. */
  lemma ToTypeDefinitionDrops(raw: RawFullType)
    ensures ToTypeDefinition(raw) == Success(None) <==> raw.name.None? || raw.kind.None?
  {
  }

  // Descriptions of definitions, as a conforming server would return them.

  function RawOfInputValue(v: InputValueDefinition): RawInputValue
  {
    RawInputValue(Some(v.name), Some(RawOf(v.typeRef)))
  }

  function RawOfField(f: FieldDefinition): RawField
  {
    RawField(Some(f.name), Some(RawOf(f.typeRef)), Some(MapSeq(f.arguments, RawOfInputValue)))
  }

  function RawOfType(d: TypeDefinition): RawFullType
  {
    RawFullType(
      Some(KindName(d.kind)),
      Some(d.name),
      Some(MapSeq(d.fields, RawOfField)),
      Some(MapSeq(d.inputFields, RawOfInputValue)),
      Some(MapSeq(d.enumValues, (n: string) => Some(n))))
  }

  function MapSeq<A, B>(xs: seq<A>, f: A -> B): (r: seq<B>)
    ensures |r| == |xs|
    ensures forall i :: 0 <= i < |xs| ==> r[i] == f(xs[i])
  {
    if |xs| == 0 then [] else [f(xs[0])] + MapSeq(xs[1..], f)
  }

  lemma InputValueRoundTrip(v: InputValueDefinition)
    ensures ToInputValueDefinition(RawOfInputValue(v)) == Success(Some(v))
  {
    ToTypeRefRoundTrip(v.typeRef);
  }

  lemma {:induction false} InputValuesRoundTrip(vs: seq<InputValueDefinition>)
    ensures MapNotNull(MapSeq(vs, RawOfInputValue), ToInputValueDefinition) == Success(vs)
  {
    if |vs| > 0 {
      var raws := MapSeq(vs, RawOfInputValue);
      InputValueRoundTrip(vs[0]);
      assert raws[1..] == MapSeq(vs[1..], RawOfInputValue);
      InputValuesRoundTrip(vs[1..]);
      assert vs == [vs[0]] + vs[1..];
    }
  }

  lemma FieldRoundTrip(f: FieldDefinition)
    ensures ToFieldDefinition(RawOfField(f)) == Success(Some(f))
  {
    ToTypeRefRoundTrip(f.typeRef);
    InputValuesRoundTrip(f.arguments);
  }

  lemma {:induction false} FieldsRoundTrip(fs: seq<FieldDefinition>)
    ensures MapNotNull(MapSeq(fs, RawOfField), ToFieldDefinition) == Success(fs)
  {
    if |fs| > 0 {
      var raws := MapSeq(fs, RawOfField);
      FieldRoundTrip(fs[0]);
      assert raws[1..] == MapSeq(fs[1..], RawOfField);
      FieldsRoundTrip(fs[1..]);
      assert fs == [fs[0]] + fs[1..];
    }
  }

  lemma {:induction false} PresentNamesRoundTrip(ns: seq<string>)
    ensures PresentNames(MapSeq(ns, (n: string) => Some(n))) == ns
  {
    if |ns| > 0 {
      PresentNamesRoundTrip(ns[1..]);
      assert MapSeq(ns, (n: string) => Some(n))[1..] == MapSeq(ns[1..], (n: string) => Some(n));
      assert ns == [ns[0]] + ns[1..];
    }
  }

  /** `idx` lists, in increasing order, every position of `names` that holds
      a name, and `r` holds the names found there in that order. */
  ghost predicate PresentAt(names: seq<Option<string>>, r: seq<string>, idx: seq<nat>)
  {
    && |idx| == |r|
    && (forall k :: 0 <= k < |idx| ==> idx[k] < |names| && names[idx[k]] == Some(r[k]))
    && (forall k, l :: 0 <= k < l < |idx| ==> idx[k] < idx[l])
    && (forall i :: 0 <= i < |names| && names[i].Some? ==> i in idx)
  }

  /** Dropping absent names distributes over concatenation. */
  lemma {:induction false} PresentNamesAppend(a: seq<Option<string>>, b: seq<Option<string>>)
    ensures PresentNames(a + b) == PresentNames(a) + PresentNames(b)
  {
    if |a| == 0 {
      assert a + b == b;
    } else {
      PresentNamesAppend(a[1..], b);
      assert (a + b)[1..] == a[1..] + b;
    }
  }

  /** `mapNotNull` keeps every present name, duplicates included, in order. */
  lemma {:induction false} PresentNamesInOrder(names: seq<Option<string>>)
    ensures exists idx :: PresentAt(names, PresentNames(names), idx)
  {
    if |names| == 0 {
      assert PresentNames(names) == [];
      assert PresentAt(names, PresentNames(names), []);
    } else {
      var init := names[..|names| - 1];
      var last := names[|names| - 1];
      PresentNamesInOrder(init);
      var rest :| PresentAt(init, PresentNames(init), rest);
      var idx := PresentAtSnoc(names, PresentNames(init), rest);
      PresentNamesSnoc(names);
      assert PresentAt(names, PresentNames(names), idx);
    }
  }

  lemma PresentNamesSnoc(names: seq<Option<string>>)
    requires |names| > 0
    ensures var last := names[|names| - 1];
      PresentNames(names) == PresentNames(names[..|names| - 1]) + (if last.Some? then [last.value] else [])
  {
    var init := names[..|names| - 1];
    var last := names[|names| - 1];
    assert names == init + [last];
    PresentNamesAppend(init, [last]);
    assert PresentNames([last]) == (if last.Some? then [last.value] else []) + PresentNames([]);
  }

  /** The positions for `names` from those for all but its last entry. */
  lemma PresentAtSnoc(names: seq<Option<string>>, r: seq<string>, rest: seq<nat>) returns (idx: seq<nat>)
    requires |names| > 0 && PresentAt(names[..|names| - 1], r, rest)
    ensures var last := names[|names| - 1];
      PresentAt(names, r + (if last.Some? then [last.value] else []), idx)
  {
    var init := names[..|names| - 1];
    var last := names[|names| - 1];
    forall k | 0 <= k < |rest| ensures rest[k] < |names| - 1 && names[rest[k]] == Some(r[k]) {
      assert init[rest[k]] == names[rest[k]];
    }
    forall i | 0 <= i < |names| - 1 && names[i].Some? ensures i in rest {
      assert init[i] == names[i];
    }
    if last.Some? {
      idx := rest + [|names| - 1];
      var named := r + [last.value];
      forall k | 0 <= k < |idx| ensures idx[k] < |names| && names[idx[k]] == Some(named[k]) {
        if k < |rest| {
          assert idx[k] == rest[k] && named[k] == r[k];
        }
      }
      forall k, l | 0 <= k < l < |idx| ensures idx[k] < idx[l] {
        assert idx[k] == rest[k];
      }
      forall i | 0 <= i < |names| && names[i].Some? ensures i in idx {
        if i < |names| - 1 {
          assert i in rest;
        } else {
          assert idx[|rest|] == i;
        }
      }
    } else {
      idx := rest;
      assert r + [] == r;
    }
  }

  /** Converting the description of a definition gives back that definition. */
  lemma TypeDefinitionRoundTrip(d: TypeDefinition)
    ensures ToTypeDefinition(RawOfType(d)) == Success(Some(d))
  {
    KindOfKindName(d.kind);
    FieldsRoundTrip(d.fields);
    InputValuesRoundTrip(d.inputFields);
    PresentNamesRoundTrip(d.enumValues);
  }

  // ---------------------------------------------------------------------
  // Assembling one upstream's schema
  // ---------------------------------------------------------------------

  /** `fetchTypeDefinition`: the detail response for `name` (or the error the
      request raised), converted to a definition; null when the response has
      no type or the type has no name or kind. */
  function FetchTypeDefinition(fetchType: string -> Result<Option<RawFullType>, string>, name: string)
    : Result<Option<TypeDefinition>, string>
  {
    match fetchType(name)
    case Failure(e) => Failure(e)
    case Success(raw) => if raw.None? then Success(None) else ToTypeDefinition(raw.value)
  }

  /** No detail query for the names raised an error. */
  predicate AllFetched(names: seq<string>, fetchType: string -> Result<Option<RawFullType>, string>)
  {
    forall n :: n in names ==> FetchTypeDefinition(fetchType, n).Success?
  }

  /** The entries the linked map holds after `typeDefinitions[name] = definition`
      for every name, in turn, whose detail query produced a definition. */
  function FetchedEntries(names: seq<string>, fetchType: string -> Result<Option<RawFullType>, string>)
    : seq<TypeEntry>
  {
    if |names| == 0 then []
    else
      var last := names[|names| - 1];
      FetchedEntries(names[..|names| - 1], fetchType)
        + (match FetchTypeDefinition(fetchType, last)
           case Success(Some(d)) => [TypeEntry(last, d)]
           case _ => [])
  }

  /** The map holds exactly the names whose detail query produced a
      definition, each with that definition. */
  lemma {:induction false} FetchedEntriesMembers(
    names: seq<string>,
    fetchType: string -> Result<Option<RawFullType>, string>,
    e: TypeEntry)
    ensures e in FetchedEntries(names, fetchType)
        <==> e.key in names && FetchTypeDefinition(fetchType, e.key) == Success(Some(e.definition))
  {
    if |names| > 0 {
      var init := names[..|names| - 1];
      FetchedEntriesMembers(init, fetchType, e);
      assert names == init + [names[|names| - 1]];
    }
  }

  lemma FetchedKeysFetched(names: seq<string>, fetchType: string -> Result<Option<RawFullType>, string>, k: string)
    requires k in Keys(FetchedEntries(names, fetchType))
    ensures k in names
  {
    var entries := FetchedEntries(names, fetchType);
    var i :| 0 <= i < |entries| && Keys(entries)[i] == k;
    FetchedEntriesMembers(names, fetchType, entries[i]);
  }

  /** Each name is in the map at most once when it was fetched at most once. */
  lemma {:induction false} FetchedEntriesDistinct(names: seq<string>, fetchType: string -> Result<Option<RawFullType>, string>)
    requires Distinct(names)
    ensures Distinct(Keys(FetchedEntries(names, fetchType)))
  {
    if |names| > 0 {
      var init := names[..|names| - 1];
      var last := names[|names| - 1];
      assert Distinct(init) by {
        forall i, j | 0 <= i < j < |init| ensures init[i] != init[j] {
          assert init[i] == names[i] && init[j] == names[j];
        }
      }
      FetchedEntriesDistinct(init, fetchType);
      var before := FetchedEntries(init, fetchType);
      var after := FetchedEntries(names, fetchType);
      forall i, j | 0 <= i < j < |Keys(after)| ensures Keys(after)[i] != Keys(after)[j] {
        if j >= |before| {
          assert Keys(after)[i] == Keys(before)[i];
          if Keys(before)[i] == last {
            FetchedKeysFetched(init, fetchType, last);
          }
        } else {
          assert Keys(after)[i] == Keys(before)[i] && Keys(after)[j] == Keys(before)[j];
        }
      }
    }
  }

  /** The loop of `introspect` that fetches the names in turn: the first
      failing detail query aborts it with that query's error. */
  method FetchTypeDefinitions(names: seq<string>, fetchType: string -> Result<Option<RawFullType>, string>)
    returns (r: Result<seq<TypeEntry>, string>)
    ensures r.Success? <==> AllFetched(names, fetchType)
    ensures r.Success? ==> r.value == FetchedEntries(names, fetchType)
    ensures r.Failure? ==>
      exists k :: 0 <= k < |names| && FetchTypeDefinition(fetchType, names[k]) == Failure(r.error)
        && forall j :: 0 <= j < k ==> FetchTypeDefinition(fetchType, names[j]).Success?
  {
    var typeDefinitions: seq<TypeEntry> := [];
    for i := 0 to |names|
      invariant typeDefinitions == FetchedEntries(names[..i], fetchType)
      invariant forall j :: 0 <= j < i ==> FetchTypeDefinition(fetchType, names[j]).Success?
    {
      var typeName := names[i];
      var definition := FetchTypeDefinition(fetchType, typeName);
      FetchedEntriesSnoc(names, i, fetchType);
      if definition.Failure? {
        assert typeName in names;
        return Failure(definition.error);
      }
      forall j | 0 <= j < i + 1 ensures FetchTypeDefinition(fetchType, names[j]).Success? {
        if j == i {
          assert FetchTypeDefinition(fetchType, names[j]) == definition;
        }
      }
      if definition.value.Some? {
        typeDefinitions := typeDefinitions + [TypeEntry(typeName, definition.value.value)];
      }
    }
    assert names[..|names|] == names;
    assert AllFetched(names, fetchType) by {
      forall n | n in names ensures FetchTypeDefinition(fetchType, n).Success? {
        var j :| 0 <= j < |names| && names[j] == n;
      }
    }
    return Success(typeDefinitions);
  }

  /** One more name adds its definition, if its detail query produced one. */
  lemma FetchedEntriesSnoc(names: seq<string>, i: nat, fetchType: string -> Result<Option<RawFullType>, string>)
    requires i < |names|
    ensures FetchedEntries(names[..i + 1], fetchType)
         == FetchedEntries(names[..i], fetchType)
            + (match FetchTypeDefinition(fetchType, names[i])
               case Success(Some(d)) => [TypeEntry(names[i], d)]
               case _ => [])
  {
    assert names[..i + 1][..i] == names[..i];
  }

  /** Looking a fetched name up in the map gives what its detail query produced. */
  lemma LookupFetched(names: seq<string>, fetchType: string -> Result<Option<RawFullType>, string>, n: string)
    requires Distinct(names) && n in names && AllFetched(names, fetchType)
    ensures Lookup(FetchedEntries(names, fetchType), n) == FetchTypeDefinition(fetchType, n).value
  {
    var entries := FetchedEntries(names, fetchType);
    var d := FetchTypeDefinition(fetchType, n).value;
    FetchedEntriesDistinct(names, fetchType);
    if d.Some? {
      FetchedEntriesMembers(names, fetchType, TypeEntry(n, d.value));
      LookupDistinct(entries, n);
    } else if Lookup(entries, n).Some? {
      FetchedEntriesMembers(names, fetchType, TypeEntry(n, Lookup(entries, n).value));
    }
  }

  /** The field names of the root type `name` as the detail queries described
      it; none when there is no such root type or its query produced nothing. */
  function RootFieldNames(fetchType: string -> Result<Option<RawFullType>, string>, name: Option<string>): seq<string>
  {
    if name.None? then []
    else
      match FetchTypeDefinition(fetchType, name.value)
      case Success(Some(d)) => FieldNames(d.fields)
      case _ => []
  }

  /** `introspect`: the overview (or the error fetching it raised) and the detail
      queries, assembled into the upstream's schema. It fails when the overview
      failed or names no query type, when a detail query fails, or when the
      query type's own detail query produced no definition. */
  method Introspect(
    upstream: UpstreamService,
    overview: Result<RawOverview, string>,
    fetchType: string -> Result<Option<RawFullType>, string>)
    returns (r: Result<UpstreamSchema, string>)
    ensures overview.Failure? ==> r == Failure(overview.error)
    ensures overview.Success? && overview.value.queryTypeName.None? ==>
      r == Failure("Introspection for " + upstream.name + " did not include a queryType definition")
    ensures overview.Success? && overview.value.queryTypeName.Some? ==>
      var q := overview.value.queryTypeName.value;
      (r.Failure? <==>
         !AllFetched(NamesToFetch(overview.value, q), fetchType) || FetchTypeDefinition(fetchType, q) == Success(None))
    ensures overview.Success? && overview.value.queryTypeName.Some? ==>
      var names := NamesToFetch(overview.value, overview.value.queryTypeName.value);
      !AllFetched(names, fetchType) ==>
        && r.Failure?
        && exists k :: 0 <= k < |names| && FetchTypeDefinition(fetchType, names[k]) == Failure(r.error)
             && forall j :: 0 <= j < k ==> FetchTypeDefinition(fetchType, names[j]).Success?
    ensures overview.Success? && overview.value.queryTypeName.Some? ==>
      var q := overview.value.queryTypeName.value;
      AllFetched(NamesToFetch(overview.value, q), fetchType) && FetchTypeDefinition(fetchType, q) == Success(None) ==>
        r == Failure("Introspection for " + upstream.name + " did not return fields for " + q)
    ensures r.Success? ==>
      && overview.Success?
      && overview.value.queryTypeName.Some?
      && r.value.service == upstream
      && r.value.queryTypeName == overview.value.queryTypeName
      && r.value.mutationTypeName == overview.value.mutationTypeName
      && r.value.typeDefinitions == FetchedEntries(NamesToFetch(overview.value, overview.value.queryTypeName.value), fetchType)
      && r.value.queryFieldNames == RootFieldNames(fetchType, overview.value.queryTypeName)
      && r.value.mutationFieldNames == RootFieldNames(fetchType, overview.value.mutationTypeName)
  {
    if overview.Failure? {
      return Failure(overview.error);
    }
    var schemaOverview := overview.value;
    if schemaOverview.queryTypeName.None? {
      return Failure("Introspection for " + upstream.name + " did not include a queryType definition");
    }
    var queryTypeName := schemaOverview.queryTypeName.value;
    var mutationTypeName := schemaOverview.mutationTypeName;

    var typeNamesToFetch := ToSet(FetchableNames(if schemaOverview.types.Some? then schemaOverview.types.value else []));
    typeNamesToFetch := AddToSet(typeNamesToFetch, queryTypeName);
    if mutationTypeName.Some? {
      typeNamesToFetch := AddToSet(typeNamesToFetch, mutationTypeName.value);
    }
    assert typeNamesToFetch == NamesToFetch(schemaOverview, queryTypeName);

    var fetched := FetchTypeDefinitions(typeNamesToFetch, fetchType);
    if fetched.Failure? {
      return Failure(fetched.error);
    }
    var typeDefinitions := fetched.value;

    NamesToFetchContents(schemaOverview, queryTypeName, queryTypeName);
    LookupFetched(typeNamesToFetch, fetchType, queryTypeName);
    var queryTypeDefinition := Lookup(typeDefinitions, queryTypeName);
    if queryTypeDefinition.None? {
      return Failure("Introspection for " + upstream.name + " did not return fields for " + queryTypeName);
    }
    var mutationTypeDefinition := None;
    if mutationTypeName.Some? {
      NamesToFetchContents(schemaOverview, queryTypeName, mutationTypeName.value);
      LookupFetched(typeNamesToFetch, fetchType, mutationTypeName.value);
      mutationTypeDefinition := Lookup(typeDefinitions, mutationTypeName.value);
    }
    var mutationFieldNames := if mutationTypeDefinition.Some? then FieldNames(mutationTypeDefinition.value.fields) else [];
    r := Success(UpstreamSchema(
      upstream,
      schemaOverview.queryTypeName,
      FieldNames(queryTypeDefinition.value.fields),
      mutationTypeName,
      mutationFieldNames,
      typeDefinitions));
  }

  /** With distinct keys, the entry found under a key is the only one with that key. */
  lemma {:induction false} LookupDistinct(entries: seq<TypeEntry>, key: string)
    requires Distinct(Keys(entries))
    ensures forall d :: TypeEntry(key, d) in entries ==> Lookup(entries, key) == Some(d)
  {
    forall d | TypeEntry(key, d) in entries ensures Lookup(entries, key) == Some(d) {
      var i :| 0 <= i < |entries| && entries[i] == TypeEntry(key, d);
      LookupAt(entries, i);
    }
  }

  lemma {:induction false} LookupAt(entries: seq<TypeEntry>, i: nat)
    requires Distinct(Keys(entries)) && i < |entries|
    ensures Lookup(entries, entries[i].key) == Some(entries[i].definition)
  {
    if i > 0 {
      assert Keys(entries)[0] != Keys(entries)[i];
      assert Distinct(Keys(entries[1..])) by {
        forall a, b | 0 <= a < b < |entries| - 1 ensures Keys(entries[1..])[a] != Keys(entries[1..])[b] {
          assert Keys(entries[1..])[a] == Keys(entries)[a + 1];
          assert Keys(entries[1..])[b] == Keys(entries)[b + 1];
        }
      }
      LookupAt(entries[1..], i - 1);
    }
  }

  // ---------------------------------------------------------------------
  // A batch of upstreams
  // ---------------------------------------------------------------------

  /** The schemas of the upstreams whose introspection succeeded, in input order. */
  function Successes(upstreams: seq<UpstreamService>, introspect: UpstreamService -> Result<UpstreamSchema, string>)
    : seq<UpstreamSchema>
  {
    if |upstreams| == 0 then []
    else
      var last := upstreams[|upstreams| - 1];
      Successes(upstreams[..|upstreams| - 1], introspect)
        + (if introspect(last).Success? then [introspect(last).value] else [])
  }

  /** The upstreams whose introspection failed, with the reason, in input order. */
  function Failures(upstreams: seq<UpstreamService>, introspect: UpstreamService -> Result<UpstreamSchema, string>)
    : seq<IntrospectionFailure>
  {
    if |upstreams| == 0 then []
    else
      var last := upstreams[|upstreams| - 1];
      Failures(upstreams[..|upstreams| - 1], introspect)
        + (if introspect(last).Failure? then [IntrospectionFailure(last, introspect(last).error)] else [])
  }

  /** `introspectAll`: every upstream is introspected in turn; a failure is
      recorded and does not stop the batch. */
  method IntrospectAll(upstreams: seq<UpstreamService>, introspect: UpstreamService -> Result<UpstreamSchema, string>)
    returns (batch: IntrospectionBatchResult)
    ensures batch.schemas == Successes(upstreams, introspect)
    ensures batch.failures == Failures(upstreams, introspect)
  {
    var successful: seq<UpstreamSchema> := [];
    var failures: seq<IntrospectionFailure> := [];
    for i := 0 to |upstreams|
      invariant successful == Successes(upstreams[..i], introspect)
      invariant failures == Failures(upstreams[..i], introspect)
    {
      assert upstreams[..i + 1][..i] == upstreams[..i];
      var upstream := upstreams[i];
      var outcome := introspect(upstream);
      match outcome {
        case Success(schema) => successful := successful + [schema];
        case Failure(reason) => failures := failures + [IntrospectionFailure(upstream, reason)];
      }
    }
    assert upstreams[..|upstreams|] == upstreams;
    return IntrospectionBatchResult(successful, failures);
  }

  /** Each upstream lands in exactly one of the two lists: the counts add up,
      and an upstream is among the failures, with its reason, exactly when its
      introspection failed. */
  lemma {:induction false} BatchPartitions(
    upstreams: seq<UpstreamService>,
    introspect: UpstreamService -> Result<UpstreamSchema, string>,
    u: UpstreamService)
    ensures |Successes(upstreams, introspect)| + |Failures(upstreams, introspect)| == |upstreams|
    ensures (exists f :: f in Failures(upstreams, introspect) && f.service == u)
        <==> u in upstreams && introspect(u).Failure?
    ensures forall f :: f in Failures(upstreams, introspect) ==>
              f.service in upstreams && introspect(f.service) == Failure(f.reason)
    ensures forall s :: s in Successes(upstreams, introspect) ==>
              exists v :: v in upstreams && introspect(v) == Success(s)
  {
    if |upstreams| > 0 {
      var init := upstreams[..|upstreams| - 1];
      var last := upstreams[|upstreams| - 1];
      BatchPartitions(init, introspect, u);
      assert upstreams == init + [last];
      if introspect(last).Failure? {
        assert IntrospectionFailure(last, introspect(last).error) in Failures(upstreams, introspect);
      }
      forall s | s in Successes(upstreams, introspect)
        ensures exists v :: v in upstreams && introspect(v) == Success(s)
      {
        if s !in Successes(init, introspect) {
          assert introspect(last) == Success(s);
        }
      }
    }
  }

  /** A batch has failures exactly when some upstream's introspection failed. */
  lemma HasFailuresIff(upstreams: seq<UpstreamService>, introspect: UpstreamService -> Result<UpstreamSchema, string>)
    ensures IntrospectionBatchResult(Successes(upstreams, introspect), Failures(upstreams, introspect)).HasFailures()
        <==> exists u :: u in upstreams && introspect(u).Failure?
  {
    if exists u :: u in upstreams && introspect(u).Failure? {
      var u :| u in upstreams && introspect(u).Failure?;
      BatchPartitions(upstreams, introspect, u);
    } else if |Failures(upstreams, introspect)| > 0 {
      var f := Failures(upstreams, introspect)[0];
      BatchPartitions(upstreams, introspect, f.service);
    }
  }
}
