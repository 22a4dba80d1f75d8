/** The composition of the gateway schema: the types reachable from the root
    fields, found with two worklists, and their rendering as SDL text. */
module SchemaComposer {
  import opened Wrappers
  import opened Strings
  import opened Sorting
  import opened SchemaTypes
  import opened Introspection
  import opened RootSchemaMerger
  import opened TypeMerger

  /** The result of `compose`: the SDL text and the reachable object and
      input-object type names in discovery order. */
  datatype ComposedSchema = ComposedSchema(sdl: string, reachableObjectTypes: seq<string>, reachableInputObjectTypes: seq<string>)

  // ---------------------------------------------------------------------
  // Base types
  // ---------------------------------------------------------------------

  /** `unwrap`: strips LIST and NON_NULL wrappers down to the first reference
      that is not a wrapper, or to a wrapper that has no inner type. */
  function Unwrap(t: TypeRef): (r: TypeRef)
    ensures !IsWrapper(r.kind) || r.ofType.None?
  {
    if IsWrapper(t.kind) && t.ofType.Some? then Unwrap(t.ofType.value) else t
  }

  /** The named type at the bottom of type syntax. */
  function SyntaxBase(s: TypeSyntax): string
  {
    match s
    case NamedType(name) => name
    case ListType(inner) => SyntaxBase(inner)
    case NonNullType(inner) => SyntaxBase(inner)
  }

  /** A well-formed reference unwraps to the named type its syntax is built on. */
  lemma {:induction false} UnwrapNamesBase(t: TypeRef)
    requires WellFormed(t)
    ensures !IsWrapper(Unwrap(t).kind)
    ensures Unwrap(t).name == Some(SyntaxBase(Syntax(t)))
  {
    if IsWrapper(t.kind) {
      UnwrapNamesBase(t.ofType.value);
    }
  }

  /** `isBuiltInScalar`: the five scalars of section 3.5 of the GraphQL specification. */
  predicate IsBuiltInScalar(typeName: string)
  {
    typeName in {"Int", "Float", "String", "Boolean", "ID"}
  }

  /** The names of the base types of `refs` that have a name. */
  ghost function BaseNames(refs: seq<TypeRef>): set<string>
  {
    set r | r in refs && Unwrap(r).name.Some? :: Unwrap(r).name.value
  }

  /** The custom scalars among the base types of `refs`. */
  ghost function CustomScalars(refs: seq<TypeRef>): set<string>
  {
    set r | r in refs && Unwrap(r).name.Some? && Unwrap(r).kind == Scalar && !IsBuiltInScalar(Unwrap(r).name.value)
      :: Unwrap(r).name.value
  }

  lemma BaseNamesAppend(a: seq<TypeRef>, b: seq<TypeRef>)
    ensures BaseNames(a + b) == BaseNames(a) + BaseNames(b)
    ensures CustomScalars(a + b) == CustomScalars(a) + CustomScalars(b)
  {
    assert forall r :: r in a + b <==> r in a || r in b;
  }

  // ---------------------------------------------------------------------
  // The references each part of the schema marks, in marking order
  // ---------------------------------------------------------------------

  function ArgumentRefs(arguments: seq<InputValueDefinition>): (r: seq<TypeRef>)
    ensures |r| == |arguments|
    ensures forall i :: 0 <= i < |arguments| ==> r[i] == arguments[i].typeRef
  {
    seq(|arguments|, i requires 0 <= i < |arguments| => arguments[i].typeRef)
  }

  function GatewayArgumentRefs(arguments: seq<GatewayInputValue>): (r: seq<TypeRef>)
    ensures |r| == |arguments|
    ensures forall i :: 0 <= i < |arguments| ==> r[i] == arguments[i].typeRef
  {
    seq(|arguments|, i requires 0 <= i < |arguments| => arguments[i].typeRef)
  }

  /** Each root field's type, then its arguments' types. */
  function RootFieldRefs(fields: seq<RoutedField>): seq<TypeRef>
  {
    if |fields| == 0 then []
    else
      var last := fields[|fields| - 1].definition;
      RootFieldRefs(fields[..|fields| - 1]) + [last.typeRef] + ArgumentRefs(last.arguments)
  }

  /** The query root's fields, then the mutation root's. */
  function RootRefs(root: GatewayRootSchema): seq<TypeRef>
  {
    RootFieldRefs(root.query.fields) + (if root.mutation.Some? then RootFieldRefs(root.mutation.value.fields) else [])
  }

  /** Each object field's type, then its arguments' types. */
  function ObjectFieldRefs(fields: seq<GatewayObjectField>): seq<TypeRef>
  {
    if |fields| == 0 then []
    else
      var last := fields[|fields| - 1];
      ObjectFieldRefs(fields[..|fields| - 1]) + [last.typeRef] + GatewayArgumentRefs(last.arguments)
  }

  function InputFieldRefs(fields: seq<GatewayInputField>): (r: seq<TypeRef>)
    ensures |r| == |fields|
    ensures forall i :: 0 <= i < |fields| ==> r[i] == fields[i].typeRef
  {
    seq(|fields|, i requires 0 <= i < |fields| => fields[i].typeRef)
  }

  /** What taking `typeName` off the object queue marks; a name the registry
      does not hold marks nothing. */
  function ObjectRefs(registry: GatewayTypeRegistry, typeName: string): seq<TypeRef>
  {
    if typeName in registry.objectTypes then ObjectFieldRefs(registry.objectTypes[typeName].fields) else []
  }

  function InputRefs(registry: GatewayTypeRegistry, typeName: string): seq<TypeRef>
  {
    if typeName in registry.inputObjectTypes then InputFieldRefs(registry.inputObjectTypes[typeName].inputFields) else []
  }

  /** What taking `names` off the object queue, in order, marks. */
  function ObjectExpansion(registry: GatewayTypeRegistry, names: seq<string>): seq<TypeRef>
  {
    if |names| == 0 then [] else ObjectExpansion(registry, names[..|names| - 1]) + ObjectRefs(registry, names[|names| - 1])
  }

  function InputExpansion(registry: GatewayTypeRegistry, names: seq<string>): seq<TypeRef>
  {
    if |names| == 0 then [] else InputExpansion(registry, names[..|names| - 1]) + InputRefs(registry, names[|names| - 1])
  }

  /** The expansion of a list of names marks the references of each of them. */
  lemma {:induction false} ObjectExpansionNames(registry: GatewayTypeRegistry, names: seq<string>, n: string)
    requires n in names
    ensures BaseNames(ObjectRefs(registry, n)) <= BaseNames(ObjectExpansion(registry, names))
  {
    var init := names[..|names| - 1];
    BaseNamesAppend(ObjectExpansion(registry, init), ObjectRefs(registry, names[|names| - 1]));
    if n != names[|names| - 1] {
      assert n in init;
      ObjectExpansionNames(registry, init, n);
    }
  }

  lemma {:induction false} InputExpansionNames(registry: GatewayTypeRegistry, names: seq<string>, n: string)
    requires n in names
    ensures BaseNames(InputRefs(registry, n)) <= BaseNames(InputExpansion(registry, names))
  {
    var init := names[..|names| - 1];
    BaseNamesAppend(InputExpansion(registry, init), InputRefs(registry, names[|names| - 1]));
    if n != names[|names| - 1] {
      assert n in init;
      InputExpansionNames(registry, init, n);
    }
  }

  // ---------------------------------------------------------------------
  // Marking: the reachable sets and the two queues
  // ---------------------------------------------------------------------

  /** The four linked sets of reachable names and the two queues of types
      still to expand, as `compose` keeps them. */
  datatype Marks = Marks(
    objects: seq<string>, inputs: seq<string>, enums: seq<string>, scalars: seq<string>,
    objectQueue: seq<string>, inputQueue: seq<string>)

  const NoMarks := Marks([], [], [], [], [], [])

  /** The sets hold registry types without repetition, and each queue holds
      the most recently reached names of its set, in reaching order. */
  ghost predicate MarksValid(registry: GatewayTypeRegistry, m: Marks)
  {
    && QueuedNames(m.objects, m.objectQueue, registry.objectTypes)
    && QueuedNames(m.inputs, m.inputQueue, registry.inputObjectTypes)
    && NamesIn(m.enums, registry.enumTypes)
    && Distinct(m.scalars)
  }

  /** Keys of `keys`, each once. */
  ghost predicate NamesIn<V>(s: seq<string>, keys: map<string, V>)
  {
    Distinct(s) && forall x :: x in s ==> x in keys
  }

  /** Keys of `keys`, each once, with a queue that is a suffix of them. */
  ghost predicate QueuedNames<V>(s: seq<string>, q: seq<string>, keys: map<string, V>)
  {
    NamesIn(s, keys) && |q| <= |s| && q == s[|s| - |q|..]
  }

  /** Equal reachable sets, whatever the queues. */
  predicate SameSets(a: Marks, b: Marks)
  {
    a.objects == b.objects && a.inputs == b.inputs && a.enums == b.enums && a.scalars == b.scalars
  }

  /** `LinkedHashSet.add`: appends a name the set does not hold yet. */
  function Add(s: seq<string>, n: string): (r: seq<string>)
    ensures Distinct(s) ==> Distinct(r)
    ensures forall x :: x in r <==> x in s || x == n
  {
    if n in s then s else s + [n]
  }

  /** A queue that is a suffix of its set stays one when both receive the same name. */
  lemma EnqueueKeepsSuffix(s: seq<string>, q: seq<string>, n: string)
    requires |q| <= |s| && q == s[|s| - |q|..]
    ensures q + [n] == (s + [n])[|s + [n]| - |q + [n]|..]
  {
  }

  /** `markType`: the base type's name joins each set it qualifies for, and a
      registry object or input object seen for the first time is queued. */
  function MarkType(registry: GatewayTypeRegistry, m: Marks, ref: TypeRef): (r: Marks)
    ensures MarksValid(registry, m) ==> MarksValid(registry, r)
  {
    var base := Unwrap(ref);
    if base.name.None? then m
    else
      var n := base.name.value;
      var newObject := n in registry.objectTypes && n !in m.objects;
      var newInput := n in registry.inputObjectTypes && n !in m.inputs;
      var r := Marks(
        if newObject then m.objects + [n] else m.objects,
        if newInput then m.inputs + [n] else m.inputs,
        if n in registry.enumTypes then Add(m.enums, n) else m.enums,
        if base.kind == Scalar && !IsBuiltInScalar(n) then Add(m.scalars, n) else m.scalars,
        if newObject then m.objectQueue + [n] else m.objectQueue,
        if newInput then m.inputQueue + [n] else m.inputQueue);
      MarkTypeValid(registry, m, n, newObject, newInput, r);
      r
  }

  lemma MarkTypeValid(registry: GatewayTypeRegistry, m: Marks, n: string, newObject: bool, newInput: bool, r: Marks)
    requires newObject == (n in registry.objectTypes && n !in m.objects)
    requires newInput == (n in registry.inputObjectTypes && n !in m.inputs)
    requires r.objects == (if newObject then m.objects + [n] else m.objects)
    requires r.inputs == (if newInput then m.inputs + [n] else m.inputs)
    requires r.enums == (if n in registry.enumTypes then Add(m.enums, n) else m.enums)
    requires r.scalars == m.scalars || r.scalars == Add(m.scalars, n)
    requires r.objectQueue == (if newObject then m.objectQueue + [n] else m.objectQueue)
    requires r.inputQueue == (if newInput then m.inputQueue + [n] else m.inputQueue)
    ensures MarksValid(registry, m) ==> MarksValid(registry, r)
  {
    if MarksValid(registry, m) {
      QueuedSetGrows(m.objects, m.objectQueue, n, newObject, r.objects, r.objectQueue, registry.objectTypes);
      QueuedSetGrows(m.inputs, m.inputQueue, n, newInput, r.inputs, r.inputQueue, registry.inputObjectTypes);
      SetGrows(m.enums, n, n in registry.enumTypes, r.enums, registry.enumTypes);
      assert Distinct(r.scalars) by {
        if r.scalars != m.scalars {
          assert r.scalars == Add(m.scalars, n);
        }
      }
    }
  }

  /** A set receiving a name of `keys`, or nothing, stays a distinct subset of `keys`. */
  lemma SetGrows<V>(s: seq<string>, n: string, adds: bool, s': seq<string>, keys: map<string, V>)
    requires NamesIn(s, keys)
    requires adds ==> n in keys
    requires s' == (if adds then Add(s, n) else s)
    ensures NamesIn(s', keys)
  {
  }

  /** A set and its queue, both receiving a name of `keys` not yet in the set,
      or neither receiving anything, stay a distinct subset of `keys` whose
      queue is a suffix of it. */
  lemma QueuedSetGrows<V>(s: seq<string>, q: seq<string>, n: string, isNew: bool, s': seq<string>, q': seq<string>, keys: map<string, V>)
    requires QueuedNames(s, q, keys)
    requires isNew ==> n in keys && n !in s
    requires s' == (if isNew then s + [n] else s)
    requires q' == (if isNew then q + [n] else q)
    ensures QueuedNames(s', q', keys)
  {
    if isNew {
      EnqueueKeepsSuffix(s, q, n);
      assert Add(s, n) == s';
    }
  }

  /** `markType` applied to each reference in turn. */
  function MarkAll(registry: GatewayTypeRegistry, m: Marks, refs: seq<TypeRef>): (r: Marks)
    ensures MarksValid(registry, m) ==> MarksValid(registry, r)
  {
    if |refs| == 0 then m else MarkType(registry, MarkAll(registry, m, refs[..|refs| - 1]), refs[|refs| - 1])
  }

  lemma {:induction false} MarkAllAppend(registry: GatewayTypeRegistry, m: Marks, a: seq<TypeRef>, b: seq<TypeRef>)
    ensures MarkAll(registry, m, a + b) == MarkAll(registry, MarkAll(registry, m, a), b)
  {
    if |b| > 0 {
      MarkAllAppend(registry, m, a, b[..|b| - 1]);
      assert (a + b)[..|a + b| - 1] == a + b[..|b| - 1];
    } else {
      assert a + b == a;
    }
  }

  /** The reachable sets after marking depend only on the sets before, not on the queues. */
  lemma {:induction false} MarkAllSameSets(registry: GatewayTypeRegistry, m: Marks, m': Marks, refs: seq<TypeRef>)
    requires SameSets(m, m')
    ensures SameSets(MarkAll(registry, m, refs), MarkAll(registry, m', refs))
  {
    if |refs| > 0 {
      MarkAllSameSets(registry, m, m', refs[..|refs| - 1]);
    }
  }

  /** Marking only adds: each set and queue grows at its end, and a queue
      receives exactly what its set receives. */
  lemma {:induction false} MarkAllGrows(registry: GatewayTypeRegistry, m: Marks, refs: seq<TypeRef>)
    ensures var r := MarkAll(registry, m, refs);
      && m.objects <= r.objects && r.objectQueue == m.objectQueue + r.objects[|m.objects|..]
      && m.inputs <= r.inputs && r.inputQueue == m.inputQueue + r.inputs[|m.inputs|..]
  {
    if |refs| > 0 {
      var before := MarkAll(registry, m, refs[..|refs| - 1]);
      MarkAllGrows(registry, m, refs[..|refs| - 1]);
      var r := MarkAll(registry, m, refs);
      assert r == MarkType(registry, before, refs[|refs| - 1]);
      assert r.objects[|m.objects|..] == before.objects[|m.objects|..] + r.objects[|before.objects|..];
      assert r.inputs[|m.inputs|..] == before.inputs[|m.inputs|..] + r.inputs[|before.inputs|..];
    }
  }

  /** After marking, a name is in a set exactly when it was before or a
      marked reference's base type qualifies it. */
  lemma {:induction false} MarkAllMembers(registry: GatewayTypeRegistry, m: Marks, refs: seq<TypeRef>, n: string)
    ensures var r := MarkAll(registry, m, refs);
      && (n in r.objects <==> n in m.objects || (n in registry.objectTypes && n in BaseNames(refs)))
      && (n in r.inputs <==> n in m.inputs || (n in registry.inputObjectTypes && n in BaseNames(refs)))
      && (n in r.enums <==> n in m.enums || (n in registry.enumTypes && n in BaseNames(refs)))
      && (n in r.scalars <==> n in m.scalars || n in CustomScalars(refs))
  {
    if |refs| > 0 {
      var init := refs[..|refs| - 1];
      MarkAllMembers(registry, m, init, n);
      assert refs == init + [refs[|refs| - 1]];
      BaseNamesAppend(init, [refs[|refs| - 1]]);
    }
  }


  // ---------------------------------------------------------------------
  // What the worklists have visited
  // ---------------------------------------------------------------------

  /** The names of a set already taken off its queue. */
  function Processed(s: seq<string>, q: seq<string>): seq<string>
    requires |q| <= |s|
  {
    s[..|s| - |q|]
  }

  /** Every reference marked so far: the roots, then what expanding the taken
      objects marked, then what expanding the taken input objects marked. */
  ghost function Visited(registry: GatewayTypeRegistry, roots: seq<TypeRef>, m: Marks): seq<TypeRef>
    requires |m.objectQueue| <= |m.objects| && |m.inputQueue| <= |m.inputs|
  {
    roots
      + ObjectExpansion(registry, Processed(m.objects, m.objectQueue))
      + InputExpansion(registry, Processed(m.inputs, m.inputQueue))
  }

  /** A set of names that holds, with every registry type it names, the names
      that type's fields and arguments mark. */
  ghost predicate Closed(registry: GatewayTypeRegistry, c: set<string>)
  {
    forall n :: n in c ==> BaseNames(ObjectRefs(registry, n)) <= c && BaseNames(InputRefs(registry, n)) <= c
  }

  /** The worklist state: the sets are what marking the visited references
      gives, and every visited name lies in every closed set holding the roots. */
  ghost predicate Consistent(registry: GatewayTypeRegistry, roots: seq<TypeRef>, m: Marks)
  {
    && MarksValid(registry, m)
    && SameSets(m, MarkAll(registry, NoMarks, Visited(registry, roots, m)))
    && (forall c :: BaseNames(roots) <= c && Closed(registry, c) ==> BaseNames(Visited(registry, roots, m)) <= c)
  }

  /** A sequence without repetition drawn from a set is no longer than the set. */
  lemma {:induction false} DistinctBound(s: seq<string>, a: set<string>)
    requires Distinct(s)
    requires forall x :: x in s ==> x in a
    ensures |s| <= |a|
  {
    if |s| > 0 {
      var x := s[|s| - 1];
      var init := s[..|s| - 1];
      forall y | y in init ensures y in a - {x} {
        var k :| 0 <= k < |init| && init[k] == y;
        assert s[k] == y;
      }
      DistinctBound(init, a - {x});
    }
  }

  /** Taking the head off a queue keeps the state valid; the head is in its set. */
  lemma PopValid(registry: GatewayTypeRegistry, m: Marks)
    requires MarksValid(registry, m)
    ensures |m.objectQueue| > 0 ==> m.objectQueue[0] in m.objects && MarksValid(registry, m.(objectQueue := m.objectQueue[1..]))
    ensures |m.objectQueue| > 0 ==> m.objectQueue[0] == m.objects[|m.objects| - |m.objectQueue|]
    ensures |m.inputQueue| > 0 ==> m.inputQueue[0] in m.inputs && MarksValid(registry, m.(inputQueue := m.inputQueue[1..]))
  {
    if |m.objectQueue| > 0 {
      assert m.objects[|m.objects| - |m.objectQueue|] == m.objectQueue[0];
    }
    if |m.inputQueue| > 0 {
      assert m.inputs[|m.inputs| - |m.inputQueue|] == m.inputQueue[0];
    }
  }

  /** Marking the references of a type already visited extends a consistent
      state by those references. */
  lemma Extend(registry: GatewayTypeRegistry, roots: seq<TypeRef>, popped: Marks, v: seq<TypeRef>, typeName: string, refs: seq<TypeRef>)
    requires MarksValid(registry, popped)
    requires SameSets(popped, MarkAll(registry, NoMarks, v))
    requires forall c :: BaseNames(roots) <= c && Closed(registry, c) ==> BaseNames(v) <= c
    requires typeName in BaseNames(v)
    requires refs == ObjectRefs(registry, typeName) || refs == InputRefs(registry, typeName)
    ensures MarksValid(registry, MarkAll(registry, popped, refs))
    ensures SameSets(MarkAll(registry, popped, refs), MarkAll(registry, NoMarks, v + refs))
    ensures forall c :: BaseNames(roots) <= c && Closed(registry, c) ==> BaseNames(v + refs) <= c
  {
    MarkAllAppend(registry, NoMarks, v, refs);
    MarkAllSameSets(registry, popped, MarkAll(registry, NoMarks, v), refs);
    BaseNamesAppend(v, refs);
  }

  /** A name in a set of a state marked from `v` is a base name of `v`. */
  lemma MarkedIsVisited(registry: GatewayTypeRegistry, m: Marks, v: seq<TypeRef>, n: string)
    requires SameSets(m, MarkAll(registry, NoMarks, v))
    requires n in m.objects || n in m.inputs
    ensures n in BaseNames(v)
  {
    MarkAllMembers(registry, NoMarks, v, n);
  }

  /** Taking the object queue's head adds what it marks at the end of the
      visited references, while no input object has been taken. */
  lemma ObjectVisited(registry: GatewayTypeRegistry, roots: seq<TypeRef>, before: Marks, after: Marks)
    requires MarksValid(registry, before) && before.inputQueue == before.inputs
    requires |before.objectQueue| > 0
    requires before.objects <= after.objects
    requires after.objectQueue == before.objectQueue[1..] + after.objects[|before.objects|..]
    requires before.inputs <= after.inputs && after.inputQueue == before.inputQueue + after.inputs[|before.inputs|..]
    ensures after.inputQueue == after.inputs
    ensures |after.objectQueue| <= |after.objects| && |after.inputQueue| <= |after.inputs|
    ensures Visited(registry, roots, after) == Visited(registry, roots, before) + ObjectRefs(registry, before.objectQueue[0])
  {
    var p := Processed(before.objects, before.objectQueue);
    assert Processed(after.objects, after.objectQueue) == p + [before.objectQueue[0]];
    assert (p + [before.objectQueue[0]])[..|p|] == p;
  }

  /** Taking the input queue's head adds what it marks at the end of the
      visited references and leaves the taken objects as they were. */
  lemma InputVisited(registry: GatewayTypeRegistry, roots: seq<TypeRef>, before: Marks, after: Marks)
    requires MarksValid(registry, before)
    requires |before.inputQueue| > 0
    requires before.inputs <= after.inputs
    requires after.inputQueue == before.inputQueue[1..] + after.inputs[|before.inputs|..]
    requires before.objects <= after.objects && after.objectQueue == before.objectQueue + after.objects[|before.objects|..]
    ensures |after.objectQueue| <= |after.objects| && |after.inputQueue| <= |after.inputs|
    ensures Processed(after.objects, after.objectQueue) == Processed(before.objects, before.objectQueue)
    ensures Visited(registry, roots, after) == Visited(registry, roots, before) + InputRefs(registry, before.inputQueue[0])
  {
    var p := Processed(before.inputs, before.inputQueue);
    assert Processed(after.inputs, after.inputQueue) == p + [before.inputQueue[0]];
    assert (p + [before.inputQueue[0]])[..|p|] == p;
    assert Processed(after.objects, after.objectQueue) == Processed(before.objects, before.objectQueue);
  }

  /** Taking the object queue's head and marking what its fields mark keeps
      the state consistent, while no input object has been taken. */
  lemma ObjectStep(registry: GatewayTypeRegistry, roots: seq<TypeRef>, before: Marks, after: Marks)
    requires Consistent(registry, roots, before)
    requires before.inputQueue == before.inputs
    requires |before.objectQueue| > 0
    requires after == MarkAll(registry, before.(objectQueue := before.objectQueue[1..]), ObjectRefs(registry, before.objectQueue[0]))
    ensures Consistent(registry, roots, after)
    ensures after.inputQueue == after.inputs
    ensures |after.objects| <= |registry.objectTypes.Keys|
    ensures |registry.objectTypes.Keys| - |after.objects| < |registry.objectTypes.Keys| - |before.objects|
         || (after.objects == before.objects && |after.objectQueue| < |before.objectQueue|)
  {
    var popped := before.(objectQueue := before.objectQueue[1..]);
    var refs := ObjectRefs(registry, before.objectQueue[0]);
    var v := Visited(registry, roots, before);
    PopValid(registry, before);
    MarkedIsVisited(registry, before, v, before.objectQueue[0]);
    Extend(registry, roots, popped, v, before.objectQueue[0], refs);
    MarkAllGrows(registry, popped, refs);
    ObjectVisited(registry, roots, before, after);
    DistinctBound(after.objects, registry.objectTypes.Keys);
  }

  /** Taking the input queue's head and marking what its fields mark keeps
      the state consistent and leaves the taken objects as they were. */
  lemma InputStep(registry: GatewayTypeRegistry, roots: seq<TypeRef>, before: Marks, after: Marks)
    requires Consistent(registry, roots, before)
    requires |before.inputQueue| > 0
    requires after == MarkAll(registry, before.(inputQueue := before.inputQueue[1..]), InputRefs(registry, before.inputQueue[0]))
    ensures Consistent(registry, roots, after)
    ensures Processed(after.objects, after.objectQueue) == Processed(before.objects, before.objectQueue)
    ensures |after.inputs| <= |registry.inputObjectTypes.Keys|
    ensures |registry.inputObjectTypes.Keys| - |after.inputs| < |registry.inputObjectTypes.Keys| - |before.inputs|
         || (after.inputs == before.inputs && |after.inputQueue| < |before.inputQueue|)
  {
    var popped := before.(inputQueue := before.inputQueue[1..]);
    var refs := InputRefs(registry, before.inputQueue[0]);
    var v := Visited(registry, roots, before);
    PopValid(registry, before);
    MarkedIsVisited(registry, before, v, before.inputQueue[0]);
    Extend(registry, roots, popped, v, before.inputQueue[0], refs);
    MarkAllGrows(registry, popped, refs);
    InputVisited(registry, roots, before, after);
    DistinctBound(after.inputs, registry.inputObjectTypes.Keys);
  }

  /** Before any queue is drained, marking the roots gives a consistent state
      whose queues hold their whole sets. */
  lemma RootsConsistent(registry: GatewayTypeRegistry, roots: seq<TypeRef>, m: Marks)
    requires m == MarkAll(registry, NoMarks, roots)
    ensures Consistent(registry, roots, m)
    ensures m.objectQueue == m.objects && m.inputQueue == m.inputs
  {
    MarkAllGrows(registry, NoMarks, roots);
    assert Visited(registry, roots, m) == roots;
  }

  /** Once the object queue is empty and no input object has been taken, the
      objects are exactly those marked by the roots and their expansion. */
  lemma ObjectsSettled(registry: GatewayTypeRegistry, roots: seq<TypeRef>, m: Marks)
    requires Consistent(registry, roots, m)
    requires m.objectQueue == [] && m.inputQueue == m.inputs
    ensures Processed(m.objects, m.objectQueue) == m.objects
    ensures MarkAll(registry, NoMarks, roots + ObjectExpansion(registry, m.objects)).objects == m.objects
  {
    assert Processed(m.objects, m.objectQueue) == m.objects;
    assert Processed(m.inputs, m.inputQueue) == [];
    assert Visited(registry, roots, m) == roots + ObjectExpansion(registry, m.objects);
  }

  // ---------------------------------------------------------------------
  // The marking loops of `compose`
  // ---------------------------------------------------------------------

  lemma MarkAllSnoc(registry: GatewayTypeRegistry, m: Marks, refs: seq<TypeRef>, ref: TypeRef)
    ensures MarkAll(registry, m, refs + [ref]) == MarkType(registry, MarkAll(registry, m, refs), ref)
  {
    assert (refs + [ref])[..|refs|] == refs;
  }

  /** `markArguments`: marks each argument's type in turn. */
  method MarkArguments(registry: GatewayTypeRegistry, m: Marks, arguments: seq<InputValueDefinition>) returns (r: Marks)
    ensures r == MarkAll(registry, m, ArgumentRefs(arguments))
  {
    r := m;
    for i := 0 to |arguments|
      invariant r == MarkAll(registry, m, ArgumentRefs(arguments)[..i])
    {
      MarkAllSnoc(registry, m, ArgumentRefs(arguments)[..i], arguments[i].typeRef);
      assert ArgumentRefs(arguments)[..i + 1] == ArgumentRefs(arguments)[..i] + [arguments[i].typeRef];
      r := MarkType(registry, r, arguments[i].typeRef);
    }
    assert ArgumentRefs(arguments)[..|arguments|] == ArgumentRefs(arguments);
  }

  /** The loop over a root type's fields: each field's type, then its arguments. */
  method MarkRootFields(registry: GatewayTypeRegistry, m: Marks, fields: seq<RoutedField>) returns (r: Marks)
    ensures r == MarkAll(registry, m, RootFieldRefs(fields))
  {
    r := m;
    for i := 0 to |fields|
      invariant r == MarkAll(registry, m, RootFieldRefs(fields[..i]))
    {
      var definition := fields[i].definition;
      MarkAllSnoc(registry, m, RootFieldRefs(fields[..i]), definition.typeRef);
      r := MarkType(registry, r, definition.typeRef);
      r := MarkArguments(registry, r, definition.arguments);
      MarkAllAppend(registry, m, RootFieldRefs(fields[..i]) + [definition.typeRef], ArgumentRefs(definition.arguments));
      assert fields[..i + 1][..i] == fields[..i];
    }
    assert fields[..|fields|] == fields;
  }

  /** The inner loop over a reached object field's arguments. */
  method MarkFieldArguments(registry: GatewayTypeRegistry, m: Marks, arguments: seq<GatewayInputValue>) returns (r: Marks)
    ensures r == MarkAll(registry, m, GatewayArgumentRefs(arguments))
  {
    r := m;
    for i := 0 to |arguments|
      invariant r == MarkAll(registry, m, GatewayArgumentRefs(arguments)[..i])
    {
      MarkAllSnoc(registry, m, GatewayArgumentRefs(arguments)[..i], arguments[i].typeRef);
      assert GatewayArgumentRefs(arguments)[..i + 1] == GatewayArgumentRefs(arguments)[..i] + [arguments[i].typeRef];
      r := MarkType(registry, r, arguments[i].typeRef);
    }
    assert GatewayArgumentRefs(arguments)[..|arguments|] == GatewayArgumentRefs(arguments);
  }

  /** The loop over a reached object type's fields: each field's type, then its arguments. */
  method MarkObjectFields(registry: GatewayTypeRegistry, m: Marks, fields: seq<GatewayObjectField>) returns (r: Marks)
    ensures r == MarkAll(registry, m, ObjectFieldRefs(fields))
  {
    r := m;
    for i := 0 to |fields|
      invariant r == MarkAll(registry, m, ObjectFieldRefs(fields[..i]))
    {
      var field := fields[i];
      MarkAllSnoc(registry, m, ObjectFieldRefs(fields[..i]), field.typeRef);
      r := MarkType(registry, r, field.typeRef);
      r := MarkFieldArguments(registry, r, field.arguments);
      MarkAllAppend(registry, m, ObjectFieldRefs(fields[..i]) + [field.typeRef], GatewayArgumentRefs(field.arguments));
      assert fields[..i + 1][..i] == fields[..i];
    }
    assert fields[..|fields|] == fields;
  }

  /** The loop over a reached input object type's fields. */
  method MarkInputFields(registry: GatewayTypeRegistry, m: Marks, fields: seq<GatewayInputField>) returns (r: Marks)
    ensures r == MarkAll(registry, m, InputFieldRefs(fields))
  {
    r := m;
    for i := 0 to |fields|
      invariant r == MarkAll(registry, m, InputFieldRefs(fields)[..i])
    {
      MarkAllSnoc(registry, m, InputFieldRefs(fields)[..i], fields[i].typeRef);
      assert InputFieldRefs(fields)[..i + 1] == InputFieldRefs(fields)[..i] + [fields[i].typeRef];
      r := MarkType(registry, r, fields[i].typeRef);
    }
    assert InputFieldRefs(fields)[..|fields|] == InputFieldRefs(fields);
  }

  /** The first `while` loop: drains the object queue, skipping a name the
      registry does not hold. */
  method DrainObjects(registry: GatewayTypeRegistry, ghost roots: seq<TypeRef>, m: Marks) returns (r: Marks)
    requires Consistent(registry, roots, m) && m.inputQueue == m.inputs
    ensures Consistent(registry, roots, r)
    ensures r.objectQueue == [] && r.inputQueue == r.inputs
  {
    r := m;
    DistinctBound(r.objects, registry.objectTypes.Keys);
    while |r.objectQueue| > 0
      invariant Consistent(registry, roots, r) && r.inputQueue == r.inputs
      invariant |r.objects| <= |registry.objectTypes.Keys|
      decreases |registry.objectTypes.Keys| - |r.objects|, |r.objectQueue|
    {
      ghost var before := r;
      var typeName := r.objectQueue[0];
      r := r.(objectQueue := r.objectQueue[1..]);
      if typeName in registry.objectTypes {
        r := MarkObjectFields(registry, r, registry.objectTypes[typeName].fields);
      }
      ObjectStep(registry, roots, before, r);
    }
  }

  /** The second `while` loop: drains the input queue, skipping a name the
      registry does not hold. */
  method DrainInputs(registry: GatewayTypeRegistry, ghost roots: seq<TypeRef>, m: Marks) returns (r: Marks)
    requires Consistent(registry, roots, m)
    ensures Consistent(registry, roots, r)
    ensures r.inputQueue == []
    ensures Processed(r.objects, r.objectQueue) == Processed(m.objects, m.objectQueue)
  {
    r := m;
    DistinctBound(r.inputs, registry.inputObjectTypes.Keys);
    while |r.inputQueue| > 0
      invariant Consistent(registry, roots, r)
      invariant Processed(r.objects, r.objectQueue) == Processed(m.objects, m.objectQueue)
      invariant |r.inputs| <= |registry.inputObjectTypes.Keys|
      decreases |registry.inputObjectTypes.Keys| - |r.inputs|, |r.inputQueue|
    {
      ghost var before := r;
      var typeName := r.inputQueue[0];
      r := r.(inputQueue := r.inputQueue[1..]);
      if typeName in registry.inputObjectTypes {
        r := MarkInputFields(registry, r, registry.inputObjectTypes[typeName].inputFields);
      }
      InputStep(registry, roots, before, r);
    }
  }

  // ---------------------------------------------------------------------
  // Reachability
  // ---------------------------------------------------------------------

  /** The state `compose` reaches after both loops: consistent with the roots,
      the input queue drained, and the expanded objects exactly those the
      roots and those objects' own fields mark. */
  ghost predicate Reached(registry: GatewayTypeRegistry, root: GatewayRootSchema, m: Marks)
  {
    && Consistent(registry, RootRefs(root), m)
    && m.inputQueue == []
    && MarkAll(registry, NoMarks, RootRefs(root) + ObjectExpansion(registry, Processed(m.objects, m.objectQueue))).objects
       == Processed(m.objects, m.objectQueue)
  }

  /** The marking half of `compose`: the roots, then the object queue, then the input queue. */
  method Reach(root: GatewayRootSchema, registry: GatewayTypeRegistry) returns (m: Marks)
    ensures Reached(registry, root, m)
  {
    m := MarkRootFields(registry, NoMarks, root.query.fields);
    if root.mutation.Some? {
      MarkAllAppend(registry, NoMarks, RootFieldRefs(root.query.fields), RootFieldRefs(root.mutation.value.fields));
      m := MarkRootFields(registry, m, root.mutation.value.fields);
    } else {
      assert RootRefs(root) == RootFieldRefs(root.query.fields);
    }
    RootsConsistent(registry, RootRefs(root), m);
    m := DrainObjects(registry, RootRefs(root), m);
    ObjectsSettled(registry, RootRefs(root), m);
    m := DrainInputs(registry, RootRefs(root), m);
  }

  /** Every name in a set lies in every closed set of names that holds the
      root fields' base types: `compose` reaches nothing it need not reach. */
  lemma ReachedLeast(registry: GatewayTypeRegistry, root: GatewayRootSchema, m: Marks, c: set<string>, n: string)
    requires Reached(registry, root, m)
    requires BaseNames(RootRefs(root)) <= c && Closed(registry, c)
    requires n in m.objects || n in m.inputs || n in m.enums || n in m.scalars
    ensures n in c
  {
    var v := Visited(registry, RootRefs(root), m);
    MarkAllMembers(registry, NoMarks, v, n);
    assert CustomScalars(v) <= BaseNames(v);
  }

  /** Every registry type a root field or argument names is reached. */
  lemma ReachedRoots(registry: GatewayTypeRegistry, root: GatewayRootSchema, m: Marks, n: string)
    requires Reached(registry, root, m)
    ensures n in BaseNames(RootRefs(root)) ==>
      && (n in registry.objectTypes ==> n in m.objects)
      && (n in registry.inputObjectTypes ==> n in m.inputs)
      && (n in registry.enumTypes ==> n in m.enums)
    ensures n in CustomScalars(RootRefs(root)) ==> n in m.scalars
  {
    var roots := RootRefs(root);
    var front := roots + ObjectExpansion(registry, Processed(m.objects, m.objectQueue));
    var v := front + InputExpansion(registry, Processed(m.inputs, m.inputQueue));
    assert SameSets(m, MarkAll(registry, NoMarks, v));
    BaseNamesAppend(roots, ObjectExpansion(registry, Processed(m.objects, m.objectQueue)));
    BaseNamesAppend(front, InputExpansion(registry, Processed(m.inputs, m.inputQueue)));
    MarkAllMembers(registry, NoMarks, v, n);
  }

  /** The reached input objects are closed: every registry type an input
      field of a reached input object names is reached too. */
  lemma ReachedInputsClosed(registry: GatewayTypeRegistry, root: GatewayRootSchema, m: Marks, i: string, n: string)
    requires Reached(registry, root, m)
    requires i in m.inputs && n in BaseNames(InputRefs(registry, i))
    ensures n in registry.objectTypes ==> n in m.objects
    ensures n in registry.inputObjectTypes ==> n in m.inputs
    ensures n in registry.enumTypes ==> n in m.enums
  {
    var front := RootRefs(root) + ObjectExpansion(registry, Processed(m.objects, m.objectQueue));
    assert Processed(m.inputs, m.inputQueue) == m.inputs;
    InputExpansionNames(registry, m.inputs, i);
    BaseNamesAppend(front, InputExpansion(registry, m.inputs));
    MarkAllMembers(registry, NoMarks, front + InputExpansion(registry, m.inputs), n);
  }

  /** No input field of a registry input object names a registry object type:
      the premise under which draining the object queue before the input
      queue misses no object. */
  ghost predicate InputsNameNoObject(registry: GatewayTypeRegistry)
  {
    forall i :: i in registry.inputObjectTypes ==> BaseNames(InputRefs(registry, i)) !! registry.objectTypes.Keys
  }

  lemma {:induction false} InputExpansionNoObject(registry: GatewayTypeRegistry, names: seq<string>)
    requires InputsNameNoObject(registry)
    ensures BaseNames(InputExpansion(registry, names)) !! registry.objectTypes.Keys
  {
    if |names| > 0 {
      InputExpansionNoObject(registry, names[..|names| - 1]);
      BaseNamesAppend(InputExpansion(registry, names[..|names| - 1]), InputRefs(registry, names[|names| - 1]));
    }
  }

  /** A name of a sequence without repetition does not occur before its position. */
  lemma DistinctNotEarlier(s: seq<string>, k: int)
    requires Distinct(s) && 0 <= k < |s|
    ensures s[k] !in s[..k]
  {
    forall j | 0 <= j < k ensures s[..k][j] != s[k] {
      assert s[..k][j] == s[j];
    }
  }

  /** Under the premise, every reached object type has been expanded. */
  lemma ReachedObjectsExpanded(registry: GatewayTypeRegistry, root: GatewayRootSchema, m: Marks)
    requires Reached(registry, root, m)
    requires InputsNameNoObject(registry)
    ensures m.objectQueue == []
  {
    if m.objectQueue != [] {
      var roots := RootRefs(root);
      var expanded := Processed(m.objects, m.objectQueue);
      var inputsTaken := Processed(m.inputs, m.inputQueue);
      var front := roots + ObjectExpansion(registry, expanded);
      InputExpansionNoObject(registry, inputsTaken);
      PopValid(registry, m);
      DistinctNotEarlier(m.objects, |expanded|);
      MarkedIsVisited(registry, m, front + InputExpansion(registry, inputsTaken), m.objectQueue[0]);
      BaseNamesAppend(front, InputExpansion(registry, inputsTaken));
      MarkAllMembers(registry, NoMarks, front, m.objectQueue[0]);
      assert false;
    }
  }

  /** Under the premise, each set holds exactly the registry types (the
      custom scalars, for the scalar set) named by the root fields and by the
      fields of the reached object and input object types. */
  lemma ReachedExactly(registry: GatewayTypeRegistry, root: GatewayRootSchema, m: Marks, n: string)
    requires Reached(registry, root, m)
    requires InputsNameNoObject(registry)
    ensures var named := RootRefs(root) + ObjectExpansion(registry, m.objects) + InputExpansion(registry, m.inputs);
      && (n in m.objects <==> n in registry.objectTypes && n in BaseNames(named))
      && (n in m.inputs <==> n in registry.inputObjectTypes && n in BaseNames(named))
      && (n in m.enums <==> n in registry.enumTypes && n in BaseNames(named))
      && (n in m.scalars <==> n in CustomScalars(named))
  {
    ReachedObjectsExpanded(registry, root, m);
    var named := RootRefs(root) + ObjectExpansion(registry, m.objects) + InputExpansion(registry, m.inputs);
    ReachedSets(registry, root, m);
    MarkedMembers(registry, m, named, n);
  }

  /** Once both queues are empty, the sets are what marking the roots and the
      expansion of every reached type gives. */
  lemma ReachedSets(registry: GatewayTypeRegistry, root: GatewayRootSchema, m: Marks)
    requires Reached(registry, root, m)
    requires m.objectQueue == []
    ensures SameSets(m, MarkAll(registry, NoMarks, RootRefs(root) + ObjectExpansion(registry, m.objects) + InputExpansion(registry, m.inputs)))
  {
    assert Processed(m.objects, m.objectQueue) == m.objects;
    assert Processed(m.inputs, m.inputQueue) == m.inputs;
  }

  /** A state marked from `refs` holds exactly the names the base types of `refs` qualify. */
  lemma MarkedMembers(registry: GatewayTypeRegistry, m: Marks, refs: seq<TypeRef>, n: string)
    requires SameSets(m, MarkAll(registry, NoMarks, refs))
    ensures n in m.objects <==> n in registry.objectTypes && n in BaseNames(refs)
    ensures n in m.inputs <==> n in registry.inputObjectTypes && n in BaseNames(refs)
    ensures n in m.enums <==> n in registry.enumTypes && n in BaseNames(refs)
    ensures n in m.scalars <==> n in CustomScalars(refs)
  {
    MarkAllMembers(registry, NoMarks, refs, n);
  }

  /** Under the premise, the reached object types are closed as well: every
      registry type a field or argument of a reached object names is reached. */
  lemma ReachedObjectsClosed(registry: GatewayTypeRegistry, root: GatewayRootSchema, m: Marks, o: string, n: string)
    requires Reached(registry, root, m)
    requires InputsNameNoObject(registry)
    requires o in m.objects && n in BaseNames(ObjectRefs(registry, o))
    ensures n in registry.objectTypes ==> n in m.objects
    ensures n in registry.inputObjectTypes ==> n in m.inputs
    ensures n in registry.enumTypes ==> n in m.enums
  {
    var front := RootRefs(root) + ObjectExpansion(registry, m.objects);
    ObjectExpansionNames(registry, m.objects, o);
    BaseNamesAppend(RootRefs(root), ObjectExpansion(registry, m.objects));
    BaseNamesAppend(front, InputExpansion(registry, m.inputs));
    ReachedExactly(registry, root, m, n);
  }

  // ---------------------------------------------------------------------
  // SDL text
  // ---------------------------------------------------------------------

  /** An argument or an input field as `name: Type`. */
  function RenderValue(name: string, t: TypeRef): string
  {
    name + ": " + Render(t)
  }

  /** The parenthesised, comma-separated argument list; nothing when there are no arguments. */
  function ArgumentList(rendered: seq<string>): string
  {
    if |rendered| == 0 then "" else "(" + Join(rendered, ", ") + ")"
  }

  function ArgumentTexts(arguments: seq<InputValueDefinition>): (r: seq<string>)
    ensures |r| == |arguments|
    ensures forall i :: 0 <= i < |arguments| ==> r[i] == RenderValue(arguments[i].name, arguments[i].typeRef)
  {
    seq(|arguments|, i requires 0 <= i < |arguments| => RenderValue(arguments[i].name, arguments[i].typeRef))
  }

  function GatewayArgumentTexts(arguments: seq<GatewayInputValue>): (r: seq<string>)
    ensures |r| == |arguments|
    ensures forall i :: 0 <= i < |arguments| ==> r[i] == RenderValue(arguments[i].name, arguments[i].typeRef)
  {
    seq(|arguments|, i requires 0 <= i < |arguments| => RenderValue(arguments[i].name, arguments[i].typeRef))
  }

  /** `renderField` for a root field's upstream definition. */
  function RenderRootField(definition: FieldDefinition): string
  {
    definition.name + ArgumentList(ArgumentTexts(definition.arguments)) + ": " + Render(definition.typeRef)
  }

  /** `renderField` for a merged object field. */
  function RenderObjectField(field: GatewayObjectField): string
  {
    field.name + ArgumentList(GatewayArgumentTexts(field.arguments)) + ": " + Render(field.typeRef)
  }

  /** `renderInputField`. */
  function RenderInputField(field: GatewayInputField): string
  {
    RenderValue(field.name, field.typeRef)
  }

  function RootFieldTexts(fields: seq<RoutedField>): (r: seq<string>)
    ensures |r| == |fields|
    ensures forall i :: 0 <= i < |fields| ==> r[i] == RenderRootField(fields[i].definition)
  {
    seq(|fields|, i requires 0 <= i < |fields| => RenderRootField(fields[i].definition))
  }

  function ObjectFieldTexts(fields: seq<GatewayObjectField>): (r: seq<string>)
    ensures |r| == |fields|
    ensures forall i :: 0 <= i < |fields| ==> r[i] == RenderObjectField(fields[i])
  {
    seq(|fields|, i requires 0 <= i < |fields| => RenderObjectField(fields[i]))
  }

  function InputFieldTexts(fields: seq<GatewayInputField>): (r: seq<string>)
    ensures |r| == |fields|
    ensures forall i :: 0 <= i < |fields| ==> r[i] == RenderInputField(fields[i])
  {
    seq(|fields|, i requires 0 <= i < |fields| => RenderInputField(fields[i]))
  }

  /** A well-formed reference renders on one line. */
  lemma {:induction false} RenderOneLine(t: TypeRef)
    requires WellFormed(t)
    ensures '\n' !in Render(t)
  {
    if IsWrapper(t.kind) {
      RenderOneLine(t.ofType.value);
    } else {
      assert forall i :: 0 <= i < |t.name.value| ==> NameChar(t.name.value[i]);
    }
  }

  /** A GraphQL Name holds no line break. */
  lemma NameOneLine(s: string)
    requires IsName(s)
    ensures '\n' !in s
  {
    assert forall i :: 0 <= i < |s| ==> NameChar(s[i]);
  }

  lemma ValueOneLine(name: string, t: TypeRef)
    requires IsName(name) && WellFormed(t)
    ensures '\n' !in RenderValue(name, t)
  {
    NameOneLine(name);
    RenderOneLine(t);
  }

  /** An argument list of one-line texts is one line. */
  lemma ArgumentListOneLine(rendered: seq<string>)
    requires forall i :: 0 <= i < |rendered| ==> '\n' !in rendered[i]
    ensures '\n' !in ArgumentList(rendered)
  {
    if |rendered| > 0 {
      JoinAvoids(rendered, ", ", '\n');
    }
  }

  /** Names, arguments and types a valid schema could hold. */
  predicate WellFormedArguments(arguments: seq<GatewayInputValue>)
  {
    forall i :: 0 <= i < |arguments| ==> IsName(arguments[i].name) && WellFormed(arguments[i].typeRef)
  }

  /** A field with a valid name, type and arguments renders on one line, so each
      field of a rendered type is exactly one line of the SDL. */
  lemma ObjectFieldOneLine(field: GatewayObjectField)
    requires IsName(field.name) && WellFormed(field.typeRef) && WellFormedArguments(field.arguments)
    ensures '\n' !in RenderObjectField(field)
  {
    var texts := GatewayArgumentTexts(field.arguments);
    forall i | 0 <= i < |texts| ensures '\n' !in texts[i] {
      ValueOneLine(field.arguments[i].name, field.arguments[i].typeRef);
    }
    ArgumentListOneLine(texts);
    NameOneLine(field.name);
    RenderOneLine(field.typeRef);
  }

  lemma RootFieldOneLine(definition: FieldDefinition)
    requires IsName(definition.name) && WellFormed(definition.typeRef)
    requires forall i :: 0 <= i < |definition.arguments| ==> IsName(definition.arguments[i].name) && WellFormed(definition.arguments[i].typeRef)
    ensures '\n' !in RenderRootField(definition)
  {
    var texts := ArgumentTexts(definition.arguments);
    forall i | 0 <= i < |texts| ensures '\n' !in texts[i] {
      ValueOneLine(definition.arguments[i].name, definition.arguments[i].typeRef);
    }
    ArgumentListOneLine(texts);
    NameOneLine(definition.name);
    RenderOneLine(definition.typeRef);
  }

  /** An input field with a valid name and type renders on one line. */
  lemma InputFieldOneLine(field: GatewayInputField)
    requires IsName(field.name) && WellFormed(field.typeRef)
    ensures '\n' !in RenderInputField(field)
  {
    ValueOneLine(field.name, field.typeRef);
  }

  /** Each line indented by two spaces. */
  function Indented(lines: seq<string>): (r: seq<string>)
    ensures |r| == |lines|
    ensures forall i :: 0 <= i < |lines| ==> r[i] == "  " + lines[i]
  {
    seq(|lines|, i requires 0 <= i < |lines| => "  " + lines[i])
  }

  /** A `keyword name { ... }` block: the header line, each line indented, the closing brace. */
  function BlockText(keyword: string, name: string, lines: seq<string>): string
  {
    AppendLines([keyword + " " + name + " {"] + Indented(lines)) + "}"
  }

  /** `renderObjectType`: builds the block line by line. */
  method RenderObjectType(keyword: string, name: string, fieldDefinitions: seq<string>) returns (text: string)
    ensures text == BlockText(keyword, name, fieldDefinitions)
  {
    var header := keyword + " " + name + " {";
    text := header + "\n";
    assert text == AppendLines([header] + Indented(fieldDefinitions[..0]));
    for i := 0 to |fieldDefinitions|
      invariant text == AppendLines([header] + Indented(fieldDefinitions[..i]))
    {
      AppendLinesSnoc([header] + Indented(fieldDefinitions[..i]), "  " + fieldDefinitions[i]);
      assert [header] + Indented(fieldDefinitions[..i + 1]) == [header] + Indented(fieldDefinitions[..i]) + ["  " + fieldDefinitions[i]];
      text := text + "  " + fieldDefinitions[i] + "\n";
    }
    assert fieldDefinitions[..|fieldDefinitions|] == fieldDefinitions;
    text := text + "}";
  }

  /** `renderEnumType`: the same block under the keyword `enum`, one value per line. */
  method RenderEnumType(name: string, values: seq<string>) returns (text: string)
    ensures text == BlockText("enum", name, values)
  {
    text := RenderObjectType("enum", name, values);
  }

  /** Split at line breaks, a block gives back its header, each of its lines
      indented by two spaces and in order, and the closing brace. */
  lemma BlockLines(keyword: string, name: string, lines: seq<string>)
    requires '\n' !in keyword && '\n' !in name
    requires forall i :: 0 <= i < |lines| ==> '\n' !in lines[i]
    ensures Split(BlockText(keyword, name, lines), '\n') == [keyword + " " + name + " {"] + Indented(lines) + ["}"]
  {
    var all := [keyword + " " + name + " {"] + Indented(lines);
    forall i | 0 <= i < |all| ensures '\n' !in all[i] {
      if i > 0 {
        assert all[i] == "  " + lines[i - 1];
      }
    }
    AppendLinesSplit(all, "}");
  }

  /** The lines of the `schema { ... }` directive. */
  function DirectiveLines(root: GatewayRootSchema): seq<string>
  {
    ["schema {", "  query: " + root.query.typeName]
      + (if root.mutation.Some? then ["  mutation: " + root.mutation.value.typeName] else [])
  }

  /** The directive that declares the root operation types. */
  function SchemaDirective(root: GatewayRootSchema): string
  {
    AppendLines(DirectiveLines(root)) + "}"
  }

  /** The directive's second line declares the query type, and a third
      line, declaring the mutation type, comes before the closing brace
      exactly when the root schema has a mutation type. */
  lemma SchemaDirectiveLines(root: GatewayRootSchema)
    requires '\n' !in root.query.typeName
    requires root.mutation.Some? ==> '\n' !in root.mutation.value.typeName
    ensures var lines := Split(SchemaDirective(root), '\n');
      && |lines| == (if root.mutation.Some? then 4 else 3)
      && lines[0] == "schema {" && lines[1] == "  query: " + root.query.typeName && lines[|lines| - 1] == "}"
      && (root.mutation.Some? ==> lines[2] == "  mutation: " + root.mutation.value.typeName)
  {
    var d := DirectiveLines(root);
    forall i | 0 <= i < |d| ensures '\n' !in d[i] {
    }
    AppendLinesSplit(d, "}");
  }

  /** One `scalar` declaration per name. */
  function ScalarSections(names: seq<string>): (r: seq<string>)
    ensures |r| == |names|
    ensures forall i :: 0 <= i < |names| ==> r[i] == "scalar " + names[i]
  {
    seq(|names|, i requires 0 <= i < |names| => "scalar " + names[i])
  }

  function RootBlock(r: RootTypeDefinition): string
  {
    BlockText("type", r.typeName, RootFieldTexts(r.fields))
  }

  /** An object type's block, named by the type's own name. */
  function ObjectBlock(t: GatewayObjectType): string
  {
    BlockText("type", t.name, ObjectFieldTexts(t.fields))
  }

  function InputBlock(t: GatewayInputObjectType): string
  {
    BlockText("input", t.name, InputFieldTexts(t.inputFields))
  }

  /** The blocks of the registry's object types among `names`, in order; a name
      the registry does not hold is dropped. */
  function ObjectSections(registry: GatewayTypeRegistry, names: seq<string>): seq<string>
  {
    if |names| == 0 then []
    else
      var n := names[|names| - 1];
      ObjectSections(registry, names[..|names| - 1])
        + (if n in registry.objectTypes then [ObjectBlock(registry.objectTypes[n])] else [])
  }

  function InputSections(registry: GatewayTypeRegistry, names: seq<string>): seq<string>
  {
    if |names| == 0 then []
    else
      var n := names[|names| - 1];
      InputSections(registry, names[..|names| - 1])
        + (if n in registry.inputObjectTypes then [InputBlock(registry.inputObjectTypes[n])] else [])
  }

  /** Enum blocks are named by their registry key, the registry holding no other name for them. */
  function EnumSections(registry: GatewayTypeRegistry, names: seq<string>): seq<string>
  {
    if |names| == 0 then []
    else
      var n := names[|names| - 1];
      EnumSections(registry, names[..|names| - 1])
        + (if n in registry.enumTypes then [BlockText("enum", n, registry.enumTypes[n])] else [])
  }

  /** The sections of the SDL, in order: the directive, the custom scalars, the
      query type, the mutation type, then the reached object, input-object and
      enum types, each group sorted by name. */
  function Sections(root: GatewayRootSchema, registry: GatewayTypeRegistry, m: Marks): seq<string>
  {
    [SchemaDirective(root)]
      + ScalarSections(Sort(m.scalars, LexLe))
      + [RootBlock(root.query)]
      + (if root.mutation.Some? then [RootBlock(root.mutation.value)] else [])
      + ObjectSections(registry, Sort(m.objects, LexLe))
      + InputSections(registry, Sort(m.inputs, LexLe))
      + EnumSections(registry, Sort(m.enums, LexLe))
  }

  /** The loop adding one `scalar` declaration per name. */
  method AppendScalarSections(sections: seq<string>, names: seq<string>) returns (r: seq<string>)
    ensures r == sections + ScalarSections(names)
  {
    r := sections;
    for i := 0 to |names|
      invariant r == sections + ScalarSections(names[..i])
    {
      assert ScalarSections(names[..i + 1]) == ScalarSections(names[..i]) + ["scalar " + names[i]];
      r := r + ["scalar " + names[i]];
    }
    assert names[..|names|] == names;
  }

  /** The loop adding the block of each registry object type among `names`. */
  method AppendObjectSections(registry: GatewayTypeRegistry, sections: seq<string>, names: seq<string>) returns (r: seq<string>)
    ensures r == sections + ObjectSections(registry, names)
  {
    r := sections;
    for i := 0 to |names|
      invariant r == sections + ObjectSections(registry, names[..i])
    {
      assert names[..i + 1][..i] == names[..i];
      if names[i] in registry.objectTypes {
        var objectType := registry.objectTypes[names[i]];
        var text := RenderObjectType("type", objectType.name, ObjectFieldTexts(objectType.fields));
        r := r + [text];
      } else {
        assert r + [] == r;
      }
    }
    assert names[..|names|] == names;
  }

  /** The loop adding the block of each registry input object type among `names`. */
  method AppendInputSections(registry: GatewayTypeRegistry, sections: seq<string>, names: seq<string>) returns (r: seq<string>)
    ensures r == sections + InputSections(registry, names)
  {
    r := sections;
    for i := 0 to |names|
      invariant r == sections + InputSections(registry, names[..i])
    {
      assert names[..i + 1][..i] == names[..i];
      if names[i] in registry.inputObjectTypes {
        var inputType := registry.inputObjectTypes[names[i]];
        var text := RenderObjectType("input", inputType.name, InputFieldTexts(inputType.inputFields));
        r := r + [text];
      } else {
        assert r + [] == r;
      }
    }
    assert names[..|names|] == names;
  }

  /** The loop adding the block of each registry enum type among `names`. */
  method AppendEnumSections(registry: GatewayTypeRegistry, sections: seq<string>, names: seq<string>) returns (r: seq<string>)
    ensures r == sections + EnumSections(registry, names)
  {
    r := sections;
    for i := 0 to |names|
      invariant r == sections + EnumSections(registry, names[..i])
    {
      assert names[..i + 1][..i] == names[..i];
      if names[i] in registry.enumTypes {
        var text := RenderEnumType(names[i], registry.enumTypes[names[i]]);
        r := r + [text];
      } else {
        assert r + [] == r;
      }
    }
    assert names[..|names|] == names;
  }

  /** The section-building half of `compose`: appends the sections one by one. */
  method RenderSections(root: GatewayRootSchema, registry: GatewayTypeRegistry, m: Marks) returns (sections: seq<string>)
    ensures sections == Sections(root, registry, m)
  {
    sections := AppendScalarSections([SchemaDirective(root)], Sort(m.scalars, LexLe));
    var queryText := RenderObjectType("type", root.query.typeName, RootFieldTexts(root.query.fields));
    sections := sections + [queryText];
    if root.mutation.Some? {
      var mutationText := RenderObjectType("type", root.mutation.value.typeName, RootFieldTexts(root.mutation.value.fields));
      sections := sections + [mutationText];
    } else {
      assert sections + [] == sections;
    }
    sections := AppendObjectSections(registry, sections, Sort(m.objects, LexLe));
    sections := AppendInputSections(registry, sections, Sort(m.inputs, LexLe));
    sections := AppendEnumSections(registry, sections, Sort(m.enums, LexLe));
  }

  /** `compose`: the reachable types, and the SDL sections joined by blank lines. */
  method Compose(root: GatewayRootSchema, registry: GatewayTypeRegistry) returns (composed: ComposedSchema, ghost m: Marks)
    ensures Reached(registry, root, m)
    ensures composed == ComposedSchema(Join(Sections(root, registry, m), "\n\n"), m.objects, m.inputs)
  {
    var marks := Reach(root, registry);
    m := marks;
    var sections := RenderSections(root, registry, marks);
    composed := ComposedSchema(Join(sections, "\n\n"), marks.objects, marks.inputs);
  }

  // ---------------------------------------------------------------------
  // Properties of the sections
  // ---------------------------------------------------------------------

  lemma NameOrder()
    ensures TotalPreorder(LexLe)
  {
    forall a, b ensures LexLe(a, b) || LexLe(b, a) {
      LexLeTotal(a, b);
    }
    forall a, b, c | LexLe(a, b) && LexLe(b, c) ensures LexLe(a, c) {
      LexLeTransitive(a, b, c);
    }
  }

  /** `sorted()` on names: the same names, as many, in lexicographic order. */
  lemma SortedNames(names: seq<string>)
    ensures |Sort(names, LexLe)| == |names|
    ensures forall n :: n in Sort(names, LexLe) <==> n in names
    ensures forall i, j :: 0 <= i < j < |names| ==> LexLe(Sort(names, LexLe)[i], Sort(names, LexLe)[j])
  {
    NameOrder();
    SortPermutes(names, LexLe);
    SortMembers(names, LexLe);
    SortSorted(names, LexLe);
  }

  /** For names the registry holds, dropping unknown names drops nothing: one
      block per name, in the names' order. */
  lemma {:induction false} ObjectSectionsComplete(registry: GatewayTypeRegistry, names: seq<string>)
    requires forall n :: n in names ==> n in registry.objectTypes
    ensures |ObjectSections(registry, names)| == |names|
    ensures forall i :: 0 <= i < |names| ==> ObjectSections(registry, names)[i] == ObjectBlock(registry.objectTypes[names[i]])
  {
    if |names| > 0 {
      ObjectSectionsComplete(registry, names[..|names| - 1]);
    }
  }

  lemma {:induction false} InputSectionsComplete(registry: GatewayTypeRegistry, names: seq<string>)
    requires forall n :: n in names ==> n in registry.inputObjectTypes
    ensures |InputSections(registry, names)| == |names|
    ensures forall i :: 0 <= i < |names| ==> InputSections(registry, names)[i] == InputBlock(registry.inputObjectTypes[names[i]])
  {
    if |names| > 0 {
      InputSectionsComplete(registry, names[..|names| - 1]);
    }
  }

  lemma {:induction false} EnumSectionsComplete(registry: GatewayTypeRegistry, names: seq<string>)
    requires forall n :: n in names ==> n in registry.enumTypes
    ensures |EnumSections(registry, names)| == |names|
    ensures forall i :: 0 <= i < |names| ==> EnumSections(registry, names)[i] == BlockText("enum", names[i], registry.enumTypes[names[i]])
  {
    if |names| > 0 {
      EnumSectionsComplete(registry, names[..|names| - 1]);
    }
  }

  /** Every reached type and custom scalar gets exactly one section, besides the
      directive and the one or two root types. */
  lemma SectionCount(root: GatewayRootSchema, registry: GatewayTypeRegistry, m: Marks)
    requires MarksValid(registry, m)
    ensures |Sections(root, registry, m)|
         == 2 + (if root.mutation.Some? then 1 else 0) + |m.scalars| + |m.objects| + |m.inputs| + |m.enums|
  {
    SortedNames(m.scalars);
    SortedNames(m.objects);
    SortedNames(m.inputs);
    SortedNames(m.enums);
    ObjectSectionsComplete(registry, Sort(m.objects, LexLe));
    InputSectionsComplete(registry, Sort(m.inputs, LexLe));
    EnumSectionsComplete(registry, Sort(m.enums, LexLe));
  }

  /** A name occurs at most once in a sequence without repetition. */
  lemma {:induction false} DistinctCount(s: seq<string>, x: string)
    requires Distinct(s)
    ensures multiset(s)[x] <= 1
  {
    if |s| > 0 {
      var init := s[..|s| - 1];
      assert s == init + [s[|s| - 1]];
      assert Distinct(init) by {
        forall i, j | 0 <= i < j < |init| ensures init[i] != init[j] {
          assert init[i] == s[i] && init[j] == s[j];
        }
      }
      DistinctCount(init, x);
      if s[|s| - 1] == x {
        forall k | 0 <= k < |init| ensures init[k] != x {
          assert init[k] == s[k];
        }
      }
    }
  }

  /** Rearranging a sequence without repetition repeats nothing. */
  lemma DistinctPermutation(a: seq<string>, b: seq<string>)
    requires Distinct(a) && multiset(a) == multiset(b)
    ensures Distinct(b)
  {
    forall i, j | 0 <= i < j < |b| ensures b[i] != b[j] {
      if b[i] == b[j] {
        assert b == b[..j] + b[j..];
        assert b[i] in b[..j] && b[j] in b[j..];
        assert multiset(b)[b[i]] == multiset(b[..j])[b[i]] + multiset(b[j..])[b[i]];
        DistinctCount(a, b[i]);
      }
    }
  }

  /** The scalar declarations of the SDL follow the directive: one `scalar`
      line for each custom scalar named from the roots or a reached type, each
      once, in name order; the built-in scalars get none. */
  lemma ScalarSectionsReached(registry: GatewayTypeRegistry, root: GatewayRootSchema, m: Marks)
    requires Reached(registry, root, m)
    requires InputsNameNoObject(registry)
    ensures var named := RootRefs(root) + ObjectExpansion(registry, m.objects) + InputExpansion(registry, m.inputs);
      var names := Sort(m.scalars, LexLe);
      && |Sections(root, registry, m)| > |names|
      && (forall i :: 0 <= i < |names| ==> Sections(root, registry, m)[1 + i] == "scalar " + names[i])
      && (forall n :: n in names <==> n in CustomScalars(named))
      && (forall n :: n in names ==> !IsBuiltInScalar(n))
      && Distinct(names)
      && (forall i, j :: 0 <= i < j < |names| ==> LexLe(names[i], names[j]))
  {
    ReachedScalars(registry, root, m);
    ScalarSectionsAt(root, registry, m);
    SortedNames(m.scalars);
    SortPermutes(m.scalars, LexLe);
    DistinctPermutation(m.scalars, Sort(m.scalars, LexLe));
  }

  /** The reached scalars are the custom scalars the roots and reached types name. */
  lemma ReachedScalars(registry: GatewayTypeRegistry, root: GatewayRootSchema, m: Marks)
    requires Reached(registry, root, m)
    requires InputsNameNoObject(registry)
    ensures Distinct(m.scalars)
    ensures forall n :: n in m.scalars <==> n in CustomScalars(RootRefs(root) + ObjectExpansion(registry, m.objects) + InputExpansion(registry, m.inputs))
  {
    forall n ensures n in m.scalars <==> n in CustomScalars(RootRefs(root) + ObjectExpansion(registry, m.objects) + InputExpansion(registry, m.inputs)) {
      ReachedExactly(registry, root, m, n);
    }
  }

  /** The sections after the directive start with the scalar declarations. */
  lemma ScalarSectionsAt(root: GatewayRootSchema, registry: GatewayTypeRegistry, m: Marks)
    ensures |Sections(root, registry, m)| > |Sort(m.scalars, LexLe)|
    ensures forall i :: 0 <= i < |Sort(m.scalars, LexLe)| ==>
      Sections(root, registry, m)[1 + i] == "scalar " + Sort(m.scalars, LexLe)[i]
  {
    var head := [SchemaDirective(root)] + ScalarSections(Sort(m.scalars, LexLe));
    assert Sections(root, registry, m)[..|head|] == head;
  }
}
