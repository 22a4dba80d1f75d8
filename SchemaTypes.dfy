/** The schema vocabulary shared by every component: type kinds, type
    references with their SDL rendering, and the definition records that
    introspection produces. */
module SchemaTypes {
  import opened Wrappers

  /** The eight kinds of `__Type` in introspection results. */
  datatype TypeKind = Scalar | Object | Interface | Union | Enum | InputObject | List | NonNull

  /** The enum constant's name, as `kind.name` gives it. */
  function KindName(k: TypeKind): string
  {
    match k
    case Scalar => "SCALAR"
    case Object => "OBJECT"
    case Interface => "INTERFACE"
    case Union => "UNION"
    case Enum => "ENUM"
    case InputObject => "INPUT_OBJECT"
    case List => "LIST"
    case NonNull => "NON_NULL"
  }

  /** `GraphQLTypeKind.valueOf(s)`: the kind whose name is exactly `s`
      (case-sensitive); `None` where `valueOf` would throw. */
  function KindOf(s: string): (r: Option<TypeKind>)
    ensures r.Some? ==> KindName(r.value) == s
  {
    if s == "SCALAR" then Some(Scalar)
    else if s == "OBJECT" then Some(Object)
    else if s == "INTERFACE" then Some(Interface)
    else if s == "UNION" then Some(Union)
    else if s == "ENUM" then Some(Enum)
    else if s == "INPUT_OBJECT" then Some(InputObject)
    else if s == "LIST" then Some(List)
    else if s == "NON_NULL" then Some(NonNull)
    else None
  }

  /** Every kind is recognised by its own name, so `KindOf` and `KindName` are inverse. */
  lemma KindOfKindName(k: TypeKind)
    ensures KindOf(KindName(k)) == Some(k)
  {
  }

  predicate IsWrapper(k: TypeKind)
  {
    k == List || k == NonNull
  }

  /** A possibly wrapped reference to a named type. */
  datatype TypeRef = TypeRef(kind: TypeKind, name: Option<string>, ofType: Option<TypeRef>)

  /** The reference in SDL type syntax: `T!` for NON_NULL, `[T]` for LIST, the
      name otherwise (the kind's name when the name is missing); a wrapper
      without an inner type renders that inner type as `Unknown`. */
  function Render(t: TypeRef): string
  {
    match t.kind
    case NonNull => (if t.ofType.Some? then Render(t.ofType.value) else "Unknown") + "!"
    case List => "[" + (if t.ofType.Some? then Render(t.ofType.value) else "Unknown") + "]"
    case _ => if t.name.Some? then t.name.value else KindName(t.kind)
  }

  /** `name: Type`, an argument or an input-object field. */
  datatype InputValueDefinition = InputValueDefinition(name: string, typeRef: TypeRef)

  /** A field of an object type with its arguments in declaration order. */
  datatype FieldDefinition = FieldDefinition(name: string, typeRef: TypeRef, arguments: seq<InputValueDefinition>)

  /** One named type as one upstream describes it; enum values default to none. */
  datatype TypeDefinition = TypeDefinition(
    name: string,
    kind: TypeKind,
    fields: seq<FieldDefinition>,
    inputFields: seq<InputValueDefinition>,
    enumValues: seq<string> := [])

  /** An upstream GraphQL service from the configuration; a lower priority number wins. */
  datatype UpstreamService = UpstreamService(name: string, url: string, priority: int)

  // ---------------------------------------------------------------------
  // SDL type syntax (sections 2.11, 3.11 and 3.12 of the GraphQL
  // specification, October 2021) and the round trip of `Render`.
  // ---------------------------------------------------------------------

  /** Type syntax: a named type, `[Type]`, or `Type!`. */
  datatype TypeSyntax = NamedType(name: string) | ListType(inner: TypeSyntax) | NonNullType(inner: TypeSyntax)

  /** A GraphQL Name: a letter or `_`, then letters, digits or `_` (section 2.1.9 of the GraphQL specification). */
  predicate IsName(s: string)
  {
    && |s| > 0
    && (s[0] == '_' || 'a' <= s[0] <= 'z' || 'A' <= s[0] <= 'Z')
    && forall i :: 0 <= i < |s| ==> NameChar(s[i])
  }

  predicate NameChar(c: char)
  {
    c == '_' || 'a' <= c <= 'z' || 'A' <= c <= 'Z' || '0' <= c <= '9'
  }

  /** A reference as introspection of a valid schema yields it: wrappers carry an
      inner type, named types carry a valid name, and NON_NULL does not wrap NON_NULL. */
  predicate WellFormed(t: TypeRef)
  {
    if IsWrapper(t.kind) then
      && t.ofType.Some?
      && WellFormed(t.ofType.value)
      && (t.kind == NonNull ==> t.ofType.value.kind != NonNull)
    else
      t.name.Some? && IsName(t.name.value) && t.ofType.None?
  }

  /** The syntax a well-formed reference denotes. */
  function Syntax(t: TypeRef): TypeSyntax
    requires WellFormed(t)
  {
    match t.kind
    case NonNull => NonNullType(Syntax(t.ofType.value))
    case List => ListType(Syntax(t.ofType.value))
    case _ => NamedType(t.name.value)
  }

  /** Reads SDL type syntax back: a trailing `!` makes a non-null type (of a
      nullable type), enclosing brackets make a list type, a Name is a named type. */
  function ParseType(s: string): Option<TypeSyntax>
    decreases |s|
  {
    if |s| == 0 then None
    else if s[|s| - 1] == '!' then
      match ParseType(s[..|s| - 1])
      case Some(inner) => if inner.NonNullType? then None else Some(NonNullType(inner))
      case None => None
    else if s[0] == '[' && s[|s| - 1] == ']' && |s| >= 2 then
      match ParseType(s[1..|s| - 1])
      case Some(inner) => Some(ListType(inner))
      case None => None
    else if IsName(s) then Some(NamedType(s))
    else None
  }

  /** A well-formed reference renders to non-empty text. */
  lemma RenderNonEmpty(t: TypeRef)
    requires WellFormed(t)
    ensures |Render(t)| > 0
  {
  }

  /** Rendering loses nothing: parsing the rendered text of a well-formed
      reference gives back exactly the syntax it denotes. */
  lemma {:induction false} RenderParseRoundTrip(t: TypeRef)
    requires WellFormed(t)
    ensures ParseType(Render(t)) == Some(Syntax(t))
  {
    var s := Render(t);
    match t.kind
    case NonNull =>
      var inner := t.ofType.value;
      RenderParseRoundTrip(inner);
      RenderNonEmpty(inner);
      assert s[..|s| - 1] == Render(inner);
      assert Render(inner)[|Render(inner)| - 1] != '!' by {
        RenderLastChar(inner);
      }
    case List =>
      var inner := t.ofType.value;
      RenderParseRoundTrip(inner);
      assert s[1..|s| - 1] == Render(inner);
    case _ =>
      assert s == t.name.value;
      assert s[|s| - 1] != '!' && s[0] != '[';
  }

  /** The last character of a rendered reference that is not NON_NULL is not `!`. */
  lemma RenderLastChar(t: TypeRef)
    requires WellFormed(t) && t.kind != NonNull
    ensures |Render(t)| > 0 && Render(t)[|Render(t)| - 1] != '!'
  {
    if !IsWrapper(t.kind) {
      var n := t.name.value;
      assert NameChar(n[|n| - 1]);
    }
  }

  /** Distinct well-formed references with different syntax render differently. */
  lemma RenderInjective(t: TypeRef, u: TypeRef)
    requires WellFormed(t) && WellFormed(u)
    requires Render(t) == Render(u)
    ensures Syntax(t) == Syntax(u)
  {
    RenderParseRoundTrip(t);
    RenderParseRoundTrip(u);
  }

  /** The renderings the schema tests show. */
  lemma RenderExamples()
    ensures Render(TypeRef(NonNull, None, Some(TypeRef(InputObject, Some("StudentInput"), None)))) == "StudentInput!"
    ensures Render(TypeRef(List, None, Some(TypeRef(Object, Some("Student"), None)))) == "[Student]"
    ensures Render(TypeRef(NonNull, None, Some(TypeRef(List, None, Some(TypeRef(Object, Some("Student"), None)))))) == "[Student]!"
    ensures Render(TypeRef(NonNull, None, None)) == "Unknown!"
    ensures Render(TypeRef(Scalar, None, None)) == "SCALAR"
  {
  }
}
