/** The statement list of the generated Resource.UpdateIdValues method.

    Every assembly handed to the build is scanned for the Resource types that
    the Xamarin.Android build tasks generate. Each nested resource class that
    declares fields becomes one JNI FindClass of the matching aapt R inner
    class, followed by one JNI field read per field. A field that is neither
    Int32 nor Int32[] aborts the whole generation.

    Two specifications are given. AssembliesStatements follows the loops of
    the source, level by level. UpdateIdValues works in two stages:
    Contributions filters and flattens the (type, nested type) pairs that
    produce statements, and Emit turns that flat list into statements.
    AssembliesMatch proves the two agree, the properties of the generator
    are proved on the flat form, and GenerateResourceDesigner is the nested
    loop that appends to a sequence of statements. */
module ResourceDesigner {
  import opened Text
  import opened Naming

  // ---------------------------------------------------------------------
  // Metadata of the loaded assemblies, as the reflection layer shows it
  // ---------------------------------------------------------------------

  /** A custom attribute: its type's full name and its constructor
      arguments, each already converted to its string form. */
  datatype CustomAttribute = CustomAttribute(attributeType: string, constructorArguments: seq<string>)

  /** A declared field: its name and the full name of its type. */
  datatype Field = Field(name: string, fieldType: string)

  /** A nested type of a Resource class, such as Resource.Id or Resource.Attribute. */
  datatype NestedType = NestedType(name: string, fullName: string, fields: seq<Field>)

  /** A type defined by an assembly. */
  datatype TypeDef = TypeDef(
    name: string,
    fullName: string,
    customAttributes: seq<CustomAttribute>,
    nestedTypes: seq<NestedType>)

  datatype Assembly = Assembly(definedTypes: seq<TypeDef>)

  // ---------------------------------------------------------------------
  // Generated statements and the generation error
  // ---------------------------------------------------------------------

  /** The two JNI helpers of the generated Resource class. */
  datatype Reader = ReadFieldInt | ReadFieldArray

  datatype Statement =
    /** IntPtr R; */
    | DeclareR
    /** R = JNIEnv.FindClass("{packageName}.R${innerClass}") */
    | FindClass(packageName: string, innerClass: string)
    /** {target} = {reader}(R, "{javaName}") */
    | Assign(target: string, reader: Reader, javaName: string)

  /** The exceptions that abort the generation. UnsupportedFieldType is the
      source's own "not supported for Resource fields" exception, carrying
      the field type and the member it names; EmptyFieldName is the index
      failure of ToJavaName on a field whose name is empty. */
  datatype DesignerError =
    | UnsupportedFieldType(fieldType: string, member: string)
    | EmptyFieldName(member: string)

  datatype Result<T> = Success(value: T) | Failure(error: DesignerError)

  /** Run a, then b; the first failure wins and stops the run. */
  function Then(a: Result<seq<Statement>>, b: Result<seq<Statement>>): Result<seq<Statement>> {
    if a.Failure? then a else if b.Failure? then b else Success(a.value + b.value)
  }

  const GENERATED_CODE_ATTRIBUTE := "System.CodeDom.Compiler.GeneratedCodeAttribute"
  const BUILD_TASKS_TOOL := "Xamarin.Android.Build.Tasks"
  const INT32 := "System.Int32"
  const INT32_ARRAY := "System.Int32[]"

  // ---------------------------------------------------------------------
  // Which types contribute
  // ---------------------------------------------------------------------

  /** [GeneratedCode("Xamarin.Android.Build.Tasks", ...)] */
  predicate IsBuildTasksMarker(a: CustomAttribute) {
    a.attributeType == GENERATED_CODE_ATTRIBUTE &&
    |a.constructorArguments| > 0 &&
    a.constructorArguments[0] == BUILD_TASKS_TOOL
  }

  /** A Resource class generated by the Xamarin.Android build tasks. */
  predicate IsGeneratedResource(t: TypeDef) {
    t.name == "Resource" &&
    exists a :: a in t.customAttributes && IsBuildTasksMarker(a)
  }

  // ---------------------------------------------------------------------
  // Statements of one field
  // ---------------------------------------------------------------------

  /** A field the generator can read: an Int32 or Int32[] field whose name
      ToJavaName accepts. */
  predicate IsSupportedField(f: Field) {
    (f.fieldType == INT32 || f.fieldType == INT32_ARRAY) && |f.name| > 0
  }

  predicate AllSupported(fields: seq<Field>) {
    forall q :: 0 <= q < |fields| ==> IsSupportedField(fields[q])
  }

  /** fields[q] is the first field the generator cannot read. */
  predicate FirstUnsupported(fields: seq<Field>, q: int) {
    0 <= q < |fields| && !IsSupportedField(fields[q]) && AllSupported(fields[..q])
  }

  /** The assignment of one field, or the exception it raises: the field
      type is tested first, then the name is renamed for Java. */
  function FieldStatement(owner: TypeDef, nested: NestedType, f: Field): (r: Result<Statement>)
    ensures r.Success? <==> IsSupportedField(f)
    ensures r.Success? ==>
      r.value.Assign? &&
      r.value.target == owner.fullName + "." + nested.name + "." + f.name &&
      (r.value.reader == ReadFieldInt <==> f.fieldType == INT32) &&
      r.value.javaName == ToJavaName(f.name)
    ensures r.Failure? ==>
      r.error == if f.fieldType == INT32 || f.fieldType == INT32_ARRAY
                 then EmptyFieldName(nested.fullName + "." + f.name)
                 else UnsupportedFieldType(f.fieldType, nested.fullName + "." + f.name)
  {
    var target := owner.fullName + "." + nested.name + "." + f.name;
    var member := nested.fullName + "." + f.name;
    if f.fieldType == INT32 then
      if |f.name| == 0 then Failure(EmptyFieldName(member))
      else Success(Assign(target, ReadFieldInt, ToJavaName(f.name)))
    else if f.fieldType == INT32_ARRAY then
      if |f.name| == 0 then Failure(EmptyFieldName(member))
      else Success(Assign(target, ReadFieldArray, ToJavaName(f.name)))
    else
      Failure(UnsupportedFieldType(f.fieldType, member))
  }

  function Single(r: Result<Statement>): Result<seq<Statement>> {
    match r
    case Success(s) => Success([s])
    case Failure(e) => Failure(e)
  }

  // ---------------------------------------------------------------------
  // The statements, level by level as the loops produce them
  // ---------------------------------------------------------------------

  /** The assignments of a list of fields. */
  function FieldStatements(owner: TypeDef, nested: NestedType, fields: seq<Field>): (r: Result<seq<Statement>>)
    ensures r.Success? ==> |r.value| == |fields|
  {
    if |fields| == 0 then Success([])
    else Then(Single(FieldStatement(owner, nested, fields[0])), FieldStatements(owner, nested, fields[1..]))
  }

  /** A nested type of a type, in the order the statements are produced. */
  datatype Contribution = Contribution(owner: TypeDef, nested: NestedType)

  /** The statements of one nested type with fields: the FindClass of its
      R inner class, then the assignments of its fields. */
  function Block(packageName: string, c: Contribution): (r: Result<seq<Statement>>)
    ensures r.Success? ==> |r.value| == 1 + |c.nested.fields|
  {
    Then(Success([FindClass(packageName, InnerClassName(c.nested.name))]),
         FieldStatements(c.owner, c.nested, c.nested.fields))
  }

  /** A nested type without fields adds nothing. */
  function NestedTypeStatements(packageName: string, owner: TypeDef, nested: NestedType): Result<seq<Statement>> {
    if |nested.fields| > 0 then Block(packageName, Contribution(owner, nested)) else Success([])
  }

  function NestedTypesStatements(packageName: string, owner: TypeDef, nestedTypes: seq<NestedType>): Result<seq<Statement>> {
    if |nestedTypes| == 0 then Success([])
    else Then(NestedTypeStatements(packageName, owner, nestedTypes[0]),
              NestedTypesStatements(packageName, owner, nestedTypes[1..]))
  }

  /** Only a generated Resource class adds statements. */
  function TypeStatements(packageName: string, t: TypeDef): Result<seq<Statement>> {
    if IsGeneratedResource(t) then NestedTypesStatements(packageName, t, t.nestedTypes) else Success([])
  }

  function TypesStatements(packageName: string, types: seq<TypeDef>): Result<seq<Statement>> {
    if |types| == 0 then Success([])
    else Then(TypeStatements(packageName, types[0]), TypesStatements(packageName, types[1..]))
  }

  function AssembliesStatements(packageName: string, assemblies: seq<Assembly>): Result<seq<Statement>> {
    if |assemblies| == 0 then Success([])
    else Then(TypesStatements(packageName, assemblies[0].definedTypes),
              AssembliesStatements(packageName, assemblies[1..]))
  }

  // ---------------------------------------------------------------------
  // The same statements in two stages: filter, then emit
  // ---------------------------------------------------------------------

  /** What qualifies a pair for statements, wherever its owner is defined. */
  predicate Contributes(c: Contribution) {
    IsGeneratedResource(c.owner) && c.nested in c.owner.nestedTypes && |c.nested.fields| > 0
  }

  /** The nested types of owner that declare at least one field. */
  function NestedContributions(owner: TypeDef, nestedTypes: seq<NestedType>): (r: seq<Contribution>)
    ensures |r| <= |nestedTypes|
  {
    if |nestedTypes| == 0 then []
    else
      (if |nestedTypes[0].fields| > 0 then [Contribution(owner, nestedTypes[0])] else []) +
      NestedContributions(owner, nestedTypes[1..])
  }

  function TypeContributions(t: TypeDef): seq<Contribution> {
    if IsGeneratedResource(t) then NestedContributions(t, t.nestedTypes) else []
  }

  function TypesContributions(types: seq<TypeDef>): seq<Contribution> {
    if |types| == 0 then [] else TypeContributions(types[0]) + TypesContributions(types[1..])
  }

  /** Every pair that yields statements, assembly by assembly, type by type,
      nested type by nested type. */
  function Contributions(assemblies: seq<Assembly>): seq<Contribution> {
    if |assemblies| == 0 then []
    else TypesContributions(assemblies[0].definedTypes) + Contributions(assemblies[1..])
  }

  /** Number of statements a list of contributions yields. */
  function StatementCount(cs: seq<Contribution>): nat {
    if |cs| == 0 then 0 else 1 + |cs[0].nested.fields| + StatementCount(cs[1..])
  }

  /** The statements of a flat list of contributions, block after block. */
  function Emit(packageName: string, cs: seq<Contribution>): (r: Result<seq<Statement>>)
    ensures r.Success? ==> |r.value| == StatementCount(cs)
  {
    if |cs| == 0 then Success([]) else Then(Block(packageName, cs[0]), Emit(packageName, cs[1..]))
  }

  /** The statement list of UpdateIdValues: the declaration of R, then the
      blocks of every contribution. */
  function UpdateIdValues(packageName: string, assemblies: seq<Assembly>): (r: Result<seq<Statement>>)
    ensures r.Success? ==> |r.value| > 0 && r.value[0] == DeclareR
  {
    Then(Success([DeclareR]), Emit(packageName, Contributions(assemblies)))
  }

  // ---------------------------------------------------------------------
  // The generator, as the source writes it
  // ---------------------------------------------------------------------

  /** The statement-building loops of GenerateResourceDesigner: they append
      to the UpdateIdValues statements and stop at the first field they
      cannot read. Each loop keeps "what is built, followed by everything
      still to build, is the final result". The loops over the types, the
      nested types and the fields are AppendTypes, AppendNestedTypes and
      AppendBlock. */
  method GenerateResourceDesigner(assemblies: seq<Assembly>, packageName: string)
    returns (r: Result<seq<Statement>>)
    ensures r == UpdateIdValues(packageName, assemblies)
  {
    AssembliesMatch(packageName, assemblies);
    ghost var result := UpdateIdValues(packageName, assemblies);
    var statements := [DeclareR];
    var i := 0;
    while i < |assemblies|
      invariant 0 <= i <= |assemblies|
      invariant Then(Success(statements), AssembliesStatements(packageName, assemblies[i..])) == result
    {
      assert assemblies[i..][1..] == assemblies[i + 1..];
      ThenAssociative(Success(statements), TypesStatements(packageName, assemblies[i].definedTypes),
                      AssembliesStatements(packageName, assemblies[i + 1..]));
      var appended := AppendTypes(statements, packageName, assemblies[i].definedTypes);
      if appended.Failure? {
        return appended;
      }
      statements := appended.value;
      i := i + 1;
    }
    assert assemblies[i..] == [];
    assert statements + [] == statements;
    return Success(statements);
  }

  /** The loop over the types an assembly defines: only a generated
      Resource class adds statements. */
  method AppendTypes(statements: seq<Statement>, packageName: string, types: seq<TypeDef>)
    returns (r: Result<seq<Statement>>)
    ensures r == Then(Success(statements), TypesStatements(packageName, types))
  {
    ghost var result := Then(Success(statements), TypesStatements(packageName, types));
    assert types[0..] == types;
    var built := statements;
    var j := 0;
    while j < |types|
      invariant 0 <= j <= |types|
      invariant Then(Success(built), TypesStatements(packageName, types[j..])) == result
    {
      var t := types[j];
      assert types[j..][1..] == types[j + 1..];
      ThenAssociative(Success(built), TypeStatements(packageName, t), TypesStatements(packageName, types[j + 1..]));
      if IsGeneratedResource(t) {
        var appended := AppendNestedTypes(built, packageName, t);
        if appended.Failure? {
          return appended;
        }
        built := appended.value;
      } else {
        assert built + [] == built;
      }
      j := j + 1;
    }
    assert types[j..] == [];
    assert built + [] == built;
    return Success(built);
  }

  /** The loop over the nested types of a generated Resource class: each one
      with fields adds its block. */
  method AppendNestedTypes(statements: seq<Statement>, packageName: string, t: TypeDef)
    returns (r: Result<seq<Statement>>)
    ensures r == Then(Success(statements), NestedTypesStatements(packageName, t, t.nestedTypes))
  {
    ghost var result := Then(Success(statements), NestedTypesStatements(packageName, t, t.nestedTypes));
    assert t.nestedTypes[0..] == t.nestedTypes;
    var built := statements;
    var k := 0;
    while k < |t.nestedTypes|
      invariant 0 <= k <= |t.nestedTypes|
      invariant Then(Success(built), NestedTypesStatements(packageName, t, t.nestedTypes[k..])) == result
    {
      var nested := t.nestedTypes[k];
      assert t.nestedTypes[k..][1..] == t.nestedTypes[k + 1..];
      ThenAssociative(Success(built), NestedTypeStatements(packageName, t, nested),
                      NestedTypesStatements(packageName, t, t.nestedTypes[k + 1..]));
      if |nested.fields| > 0 {
        var block := AppendBlock(built, packageName, t, nested);
        if block.Failure? {
          return block;
        }
        built := block.value;
      } else {
        assert built + [] == built;
      }
      k := k + 1;
    }
    assert t.nestedTypes[k..] == [];
    assert built + [] == built;
    return Success(built);
  }

  /** The body of the loop over one nested type with fields: the FindClass
      of its R inner class, then one assignment per field, the reader chosen
      by the field's type. */
  method AppendBlock(statements: seq<Statement>, packageName: string, t: TypeDef, nested: NestedType)
    returns (r: Result<seq<Statement>>)
    ensures r == Then(Success(statements), Block(packageName, Contribution(t, nested)))
  {
    ghost var result := Then(Success(statements), Block(packageName, Contribution(t, nested)));
    ThenJoin(statements, [FindClass(packageName, InnerClassName(nested.name))], FieldStatements(t, nested, nested.fields));
    assert nested.fields[0..] == nested.fields;
    var built := statements + [FindClass(packageName, InnerClassName(nested.name))];
    var l := 0;
    while l < |nested.fields|
      invariant 0 <= l <= |nested.fields|
      invariant Then(Success(built), FieldStatements(t, nested, nested.fields[l..])) == result
    {
      var field := nested.fields[l];
      assert nested.fields[l..][1..] == nested.fields[l + 1..];
      var target := t.fullName + "." + nested.name + "." + field.name;
      var reader: Reader;
      if field.fieldType == INT32 {
        reader := ReadFieldInt;
      } else if field.fieldType == INT32_ARRAY {
        reader := ReadFieldArray;
      } else {
        return Failure(UnsupportedFieldType(field.fieldType, nested.fullName + "." + field.name));
      }
      if |field.name| == 0 {
        return Failure(EmptyFieldName(nested.fullName + "." + field.name));
      }
      ThenJoin(built, [Assign(target, reader, ToJavaName(field.name))], FieldStatements(t, nested, nested.fields[l + 1..]));
      built := built + [Assign(target, reader, ToJavaName(field.name))];
      l := l + 1;
    }
    assert nested.fields[l..] == [];
    assert built + [] == built;
    return Success(built);
  }

  // ---------------------------------------------------------------------
  // The two specifications agree
  // ---------------------------------------------------------------------

  lemma ThenJoin(x: seq<Statement>, y: seq<Statement>, c: Result<seq<Statement>>)
    ensures Then(Success(x), Then(Success(y), c)) == Then(Success(x + y), c)
  {
    if c.Success? {
      assert x + (y + c.value) == x + y + c.value;
    }
  }

  lemma ThenAssociative(a: Result<seq<Statement>>, b: Result<seq<Statement>>, c: Result<seq<Statement>>)
    ensures Then(Then(a, b), c) == Then(a, Then(b, c))
  {
    if a.Success? && b.Success? && c.Success? {
      assert a.value + b.value + c.value == a.value + (b.value + c.value);
    }
  }

  /** Emitting a concatenation is emitting one part, then the other. */
  lemma {:induction false} EmitAppend(packageName: string, a: seq<Contribution>, b: seq<Contribution>)
    ensures Emit(packageName, a + b) == Then(Emit(packageName, a), Emit(packageName, b))
    decreases |a|
  {
    if |a| == 0 {
      assert a + b == b;
      if Emit(packageName, b).Success? {
        assert [] + Emit(packageName, b).value == Emit(packageName, b).value;
      }
    } else {
      assert (a + b)[1..] == a[1..] + b;
      EmitAppend(packageName, a[1..], b);
      ThenAssociative(Block(packageName, a[0]), Emit(packageName, a[1..]), Emit(packageName, b));
    }
  }

  lemma {:induction false} NestedTypesMatch(packageName: string, owner: TypeDef, nestedTypes: seq<NestedType>)
    ensures NestedTypesStatements(packageName, owner, nestedTypes) == Emit(packageName, NestedContributions(owner, nestedTypes))
    decreases |nestedTypes|
  {
    if |nestedTypes| > 0 {
      var first := if |nestedTypes[0].fields| > 0 then [Contribution(owner, nestedTypes[0])] else [];
      NestedTypesMatch(packageName, owner, nestedTypes[1..]);
      EmitAppend(packageName, first, NestedContributions(owner, nestedTypes[1..]));
      if |first| > 0 {
        assert first[1..] == [];
      }
    }
  }

  lemma {:induction false} TypesMatch(packageName: string, types: seq<TypeDef>)
    ensures TypesStatements(packageName, types) == Emit(packageName, TypesContributions(types))
    decreases |types|
  {
    if |types| > 0 {
      TypesMatch(packageName, types[1..]);
      NestedTypesMatch(packageName, types[0], types[0].nestedTypes);
      EmitAppend(packageName, TypeContributions(types[0]), TypesContributions(types[1..]));
    }
  }

  /** The loop-shaped specification and the filter-then-emit one agree. */
  lemma {:induction false} AssembliesMatch(packageName: string, assemblies: seq<Assembly>)
    ensures AssembliesStatements(packageName, assemblies) == Emit(packageName, Contributions(assemblies))
    decreases |assemblies|
  {
    if |assemblies| > 0 {
      AssembliesMatch(packageName, assemblies[1..]);
      TypesMatch(packageName, assemblies[0].definedTypes);
      EmitAppend(packageName, TypesContributions(assemblies[0].definedTypes), Contributions(assemblies[1..]));
    }
  }

  // ---------------------------------------------------------------------
  // The fields of one nested type
  // ---------------------------------------------------------------------

  /** The assignments are generated exactly when every field can be read. */
  lemma {:induction false} FieldStatementsSucceed(owner: TypeDef, nested: NestedType, fields: seq<Field>)
    ensures FieldStatements(owner, nested, fields).Success? <==> AllSupported(fields)
    decreases |fields|
  {
    if |fields| > 0 {
      FieldStatementsSucceed(owner, nested, fields[1..]);
      assert AllSupported(fields) <==> IsSupportedField(fields[0]) && AllSupported(fields[1..]) by {
        if IsSupportedField(fields[0]) && AllSupported(fields[1..]) {
          forall q | 0 <= q < |fields| ensures IsSupportedField(fields[q]) {
            if q > 0 {
              assert fields[q] == fields[1..][q - 1];
            }
          }
        }
      }
    }
  }

  /** The q-th assignment is the one FieldStatement gives the q-th field. */
  lemma {:induction false} FieldStatementsLayout(owner: TypeDef, nested: NestedType, fields: seq<Field>)
    requires FieldStatements(owner, nested, fields).Success?
    ensures forall q :: 0 <= q < |fields| ==>
      FieldStatement(owner, nested, fields[q]) == Success(FieldStatements(owner, nested, fields).value[q])
    decreases |fields|
  {
    if |fields| > 0 {
      var rest := FieldStatements(owner, nested, fields[1..]);
      FieldStatementsLayout(owner, nested, fields[1..]);
      var all := FieldStatements(owner, nested, fields).value;
      forall q | 0 <= q < |fields|
        ensures FieldStatement(owner, nested, fields[q]) == Success(all[q])
      {
        if q > 0 {
          assert fields[q] == fields[1..][q - 1];
          assert all[q] == rest.value[q - 1];
        }
      }
    }
  }

  /** A failure is the exception of the first field that cannot be read. */
  lemma {:induction false} FieldStatementsFailure(owner: TypeDef, nested: NestedType, fields: seq<Field>)
    requires FieldStatements(owner, nested, fields).Failure?
    ensures exists q :: (FirstUnsupported(fields, q) &&
      FieldStatements(owner, nested, fields).error == FieldStatement(owner, nested, fields[q]).error)
    decreases |fields|
  {
    var r := FieldStatements(owner, nested, fields);
    if IsSupportedField(fields[0]) {
      var tail := fields[1..];
      FieldStatementsFailure(owner, nested, tail);
      var q :| FirstUnsupported(tail, q) &&
        FieldStatements(owner, nested, tail).error == FieldStatement(owner, nested, tail[q]).error;
      assert fields[q + 1] == tail[q];
      var prefix := fields[..q + 1];
      assert AllSupported(prefix) by {
        forall k | 0 <= k < |prefix| ensures IsSupportedField(prefix[k]) {
          if k > 0 {
            assert prefix[k] == tail[..q][k - 1];
          }
        }
      }
      assert FirstUnsupported(fields, q + 1);
    } else {
      assert FirstUnsupported(fields, 0);
    }
  }

  /** A block opens with the FindClass of the nested type's R inner class,
      followed by the assignments of its fields in order. */
  lemma BlockLayout(packageName: string, c: Contribution)
    requires Block(packageName, c).Success?
    ensures Block(packageName, c).value[0] == FindClass(packageName, InnerClassName(c.nested.name))
    ensures forall q :: 0 <= q < |c.nested.fields| ==>
      FieldStatement(c.owner, c.nested, c.nested.fields[q]) == Success(Block(packageName, c).value[1 + q])
  {
    FieldStatementsLayout(c.owner, c.nested, c.nested.fields);
  }

  // ---------------------------------------------------------------------
  // A flat list of contributions
  // ---------------------------------------------------------------------

  lemma {:induction false} EmitSucceeds(packageName: string, cs: seq<Contribution>)
    ensures Emit(packageName, cs).Success? <==>
      forall p :: 0 <= p < |cs| ==> AllSupported(cs[p].nested.fields)
    decreases |cs|
  {
    if |cs| > 0 {
      EmitSucceeds(packageName, cs[1..]);
      FieldStatementsSucceed(cs[0].owner, cs[0].nested, cs[0].nested.fields);
      if AllSupported(cs[0].nested.fields) && Emit(packageName, cs[1..]).Success? {
        forall p | 0 <= p < |cs| ensures AllSupported(cs[p].nested.fields) {
          if p > 0 {
            assert cs[p] == cs[1..][p - 1];
          }
        }
      }
    }
  }

  /** Emitting a list around its p-th contribution. */
  lemma EmitSplit(packageName: string, cs: seq<Contribution>, p: int)
    requires 0 <= p < |cs|
    ensures Emit(packageName, cs) ==
      Then(Emit(packageName, cs[..p]), Then(Block(packageName, cs[p]), Emit(packageName, cs[p + 1..])))
  {
    assert cs == cs[..p] + ([cs[p]] + cs[p + 1..]);
    EmitAppend(packageName, cs[..p], [cs[p]] + cs[p + 1..]);
    assert ([cs[p]] + cs[p + 1..])[1..] == cs[p + 1..];
  }

  lemma SliceMiddle<T>(x: seq<T>, y: seq<T>, z: seq<T>)
    ensures (x + y + z)[|x|..|x| + |y|] == y
  {
  }

  /** The block of the p-th contribution sits right after the statements of
      the contributions before it. */
  lemma EmitBlockAt(packageName: string, cs: seq<Contribution>, p: int)
    requires Emit(packageName, cs).Success?
    requires 0 <= p < |cs|
    ensures Block(packageName, cs[p]).Success?
    ensures var start := StatementCount(cs[..p]);
      start + 1 + |cs[p].nested.fields| <= |Emit(packageName, cs).value| &&
      Emit(packageName, cs).value[start..start + 1 + |cs[p].nested.fields|] == Block(packageName, cs[p]).value
  {
    EmitSplit(packageName, cs, p);
    var before := Emit(packageName, cs[..p]);
    var block := Block(packageName, cs[p]);
    var after := Emit(packageName, cs[p + 1..]);
    assert Emit(packageName, cs).value == before.value + block.value + after.value;
    SliceMiddle(before.value, block.value, after.value);
  }

  /** A failure is the failure of the first block that cannot be built. */
  lemma {:induction false} EmitFailure(packageName: string, cs: seq<Contribution>)
    requires Emit(packageName, cs).Failure?
    ensures exists p :: (0 <= p < |cs| && Block(packageName, cs[p]).Failure? &&
      (forall p' :: 0 <= p' < p ==> Block(packageName, cs[p']).Success?) &&
      Emit(packageName, cs).error == Block(packageName, cs[p]).error)
    decreases |cs|
  {
    if Block(packageName, cs[0]).Success? {
      var tail := cs[1..];
      EmitFailure(packageName, tail);
      var p :| 0 <= p < |tail| && Block(packageName, tail[p]).Failure? &&
        (forall p' :: 0 <= p' < p ==> Block(packageName, tail[p']).Success?) &&
        Emit(packageName, tail).error == Block(packageName, tail[p]).error;
      assert cs[p + 1] == tail[p];
      forall p' | 0 <= p' < p + 1 ensures Block(packageName, cs[p']).Success? {
        if p' > 0 {
          assert cs[p'] == tail[p' - 1];
        }
      }
    }
  }

  // ---------------------------------------------------------------------
  // Which pairs contribute
  // ---------------------------------------------------------------------

  lemma {:induction false} NestedContributionsMembership(owner: TypeDef, nestedTypes: seq<NestedType>, c: Contribution)
    ensures c in NestedContributions(owner, nestedTypes) <==>
      c.owner == owner && c.nested in nestedTypes && |c.nested.fields| > 0
    decreases |nestedTypes|
  {
    if |nestedTypes| > 0 {
      NestedContributionsMembership(owner, nestedTypes[1..], c);
      assert nestedTypes == [nestedTypes[0]] + nestedTypes[1..];
    }
  }

  lemma {:induction false} TypesContributionsMembership(types: seq<TypeDef>, c: Contribution)
    ensures c in TypesContributions(types) <==> c.owner in types && Contributes(c)
    decreases |types|
  {
    if |types| > 0 {
      TypesContributionsMembership(types[1..], c);
      NestedContributionsMembership(types[0], types[0].nestedTypes, c);
      assert types == [types[0]] + types[1..];
    }
  }

  /** A pair yields statements exactly when its owner is a generated
      Resource class defined by one of the assemblies and the nested type
      is one of the owner's and declares a field. */
  lemma {:induction false} ContributionsMembership(assemblies: seq<Assembly>, c: Contribution)
    ensures c in Contributions(assemblies) <==>
      Contributes(c) && exists a :: a in assemblies && c.owner in a.definedTypes
    decreases |assemblies|
  {
    if |assemblies| > 0 {
      ContributionsMembership(assemblies[1..], c);
      TypesContributionsMembership(assemblies[0].definedTypes, c);
      assert assemblies == [assemblies[0]] + assemblies[1..];
      assert assemblies[0] in assemblies;
      if Contributes(c) && exists a :: a in assemblies && c.owner in a.definedTypes {
        var a :| a in assemblies && c.owner in a.definedTypes;
        if a != assemblies[0] {
          assert a in assemblies[1..];
        }
      }
    }
  }

  // ---------------------------------------------------------------------
  // The statement list of UpdateIdValues
  // ---------------------------------------------------------------------

  /** The generation succeeds exactly when every field of every nested type
      of every generated Resource class is an Int32 or Int32[] field with a
      name. */
  lemma UpdateIdValuesSucceeds(packageName: string, assemblies: seq<Assembly>)
    ensures UpdateIdValues(packageName, assemblies).Success? <==>
      forall a, t, n :: a in assemblies && t in a.definedTypes && IsGeneratedResource(t) && n in t.nestedTypes
        ==> AllSupported(n.fields)
  {
    var cs := Contributions(assemblies);
    EmitSucceeds(packageName, cs);
    if UpdateIdValues(packageName, assemblies).Success? {
      forall a, t, n | a in assemblies && t in a.definedTypes && IsGeneratedResource(t) && n in t.nestedTypes
        ensures AllSupported(n.fields)
      {
        if |n.fields| > 0 {
          ContributionsMembership(assemblies, Contribution(t, n));
          var p :| 0 <= p < |cs| && cs[p] == Contribution(t, n);
        }
      }
    } else {
      var p :| 0 <= p < |cs| && !AllSupported(cs[p].nested.fields);
      ContributionsMembership(assemblies, cs[p]);
    }
  }

  /** The list is R's declaration followed by one block per contribution,
      in order: the block of the p-th contribution (laid out as BlockLayout
      states) starts right after the statements of those before it. */
  lemma UpdateIdValuesLayout(packageName: string, assemblies: seq<Assembly>, p: int)
    requires UpdateIdValues(packageName, assemblies).Success?
    requires 0 <= p < |Contributions(assemblies)|
    ensures var cs := Contributions(assemblies);
      var start := 1 + StatementCount(cs[..p]);
      var statements := UpdateIdValues(packageName, assemblies).value;
      |statements| == 1 + StatementCount(cs) &&
      Block(packageName, cs[p]).Success? &&
      start + 1 + |cs[p].nested.fields| <= |statements| &&
      statements[start..start + 1 + |cs[p].nested.fields|] == Block(packageName, cs[p]).value
  {
    var cs := Contributions(assemblies);
    var emitted := Emit(packageName, cs);
    EmitBlockAt(packageName, cs, p);
    var start := StatementCount(cs[..p]);
    var end := start + 1 + |cs[p].nested.fields|;
    SliceAfterHead(DeclareR, emitted.value, start, end);
  }

  lemma SliceAfterHead<T>(x: T, s: seq<T>, i: int, j: int)
    requires 0 <= i <= j <= |s|
    ensures ([x] + s)[1 + i..1 + j] == s[i..j]
  {
    assert ([x] + s)[1..] == s;
  }

  /** fields[q] of cs[p] is the first field the generator cannot read, and
      e is the exception it raises. */
  predicate FailsAt(cs: seq<Contribution>, p: int, q: int, e: DesignerError) {
    0 <= p < |cs| &&
    (forall p' :: 0 <= p' < p ==> AllSupported(cs[p'].nested.fields)) &&
    FirstUnsupported(cs[p].nested.fields, q) &&
    e == FieldStatement(cs[p].owner, cs[p].nested, cs[p].nested.fields[q]).error
  }

  /** In a flat list, a failure is the exception of the first field that
      cannot be read, in the first contribution that has one. */
  lemma EmitFirstUnsupported(packageName: string, cs: seq<Contribution>)
    requires Emit(packageName, cs).Failure?
    ensures exists p, q :: FailsAt(cs, p, q, Emit(packageName, cs).error)
  {
    EmitFailure(packageName, cs);
    var p :| 0 <= p < |cs| && Block(packageName, cs[p]).Failure? &&
      (forall p' :: 0 <= p' < p ==> Block(packageName, cs[p']).Success?) &&
      Emit(packageName, cs).error == Block(packageName, cs[p]).error;
    forall p' | 0 <= p' < p ensures AllSupported(cs[p'].nested.fields) {
      FieldStatementsSucceed(cs[p'].owner, cs[p'].nested, cs[p'].nested.fields);
    }
    var c := cs[p];
    FieldStatementsFailure(c.owner, c.nested, c.nested.fields);
    var q :| FirstUnsupported(c.nested.fields, q) &&
      FieldStatements(c.owner, c.nested, c.nested.fields).error == FieldStatement(c.owner, c.nested, c.nested.fields[q]).error;
    assert FailsAt(cs, p, q, Emit(packageName, cs).error);
  }

  /** A failure is the exception of the first field that cannot be read, in
      the first contribution that has one. */
  lemma UpdateIdValuesFailure(packageName: string, assemblies: seq<Assembly>)
    requires UpdateIdValues(packageName, assemblies).Failure?
    ensures exists p, q :: FailsAt(Contributions(assemblies), p, q, UpdateIdValues(packageName, assemblies).error)
  {
    EmitFirstUnsupported(packageName, Contributions(assemblies));
  }

  /** Without a generated Resource class the method only declares R. */
  lemma NoGeneratedResourceOnlyDeclares(packageName: string, assemblies: seq<Assembly>)
    requires forall a, t :: a in assemblies && t in a.definedTypes ==> !IsGeneratedResource(t)
    ensures UpdateIdValues(packageName, assemblies) == Success([DeclareR])
  {
    var cs := Contributions(assemblies);
    if |cs| > 0 {
      ContributionsMembership(assemblies, cs[0]);
    }
    assert [DeclareR] + [] == [DeclareR];
  }
}
