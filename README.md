# Xamarin.Android build shim: naming rules, resource designer, manifest

This project models the deterministic core of the build shim in
`binder/Utils/XamarinAndroidBuild.cs`. The shim packages a .NET assembly for
Android through the Xamarin.Android toolchain. Most of the file drives
MSBuild, CodeDom and the Android SDK. Inside that glue sits a small amount of
string and list logic, and that logic is what the model covers:

- **Naming rules** (module `Naming`, with the character helpers of `Text`):
  - how aapt renames a resource field for Java (`ToJavaName`);
  - the Android package name derived from the main assembly;
  - the R inner class of a nested resource type;
  - the trailing directory separator added to the MSBuild path in `CreateProject`.
- **Resource designer** (module `ResourceDesigner`): the statements of the
  generated `Resource.UpdateIdValues` method.
  - The generator scans every assembly for the `Resource` classes that the
    Xamarin.Android build tasks generate.
  - Each nested type with fields becomes a JNI `FindClass` of its R inner
    class, followed by one `ReadFieldInt`/`ReadFieldArray` assignment per field.
  - A field of any other type aborts the generation with an exception. The
    model represents that exception as a `Failure`.
- **Manifest** (module `Manifest`): the `AndroidManifest.xml` text that
  `GenerateAndroidManifest` writes, as a function of the assembly name and the
  `includeProvider` flag.

The generator is imperative in the source: nested `foreach` loops append to a
statement collection and throw partway through. It is modelled as
`GenerateResourceDesigner`, with one method per loop level:
- `GenerateResourceDesigner`, over the assemblies;
- `AppendTypes`, over the types;
- `AppendNestedTypes`, over the nested types;
- `AppendBlock`, over the fields.

Each method is proved against a function. That function has two equal forms:
- `AssembliesStatements` follows the loops level by level;
- `UpdateIdValues` filters the contributing (type, nested type) pairs with
  `Contributions` and then emits their blocks with `Emit`.

`AssembliesMatch` proves the two forms equal. The properties of the generator
are proved on the flat form.

Case conversion (`ToLowerInvariant`, and the upper-casing behind
`OrdinalIgnoreCase`) is modelled on ASCII letters.

## Model

| member | source | states |
|---|---|---|
| Text.Lower | binder/Utils/XamarinAndroidBuild.cs:58 | `ToLowerInvariant`: same length, lowered character by character |
| Text.LowerIdempotent | binder/Utils/XamarinAndroidBuild.cs:58 | lowering twice is lowering once |
| Text.LowerFixedPoint | binder/Utils/XamarinAndroidBuild.cs:139 | a string is its own lower-case form iff it has no upper-case letter |
| Text.EndsWithIgnoreCase | binder/Utils/XamarinAndroidBuild.cs:25 | `EndsWith(..., OrdinalIgnoreCase)`: the last characters match the suffix ignoring case; an exact suffix always matches |
| Text.ReplaceChar | binder/Utils/XamarinAndroidBuild.cs:219 | `Replace('-', '_')`: same length, each `'-'` becomes `'_'` and every other character is kept |
| Text.ReplaceCharRemoves | binder/Utils/XamarinAndroidBuild.cs:219 | after the replacement the replaced character no longer occurs |
| Text.ReplaceCharAbsent | binder/Utils/XamarinAndroidBuild.cs:325 | replacing a character that does not occur changes nothing |
| Naming.ToJavaName | binder/Utils/XamarinAndroidBuild.cs:52-59 | needs a non-empty name; same length, first character unchanged, each later character lowered, and no upper-case letter after the first |
| Naming.ToJavaNameIdempotent | binder/Utils/XamarinAndroidBuild.cs:58 | renaming a renamed field changes nothing |
| Naming.ToJavaNameFixedPoint | binder/Utils/XamarinAndroidBuild.cs:52-59 | a name is kept iff no character after the first is upper-case |
| Naming.ToJavaNameCustomView | binder/Utils/XamarinAndroidBuild.cs:55 | `customView` becomes `customview` |
| Naming.ToJavaNameTheme | binder/Utils/XamarinAndroidBuild.cs:56-57 | `Theme` and `Theme_hello` are kept |
| Naming.PackageName | binder/Utils/XamarinAndroidBuild.cs:219 | starts with `com.`, ends with `_dll`, is 8 longer than the base name, has the base name with `'-'`→`'_'` in between, and no `'-'` in the middle (the same expression is at line 325) |
| Naming.PackageNameMiddle | binder/Utils/XamarinAndroidBuild.cs:325 | for a base name without `'-'`, the middle of the package name is the base name |
| Naming.PackageNameInjective | binder/Utils/XamarinAndroidBuild.cs:219 | two base names without `'-'` never share a package name |
| Naming.PackageNameMergesDash | binder/Utils/XamarinAndroidBuild.cs:219 | `my-lib` and `my_lib` share a package name |
| Naming.InnerClassName | binder/Utils/XamarinAndroidBuild.cs:139 | `Attribute` maps to `attr`; any other name maps to its lower-case form, character by character; the result has no upper-case letter |
| Naming.InnerClassNameIdempotent | binder/Utils/XamarinAndroidBuild.cs:139 | mapping an inner-class name again leaves it as it is |
| Naming.InnerClassNameIgnoresCase | binder/Utils/XamarinAndroidBuild.cs:139 | names other than `Attribute` that differ only in letter case map to the same inner class |
| Naming.WithTrailingSeparator | binder/Utils/XamarinAndroidBuild.cs:25-26 | the result ends with the separator (ignoring case), and is either the path or the path plus the separator; a path that already ends with it is returned unchanged |
| Naming.WithTrailingSeparatorEndsWith | binder/Utils/XamarinAndroidBuild.cs:25-26 | for a separator that is not a letter, the last character is the separator itself |
| Naming.WithTrailingSeparatorIdempotent | binder/Utils/XamarinAndroidBuild.cs:25-26 | normalising twice is normalising once |
| Naming.CreateProjectMsBuildPath | binder/Utils/XamarinAndroidBuild.cs:24-26 | the conditional reassignment of `msBuildPath` computes `WithTrailingSeparator` of the combined path |
| ResourceDesigner.IsBuildTasksMarker | binder/Utils/XamarinAndroidBuild.cs:130-133 | the attribute test of the filter: type `System.CodeDom.Compiler.GeneratedCodeAttribute`, at least one constructor argument, the first being `Xamarin.Android.Build.Tasks`; its consequences are stated by `ContributionsMembership` |
| ResourceDesigner.IsGeneratedResource | binder/Utils/XamarinAndroidBuild.cs:129-133 | a type named `Resource` carrying such an attribute; its consequences are stated by `ContributionsMembership` |
| ResourceDesigner.AssembliesStatements | binder/Utils/XamarinAndroidBuild.cs:125-164 | the loop-shaped reference for the statements after the declaration of `R`, level by level as the loops run; `AssembliesMatch` equates it with the flat form and `GenerateResourceDesigner` is proved against it |
| ResourceDesigner.Contributions | binder/Utils/XamarinAndroidBuild.cs:125-137 | the flat reference: the (type, nested type) pairs that yield statements, in loop order; `ContributionsMembership` states which pairs they are |
| ResourceDesigner.FieldStatement | binder/Utils/XamarinAndroidBuild.cs:146-158 | succeeds iff the field is `System.Int32` or `System.Int32[]` and has a name; the assignment's target is `type.FullName.nested.Name.field.Name`, its reader is `ReadFieldInt` exactly for `System.Int32`, and its Java name is `ToJavaName(field.Name)`; otherwise the error names the field type and `nested.FullName.field.Name` |
| ResourceDesigner.FieldStatements | binder/Utils/XamarinAndroidBuild.cs:144-160 | on success, one statement per field |
| ResourceDesigner.Block | binder/Utils/XamarinAndroidBuild.cs:139-160 | on success, one FindClass plus one statement per field |
| ResourceDesigner.Emit | binder/Utils/XamarinAndroidBuild.cs:135-162 | on success, `StatementCount` statements: one per contributing nested type plus one per field |
| ResourceDesigner.UpdateIdValues | binder/Utils/XamarinAndroidBuild.cs:123 | on success, the list opens with the declaration of `R` |
| ResourceDesigner.GenerateResourceDesigner | binder/Utils/XamarinAndroidBuild.cs:123-165 | the loops return exactly `UpdateIdValues`: the same statement list, or the same first exception |
| ResourceDesigner.AppendTypes | binder/Utils/XamarinAndroidBuild.cs:127-164 | the loop over an assembly's types appends exactly the statements of its generated Resource classes, or stops with their first exception |
| ResourceDesigner.AppendNestedTypes | binder/Utils/XamarinAndroidBuild.cs:135-162 | the loop over the nested types appends exactly their blocks, skipping nested types without fields |
| ResourceDesigner.AppendBlock | binder/Utils/XamarinAndroidBuild.cs:139-160 | appends the FindClass and the field assignments, choosing the reader by field type, or stops at the first unsupported field |
| ResourceDesigner.AssembliesMatch | binder/Utils/XamarinAndroidBuild.cs:125-165 | the loop-shaped statements equal the filter-then-emit statements |
| ResourceDesigner.NestedTypesMatch | binder/Utils/XamarinAndroidBuild.cs:135-162 | the same, for the nested types of one type |
| ResourceDesigner.TypesMatch | binder/Utils/XamarinAndroidBuild.cs:127-164 | the same, for the types of one assembly |
| ResourceDesigner.EmitAppend | binder/Utils/XamarinAndroidBuild.cs:125-165 | emitting a concatenation is emitting one part and then the other, the first failure winning |
| ResourceDesigner.FieldStatementsSucceed | binder/Utils/XamarinAndroidBuild.cs:147-158 | the assignments are generated iff every field is supported |
| ResourceDesigner.FieldStatementsLayout | binder/Utils/XamarinAndroidBuild.cs:144-159 | the q-th assignment is the one for the q-th field, in declaration order |
| ResourceDesigner.FieldStatementsFailure | binder/Utils/XamarinAndroidBuild.cs:155-158 | a failure is the error of the first unsupported field |
| ResourceDesigner.BlockLayout | binder/Utils/XamarinAndroidBuild.cs:139-159 | a block opens with `FindClass(pkg, InnerClassName(nested.Name))`, and entry 1+q is the q-th field's assignment |
| ResourceDesigner.EmitSucceeds | binder/Utils/XamarinAndroidBuild.cs:144-160 | a flat list of contributions emits iff all their fields are supported |
| ResourceDesigner.EmitSplit | binder/Utils/XamarinAndroidBuild.cs:135-162 | emitting a list is emitting the part before its p-th contribution, then that contribution's block, then the rest |
| ResourceDesigner.EmitBlockAt | binder/Utils/XamarinAndroidBuild.cs:135-162 | the p-th block sits right after the statements of the contributions before it |
| ResourceDesigner.EmitFailure | binder/Utils/XamarinAndroidBuild.cs:155-158 | a failure is the error of the first block that fails, all earlier blocks succeeding |
| ResourceDesigner.EmitFirstUnsupported | binder/Utils/XamarinAndroidBuild.cs:155-158 | a failure is the error of the first unsupported field of the first contribution that has one |
| ResourceDesigner.NestedContributionsMembership | binder/Utils/XamarinAndroidBuild.cs:135-137 | a nested type contributes iff it belongs to the type and has at least one field |
| ResourceDesigner.TypesContributionsMembership | binder/Utils/XamarinAndroidBuild.cs:127-137 | a pair contributes iff its owner is one of the types and is a generated Resource whose nested type has fields |
| ResourceDesigner.ContributionsMembership | binder/Utils/XamarinAndroidBuild.cs:125-137 | a pair yields statements iff its owner is named `Resource`, carries `GeneratedCodeAttribute("Xamarin.Android.Build.Tasks", ...)` and is defined by one of the assemblies, and its nested type is the owner's own and has fields |
| ResourceDesigner.UpdateIdValuesSucceeds | binder/Utils/XamarinAndroidBuild.cs:144-158 | the generation succeeds iff every field of every nested type of every generated Resource class is `System.Int32` or `System.Int32[]` with a name |
| ResourceDesigner.UpdateIdValuesLayout | binder/Utils/XamarinAndroidBuild.cs:123-160 | the list has 1 + `StatementCount` statements; the p-th contribution's block sits at 1 + the statement count of the contributions before it |
| ResourceDesigner.UpdateIdValuesFailure | binder/Utils/XamarinAndroidBuild.cs:155-158 | a failure is the exception of the first unsupported field, in the first contribution that has one |
| ResourceDesigner.NoGeneratedResourceOnlyDeclares | binder/Utils/XamarinAndroidBuild.cs:123-133 | with no generated Resource class, the list is only the declaration of `R` |
| Manifest.ManifestText | binder/Utils/XamarinAndroidBuild.cs:292-309 | the document of the template: it ends with `</manifest>` on a line of its own, with no final line break; its package, its provider slot and its tags are stated by the lemmas below |
| Manifest.ManifestSplices | binder/Utils/XamarinAndroidBuild.cs:301-309 | the document is the same text before and after the provider's slot, whatever the flag |
| Manifest.PackageAttributeNamesPackage | binder/Utils/XamarinAndroidBuild.cs:303 | the template's `package="com.{name}_dll"` is `package="` + `PackageName` of the assembly name + `"` |
| Manifest.ManifestPackage | binder/Utils/XamarinAndroidBuild.cs:294-303 | at a fixed offset on the second line, the document declares `package="` + `PackageName(assemblyName)` + `"` |
| Manifest.ManifestWithProvider | binder/Utils/XamarinAndroidBuild.cs:296-307 | with the flag set, the document contains the provider element |
| Manifest.ManifestWithoutProviderTags | binder/Utils/XamarinAndroidBuild.cs:301-309 | with the flag clear, and a name without `<`, every `<` in the document is followed by a character other than `p` |
| Manifest.ManifestHasProviderIff | binder/Utils/XamarinAndroidBuild.cs:295-309 | the document contains the `AndroidRuntimeProvider` element, and a `<provider` tag, iff `includeProvider` is set |

## Left out

- The MSBuild object model is not modelled (`ProjectRootElement`, targets, tasks, item groups, `project.Save`, lines 28-33, 208-287 and 318-375). It only serialises a fixed list of external tool invocations.
- CodeDom is not modelled: the construction of the `Resource` class and its `ReadField*` helpers (lines 63-121), and the in-process C# compilation (lines 167-196) are foreign compiler calls with file output. The statements of `UpdateIdValues` are a datatype; the C# text CodeDom would print for them is not modelled.
- IKVM reflection is replaced by datatypes (`Assembly`, `TypeDef`, `NestedType`, `Field`, `CustomAttribute`). Constructor arguments are given already converted to strings. The `NullReferenceException` that `Value.ToString()` throws for a null argument is not modelled.
- Android SDK queries, `Directory.CreateDirectory`, `Path.GetFullPath` and `File.WriteAllText` are I/O and are left out.
- `Path.Combine` and `Path.GetFileNameWithoutExtension` are platform path semantics. `Naming.PackageName` takes the base name as input, and `Naming.CreateProjectMsBuildPath` takes the combined path and the separator character as inputs.
- Text.Lower: models `ToLowerInvariant` on ASCII letters only; the invariant culture also lowers letters of other alphabets.
- Naming.WithTrailingSeparator: models the `OrdinalIgnoreCase` comparison by ASCII upper-casing; .NET also folds non-ASCII letters.
- ResourceDesigner.FieldStatement: the exception's message text is represented by its two parts, the field type and the member name, not by the formatted string.
- ResourceDesigner.FieldStatement: on an empty field name, `ToJavaName` throws `IndexOutOfRangeException` in the source. The model turns that into the `EmptyFieldName` error.
- Manifest.ManifestText: takes the name of `assemblies[0]` directly. An empty assembly list, which throws in the source, is not modelled, and neither is the default value `true` of `includeProvider`.
- Manifest.ManifestText: lines end with `"\n"`. The verbatim string in the source carries the line endings of the source file itself, which are not part of this model.
- Manifest.ManifestText: `int.MaxValue` is written as its decimal text, `2147483647`.
- Manifest.ManifestHasProviderIff: holds only for assembly names without `'<'`, because a name containing `<provider` would put that text in the document without the flag. Assembly names are not expected to contain `'<'`, but nothing in the source rules it out.
