/** The name-mangling rules of the Xamarin.Android build shim: the Java name
    aapt gives a resource field, the Android package name derived from the
    main assembly, the R inner class a nested resource type maps to, and the
    trailing-separator normalisation of the MSBuild directory. */
module Naming {
  import opened Text

  // ---------------------------------------------------------------------
  // Java names of resource fields
  // ---------------------------------------------------------------------

  /** How aapt renames a resource field for Java: the first character is
      kept and the rest is lower-cased. Indexing name[0] fails on the empty
      string, so callers must pass a non-empty name. */
  function ToJavaName(name: string): (r: string)
    requires |name| > 0
    ensures |r| == |name| && r[0] == name[0]
    ensures forall i :: 1 <= i < |name| ==> r[i] == LowerChar(name[i])
    ensures NoUpper(r[1..])
  {
    [name[0]] + Lower(name[1..])
  }

  /** Renaming a renamed field changes nothing more. */
  lemma ToJavaNameIdempotent(name: string)
    requires |name| > 0
    ensures ToJavaName(ToJavaName(name)) == ToJavaName(name)
  {
    var once := ToJavaName(name);
    var twice := ToJavaName(once);
    forall i | 0 <= i < |name| ensures twice[i] == once[i] {
      if i > 0 {
        assert !IsUpper(once[i]);
      }
    }
  }

  /** A field keeps its name exactly when no character after the first is
      an upper-case letter (the "Theme_hello" case of the source's notes). */
  lemma ToJavaNameFixedPoint(name: string)
    requires |name| > 0
    ensures ToJavaName(name) == name <==> NoUpper(name[1..])
  {
    var r := ToJavaName(name);
    if r == name {
      assert NoUpper(r[1..]);
    } else {
      var i :| 0 <= i < |name| && r[i] != name[i];
      assert name[1..][i - 1] == name[i];
    }
  }

  /** An inner capital is lowered: the source's "customView" note. */
  lemma ToJavaNameCustomView(name: string)
    requires name == "customView"
    ensures ToJavaName(name) == "customview"
  {
    var r := ToJavaName(name);
    assert r[0] == 'c' && r[1] == 'u' && r[2] == 's' && r[3] == 't' && r[4] == 'o';
    assert r[5] == 'm' && r[6] == 'v' && r[7] == 'i' && r[8] == 'e' && r[9] == 'w';
  }

  /** A leading capital is kept: the source's "Theme" and "Theme_hello" notes. */
  lemma ToJavaNameTheme(name: string)
    requires name == "Theme" || name == "Theme_hello"
    ensures ToJavaName(name) == name
  {
    var r := ToJavaName(name);
    assert forall i :: 0 <= i < |name| ==> r[i] == name[i];
  }

  // ---------------------------------------------------------------------
  // Android package name of the main assembly
  // ---------------------------------------------------------------------

  /** "com." + the assembly's base name with '-' replaced by '_' + "_dll". */
  function PackageName(baseName: string): (r: string)
    ensures |r| == |baseName| + 8
    ensures r[..4] == "com." && r[|r| - 4..] == "_dll"
    ensures forall i :: 0 <= i < |baseName| ==>
      r[4 + i] == (if baseName[i] == '-' then '_' else baseName[i])
    ensures '-' !in r[4..|r| - 4]
  {
    var r := "com." + ReplaceChar(baseName, '-', '_') + "_dll";
    assert r[4..|r| - 4] == ReplaceChar(baseName, '-', '_');
    ReplaceCharRemoves(baseName, '-', '_');
    r
  }

  /** The base name between the prefix and the suffix, for a base name
      without dashes: the package name gives the base name back. */
  lemma PackageNameMiddle(baseName: string)
    requires '-' !in baseName
    ensures PackageName(baseName)[4..|baseName| + 4] == baseName
  {
    var r := PackageName(baseName);
    forall i | 0 <= i < |baseName| ensures r[4..|baseName| + 4][i] == baseName[i] {
      assert baseName[i] in baseName;
    }
  }

  /** Two assemblies without dashes in their names never share a package. */
  lemma PackageNameInjective(a: string, b: string)
    requires '-' !in a && '-' !in b
    requires PackageName(a) == PackageName(b)
    ensures a == b
  {
    PackageNameMiddle(a);
    PackageNameMiddle(b);
  }

  /** '-' and '_' are not told apart: "my-lib" and "my_lib" share a package. */
  lemma PackageNameMergesDash()
    ensures PackageName("my-lib") == PackageName("my_lib")
  {
    var a, b := PackageName("my-lib"), PackageName("my_lib");
    forall i | 0 <= i < |a| ensures a[i] == b[i] {
      if 4 <= i < 10 {
        assert a[4 + (i - 4)] == b[4 + (i - 4)];
      } else if i < 4 {
        assert a[..4][i] == b[..4][i];
      } else {
        assert a[|a| - 4..][i - 10] == b[|b| - 4..][i - 10];
      }
    }
  }

  // ---------------------------------------------------------------------
  // R inner class of a nested resource type
  // ---------------------------------------------------------------------

  /** The C# designer calls the attribute class "Attribute"; aapt calls it
      "attr". Every other nested type maps to its lower-case name. */
  function InnerClassName(nestedName: string): (r: string)
    ensures NoUpper(r)
    ensures nestedName == "Attribute" ==> r == "attr"
    ensures nestedName != "Attribute" ==>
      |r| == |nestedName| && forall i :: 0 <= i < |r| ==> r[i] == LowerChar(nestedName[i])
  {
    if nestedName == "Attribute" then "attr" else Lower(nestedName)
  }

  /** Mapping an inner-class name again leaves it as it is. */
  lemma InnerClassNameIdempotent(nestedName: string)
    ensures InnerClassName(InnerClassName(nestedName)) == InnerClassName(nestedName)
  {
    var r := InnerClassName(nestedName);
    assert |r| == 0 || !IsUpper(r[0]);
    LowerFixedPoint(r);
  }

  /** Names that differ only in the case of their letters map to the same
      inner class, unless one of them is exactly "Attribute". */
  lemma InnerClassNameIgnoresCase(a: string, b: string)
    requires a != "Attribute" && b != "Attribute"
    requires Lower(a) == Lower(b)
    ensures InnerClassName(a) == InnerClassName(b)
  {
  }

  // ---------------------------------------------------------------------
  // Normalised MSBuild directory
  // ---------------------------------------------------------------------

  /** A path that does not already end with the directory separator
      (compared ordinally, ignoring case) gets one appended. */
  function WithTrailingSeparator(path: string, separator: char): (r: string)
    ensures |r| > 0 && EqualsIgnoreCase(r[|r| - 1], separator)
    ensures r == path || r == path + [separator]
    ensures EndsWithIgnoreCase(path, [separator]) ==> r == path
  {
    if EndsWithIgnoreCase(path, [separator]) then
      assert EqualsIgnoreCase(path[|path| - |[separator]| + 0], [separator][0]);
      path
    else
      path + [separator]
  }

  /** The separators .NET uses are not letters, so there the result ends
      with the separator itself. */
  lemma WithTrailingSeparatorEndsWith(path: string, separator: char)
    requires !IsUpper(separator) && !IsLower(separator)
    ensures var r := WithTrailingSeparator(path, separator); r[|r| - 1] == separator
  {
    assert UpperChar(separator) == separator;
  }

  /** Normalising a normalised path changes nothing. */
  lemma WithTrailingSeparatorIdempotent(path: string, separator: char)
    ensures WithTrailingSeparator(WithTrailingSeparator(path, separator), separator)
         == WithTrailingSeparator(path, separator)
  {
    var r := WithTrailingSeparator(path, separator);
    assert EndsWithIgnoreCase(r, [separator]) by {
      assert r[|r| - 1 + 0] == r[|r| - 1];
    }
  }

  /** The MSBuild directory computed at the start of CreateProject, from the
      combined Xamarin.Android path and the platform's separator. */
  method CreateProjectMsBuildPath(combinedPath: string, separator: char) returns (msBuildPath: string)
    ensures msBuildPath == WithTrailingSeparator(combinedPath, separator)
  {
    msBuildPath := combinedPath;
    if !EndsWithIgnoreCase(msBuildPath, [separator]) {
      msBuildPath := msBuildPath + [separator];
    }
  }
}
