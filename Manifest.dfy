/** The AndroidManifest.xml written for the main assembly of the build.

    The document is the source's template with two holes: the assembly's
    name, with '-' replaced by '_', and an optional provider element that
    starts the embedded Mono runtime. Lines end with "\n". Every tag is
    written as its own literal (such as "<manifest"), which keeps the
    proofs about tags small. */
module Manifest {
  import opened Text
  import opened Naming

  const MIN_SDK_VERSION := "9"
  const TARGET_SDK_VERSION := "25"

  /** int.MaxValue, the provider's initOrder, written in decimal. */
  const INT32_MAX_TEXT := "2147483647"

  const XML_DECLARATION := "<?xml" + " version=\"1.0\" encoding=\"utf-8\"?>"

  /** The opening of the manifest element, up to its package attribute. */
  const MANIFEST_START := "<manifest" + " xmlns:android=\"" + "http://schemas.android.com/" + "apk/res/android\" "

  const APPLICATION_OPEN := "    " + "<application" + ">"
  const APPLICATION_CLOSE := "    " + "</application" + ">"
  const MANIFEST_CLOSE := "</manifest" + ">"

  /** Where the provider element goes, on its own line. */
  const PROVIDER_INDENT := "        "

  /** package="com.{name}_dll" */
  function PackageAttribute(name: string): string {
    "package=\"com." + name + "_dll\""
  }

  function ManifestOpen(name: string): string {
    MANIFEST_START + PackageAttribute(name) + ">"
  }

  function UsesSdk(): string {
    "    " + "<uses-sdk" + " android:minSdkVersion=\"" + MIN_SDK_VERSION +
    "\" android:targetSdkVersion=\"" + TARGET_SDK_VERSION + "\" />"
  }

  function MetaData(name: string): string {
    "        " + "<meta-data" + " android:name=\"" + "mono.embeddinator.mainassembly\"" +
    " android:value=\"" + name + "\" />"
  }

  /** The provider that initialises the embedded runtime first. */
  function ProviderElement(): string {
    "<provider" + " android:name=\"mono.embeddinator.AndroidRuntimeProvider\"" +
    " android:exported=\"false\"" + " android:initOrder=\"" + INT32_MAX_TEXT + "\"" +
    " android:authorities=\"${applicationId}" + ".mono.embeddinator.AndroidRuntimeProvider" +
    ".__mono_init__\" />"
  }

  /** The provider element, or the empty string. */
  function Provider(includeProvider: bool): string {
    if includeProvider then ProviderElement() else ""
  }

  /** The whole document, for the main assembly's name. It ends with the
      closing manifest tag on a line of its own, without a final line break. */
  function ManifestText(assemblyName: string, includeProvider: bool): (r: string)
    ensures |MANIFEST_CLOSE| < |r|
    ensures r[|r| - |MANIFEST_CLOSE|..] == MANIFEST_CLOSE
    ensures r[|r| - |MANIFEST_CLOSE| - 1] == '\n'
  {
    var name := ReplaceChar(assemblyName, '-', '_');
    var body := XML_DECLARATION + "\n" +
      ManifestOpen(name) + "\n" +
      UsesSdk() + "\n" +
      APPLICATION_OPEN + "\n" +
      MetaData(name) + "\n" +
      PROVIDER_INDENT + Provider(includeProvider) + "\n" +
      APPLICATION_CLOSE + "\n";
    SuffixOf(body, MANIFEST_CLOSE);
    body + MANIFEST_CLOSE
  }

  /** b ends a + b, right after the last element of a. */
  lemma SuffixOf<T>(a: seq<T>, b: seq<T>)
    ensures (a + b)[|a|..] == b
    ensures |a| > 0 ==> (a + b)[|a| - 1] == a[|a| - 1]
  {
  }

  // ---------------------------------------------------------------------
  // The document around the provider's slot
  // ---------------------------------------------------------------------

  /** Everything before the provider's slot. */
  function BeforeProvider(assemblyName: string): string {
    var name := ReplaceChar(assemblyName, '-', '_');
    XML_DECLARATION + "\n" +
    ManifestOpen(name) + "\n" +
    UsesSdk() + "\n" +
    APPLICATION_OPEN + "\n" +
    MetaData(name) + "\n" +
    PROVIDER_INDENT
  }

  /** Everything after the provider's slot. */
  function AfterProvider(): string {
    "\n" + APPLICATION_CLOSE + "\n" + MANIFEST_CLOSE
  }

  /** The flag does nothing but fill the provider's slot: the two documents
      share everything before and after it. */
  lemma ManifestSplices(assemblyName: string, includeProvider: bool)
    ensures ManifestText(assemblyName, includeProvider) ==
      BeforeProvider(assemblyName) + Provider(includeProvider) + AfterProvider()
  {
  }

  // ---------------------------------------------------------------------
  // The package attribute
  // ---------------------------------------------------------------------

  /** Where the package attribute starts. */
  const PACKAGE_OFFSET := |XML_DECLARATION| + 1 + |MANIFEST_START|

  lemma SliceOfPrefix<T>(s: seq<T>, t: seq<T>, i: int, j: int)
    requires s <= t && 0 <= i <= j <= |s|
    ensures t[i..j] == s[i..j]
  {
  }

  lemma PrefixExtend<T>(a: seq<T>, b: seq<T>, c: seq<T>)
    requires a <= b
    ensures a <= b + c
  {
  }

  lemma MiddleOf<T>(a: seq<T>, b: seq<T>, c: seq<T>)
    ensures |a| + |b| <= |a + b + c|
    ensures (a + b + c)[|a|..|a| + |b|] == b
  {
  }

  /** The first two lines are a prefix of the document. */
  lemma HeadIsPrefix(assemblyName: string, includeProvider: bool)
    ensures var name := ReplaceChar(assemblyName, '-', '_');
      XML_DECLARATION + "\n" + ManifestOpen(name) <= ManifestText(assemblyName, includeProvider)
  {
    var name := ReplaceChar(assemblyName, '-', '_');
    var s := XML_DECLARATION + "\n" + ManifestOpen(name);
    var t := s + "\n";
    PrefixExtend(s, s, "\n");
    var u := t + UsesSdk();
    PrefixExtend(s, t, UsesSdk());
    var v := u + "\n";
    PrefixExtend(s, u, "\n");
    var w := v + APPLICATION_OPEN;
    PrefixExtend(s, v, APPLICATION_OPEN);
    var x := w + "\n";
    PrefixExtend(s, w, "\n");
    var y := x + MetaData(name);
    PrefixExtend(s, x, MetaData(name));
    var z := y + "\n";
    PrefixExtend(s, y, "\n");
    var before := z + PROVIDER_INDENT;
    PrefixExtend(s, z, PROVIDER_INDENT);
    assert before == BeforeProvider(assemblyName);
    PrefixExtend(s, before, Provider(includeProvider));
    PrefixExtend(s, before + Provider(includeProvider), AfterProvider());
    ManifestSplices(assemblyName, includeProvider);
  }

  lemma Regroup<T>(a: seq<T>, b: seq<T>, c: seq<T>, d: seq<T>)
    ensures a + (b + c + d) == a + b + c + d
  {
  }

  /** The attribute the template writes names the package of PackageName. */
  lemma PackageAttributeNamesPackage(assemblyName: string)
    ensures PackageAttribute(ReplaceChar(assemblyName, '-', '_')) == "package=\"" + PackageName(assemblyName) + "\""
  {
    var name := ReplaceChar(assemblyName, '-', '_');
    assert "package=\"com." == "package=\"" + "com.";
    assert "_dll\"" == "_dll" + "\"";
    assert PackageName(assemblyName) == "com." + name + "_dll";
    Regroup5("package=\"", "com.", name, "_dll", "\"");
  }

  lemma Regroup5<T>(a: seq<T>, b: seq<T>, c: seq<T>, d: seq<T>, e: seq<T>)
    ensures (a + b) + c + (d + e) == a + (b + c + d) + e
  {
  }

  /** The manifest declares the package the build derives from the same
      base name, whatever the flag. */
  lemma ManifestPackage(assemblyName: string, includeProvider: bool)
    ensures var text := ManifestText(assemblyName, includeProvider);
      var attribute := "package=\"" + PackageName(assemblyName) + "\"";
      PACKAGE_OFFSET + |attribute| <= |text| &&
      text[PACKAGE_OFFSET..PACKAGE_OFFSET + |attribute|] == attribute
  {
    var name := ReplaceChar(assemblyName, '-', '_');
    var attribute := PackageAttribute(name);
    PackageAttributeNamesPackage(assemblyName);
    var first := XML_DECLARATION + "\n";
    var head := first + ManifestOpen(name);
    Regroup(first, MANIFEST_START, attribute, ">");
    MiddleOf(first + MANIFEST_START, attribute, ">");
    HeadIsPrefix(assemblyName, includeProvider);
    SliceOfPrefix(head, ManifestText(assemblyName, includeProvider), PACKAGE_OFFSET, PACKAGE_OFFSET + |attribute|);
  }

  // ---------------------------------------------------------------------
  // The provider element appears exactly when asked for
  // ---------------------------------------------------------------------

  /** sub occurs in s. */
  predicate Contains(s: string, sub: string) {
    exists i :: 0 <= i <= |s| && sub <= s[i..]
  }

  /** Every '<' of s is followed by a character other than 'p': no tag of
      s can be a provider element. */
  predicate NoProviderTag(s: string) {
    forall i :: 0 <= i < |s| && s[i] == '<' ==> i + 1 < |s| && s[i + 1] != 'p'
  }

  lemma NoAngleNoProviderTag(s: string)
    requires '<' !in s
    ensures NoProviderTag(s)
  {
  }

  /** A tag that opens with "<" and a character other than 'p'. */
  lemma TagNoProviderTag(tag: string, rest: string)
    requires tag == "<" + rest
    requires |rest| > 0 && rest[0] != 'p' && '<' !in rest
    ensures NoProviderTag(tag)
  {
    assert forall i :: 0 < i < |tag| ==> tag[i] == rest[i - 1];
  }

  lemma AppendNoProviderTag(a: string, b: string)
    requires NoProviderTag(a) && NoProviderTag(b)
    ensures NoProviderTag(a + b)
  {
    var s := a + b;
    forall i | 0 <= i < |s| && s[i] == '<' ensures i + 1 < |s| && s[i + 1] != 'p' {
      if i >= |a| {
        assert s[i] == b[i - |a|];
      } else {
        assert s[i] == a[i];
      }
    }
  }

  lemma Append3NoProviderTag(a: string, b: string, c: string)
    requires NoProviderTag(a) && NoProviderTag(b) && NoProviderTag(c)
    ensures NoProviderTag(a + b + c)
  {
    AppendNoProviderTag(a, b);
    AppendNoProviderTag(a + b, c);
  }

  lemma OpensWith(t: string, tag: string)
    requires tag <= t && |tag| >= 2
    ensures t[0] == tag[0] && t[1] == tag[1]
  {
    assert t[..|tag|] == tag;
  }

  /** A provider element inside s opens a tag with "<p". */
  lemma ContainsProviderTag(s: string)
    requires Contains(s, "<provider")
    ensures !NoProviderTag(s)
  {
    var i :| 0 <= i <= |s| && "<provider" <= s[i..];
    OpensWith(s[i..], "<provider");
    assert s[i] == s[i..][0] && s[i + 1] == s[i..][1];
  }

  lemma NoProviderTagExcludes(s: string)
    requires NoProviderTag(s)
    ensures !Contains(s, "<provider")
  {
    if Contains(s, "<provider") {
      ContainsProviderTag(s);
    }
  }

  lemma ContainsMiddle(a: string, b: string, c: string)
    ensures Contains(a + b + c, b)
  {
    assert b <= (a + b + c)[|a|..];
  }

  /** What contains a string contains each of its prefixes. */
  lemma ContainsPrefix(s: string, sub: string, prefix: string)
    requires prefix <= sub
    ensures Contains(s, sub) ==> Contains(s, prefix)
  {
    if Contains(s, sub) {
      var i :| 0 <= i <= |s| && sub <= s[i..];
      assert prefix <= s[i..];
    }
  }

  lemma XmlDeclarationNoProviderTag()
    ensures NoProviderTag(XML_DECLARATION)
  {
    TagNoProviderTag("<?xml", "?xml");
    NoAngleNoProviderTag(" version=\"1.0\" encoding=\"utf-8\"?>");
    AppendNoProviderTag("<?xml", " version=\"1.0\" encoding=\"utf-8\"?>");
  }

  lemma ManifestStartNoProviderTag()
    ensures NoProviderTag(MANIFEST_START)
  {
    TagNoProviderTag("<manifest", "manifest");
    NoAngleNoProviderTag(" xmlns:android=\"");
    NoAngleNoProviderTag("http://schemas.android.com/");
    NoAngleNoProviderTag("apk/res/android\" ");
    Append3NoProviderTag("<manifest", " xmlns:android=\"", "http://schemas.android.com/");
    AppendNoProviderTag("<manifest" + " xmlns:android=\"" + "http://schemas.android.com/", "apk/res/android\" ");
  }

  lemma ManifestOpenNoProviderTag(name: string)
    requires '<' !in name
    ensures NoProviderTag(ManifestOpen(name))
  {
    ManifestStartNoProviderTag();
    NoAngleNoProviderTag("package=\"com.");
    NoAngleNoProviderTag(name);
    NoAngleNoProviderTag("_dll\"");
    Append3NoProviderTag("package=\"com.", name, "_dll\"");
    NoAngleNoProviderTag(">");
    Append3NoProviderTag(MANIFEST_START, PackageAttribute(name), ">");
  }

  /** "    <uses-sdk android:minSdkVersion=\"" */
  lemma UsesSdkHeadNoProviderTag()
    ensures NoProviderTag("    " + "<uses-sdk" + " android:minSdkVersion=\"")
  {
    TagNoProviderTag("<uses-sdk", "uses-sdk");
    NoAngleNoProviderTag("    ");
    NoAngleNoProviderTag(" android:minSdkVersion=\"");
    Append3NoProviderTag("    ", "<uses-sdk", " android:minSdkVersion=\"");
  }

  lemma UsesSdkNoProviderTag()
    ensures NoProviderTag(UsesSdk())
  {
    var head := "    " + "<uses-sdk" + " android:minSdkVersion=\"";
    UsesSdkHeadNoProviderTag();
    NoAngleNoProviderTag(MIN_SDK_VERSION);
    NoAngleNoProviderTag("\" android:targetSdkVersion=\"");
    Append3NoProviderTag(head, MIN_SDK_VERSION, "\" android:targetSdkVersion=\"");
    NoAngleNoProviderTag(TARGET_SDK_VERSION);
    NoAngleNoProviderTag("\" />");
    Append3NoProviderTag(head + MIN_SDK_VERSION + "\" android:targetSdkVersion=\"", TARGET_SDK_VERSION, "\" />");
  }

  /** "        <meta-data android:name=\"mono.embeddinator.mainassembly\"" */
  lemma MetaDataHeadNoProviderTag()
    ensures NoProviderTag("        " + "<meta-data" + " android:name=\"" + "mono.embeddinator.mainassembly\"")
  {
    TagNoProviderTag("<meta-data", "meta-data");
    NoAngleNoProviderTag("        ");
    NoAngleNoProviderTag(" android:name=\"");
    Append3NoProviderTag("        ", "<meta-data", " android:name=\"");
    NoAngleNoProviderTag("mono.embeddinator.mainassembly\"");
    AppendNoProviderTag("        " + "<meta-data" + " android:name=\"", "mono.embeddinator.mainassembly\"");
  }

  lemma MetaDataNoProviderTag(name: string)
    requires '<' !in name
    ensures NoProviderTag(MetaData(name))
  {
    var head := "        " + "<meta-data" + " android:name=\"" + "mono.embeddinator.mainassembly\"";
    MetaDataHeadNoProviderTag();
    NoAngleNoProviderTag(" android:value=\"");
    NoAngleNoProviderTag(name);
    Append3NoProviderTag(head, " android:value=\"", name);
    NoAngleNoProviderTag("\" />");
    AppendNoProviderTag(head + " android:value=\"" + name, "\" />");
  }

  lemma ApplicationOpenNoProviderTag()
    ensures NoProviderTag(APPLICATION_OPEN)
  {
    NoAngleNoProviderTag("    ");
    TagNoProviderTag("<application", "application");
    NoAngleNoProviderTag(">");
    Append3NoProviderTag("    ", "<application", ">");
  }

  lemma ClosingTagsNoProviderTag()
    ensures NoProviderTag(APPLICATION_CLOSE)
    ensures NoProviderTag(MANIFEST_CLOSE)
  {
    NoAngleNoProviderTag("    ");
    TagNoProviderTag("</application", "/application");
    NoAngleNoProviderTag(">");
    Append3NoProviderTag("    ", "</application", ">");
    TagNoProviderTag("</manifest", "/manifest");
    AppendNoProviderTag("</manifest", ">");
  }

  lemma AfterProviderNoProviderTag()
    ensures NoProviderTag(AfterProvider())
  {
    ClosingTagsNoProviderTag();
    NoAngleNoProviderTag("\n");
    Append3NoProviderTag("\n", APPLICATION_CLOSE, "\n");
    AppendNoProviderTag("\n" + APPLICATION_CLOSE + "\n", MANIFEST_CLOSE);
  }

  /** The name put in the document has no '<' when the assembly name has none. */
  lemma ReplacedNameNoAngle(assemblyName: string)
    requires '<' !in assemblyName
    ensures '<' !in ReplaceChar(assemblyName, '-', '_')
  {
    var name := ReplaceChar(assemblyName, '-', '_');
    forall i | 0 <= i < |name| ensures name[i] != '<' {
      assert assemblyName[i] in assemblyName;
    }
  }

  /** Before the provider's slot, given a name without '<', no tag is a
      provider. */
  lemma BeforeProviderNoProviderTag(assemblyName: string)
    requires '<' !in assemblyName
    ensures NoProviderTag(BeforeProvider(assemblyName))
  {
    var name := ReplaceChar(assemblyName, '-', '_');
    ReplacedNameNoAngle(assemblyName);
    XmlDeclarationNoProviderTag();
    ManifestOpenNoProviderTag(name);
    UsesSdkNoProviderTag();
    ApplicationOpenNoProviderTag();
    MetaDataNoProviderTag(name);
    NoAngleNoProviderTag("\n");
    NoAngleNoProviderTag(PROVIDER_INDENT);
    var s1 := XML_DECLARATION + "\n" + ManifestOpen(name);
    Append3NoProviderTag(XML_DECLARATION, "\n", ManifestOpen(name));
    var s2 := s1 + "\n" + UsesSdk();
    Append3NoProviderTag(s1, "\n", UsesSdk());
    var s3 := s2 + "\n" + APPLICATION_OPEN;
    Append3NoProviderTag(s2, "\n", APPLICATION_OPEN);
    var s4 := s3 + "\n" + MetaData(name);
    Append3NoProviderTag(s3, "\n", MetaData(name));
    Append3NoProviderTag(s4, "\n", PROVIDER_INDENT);
  }

  /** Without the provider, and for a name without '<', no tag of the
      document is a provider. */
  lemma ManifestWithoutProviderTags(assemblyName: string)
    requires '<' !in assemblyName
    ensures NoProviderTag(ManifestText(assemblyName, false))
  {
    ManifestSplices(assemblyName, false);
    BeforeProviderNoProviderTag(assemblyName);
    AfterProviderNoProviderTag();
    NoAngleNoProviderTag("");
    Append3NoProviderTag(BeforeProvider(assemblyName), "", AfterProvider());
  }

  /** With the flag set, the document holds the provider element. */
  lemma ManifestWithProvider(assemblyName: string)
    ensures Contains(ManifestText(assemblyName, true), ProviderElement())
  {
    ManifestSplices(assemblyName, true);
    ContainsMiddle(BeforeProvider(assemblyName), ProviderElement(), AfterProvider());
  }

  /** The provider element opens with the "<provider" tag. */
  lemma ProviderElementTag()
    ensures "<provider" <= ProviderElement()
  {
  }

  /** The AndroidRuntimeProvider element is in the document exactly when
      includeProvider is set (for an assembly name without '<', which no
      assembly name has). */
  lemma ManifestHasProviderIff(assemblyName: string, includeProvider: bool)
    requires '<' !in assemblyName
    ensures Contains(ManifestText(assemblyName, includeProvider), ProviderElement()) <==> includeProvider
    ensures Contains(ManifestText(assemblyName, includeProvider), "<provider") <==> includeProvider
  {
    var text := ManifestText(assemblyName, includeProvider);
    ProviderElementTag();
    ContainsPrefix(text, ProviderElement(), "<provider");
    if includeProvider {
      ManifestWithProvider(assemblyName);
    } else {
      ManifestWithoutProviderTags(assemblyName);
      NoProviderTagExcludes(text);
    }
  }
}
