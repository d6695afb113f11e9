/**
 * The pure naming rules of the APKPure download source: the label an item is
 * known by, the file it is written to, the extraction pattern chosen for it,
 * and the selection of the version-listing output format.
 */
module Naming {
  import opened Wrappers

  /** Payload-kind tag that marks a multi-part archive (`.xapk`). */
  const XapkTag: string := "XAPKJ"

  /** Index of the first '@' in `s`, or `|s|` when there is none. */
  function IndexOfAt(s: string): (k: nat)
    ensures k <= |s|
    ensures k < |s| ==> s[k] == '@'
    ensures forall j :: 0 <= j < k ==> s[j] != '@'
  {
    if |s| == 0 then 0
    else if s[0] == '@' then 0
    else 1 + IndexOfAt(s[1..])
  }

  /**
   * The item label: the app id alone, or `app_id@version` when a version is
   * pinned.
   */
  function AppLabel(appId: string, version: Option<string>): (name: string)
    ensures version.None? ==> name == appId
    ensures version.Some? ==> |name| == |appId| + 1 + |version.value|
    ensures version.Some? ==> name[..|appId|] == appId && name[|appId|] == '@'
    ensures version.Some? ==> name[|appId| + 1..] == version.value
  {
    match version
    case None => appId
    case Some(v) => appId + "@" + v
  }

  /** Splits a label back at its first '@'. */
  function ParseLabel(name: string): (r: (string, Option<string>))
  {
    var k := IndexOfAt(name);
    if k == |name| then (name, None) else (name[..k], Some(name[k + 1..]))
  }

  /**
   * Labels are unambiguous for app ids without '@' (Android package names
   * consist of letters, digits, '_' and '.'): the label determines the app id
   * and the pinned version.
   */
  lemma LabelRoundTrip(appId: string, version: Option<string>)
    requires forall j :: 0 <= j < |appId| ==> appId[j] != '@'
    ensures ParseLabel(AppLabel(appId, version)) == (appId, version)
  {
  }

  /** Without that restriction two different items can share a label. */
  lemma LabelsCollideWithAt()
    ensures AppLabel("a@b", None) == AppLabel("a", Some("b"))
  {
  }

  /** File extension selected by the payload-kind tag. */
  function Extension(tag: string): (ext: string)
  {
    if tag == XapkTag then ".xapk" else ".apk"
  }

  /** Output file name: the item label followed by the extension of the tag. */
  function FileName(name: string, tag: string): (fname: string)
    ensures |fname| == |name| + |Extension(tag)| && fname[..|name|] == name
  {
    name + Extension(tag)
  }

  predicate EndsWith(s: string, suffix: string)
  {
    |suffix| <= |s| && s[|s| - |suffix|..] == suffix
  }

  /**
   * The file name ends in `.xapk` exactly when the tag is "XAPKJ", and in
   * `.apk` exactly for every other tag, in both cases directly after the
   * label; removing the extension gives the label back.
   */
  lemma FileNameExtension(name: string, tag: string)
    ensures EndsWith(FileName(name, tag), ".xapk") <==> tag == XapkTag
    ensures EndsWith(FileName(name, tag), ".apk") <==> tag != XapkTag
    ensures FileName(name, tag) == name + ".xapk" <==> tag == XapkTag
    ensures FileName(name, tag) == name + ".apk" <==> tag != XapkTag
    ensures FileName(name, tag)[..|name|] == name
  {
    var fname := FileName(name, tag);
    if tag == XapkTag {
      assert fname[|fname| - 5..] == ".xapk";
      assert fname[|fname| - 4..] == "xapk";
    } else {
      assert fname[|fname| - 4..] == ".apk";
      assert |fname| >= 5 ==> fname[|fname| - 5 + 1] == '.';
    }
  }

  /** The extraction pattern: the fixed default one, or one scoped to a version. */
  datatype Pattern = Default | VersionScoped(version: string)

  function PatternFor(version: Option<string>): (p: Pattern)
    ensures p.Default? <==> version.None?
    ensures version.Some? ==> p.version == version.value
  {
    match version
    case None => Default
    case Some(v) => VersionScoped(v)
  }

  datatype OutputFormat = Plaintext | Json

  /** Lower-cases the ASCII letters A-Z and leaves every other character alone. */
  function AsciiLower(s: string): (r: string)
    ensures |r| == |s|
    ensures forall i :: 0 <= i < |s| ==>
      r[i] == if 'A' <= s[i] <= 'Z' then (s[i] as int + 32) as char else s[i]
  {
    if |s| == 0 then [] else
      [if 'A' <= s[0] <= 'Z' then (s[0] as int + 32) as char else s[0]] + AsciiLower(s[1..])
  }

  /** Json exactly when the `output_format` option, lower-cased, is "json". */
  function SelectFormat(option: Option<string>): (f: OutputFormat)
    ensures option.None? ==> f == Plaintext
    ensures f == Json ==> option.Some? && |option.value| == 4
  {
    match option
    case Some(v) => if AsciiLower(v) == "json" then Json else Plaintext
    case None => Plaintext
  }

  /**
   * Json is selected exactly by the four-letter option spellings of "json" in
   * any mix of letter cases; an absent option selects Plaintext.
   */
  lemma SelectFormatJsonIff(option: Option<string>)
    ensures SelectFormat(option) == Json <==>
      option.Some? && |option.value| == 4 &&
      option.value[0] in "jJ" && option.value[1] in "sS" &&
      option.value[2] in "oO" && option.value[3] in "nN"
    ensures option.None? ==> SelectFormat(option) == Plaintext
  {
  }
}
