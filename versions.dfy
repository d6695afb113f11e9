/**
 * The version-listing flow of the APKPure source: for each app, the version
 * strings captured from its lookup body are deduplicated and sorted, and
 * either printed per app (plain text) or collected into one report keyed by
 * app id (JSON).
 *
 * The lookup and the regular-expression scan are replaced by what they
 * report: the lookup status and the list of strings captured by group 1.
 */
module Versions {
  import opened Wrappers
  import opened Naming
  import Download

  /** Strict lexicographic order on strings by character code, as Rust orders `String`s. */
  predicate Less(a: string, b: string)
    decreases |a|
  {
    if |a| == 0 then |b| > 0
    else if |b| == 0 then false
    else if a[0] != b[0] then a[0] < b[0]
    else Less(a[1..], b[1..])
  }

  lemma {:induction false} LessIrreflexive(a: string)
    ensures !Less(a, a)
  {
    if |a| > 0 {
      LessIrreflexive(a[1..]);
    }
  }

  lemma {:induction false} LessTransitive(a: string, b: string, c: string)
    requires Less(a, b) && Less(b, c)
    ensures Less(a, c)
  {
    if |a| > 0 && a[0] == b[0] && b[0] == c[0] {
      LessTransitive(a[1..], b[1..], c[1..]);
    }
  }

  lemma {:induction false} LessTotal(a: string, b: string)
    requires a != b
    ensures Less(a, b) || Less(b, a)
  {
    if |a| > 0 && |b| > 0 && a[0] == b[0] {
      assert a == [a[0]] + a[1..] && b == [b[0]] + b[1..];
      LessTotal(a[1..], b[1..]);
    }
  }

  lemma {:induction false} LessAsymmetric(a: string, b: string)
    requires Less(a, b)
    ensures !Less(b, a)
  {
    if Less(b, a) {
      LessTransitive(a, b, a);
      LessIrreflexive(a);
    }
  }

  /** Strictly ascending: each element is below every later one. */
  predicate Ascending(s: seq<string>)
  {
    forall i, j :: 0 <= i < j < |s| ==> Less(s[i], s[j])
  }

  /** A strictly ascending list holds no element twice. */
  lemma AscendingDistinct(s: seq<string>, i: nat, j: nat)
    requires Ascending(s) && i < j < |s|
    ensures s[i] != s[j]
  {
    LessIrreflexive(s[i]);
  }

  /** Prepending an element below every element keeps a list strictly ascending. */
  lemma ConsAscending(h: string, t: seq<string>)
    requires Ascending(t)
    requires forall v :: v in t ==> Less(h, v)
    ensures Ascending([h] + t)
  {
    forall i, j | 0 <= i < j < |[h] + t|
      ensures Less(([h] + t)[i], ([h] + t)[j])
    {
      assert ([h] + t)[j] == t[j - 1];
      if i > 0 {
        assert ([h] + t)[i] == t[i - 1];
      } else {
        assert t[j - 1] in t;
      }
    }
  }

  /** Inserts a new element at its place in a strictly ascending list. */
  function InsertSorted(s: seq<string>, x: string): (r: seq<string>)
    requires Ascending(s) && x !in s
    ensures Ascending(r)
    ensures multiset(r) == multiset(s) + multiset{x}
    decreases |s|
  {
    if |s| == 0 then [x]
    else if Less(x, s[0]) then
      BelowHeadBelowAll(x, s);
      ConsAscending(x, s);
      [x] + s
    else
      LessTotal(x, s[0]);
      var rest := InsertSorted(s[1..], x);
      assert s == [s[0]] + s[1..];
      HeadBelowInserted(s, x, rest);
      ConsAscending(s[0], rest);
      [s[0]] + rest
  }

  /** An element below the head of a strictly ascending list is below all of it. */
  lemma BelowHeadBelowAll(x: string, s: seq<string>)
    requires Ascending(s) && |s| > 0 && Less(x, s[0])
    ensures forall v :: v in s ==> Less(x, v)
  {
    forall v | v in s ensures Less(x, v) {
      var j :| 0 <= j < |s| && s[j] == v;
      if j > 0 { LessTransitive(x, s[0], s[j]); }
    }
  }

  /** The head of a strictly ascending list is below its tail with a larger element inserted. */
  lemma HeadBelowInserted(s: seq<string>, x: string, rest: seq<string>)
    requires Ascending(s) && |s| > 0 && Less(s[0], x)
    requires multiset(rest) == multiset(s[1..]) + multiset{x}
    ensures forall v :: v in rest ==> Less(s[0], v)
  {
    forall v | v in rest ensures Less(s[0], v) {
      assert v in multiset(rest);
      if v != x {
        assert v in multiset(s[1..]);
        var j :| 0 <= j < |s[1..]| && s[1..][j] == v;
        assert s[j + 1] == v;
      }
    }
  }

  /**
   * Reference definition of the reported list: the captures, each inserted
   * once at its place.
   */
  function Canonical(caps: seq<string>): (r: seq<string>)
    ensures Ascending(r)
    ensures forall v :: v in r <==> v in caps
    decreases |caps|
  {
    if |caps| == 0 then []
    else
      var r := Canonical(caps[..|caps| - 1]);
      var x := caps[|caps| - 1];
      assert caps == caps[..|caps| - 1] + [x];
      if x in r then r
      else
        var r' := InsertSorted(r, x);
        assert forall v :: v in r' <==> v in multiset(r');
        r'
  }

  /**
   * A strictly ascending list is determined by its elements, so the reported
   * list does not depend on the order in which the set was drained.
   */
  lemma {:induction false} AscendingUnique(s: seq<string>, t: seq<string>)
    requires Ascending(s) && Ascending(t)
    requires forall v :: v in s <==> v in t
    ensures s == t
    decreases |s|
  {
    assert |t| > 0 ==> t[0] in t;
    if |s| > 0 {
      assert s[0] in s && t != [] && t[0] in t;
      if s[0] != t[0] {
        var k :| 0 <= k < |t| && t[k] == s[0];
        var m :| 0 <= m < |s| && s[m] == t[0];
        assert Less(t[0], s[0]);
        assert Less(s[0], t[0]);
        LessAsymmetric(s[0], t[0]);
      }
      forall v ensures v in s[1..] <==> v in t[1..] {
        if v in s[1..] {
          var i :| 1 <= i < |s| && s[i] == v;
          AscendingDistinct(s, 0, i);
          assert v in t;
        }
        if v in t[1..] {
          var i :| 1 <= i < |t| && t[i] == v;
          AscendingDistinct(t, 0, i);
          assert v in s;
        }
      }
      AscendingUnique(s[1..], t[1..]);
    }
  }

  /**
   * Collects the captured versions into a set, drains the set into a list
   * and sorts it: the result is strictly ascending and holds exactly the
   * captured strings.
   */
  method CollectVersions(caps: seq<string>) returns (versions: seq<string>)
    ensures Ascending(versions)
    ensures forall v :: v in versions <==> v in caps
    ensures versions == Canonical(caps)
  {
    var seen: set<string> := {};
    for i := 0 to |caps|
      invariant forall v :: v in seen <==> v in caps[..i]
    {
      assert caps[..i + 1] == caps[..i] + [caps[i]];
      seen := seen + {caps[i]};
    }
    assert caps[..|caps|] == caps;
    // Draining a hash set yields its elements in no particular order.
    var drained: seq<string> := [];
    var rest := seen;
    while rest != {}
      invariant rest <= seen
      invariant forall v :: v in drained <==> v in seen && v !in rest
      invariant forall i, j :: 0 <= i < j < |drained| ==> drained[i] != drained[j]
      decreases rest
    {
      var v :| v in rest;
      drained := drained + [v];
      rest := rest - {v};
    }
    // Sorting the drained list.
    versions := [];
    for i := 0 to |drained|
      invariant Ascending(versions)
      invariant multiset(versions) == multiset(drained[..i])
    {
      assert drained[i] !in drained[..i];
      assert drained[i] !in multiset(versions);
      versions := InsertSorted(versions, drained[i]);
      assert drained[..i + 1] == drained[..i] + [drained[i]];
    }
    assert drained[..|drained|] == drained;
    assert forall v :: v in versions <==> v in multiset(drained);
    AscendingUnique(versions, Canonical(caps));
  }

  /** Joins strings with a separator between consecutive ones. */
  function Join(xs: seq<string>, sep: string): string
    decreases |xs|
  {
    if |xs| == 0 then ""
    else if |xs| == 1 then xs[0]
    else xs[0] + sep + Join(xs[1..], sep)
  }

  /** What the lookup of one app reports: its status and the strings captured by group 1. */
  datatype VersionLookup = VersionLookup(status: int, captures: seq<string>)

  /** One app's entry of the JSON report. */
  datatype AppReport = Available(versions: seq<string>) | Error(message: string)

  /** The document printed at the end in JSON mode. */
  datatype Document = Document(source: string, apps: map<string, AppReport>)

  /** A line printed to standard output or standard error. */
  datatype Line = Stdout(text: string) | Stderr(text: string)

  const SourceName: string := "APKPure"
  const InvalidAppMessage: string := "Invalid app response."

  /**
   * The entry of an app: on an OK lookup its versions, strictly ascending and
   * exactly the captured strings; otherwise the error entry.
   */
  function Entry(lookup: VersionLookup): (e: AppReport)
    ensures lookup.status == Download.StatusOk <==> e.Available?
    ensures e.Available? ==>
      Ascending(e.versions) && forall v :: v in e.versions <==> v in lookup.captures
    ensures e.Error? ==> e.message == "Invalid app response."
  {
    if lookup.status == Download.StatusOk then Available(Canonical(lookup.captures))
    else Error(InvalidAppMessage)
  }

  /** The two plain-text lines printed for one app. */
  function PlainLines(id: string, lookup: VersionLookup): (lines: seq<Line>)
    ensures |lines| == 2 && lines[0] == Stdout("Versions available for " + id + " on APKPure:")
    ensures lines[1].Stderr? <==> lookup.status != Download.StatusOk
    ensures lines[1].Stderr? ==> lines[1].text == "| Invalid app response for " + id + ". Skipping..."
  {
    assert " on " + SourceName + ":" == " on APKPure:";
    [Stdout("Versions available for " + id + (" on " + SourceName + ":"))] +
    if lookup.status == Download.StatusOk then [Stdout("| " + Join(Canonical(lookup.captures), ", "))]
    else [Stderr("| Invalid app response for " + id + ". Skipping...")]
  }

  /** The plain-text output for the apps in order. */
  function PlainOutput(apps: seq<Download.App>, lookup: nat -> VersionLookup): (lines: seq<Line>)
    ensures |lines| == 2 * |apps|
    decreases |apps|
  {
    if |apps| == 0 then []
    else PlainOutput(apps[..|apps| - 1], lookup) + PlainLines(apps[|apps| - 1].id, lookup(|apps| - 1))
  }

  /**
   * Line `2i` is the header of the `i`-th app and line `2i + 1` its versions,
   * or, exactly when its lookup was not OK, its error line on standard error.
   */
  lemma {:induction false} PlainOutputAt(apps: seq<Download.App>, lookup: nat -> VersionLookup, i: nat)
    requires i < |apps|
    ensures var out := PlainOutput(apps, lookup);
      |out| == 2 * |apps| &&
      out[2 * i] == Stdout("Versions available for " + apps[i].id + " on APKPure:") &&
      (out[2 * i + 1].Stderr? <==> lookup(i).status != Download.StatusOk) &&
      (out[2 * i + 1].Stderr? ==>
        out[2 * i + 1].text == "| Invalid app response for " + apps[i].id + ". Skipping...") &&
      (out[2 * i + 1].Stdout? ==>
        out[2 * i + 1].text == "| " + Join(Canonical(lookup(i).captures), ", "))
    decreases |apps|
  {
    var n := |apps| - 1;
    var out := PlainOutput(apps, lookup);
    assert out == PlainOutput(apps[..n], lookup) + PlainLines(apps[n].id, lookup(n));
    if i < n {
      assert apps[..n][i] == apps[i];
      PlainOutputAt(apps[..n], lookup, i);
    }
  }

  /** The report: the entries of the apps inserted in order, a later id replacing an earlier one. */
  function Report(apps: seq<Download.App>, lookup: nat -> VersionLookup): (report: map<string, AppReport>)
    ensures forall id :: id in report && report[id].Available? ==> Ascending(report[id].versions)
    ensures forall id :: id in report && report[id].Error? ==> report[id].message == "Invalid app response."
    decreases |apps|
  {
    if |apps| == 0 then map[]
    else Report(apps[..|apps| - 1], lookup)[apps[|apps| - 1].id := Entry(lookup(|apps| - 1))]
  }

  /** The ids of the apps of a list. */
  function AppIds(apps: seq<Download.App>): set<string>
  {
    set i | 0 <= i < |apps| :: apps[i].id
  }

  /** The report has exactly one key per distinct app id. */
  lemma {:induction false} ReportKeys(apps: seq<Download.App>, lookup: nat -> VersionLookup)
    ensures Report(apps, lookup).Keys == AppIds(apps)
    decreases |apps|
  {
    if |apps| > 0 {
      var n := |apps| - 1;
      ReportKeys(apps[..n], lookup);
      forall id | id in AppIds(apps)
        ensures id in AppIds(apps[..n]) + {apps[n].id}
      {
        var i :| 0 <= i < |apps| && apps[i].id == id;
        if i < n { assert apps[..n][i].id == id; }
      }
      forall id | id in AppIds(apps[..n])
        ensures id in AppIds(apps)
      {
        var i :| 0 <= i < n && apps[..n][i].id == id;
        assert apps[i].id == id;
      }
    }
  }

  /** The entry of an id is the one from its last occurrence in the app list. */
  lemma {:induction false} ReportLastWins(apps: seq<Download.App>, lookup: nat -> VersionLookup, k: nat)
    requires k < |apps|
    requires forall j :: k < j < |apps| ==> apps[j].id != apps[k].id
    ensures apps[k].id in Report(apps, lookup)
    ensures Report(apps, lookup)[apps[k].id] == Entry(lookup(k))
    decreases |apps|
  {
    var n := |apps| - 1;
    var prefix := apps[..n];
    assert Report(apps, lookup) == Report(prefix, lookup)[apps[n].id := Entry(lookup(n))];
    if k < n {
      assert prefix[k] == apps[k];
      assert forall j :: k < j < n ==> prefix[j].id != prefix[k].id by {
        forall j | k < j < n ensures prefix[j].id != prefix[k].id {
          assert prefix[j] == apps[j];
        }
      }
      ReportLastWins(prefix, lookup, k);
      assert apps[n].id != apps[k].id;
    }
  }

  /** The shared, mutable JSON root: a map in JSON mode, absent in plain-text mode. */
  class JsonRoot {
    var apps: Option<map<string, AppReport>>

    constructor (format: OutputFormat)
      ensures apps == if format == Json then Some(map[]) else None
    {
      apps := if format == Json then Some(map[]) else None;
    }

    /** Inserts an app's entry, replacing any earlier entry for the same id. */
    method Insert(id: string, entry: AppReport)
      requires apps.Some?
      modifies this
      ensures apps == Some(old(apps).value[id := entry])
    {
      apps := Some(apps.value[id := entry]);
    }
  }

  /**
   * Lists the versions of every app in order. Plain-text mode prints two
   * lines per app; JSON mode prints nothing per app and ends with one
   * document holding the report.
   */
  method ListVersions(apps: seq<Download.App>, outputFormat: Option<string>,
                      lookup: nat -> VersionLookup)
    returns (format: OutputFormat, lines: seq<Line>, document: Option<Document>)
    ensures format == SelectFormat(outputFormat)
    ensures format == Plaintext ==> lines == PlainOutput(apps, lookup) && document == None
    ensures format == Json ==> lines == [] && document == Some(Document(SourceName, Report(apps, lookup)))
  {
    format := SelectFormat(outputFormat);
    var root := new JsonRoot(format);
    lines := [];
    for i := 0 to |apps|
      invariant root.apps == if format == Json then Some(Report(apps[..i], lookup)) else None
      invariant lines == if format == Plaintext then PlainOutput(apps[..i], lookup) else []
    {
      var id := apps[i].id;
      PrefixStep(apps, lookup, i);
      var out := ListApp(id, lookup(i), format, root);
      lines := lines + out;
    }
    assert apps[..|apps|] == apps;
    document := if format == Json then Some(Document(SourceName, root.apps.value)) else None;
  }

  /** Extending the listed prefix by one app appends its two lines and inserts its entry. */
  lemma PrefixStep(apps: seq<Download.App>, lookup: nat -> VersionLookup, i: nat)
    requires i < |apps|
    ensures PlainOutput(apps[..i + 1], lookup) == PlainOutput(apps[..i], lookup) + PlainLines(apps[i].id, lookup(i))
    ensures Report(apps[..i + 1], lookup) == Report(apps[..i], lookup)[apps[i].id := Entry(lookup(i))]
  {
    assert apps[..i + 1][..i] == apps[..i];
  }

  /**
   * One app of the listing: the header, then its versions or its error line
   * in plain-text mode; its entry inserted into the root in JSON mode.
   */
  method ListApp(id: string, response: VersionLookup, format: OutputFormat, root: JsonRoot)
    returns (out: seq<Line>)
    requires root.apps.Some? <==> format == Json
    modifies root
    ensures format == Plaintext ==> out == PlainLines(id, response) && root.apps == old(root.apps)
    ensures format == Json ==> out == [] && root.apps == Some(old(root.apps).value[id := Entry(response)])
  {
    out := [];
    if format == Plaintext {
      out := out + [Stdout("Versions available for " + id + (" on " + SourceName + ":"))];
    }
    if response.status == Download.StatusOk {
      var versions := CollectVersions(response.captures);
      match format
      case Plaintext =>
        out := out + [Stdout("| " + Join(versions, ", "))];
      case Json =>
        root.Insert(id, Available(versions));
    } else {
      match format
      case Plaintext =>
        out := out + [Stderr("| Invalid app response for " + id + ". Skipping...")];
      case Json =>
        root.Insert(id, Error(InvalidAppMessage));
    }
  }
}
