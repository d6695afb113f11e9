# APKPure download source of apkeep, modelled in Dafny

apkeep downloads Android packages from several sources. This project models the
sequential logic of its APKPure source (`src/download_sources/apkpure.rs`):

- the **naming rules**: the label an item is known by (`app_id` or
  `app_id@version`), the output file name (`.xapk` for the `XAPKJ` payload tag,
  `.apk` for any other tag), the choice between the default and the
  version-scoped extraction pattern, and the selection of the version-listing
  output format (`naming.dfy`, module `Naming`);
- the **per-item download flow** of `download_from_response`: lookup status,
  URL extraction, the initial request to the streaming writer, then up to three
  download attempts. `Download.Nested` is a reference definition with the three
  retry arms nested by hand, as the source writes them; the method
  `Download.DownloadFromResponse` runs the attempts as a bounded loop over an
  attempt counter and is proved to behave exactly like it. Lemmas about
  `Nested` state the skip paths, the attempt bound, the first-attempt special
  cases, the uniform treatment of errors on retries and the log shape
  (`download.dfy`, module `Download`);
- the **version listing** of `list_versions`: captured version strings are put
  into a set, drained and sorted (`Versions.CollectVersions`, proved equal to
  the deterministic `Versions.Canonical`), and either printed per app or
  inserted into the mutable JSON root (`Versions.JsonRoot`), a later entry for
  the same app id replacing an earlier one (`versions.dfy`, module `Versions`).

The network, the regular-expression engine and the streaming writer are
inputs: the lookup status, the capture each pattern finds in the lookup body (a
finite map from pattern to capture; a pattern absent from the map finds none),
whether the writer's initial request succeeded, the content length it reports,
and the result of each of the at most three download attempts (the record
`Download.Attempts`, each result one of `Done`, `FileExists`,
`PermissionDenied` or `OtherError`). A run's log is a list of abstract lines,
a retry with its number or the final line of the outcome; `Download.LineText`
renders each line as the text the source prints for the item's label, and an
item's announcement line is kept beside its run.

Three behaviours of `apkpure.rs` worth knowing:

- `FileExists` and `PermissionDenied` are terminal only on the first attempt;
  on a retry every error kind simply moves on to the next attempt.
- A failing initial request to the streaming writer is its own terminal case,
  logged as "Invalid response for … Skipping...".
- In plain-text listing mode the header line "Versions available for … on
  APKPure:" is printed before the lookup, so a non-OK lookup prints that header
  on standard output as well as the error line on standard error.

Rust's `to_lowercase` is modelled as lower-casing ASCII letters only. For the
one comparison it serves, equality with `"json"`, this gives the same answer:
no character outside ASCII lower-cases to `j`, `s`, `o` or `n`.

Strings are compared as Rust compares `String`s: lexicographically by
character code (`Versions.Less`), which for UTF-8 equals byte order.

## Model

| member | source | states |
|---|---|---|
| `Naming.AppLabel` | src/download_sources/apkpure.rs:50-59 | the label is `app_id` when no version is pinned, and otherwise `app_id`, then `@`, then the version |
| `Naming.LabelRoundTrip` | src/download_sources/apkpure.rs:50-59 | for app ids without `@`, splitting the label at its first `@` gives back the app id and the pinned version |
| `Naming.LabelsCollideWithAt` | src/download_sources/apkpure.rs:50-59 | an app id containing `@` can share its label with another item (`a@b` unpinned and `a` pinned to `b`) |
| `Naming.FileName` | src/download_sources/apkpure.rs:90-93 | the file name starts with the label and is exactly as long as the label plus the extension of the tag |
| `Naming.FileNameExtension` | src/download_sources/apkpure.rs:90-93 | the file name is the label followed directly by `.xapk` exactly when the tag is `XAPKJ`, and by `.apk` exactly for every other tag |
| `Naming.PatternFor` | src/download_sources/apkpure.rs:68-74 | the default pattern is used exactly when no version is pinned; otherwise the pattern is scoped to the pinned version |
| `Naming.SelectFormat` | src/download_sources/apkpure.rs:149-152 | an absent option selects Plaintext, and Json needs a present four-character option |
| `Naming.AsciiLower` | src/download_sources/apkpure.rs:150 | lower-casing keeps the length, maps `A`-`Z` to `a`-`z` and leaves every other character unchanged |
| `Naming.SelectFormatJsonIff` | src/download_sources/apkpure.rs:149-152 | Json is selected exactly when the option is present and is `json` in any mix of letter cases; an absent option selects Plaintext |
| `Download.Nested` | src/download_sources/apkpure.rs:83-141 | reference run with the retry arms nested as in the source: at most three attempts, attempts exactly when lookup, match and initial request succeed, and a terminal line last |
| `Download.NestedAttempts` | src/download_sources/apkpure.rs:103-125 | the hand-nested attempt arms make one to three attempts and end the log with the final line of the outcome |
| `Download.RunAttempts` | src/download_sources/apkpure.rs:103-125 | the loop over the attempt counter gives the same outcome, log, attempt count, transfer and progress bar as the hand-nested attempt arms, with one to three attempts |
| `Download.AttemptDecides` | src/download_sources/apkpure.rs:103-125 | once the attempts before attempt n failed with an ordinary error, attempt n ends the run with Downloaded on success, with its skip line when it is the first and is refused, and with Failed when it is the last, after the retry lines logged so far |
| `Download.AttemptsLog` | src/download_sources/apkpure.rs:103-125 | the attempt arms log one retry line for each failed attempt before the last one, numbered from 1, and then the final line |
| `Download.DownloadFromResponse` | src/download_sources/apkpure.rs:80-143 | the loop over an attempt counter produces the same outcome, log, attempt count, transfer and progress bar as the hand-nested retry arms, with at most three attempts |
| `Download.SkipsBeforeDownload` | src/download_sources/apkpure.rs:83-141 | a non-OK lookup, a failed match and a failed initial request each end the run with their own skip line and no download attempt |
| `Download.NonOkIgnoresLaterStages` | src/download_sources/apkpure.rs:139-141 | after a non-OK lookup the run is the same whatever extraction, the writer and the attempts would have reported |
| `Download.AttemptsBounded` | src/download_sources/apkpure.rs:86-125 | at most three attempts; attempts happen exactly when lookup, match and initial request succeed; the transfer uses the captured URL and the label plus extension; a progress bar exists exactly when attempts happen and the length is known |
| `Download.FirstAttemptTerminal` | src/download_sources/apkpure.rs:103-110 | `FileExists` or `PermissionDenied` on the first attempt ends the run after that one attempt with its own skip line |
| `Download.RetriesTreatErrorsAlike` | src/download_sources/apkpure.rs:111-125 | after a first ordinary error, the run depends only on whether each later attempt succeeded, not on the kind of its error |
| `Download.FirstDoneStops` | src/download_sources/apkpure.rs:103-125 | no attempt before the last one succeeded; the run succeeds exactly when its last attempt did; it fails exactly when an ordinary first error is followed by two unsuccessful retries, and then after three attempts |
| `Download.OneTerminalLine` | src/download_sources/apkpure.rs:103-141 | the log is the retry lines `Retry #1`, `Retry #2` for the retries made, followed by exactly one terminal line for the outcome |
| `Download.TerminalLineText` | src/download_sources/apkpure.rs:104-140 | the seven terminal lines read exactly `<label> downloaded successfully!`, `File already exists for <label>. Skipping...`, `Permission denied when attempting to write file for <label>. Skipping...`, `An error has occurred attempting to download <label>. Skipping...`, `Invalid response for <label>. Skipping...`, `Could not get download URL for <label>. Skipping...` and `Invalid app response for <label>. Skipping...` |
| `Download.RetryLineText` | src/download_sources/apkpure.rs:112-116 | the two retry lines read exactly `An error has occurred attempting to download <label>.  Retry #1...` and `... Retry #2...` |
| `Download.DownloadItem` | src/download_sources/apkpure.rs:49-74 | an item run is labelled by its id and version, records the delay exactly when one is set, carries the announcement line naming the id and the pinned version, and uses the version-scoped pattern exactly when a version is pinned |
| `Download.ItemTerminates` | src/download_sources/apkpure.rs:49-141 | an item makes at most three attempts, writes to its label plus the extension of the captured tag, and logs `Retry #1` up to `Retry #(attempts - 1)` in order followed by exactly one terminal line for its outcome, last |
| `Download.DownloadApps` | src/download_sources/apkpure.rs:41-77 | the batch has one run per requested item |
| `Download.EveryItemAnnounced` | src/download_sources/apkpure.rs:41-74 | each item of the batch is announced, is labelled by its id and version, waits before lookup exactly when a delay is set, and uses the version-scoped pattern exactly when pinned |
| `Download.EveryItemTerminates` | src/download_sources/apkpure.rs:41-141 | each item of the batch writes to its label plus the captured extension, makes at most three attempts, and logs `Retry #1` up to `Retry #(attempts - 1)` in order and then exactly one terminal line for its outcome, last |
| `Versions.AscendingDistinct` | src/download_sources/apkpure.rs:178-185 | a strictly ascending version list holds no version twice |
| `Versions.InsertSorted` | src/download_sources/apkpure.rs:185 | inserting a new version keeps the list strictly ascending and adds exactly that one element |
| `Versions.Canonical` | src/download_sources/apkpure.rs:178-185 | the reference list is strictly ascending and holds exactly the captured strings |
| `Versions.AscendingUnique` | src/download_sources/apkpure.rs:184-185 | two strictly ascending lists with the same elements are equal, so the order in which the set is drained does not matter |
| `Versions.CollectVersions` | src/download_sources/apkpure.rs:178-185 | the deduplicated, sorted list is strictly ascending, holds exactly the captured strings and equals the reference list |
| `Versions.Entry` | src/download_sources/apkpure.rs:175-212 | an OK lookup gives an `available_versions` entry with the strictly ascending captured versions; any other status gives the error entry "Invalid app response." |
| `Versions.PlainLines` | src/download_sources/apkpure.rs:166-204 | one app prints two lines: the header on standard output, then its versions, or exactly when the lookup was not OK the error line on standard error |
| `Versions.PlainOutput` | src/download_sources/apkpure.rs:158-215 | plain-text mode prints two lines per app |
| `Versions.PlainOutputAt` | src/download_sources/apkpure.rs:158-215 | line 2i is the header of app i and line 2i+1 is the error line on standard error exactly when its lookup was not OK, and otherwise the joined sorted versions |
| `Versions.Report` | src/download_sources/apkpure.rs:191-209 | every entry of the report holds strictly ascending versions or the message "Invalid app response." |
| `Versions.ReportKeys` | src/download_sources/apkpure.rs:191-209 | the report has one key for each distinct processed app id and no other |
| `Versions.ReportLastWins` | src/download_sources/apkpure.rs:191-209 | the entry of an app id is the one computed for its last occurrence in the list |
| `Versions.ListApp` | src/download_sources/apkpure.rs:165-212 | in plain-text mode one app prints the header and then its versions or, exactly on a non-OK lookup, the error line, leaving the root unchanged; in JSON mode it prints nothing and inserts its entry into the root, replacing any earlier one |
| `Versions.JsonRoot.constructor` | src/download_sources/apkpure.rs:153-156 | the JSON root is an empty map in JSON mode and absent in plain-text mode |
| `Versions.JsonRoot.Insert` | src/download_sources/apkpure.rs:197 | inserting an entry replaces any earlier entry for the same id and changes nothing else |
| `Versions.ListVersions` | src/download_sources/apkpure.rs:145-219 | the format is the selected one; plain-text mode prints the header and the versions or error line of each app in order and no document; JSON mode prints no per-app lines and one document from source `APKPure` holding the report |

## Left out

- HTTP: the lookup request, its URL, the fixed request headers of `http_headers` and the `unwrap` panics on network failures; the lookup is represented by its status and what extraction finds in its body.
- Regular expressions: building the default and version-scoped patterns (including `regex::escape`) and matching them. Extraction is an oracle, a finite map from pattern to the capture of tag and URL it finds; the oracle assumes every match carries both groups; the `caps.len() >= 2` guard counts the pattern's groups and so never rejects a match, and the `unwrap` panics on a missing group 1 or 2 are not modelled. The version scan is an oracle that returns the list of group-1 captures.
- Concurrency: the `buffer_unordered(parallel)` fan-out, its bound and `Rc` sharing. Items are modelled as independent runs; the interleaving of their log lines is not modelled.
- The launch delay (`sleep`) is recorded only as whether it happened.
- The streaming writer and the progress display: bytes written, files left on disk and progress updates. Only each attempt's reported result and the creation of the progress bar when the length is known are modelled.
- Output channels: within a download run, lines printed through the progress display and through `println!` are one log list. The JSON serialisation is not modelled; the report map is, with `available_versions` as the list of version strings rather than one-key maps.
- Naming.AsciiLower: lower-cases ASCII letters only, unlike Rust's full Unicode `to_lowercase`; the only use, comparison with `"json"`, gives the same answer either way.
