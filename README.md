# Android App Link verification tester, modelled in Dafny

The tool audits an Android app's deep links. It has three parts, and each is modelled here.

**Certificate digest.** It reads the app's signing-certificate SHA-256 digest from the output of `apksigner verify --print-certs`.

**Deep-link audit.** For each activity, in the order given, it goes through that activity's deep links in sorted order. Only links that start with `http` are audited. Each audited link goes through two checks:
- its four intent-filter flags: autoverify, the VIEW action, the BROWSABLE category and the DEFAULT category;
- the domain's Digital Asset Links file. The file is fetched from `https://<domain>/.well-known/assetlinks.json`. The tool looks for the first statement whose target has the `android_app` namespace, the app's package and the app's digest, then prints that statement's relations, each classified as Standard or Custom.

In CI mode, the first failure ends the run with status 1.

**Proof-of-concept page.** It writes an HTML page with a heading per activity and a link per deep link that mentions `http`.

Modules:

- `Wrappers`: `Option` and `Result`.
- `Strings`: Python's string operations as the tool uses them:
  - `in` for substrings;
  - `str.split`;
  - the first piece of a split;
  - `sorted` under code-point order;
  - filtering a list.
- `Manifest`: the deep-link declarations.
  - Each activity has an insertion-ordered dictionary from deep link to its four flags.
  - A dictionary is its item sequence. Lookup takes the first item with the key.
- `AssetLinks`: `get_dal` and `get_relation_list_in_dal`.
  - The parsed JSON is a typed statement list.
  - `urlparse`, `requests.get` and `json.loads` are the three function fields of a `Network` value.
- `ApkCert`: the parsing half of `get_sha256_cert_fingerprint`. The tool's output is the input.
- `Audit`: `check_manifest_keys_for_deeplink` and `check_dals`.
  - The console output is a transcript of `Event`s.
  - `exit(1)` is an `Exited` outcome carrying that transcript.
  - `check_dals` is a method with the source's loops. It is proved equal to the definition `Audit`, which the lemmas are about.
- `Poc`: `write_deeplinks_to_file`. It is a method with the source's nested loops that returns the page text. It is proved equal to the definition `Document`.

How the code differs from a plain reading of its intent:
- **Digest cut.** The digest is not always "the rest of the line after the marker". The code splits the whole output on the marker, and only then cuts at the newline. So the digest also stops at a second occurrence of `1 certificate SHA-256 digest: ` on the same line. `ApkCert.DigestFollowsMarker` states the three possible ends. `ApkCert.DigestLine` shows the usual case gives exactly the line.
- **Two tests for `http`.** The page links every deep link containing `http` anywhere. The auditor checks only those that start with `http`. `Poc.AuditedIsLinkable` and `Poc.LinkableNotAudited` state both directions.

## Model

| member | source | states |
|---|---|---|
| Strings.Find | helpers/apk_cert.py:13 | the index of the first occurrence of the separator, or none when it occurs nowhere |
| Strings.Contains | helpers/app_links.py:19 | Python's `sub in s`: true exactly when `sub` occurs at some index of `s` |
| Strings.Split | helpers/apk_cert.py:13 | `str.split` gives at least one piece, and more than one exactly when the separator occurs |
| Strings.SplitJoin | helpers/apk_cert.py:13 | joining the pieces with the separator gives back the input |
| Strings.SplitPieces | helpers/apk_cert.py:13-16 | there are several pieces exactly when the separator occurs, and no piece contains the separator |
| Strings.UpTo | helpers/apk_cert.py:16 | the first piece of a split is the longest prefix before the first occurrence of the separator (or the whole string) |
| Strings.Below | helpers/app_links.py:86 | Python's `<=` on strings, which `sorted` uses here and at helpers/poc.py:5: code-point lexicographic order, with a proper prefix first; its properties are stated by the three lemmas below |
| Strings.BelowTotal | helpers/app_links.py:86 | the code-point order `sorted` uses compares any two strings |
| Strings.BelowTransitive | helpers/app_links.py:86 | that order is transitive |
| Strings.BelowAntisymmetric | helpers/app_links.py:86 | that order is antisymmetric |
| Strings.Sort | helpers/app_links.py:86 | `sorted` returns an ordered permutation of its input |
| Strings.SortedPermutationUnique | helpers/app_links.py:86 | any two ordered permutations of a list are equal, so the order of the audited deep links is fixed |
| Strings.Filter | helpers/app_links.py:87 | the kept elements are exactly those of the input that pass the test |
| Strings.FilterSorted | helpers/poc.py:5-6 | filtering a sorted list leaves it sorted |
| Strings.FilterSortCount | helpers/poc.py:5-7 | sorting first does not change how many elements pass a filter |
| Manifest.Keys | helpers/app_links.py:86 | `handlers.keys()` lists the deep links in insertion order |
| Manifest.FlagsOf | helpers/app_links.py:51 | `handlers[deeplink]` is the flags of an item with that key |
| Manifest.AllFlagsIff | helpers/app_links.py:50-74 | all four flags hold exactly when every flag in check order holds |
| AssetLinks.DalUrl | helpers/app_links.py:10-14 | the request URL is `https://`, then the netloc, then `/.well-known/assetlinks.json` |
| AssetLinks.DalUrlInjective | helpers/app_links.py:10-14 | different domains are fetched from different URLs |
| AssetLinks.GetDal | helpers/app_links.py:12-21 | the body is returned exactly when the status is 200 and a Content-Type containing `application/json` is present; another status is reported as such |
| AssetLinks.Authorizes | helpers/app_links.py:30-40 | the match rule: a target, the `android_app` namespace, this package name, and `sha256` among its fingerprints |
| AssetLinks.Granted | helpers/app_links.py:41-44 | a matching statement grants its `relation` list, or the empty list when it has none |
| AssetLinks.RelationList | helpers/app_links.py:42-48 | the value returned: the relations on a match, `None` for both no match and a caught error |
| AssetLinks.FirstAuthorizing | helpers/app_links.py:29-40 | the index of the first statement, in list order, with namespace `android_app`, this package and `sha256` among its fingerprints; none only when no statement has all three |
| AssetLinks.DalLookup | helpers/app_links.py:24-48 | the lookup as a definition; it fails exactly when the fetch or the parse fails; whether there is an answer otherwise is stated by `AssetLinks.RelationListSomeIff`, and which relations come back by `AssetLinks.LookupAnswer` |
| AssetLinks.LookupAnswer | helpers/app_links.py:29-48 | after a successful fetch and parse, no authorizing statement gives no answer, and otherwise the answer is the relations granted by the first authorizing statement |
| AssetLinks.GetRelationListInDal | helpers/app_links.py:23-48 | the nested loop with early returns computes the lookup: fetch error, parse error, no match, or the first match's relations |
| AssetLinks.RelationListSomeIff | helpers/app_links.py:23-48 | a list is returned exactly when the fetch and the parse succeed and some statement authorizes the app |
| AssetLinks.FirstMatchDecides | helpers/app_links.py:29-42 | the first authorizing statement decides, whatever follows it |
| AssetLinks.NonMatchingSkipped | helpers/app_links.py:30-37 | a statement that does not authorize the app is passed over |
| AssetLinks.MissingRelationIsEmpty | helpers/app_links.py:41-44 | when the first matching statement, wherever it stands, has no `relation`, the result is the empty list, not `None` |
| AssetLinks.FetchErrorGivesNone | helpers/app_links.py:45-47 | a rejected fetch is caught, and the result is `None` |
| ApkCert.GetSha256CertFingerprint | helpers/apk_cert.py:12-17 | no `SHA-256 digest: ` gives `None`; a digest is found exactly when `1 certificate SHA-256 digest: ` occurs; a digest never holds a newline |
| ApkCert.FingerprintUpTo | helpers/apk_cert.py:13-16 | the digest is the text after the first marker, cut at the next marker and then at the first newline |
| ApkCert.DigestFollowsMarker | helpers/apk_cert.py:13-16 | the digest is a substring of the output, right after the first marker; it ends at the end of the output, at a newline or at another marker |
| ApkCert.DigestLine | helpers/apk_cert.py:13-16 | when the first marker is followed by a digest and a newline, and that digest holds no newline and no marker, exactly that digest is returned |
| Audit.IsHttp | helpers/app_links.py:87 | the audit test: the deep link starts with `http` |
| Audit.Classify | helpers/app_links.py:96-103 | a relation is Standard exactly when it contains `delegate_permission/common.handle_all_urls` or `delegate_permission/common.get_login_creds` |
| Audit.CheckFlags | helpers/app_links.py:51-74 | the flag walk reports at most one line per flag and exits only in CI mode; the full statement is `Audit.CheckFlagsReports` |
| Audit.CheckManifestKeys | helpers/app_links.py:50-74 | `check_manifest_keys_for_deeplink`: at most four reports, and an exit only in CI mode with a flag missing; the full statement is `Audit.CheckManifestKeysReports` |
| Audit.CheckFlagsReports | helpers/app_links.py:50-74 | one report per flag in order; in CI mode the check stops and exits at the first absent flag, and otherwise it never exits |
| Audit.CheckManifestKeysReports | helpers/app_links.py:50-74 | an exit happens exactly in CI mode with a flag missing; without an exit all four flags are reported in order; with one, the last report is the first missing flag |
| Audit.AuditLink | helpers/app_links.py:88-108 | one audited deep link only appends to the transcript and exits only in CI mode; its exits and checks are stated by `Audit.AuditLinkExit`, `Audit.AuditLinkChecked`, `Audit.FlagFailureSkipsDal` and `Audit.NonCiReportsAll` |
| Audit.AuditLinks | helpers/app_links.py:86-108 | the deep links of one activity: an exited run stays as it is, and outside CI mode the activity never exits; see `Audit.AuditLinksExit` and `Audit.AuditLinksChecked` |
| Audit.AuditActivities | helpers/app_links.py:84-108 | the activities in order: an exited run stays as it is, and outside CI mode no activity exits; see `Audit.AuditActivitiesExit` and `Audit.AuditActivitiesChecked` |
| Audit.Audit | helpers/app_links.py:76-112 | the whole run as a definition: an exit has status 1, and outside CI mode the run completes exactly when a digest is found; see `Audit.AuditOutcome` and `Audit.AuditOrder` |
| Audit.RelationLines | helpers/app_links.py:95-103 | the lines printed for the relations; that there is one per relation, in order, with its class is stated by `Audit.RelationLinesAt` |
| Audit.LookupEvents | helpers/app_links.py:91-108 | the report of a lookup: a caught exception (reported at helpers/app_links.py:46) is reported and then the verification failure; no match reports the failure alone; a match reports success followed by the relation lines |
| Audit.RelationLinesAt | helpers/app_links.py:95-103 | one line per relation, in order, with its class |
| Audit.ReportRelations | helpers/app_links.py:95-103 | the relation loop appends those lines |
| Audit.CheckDeepLink | helpers/app_links.py:88-108 | one deep link: `Checking`, the flag reports, then the lookup report, exiting on a failure in CI mode |
| Audit.CheckActivity | helpers/app_links.py:85-109 | one activity: its name, then its sorted deep links that start with `http`, until one exits |
| Audit.CheckActivities | helpers/app_links.py:84-109 | every activity in the order given, until one exits |
| Audit.CheckDals | helpers/app_links.py:76-112 | the whole run: no digest exits at once; otherwise every activity is checked, then the help message is printed |
| Audit.AuditLinkExit | helpers/app_links.py:89-108 | a deep link exits exactly in CI mode when a flag is missing or the domain does not authorize the app; an exit follows a failure report |
| Audit.AuditLinkChecked | helpers/app_links.py:88 | auditing one deep link announces exactly that deep link |
| Audit.FlagFailureSkipsDal | helpers/app_links.py:50-90 | in CI mode a missing flag exits before the relation check; after `Checking` come only flag reports, ending with the first missing one |
| Audit.NonCiReportsAll | helpers/app_links.py:50-108 | outside CI mode a deep link never exits; all four flags are reported, then the relation check follows |
| Audit.AuditLinksExit | helpers/app_links.py:86-108 | the links of an activity exit exactly in CI mode when one of them that starts with `http` fails |
| Audit.AuditLinksChecked | helpers/app_links.py:86-88 | the links announced are those starting with `http`, in order: all of them, or a prefix when the run exits |
| Audit.ActivityChecked | helpers/app_links.py:84-88 | one activity announces its sorted `http` deep links, or a prefix of them on exit |
| Audit.AuditActivitiesExit | helpers/app_links.py:84-108 | the activities exit exactly in CI mode when some audited deep link fails, and the exit follows a failure report |
| Audit.AuditActivitiesChecked | helpers/app_links.py:84-88 | across activities, the deep links announced are the audited ones in order, or a prefix of them on exit |
| Audit.AuditOutcome | helpers/app_links.py:76-112 | the run completes exactly when a digest is found and, in CI mode, every audited deep link passes; outside CI mode it completes exactly when the marker occurs; an exit has status 1 and follows the missing-digest report or a failure; a completed run ends with the help message |
| Audit.AuditOrder | helpers/app_links.py:84-90 | the deep links the run checks are the activities' sorted `http` links in order: all of them on completion, a prefix on exit |
| Poc.WriteDeeplinksToFile | helpers/poc.py:1-8 | the accumulated string is the document: the header, per-activity headings and links, then the footer |
| Poc.LinksTextRenders | helpers/poc.py:5-7 | the inner loop's text is the rendering of one anchor for each deep link that mentions `http`, in order |
| Poc.Text | helpers/poc.py:4-7 | a heading is written as `<h3>` + activity + `</h3>` and a newline; a link as `<a href="` + deep link + `">` + deep link + `</a></br>`, with no escaping |
| Poc.Document | helpers/poc.py:2-8 | the page: it starts with the fixed header and ends with the fixed footer; its body is `Layout` |
| Poc.Layout | helpers/poc.py:3-7 | the body has at least one block per activity; its exact structure is stated by `Poc.HeadingsInOrder`, `Poc.AnchorIff`, `Poc.ActivityLinksSorted` and `Poc.AnchorTotal` |
| Poc.HeadingsInOrder | helpers/poc.py:3-4 | there is exactly one heading per activity, in the order given |
| Poc.AnchorIff | helpers/poc.py:5-7 | a deep link has a link on the page exactly when it is some activity's deep link and contains `http` |
| Poc.ActivityLinksSorted | helpers/poc.py:5-6 | within an activity the links follow the sorted order, right after its heading |
| Poc.AnchorTotal | helpers/poc.py:3-7 | the number of links is the number of deep links containing `http`, summed over the activities |
| Poc.Linkable | helpers/poc.py:6 | the page test: `http` occurs anywhere in the deep link |
| Poc.AuditedIsLinkable | helpers/poc.py:6 | every deep link the auditor checks is linked on the page |
| Poc.LinkableNotAudited | helpers/poc.py:6 | some deep link, for example `app://http`, is linked but not audited |

## Left out

- Running `apksigner` (helpers/apk_cert.py:8-10): the module takes its output text as input. Building the shell command from the APK path is not modelled.
- The network, URL parsing and JSON decoding (helpers/app_links.py:13-14, 28): these are the `Network` value's function fields.
  - Header names are case-insensitive in `requests`. The model stores headers under lower-case names and looks up `content-type`.
- One response per URL: `Network.get` is a function, so every fetch of the same address in one run returns the same response. The source fetches the file again for each audited deep link (helpers/app_links.py:14, called from helpers/app_links.py:90), so a server whose answer changes between those fetches is not modelled. `Audit.AllVerified` and `Audit.AuditOutcome` rest on this.
- JSON shapes the typed statement list cannot express. The abstract `parse` stands for `json.loads` together with Python's handling of the value:
  - Shapes Python passes over correspond to statements without a target. Examples are an entry that is a string or list not holding `target`, a top-level string (its characters are iterated and skipped), and a top-level object none of whose keys contains `target` (its keys are iterated and skipped).
  - Shapes on which the loop raises correspond to a parse failure (`MalformedJson`, so `None`). Examples are an entry that is a number, a string or list holding `target` (which is then indexed by a string), a top-level key holding `target`, and a top-level number or `null`.
  - Python raises only when the loop reaches such an entry, so one placed after the first match does not change its result. The model turns it into a failure.
  - A fingerprint field that is a string is iterated by its characters in Python. The model has only lists.
- Relation values that are not a list of strings. `entry['relation']` is handed back as it is (helpers/app_links.py:42), and the classification loop runs outside any `try` (helpers/app_links.py:95-103). The model's `relation` is an optional list of strings, so it does not capture:
  - `"relation": null`: Python returns `None`, and a matching statement is reported as "DAL verification failed", with an exit in CI mode;
  - a list holding a number, a boolean or `null`, such as `[1]` or `[null]`: the `in` test raises an uncaught `TypeError`, which ends the run in either mode;
  - a list holding a list or an object: the `in` test is then a membership test and raises nothing, so `[["x"]]` is shown as Custom and `[["delegate_permission/common.handle_all_urls"]]` as Standard;
  - a number such as `5`: iterating it raises an uncaught `TypeError` too;
  - a string: it is iterated by its characters, each shown as a Custom relation;
  - an object: it is iterated by its keys, and each key is classified by the same substring test, so a key holding a standard relation is shown as Standard.
  - `Audit.AuditOutcome`'s clause that a run outside CI mode completes whenever the marker occurs holds for the typed lists the model admits. So does the matching clause of `Audit.Audit`.
- A fetch that never returns: `requests.get` is called without a timeout (helpers/app_links.py:14), so a server that never answers blocks the run forever. `Network.get` always returns a response, so the completion clauses of `Audit.Audit` and `Audit.AuditOutcome` assume that every fetch returns.
- Repeated deep links: a Python dict cannot hold the same key twice, but the model's handler sequences accept it. A repeated key would be audited twice, and `Manifest.FlagsOf` gives the first item's flags both times.
- Console output:
  - text, colours and blank lines;
  - the dump of the fetched file, printed only with `verbose` (helpers/app_links.py:26-27);
  - the dumps of the tool output and of the split pieces, printed always (helpers/apk_cert.py:11, 14);
  - the `Relations:` header;
  - the help message's text.
  - What the auditor reports is kept as events.
  - The text of a caught exception is kept as its `DalError` kind.
- Process termination: `exit(1)` becomes `Exited(events, 1)`. The events are those reported before it.
- Writing the page to a file (helpers/poc.py:9-11): the method returns the text.
- The console and scheme-extraction helpers are not part of this model. The four flags are plain booleans.
