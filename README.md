# Static declarativeNetRequest rules for Privacy Badger, in Dafny

This project models `scripts/genstaticrules.js`, the build-time generator that writes Privacy Badger's four static declarativeNetRequest rule lists:

- the DNT policy rule: one `allow` rule that lets EFF's DNT policy checks through;
- the DNT/GPC signal rules: two `modifyHeaders` rules that set `DNT: 1` and `Sec-GPC: 1`;
- the gen_204 rules: one `block` rule per Google host, for `ping` beacons to `/gen_204`;
- the redirect-bypass rules: five rules per Google host that unwrap Google's `/url?...` outbound-link redirector.

The generator also extracts the Google hosts from the extension manifest. It takes the first content script that loads `js/firstparties/google.js`, keeps its `https://www.…/*` match patterns, and strips the scheme and the wildcard.

Files:

- `Wrappers.dfy`: `Option`.
- `RuleSchema.dfy`: the rule record (`Rule`, `Action`, `Condition`, `HeaderOp`).
  It also holds what the rule engine asks of a list: unique positive ids and well-formed rules.
  It defines sequential ids (1, 2, ..., n in emission order), which is what the generator produces.
  It says which resource types a condition admits.
- `StaticRules.dfy`: the four builders, the slash escaping for `regexFilter`, and the lemmas about them.
  - The two fixed-list builders are functions.
  - The two looping builders are methods, each with a `rules` sequence and an `id` counter, as in the source.
  - Each method is proved equal to a recursive function that appends one host's rules at a time. The promised list shape is proved about that function.
- `HostExtraction.dfy`: the `find` / `filter` / `map` chain as functions, with JavaScript's `slice` index rules, and the lemmas about the extracted host list.

The priority constants `DNR_DNT_CHECK_ALLOW` and `DNR_DNT_HEADER` live in `src/js/constants.js`, which is not part of this model. They are parameters of type `Priority` (a positive integer).

Points of behaviour the model keeps as the code has them:

- Host extraction takes the first content script that loads `js/firstparties/google.js` and ignores any later match. With no match, `.matches` is read on `undefined` and throws. The model returns `None` in that case.
- Hosts are not validated. Any `https://www.` pattern ending in `/*` is kept, so `https://www.google.com/maps/*` yields `www.google.com/maps`. For such a host, the escaping writes its slashes as `\/` in the `regexFilter`.
- When a condition has no `resourceTypes`, the model takes it to admit every type except `main_frame`. This follows the source's comment on the second signal rule (line 73).

## Model

| member | source | states |
|---|---|---|
| `RuleSchema.SequentialIdsAreUnique` | scripts/genstaticrules.js:80-93 | ids 1..n in emission order are positive, at most n, and pairwise distinct, as the engine requires within one list |
| `StaticRules.MakeDntPolicyRule` | scripts/genstaticrules.js:12-29 | exactly one well-formed rule with id 1, priority DNR_DNT_CHECK_ALLOW, action allow, a `urlFilter` anchored at both ends on `https://*/.well-known/dnt-policy.txt`, no regex; it admits exactly the `xmlhttprequest` resource type |
| `StaticRules.MakeDntSignalRules` | scripts/genstaticrules.js:34-77 | exactly two well-formed rules with ids 1 and 2, both at priority DNR_DNT_HEADER, both modifyHeaders that set `DNT` then `Sec-GPC` to `1`; rule 1 is for `main_frame` only and rule 2 has an empty condition |
| `StaticRules.DntSignalRulesPartitionTypes` | scripts/genstaticrules.js:52-74 | for every resource type, exactly one of the two signal rules admits it |
| `StaticRules.Gen204Rule` | scripts/genstaticrules.js:84-92 | the rule pushed for one host is well formed for a positive id and admits exactly the `ping` resource type |
| `StaticRules.Gen204Rules` | scripts/genstaticrules.js:79-96 | the gen_204 list has exactly one rule per host; the empty host list gives the empty list |
| `StaticRules.Gen204RulesAt` | scripts/genstaticrules.js:83-94 | rule k of the gen_204 list is host k's block rule with id k+1, so hosts are taken in input order and the counter starts at 1 |
| `StaticRules.Gen204RulesShape` | scripts/genstaticrules.js:79-96 | n rules (n hosts) with sequential, unique, well-formed ids; rule k has priority 1, action block, `resourceTypes ['ping']` and a `urlFilter` start-anchored on `https://` + hosts[k] + `/gen_204^` |
| `StaticRules.MakeGen204BlockRules` | scripts/genstaticrules.js:79-97 | the loop that pushes rules and increments the counter returns exactly the gen_204 list of its hosts |
| `StaticRules.EscapeSlashes` | scripts/genstaticrules.js:115 | the escaped host is as long as the host plus its number of slashes |
| `StaticRules.EscapeSlashesConcat` | scripts/genstaticrules.js:115 | the replacement is global and character by character: it distributes over concatenation |
| `StaticRules.EscapeSlashesNoSlash` | scripts/genstaticrules.js:115 | a host with no slash is left unchanged |
| `StaticRules.EscapeSlashesEscapesEverySlash` | scripts/genstaticrules.js:115 | every slash in the escaped host is preceded by a backslash |
| `StaticRules.UnescapeEscapeSlashes` | scripts/genstaticrules.js:115 | turning each backslash-slash back into a slash restores the host, so the escaping loses nothing |
| `StaticRules.RedirectRegex` | scripts/genstaticrules.js:115 | the regexFilter is 35 characters longer than the host, its slashes and the param together; the escaped host starts at position 9 (after `^https://`), and the param sits just before the 20-character capture tail |
| `StaticRules.RedirectRule` | scripts/genstaticrules.js:105-120 | a redirect rule is well formed for a positive id (it has the regex its `\1` refers to) and admits exactly `main_frame` |
| `StaticRules.EncodedUrlAllowRule` | scripts/genstaticrules.js:124-134 | the %-escape allow rule is well formed for a positive id, admits exactly `main_frame`, and has a higher priority than any redirect rule for the same host |
| `StaticRules.HostRedirectRules` | scripts/genstaticrules.js:104-135 | one host contributes five rules with ids firstId..firstId+4, all for `main_frame`: four priority-1 redirects to `\1` with the regexFilter for each param in order, then a priority-2 allow with no regex |
| `StaticRules.RedirectRules` | scripts/genstaticrules.js:99-139 | the redirect list has exactly 5n rules for n hosts |
| `StaticRules.RedirectRulesAt` | scripts/genstaticrules.js:103-136 | host i's rules sit at positions 5i..5i+4: four redirects with ids 5i+1..5i+4 for the four params in order, then the allow rule with id 5i+5 |
| `StaticRules.RedirectRulesIds` | scripts/genstaticrules.js:99-139 | 5n rules with ids 1..5n in emission order, unique and well formed, every one with `resourceTypes ['main_frame']` |
| `StaticRules.RedirectRulesRedirect` | scripts/genstaticrules.js:104-122 | for j < 4, rule 5i+j has id 5i+j+1, priority 1, action redirect with `regexSubstitution` `\1`, no `urlFilter`, and `regexFilter` `^https://` + esc(host) + `/url\?` + param j + `=(https?://[^&]+).*$`, with params `.+&q`, `q`, `.+&url`, `url` |
| `StaticRules.RedirectRulesEncodedAllow` | scripts/genstaticrules.js:123-135 | rule 5i+4 has id 5i+5, priority 2 (above the redirects), action allow, no regex, and a `urlFilter` anchored at both ends on `https://` + host + `/url?*%*` |
| `StaticRules.MakeGoogleRedirectRules` | scripts/genstaticrules.js:99-139 | the nested loop over hosts and params returns exactly the redirect list of its hosts |
| `HostExtraction.SliceIndex` | scripts/genstaticrules.js:156 | a JavaScript slice index is clamped to 0..len: an in-range index is kept, a negative index not below -len counts from the end, an index above len gives len, and one below -len gives 0 |
| `HostExtraction.Slice` | scripts/genstaticrules.js:156 | `String.prototype.slice` is never longer than its input; with 0 <= start <= end <= length it is the substring from start to end, and with 0 <= end <= start it is empty |
| `HostExtraction.HostOf` | scripts/genstaticrules.js:156 | `slice(8).slice(0, -2)` removes exactly the first 8 and the last 2 characters of a pattern of at least ten, and leaves nothing of a shorter one |
| `HostExtraction.FirstGoogleEntry` | scripts/genstaticrules.js:154 | `find` yields the first content script whose `js` list contains `js/firstparties/google.js`, and none exactly when no entry does |
| `HostExtraction.StartsWith` | scripts/genstaticrules.js:155 | definition; no contract: `String.prototype.startsWith` |
| `HostExtraction.EndsWith` | scripts/genstaticrules.js:155 | definition; no contract: `String.prototype.endsWith` |
| `HostExtraction.IsWwwPattern` | scripts/genstaticrules.js:155 | definition; no contract: the filter's test, starts with `https://www.` and ends with `/*` |
| `HostExtraction.KeepWwwPatterns` | scripts/genstaticrules.js:155 | the filter is no longer than its input |
| `HostExtraction.HostsOf` | scripts/genstaticrules.js:156 | the map keeps the length of its input |
| `HostExtraction.ExtractHosts` | scripts/genstaticrules.js:155-156 | the filter followed by the map yields no more hosts than there are match patterns |
| `HostExtraction.GoogleHosts` | scripts/genstaticrules.js:153-156 | the chain fails (`None`) exactly when no content script loads the Google script; otherwise it yields the extracted hosts of the `matches` of the first entry whose `js` list contains `js/firstparties/google.js` |
| `HostExtraction.HostOfWwwPattern` | scripts/genstaticrules.js:155-156 | on a kept pattern the two slices remove exactly `https://` and `/*`; the host still starts with `www.` and rebuilds the pattern |
| `HostExtraction.KeepWwwPatternsConcat` | scripts/genstaticrules.js:155 | the filter distributes over concatenation, so it keeps order and multiplicity |
| `HostExtraction.HostsOfConcat` | scripts/genstaticrules.js:156 | the map distributes over concatenation |
| `HostExtraction.HostsOfAt` | scripts/genstaticrules.js:156 | element k of the map is the host of pattern k |
| `HostExtraction.ExtractHostsConcat` | scripts/genstaticrules.js:155-156 | extraction distributes over concatenation: input order is kept and nothing is deduplicated |
| `HostExtraction.ExtractHostsKeepsDuplicates` | scripts/genstaticrules.js:155-156 | a pattern listed twice yields its host twice |
| `HostExtraction.KeepWwwPatternsSound` | scripts/genstaticrules.js:155 | every kept pattern comes from the input, starts with `https://www.` and ends with `/*` |
| `HostExtraction.KeepWwwPatternsComplete` | scripts/genstaticrules.js:155 | every input pattern that starts with `https://www.` and ends with `/*` is kept |
| `HostExtraction.RebuildExtractHosts` | scripts/genstaticrules.js:155-156 | `https://` + host k + `/*` is exactly kept pattern k, so rebuilding the hosts gives the filtered patterns in their input order |
| `HostExtraction.ExtractHostsMembership` | scripts/genstaticrules.js:155-156 | h is an extracted host if and only if h starts with `www.` and `https://` + h + `/*` is among the matches |

## Left out

- File I/O in `main` (lines 141-171) is not modelled: reading the manifest, `JSON.parse`, `JSON.stringify`, `fs.writeFileSync` and `console.log`. The order in which `main` calls the builders is not modelled either.
- The imports of `./lib/preImportShims.js` and `../src/js/constants.js` (lines 5-7) are not part of this model. The two priority constants are parameters, so nothing is proved about how they rank against other lists' rules.
- How the browser matches `urlFilter` and `regexFilter` patterns and applies the `\1` substitution is not modelled. Filters are strings built by concatenation; the model proves how they are built, not what they match. The one piece of engine meaning used is which resource types a condition admits.
- The manifest is modelled only as a list of content scripts, each with a `js` list and a `matches` list.
- When no content script matches, the source throws a `TypeError` and the model returns `None`; the exception itself is not modelled.
- Determinism needs no lemma: every builder is a function or a method proved equal to one, so the same input always gives the same list.
- Rule objects are modelled as values. JSON key order and serialisation are not modelled.
