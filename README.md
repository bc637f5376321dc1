# Redirect to Local Server: background script model

A Dafny model of the background script (`background.js`) of the
"Redirect to Local Server" browser extension. The extension keeps a list of
redirect records. Each record has a source URL `from`, a destination URL
`to`, an HTTP method, an `enabled` flag and a numeric `redirectRuleId`. For
each enabled record, while the global switch `onOff` is ON, it installs two
dynamic rules in the browser's declarative network-request engine:

- a redirect rule with id `n`, which matches the compiled `from` pattern and
  rewrites the URL with a substitution template compiled from `to`;
- a header rule with id `n + 1`, which sets the request headers captured
  for the record's domain on requests to the compiled `to` pattern.

A request listener captures authorization-like headers from GET
XMLHttpRequests to registered domains and refreshes the matching header
rules.

Modules, in dependency order:

- `Wrappers`, `Seqs`, `Text`: Option, an order-keeping `Filter`, ASCII
  lowercasing, substring search and backslash stripping.
- `Compiler`: the placeholder compiler of `updateRedirectRule`. It turns a
  URL into an escaped, anchored matching pattern and a destination URL into a
  back-reference template.
- `Rules`: rules, the engine's rule table (a map from id to rule), the
  engine's update (remove, then add, refused on clashing ids), installing,
  removing and refreshing a record's pair of rules.
- `Registry`: the record list and its operations (create, update, delete,
  find, disable all, search, next id), and the spacing invariant `Spaced`.
  Under `Spaced`, no two records share an id and no record's `id + 1` is
  another record's id.
- `Capture`: the GET gate, the header keyword filter, pruning and
  registration of domains, and the capture fold over the domain list.
- `Sync`: installing the pairs of a list of records, as the switch-ON loop
  does, and the switch's effect on the table.
- `Setup`: the example records written at install time.
- `Extension`: the class `Extension`. It holds the stored state (`records`,
  `onOff`, the headers stored per domain, the domain list `allDomines`) and
  the engine's rule table. Its methods are the script's handlers and
  helpers. Loops stay loops, proved against the functions of the modules
  above.
- `Install`: the install handler `firstTimeSetup`.

External services become parameters:

- The browser's URL parser (`new URL(u).hostname`) is the function
  `hostOf`. It returns None where the parser throws.
- The clock (`new Date().toISOString()`) is the parameter `now`.
- `chrome.storage.local` is the fields of `Extension.Extension`.
- `chrome.declarativeNetRequest` is the field `rules` and the method
  `UpdateDynamicRules`.

Behaviour of the code that the model keeps and a reader may not expect:

- The substitution template is neither escaped nor anchored. Only the
  matching patterns are.
- `/` is among the escaped characters.
- The switch-ON loop awaits each install. It stops at the first record whose
  `from` does not parse, instead of going on with the next one.
- `reSyncRedirects` disables every record and empties the table. Its
  condition `btn !== 'Enable All'` holds for every `btn` it loops over.
- The domain list is pruned against the records on every GET request.
- Headers are stored under the registered domain that matched. Rules look
  them up under the lowercased host of `from`.
- `triggerMainToggleButton` with a missing status stores OFF but leaves the
  rules as they are. So "OFF means no rule" is promised only for a status
  that is given.

## Model

| member | source | states |
|---|---|---|
| Compiler.Pieces | background.js:475 | a URL splits into one more `#`-free piece than it has maximal runs of `#` |
| Compiler.PiecesJoin | background.js:485 | joining the pieces with one `#` is the URL with every run of `#` collapsed to one `#` |
| Compiler.CompilePattern | background.js:473-476 | the pattern is `^`, then the escaped pieces joined by `(.*)` (one group per run of `#`), then `$` |
| Compiler.UnescapeEscape | background.js:473-474 | escaping loses nothing: removing each backslash escape gives the URL back |
| Compiler.PatternStripRoundTrip | background.js:473-476 | for a URL without `#` or `\`, deleting the backslashes of its pattern gives `^` + URL + `$`; this is what the domain lookup depends on |
| Compiler.Decimal | background.js:486 | the number written for a back-reference is a nonempty string of decimal digits that reads back as the number |
| Compiler.BackRefInjective | background.js:486 | distinct counter values give distinct back-references |
| Compiler.Template | background.js:484-486 | the template is the `#`-free pieces of `to`, unescaped, joined by `\1`, `\2`, ... from left to right, one per run of `#` |
| Compiler.NumberPlaceholders | background.js:484-486 | the `count++` loop replaces the k-th `#` with `\k` and copies every other character |
| Compiler.CompileTemplate | background.js:484-486 | collapsing runs and then numbering gives exactly the template |
| Compiler.TemplateHasNoHash | background.js:485-486 | no `#` survives in a template |
| Compiler.TemplateWithoutPlaceholders | background.js:484-486 | a destination without `#` is its own template: no escaping, no anchors |
| Rules.ApplyUpdateKeyed | background.js:528-531 | an engine update keeps every rule stored under its own id |
| Rules.InstallPair | background.js:488-531 | the update is accepted; the table gains ids `n` and `n + 1`; they hold the redirect rule (priority `n`, lowercased method, xmlhttprequest) and the header rule (priority `n + 1`, `set` operations); every other rule is unchanged |
| Rules.InstallPairIdempotent | background.js:528-531 | installing the same pair twice gives the table of installing it once |
| Rules.RemovePair | background.js:330-332 | the update is accepted; exactly ids `n` and `n + 1` go; all other rules stay |
| Rules.RemoveAll | background.js:376-381 | removing every listed id is accepted and empties the table |
| Rules.GetToken | background.js:540-553 | a stored domain gets its stored headers; any other domain gets a header rule that sets `Authorization` to the empty string |
| Rules.HeaderRuleIds | background.js:206-221 | a rule is found for a domain iff it is a modifyHeaders rule and some rule with id one less has a backslash-stripped filter containing the domain |
| Rules.RefreshStep | background.js:108-120 | each one-rule update is accepted and refreshes one more header rule |
| Rules.RefreshKeepsConditions | background.js:108-120 | a refresh keeps every id, priority and condition; chosen rules get exactly the captured headers; others are unchanged |
| Rules.RefreshKeepsHeaderRuleIds | background.js:108-120 | refreshing header rules leaves the rules found for every domain the same |
| Rules.InstalledPairFoundIff | background.js:206-221 | with every rule under its own id and for a `from` without `#` or `\`, a freshly installed pair's header rule is found for a domain iff `^` + `from` + `$` contains it, so other domains' captures leave it alone |
| Rules.InstalledPairFoundForDomain | background.js:206-221 | once a pair is installed for a `from` (without `#` or `\`) that contains the domain, its header rule is found for that domain and gets the captured headers |
| Registry.MaxId | background.js:445 | the maximum is at least every id and is some record's id |
| Registry.NextId | background.js:445 | a new id is 1 for an empty list, else the largest id + 2; it lies beyond every id and every companion id |
| Registry.Upsert | background.js:425-456 | the new enabled record, with its timestamp, goes in front; on create the rest is the old list; on update the rest is the old list without that id |
| Registry.FindIndex | background.js:316 | the result is -1 exactly when no record has the id; otherwise it is the first index with the id |
| Registry.Search | background.js:266-268 | an empty term keeps the list; otherwise a record is kept iff its `from` or `to` contains the term, ignoring case |
| Registry.SearchKeepsOrder | background.js:266-268 | the search keeps stored order: searching a concatenation searches each part |
| Registry.CreateKeepsSpaced | background.js:443-455 | creating a record keeps the list spaced |
| Registry.UpdateKeepsSpaced | background.js:428-441 | updating an existing id keeps the list spaced and leaves exactly one record with that id, in front |
| Registry.UpsertKeepsSpaced | background.js:425-456 | `AddUpdateRedirect` keeps the list spaced on create and on update of an existing id |
| Registry.SetEnabledKeepsSpaced | background.js:317 | setting one record's flag keeps the list spaced |
| Registry.DisableAllIdempotent | background.js:357-361 | later iterations of the resync repeat the first one's effect on the list |
| Registry.DisableAllKeepsSpaced | background.js:361 | after the resync every record is disabled and the list is still spaced |
| Capture.IsGet | background.js:85 | a request passes the gate iff its method is the three letters g, e, t in any case |
| Capture.IsGetIgnoresCase | background.js:85 | the GET gate does not depend on the method's case |
| Capture.TokenHeaders | background.js:95-96 | a header is kept iff its lowercased name contains a keyword; nothing is added |
| Capture.TokenHeadersConcat | background.js:96 | the kept headers stay in request order |
| Capture.SetCookieNeverMatches | background.js:95-96 | a lowercased name never contains `Set-Cookie` |
| Capture.TokenHeaderByLowerKeywords | background.js:95-96 | a header is kept iff its name contains one of the six lower-case keywords |
| Capture.LatestDomains | background.js:223-238 | a domain stays iff it was listed and some record's `from` contains it, ignoring case |
| Capture.LatestDomainsIdempotent | background.js:86-88 | pruning an already pruned list changes nothing |
| Capture.AppendIfAbsent | background.js:556-568 | registration keeps the list as a prefix, adds exactly the domain, grows the list only when the domain is new, and never creates a duplicate |
| Capture.CaptureDomain | background.js:102-120 | storing a domain's headers sets that domain's entry only; every header rule found for the domain gets the headers; every other rule is unchanged; ids and conditions stay |
| Capture.CaptureEach | background.js:90-122 | the listener loop keeps the rule ids, only adds stored entries for listed domains, and changes nothing when the URL does not parse |
| Capture.CaptureNothingKept | background.js:98-100 | when no header is kept, the listener stores nothing and changes no rule |
| Capture.CaptureEachEffect | background.js:90-122 | the capture loop keeps the rule ids; when the host parses and headers are kept, it stores them under every listed domain the host contains; every other domain keeps its old entry, or stays absent |
| Capture.CaptureEachRules | background.js:106-120 | after the loop, every header rule found for a matched listed domain carries the kept headers (when some are kept); a rule found for no listed domain the host contains is unchanged; no rule changes otherwise |
| Capture.CapturedTokenUsed | background.js:540-553 | after a capture, the header lookup for a matched domain returns the captured headers |
| Sync.InstallRule | background.js:469-538 | an unparsable `from` changes nothing; otherwise ids `n` and `n + 1` get the record's redirect rule and its header rule with the headers stored for the lowercased host, and every other rule stays |
| Sync.InstallEach | background.js:395-397 | the install loop only adds the records' own ids and never changes a rule outside them |
| Sync.SwitchEffect | background.js:373-403 | OFF leaves an empty table; ON only adds the enabled records' ids; any other state changes nothing |
| Sync.InstallEachExact | background.js:392-397 | on spaced records whose URLs parse, the loop installs exactly the records' pairs, each with its two rules, and leaves every other rule |
| Sync.InstallEachStops | background.js:395-397 | the loop stops at the first unparsable `from`: later records get no rules |
| Sync.SwitchOnExact | background.js:390-399 | for a spaced list whose enabled records' `from` URLs all parse, switching ON from an empty table gives a record rules iff it is enabled, and installs only the enabled records' pairs |
| Sync.AdjacentIdsLoseHeaderRule | background.js:509-531 | two records with adjacent ids cannot both keep their pairs: the first one's header rule is replaced by the second one's redirect rule |
| Setup.SeedAsWrittenClashes | background.js:14-49 | the example ids 1 to 5 are adjacent, so the example list is not spaced |
| Setup.SeedAsWrittenLosesHeaderRule | background.js:14-28 | enabling the first two examples as written and switching ON leaves rule 2 a redirect rule, not the first record's header rule |
| Setup.SeedKeepsRecords | background.js:14-49 | the corrected list holds the five written records, in order, with only their ids changed |
| Setup.SeedSpaced | background.js:14-49 | the corrected example list is spaced |
| Extension.Extension.UpdateDynamicRules | background.js:528-531 | an update is applied iff the engine accepts it, and otherwise changes nothing |
| Extension.Extension.UpdateRedirectRule | background.js:469-538 | the table becomes the old table with the record's pair installed, using the headers stored for the lowercased host; unchanged when `from` does not parse |
| Extension.Extension.RemoveRedirectRule | background.js:330-340 | the table loses exactly the pair's two ids |
| Extension.Extension.UpdateRulesBasedOnOnOff | background.js:373-403 | OFF empties the table; ON runs the install loop over the enabled records up to the first unparsable one; any other state changes nothing |
| Extension.Extension.TriggerMainToggleButton | background.js:405-416 | the stored switch is the status, or OFF when it is missing; the rules follow the status; a given status OFF leaves no rule |
| Extension.Extension.SetDomainArr2 | background.js:556-568 | the domain list gets the domain appended unless it is already listed |
| Extension.Extension.StoreRedirect | background.js:425-456 | the list is the upserted list, and the returned id is the id of the new record |
| Extension.Extension.AddUpdateRedirect | background.js:418-466 | the record is stored in front; its pair is installed under its id iff the switch is ON; the lowercased host is registered; "OFF means no rule" is kept |
| Extension.Extension.DeleteRedirect | background.js:342-353 | every record with the id goes, and so does its pair, whatever the switch |
| Extension.Extension.EnableDisableRedirect | background.js:312-328 | found iff some record has the id; if not found, nothing changes; if found, the first such record gets the flag, and its pair is installed when the flag is true and the switch is ON, else removed |
| Extension.Extension.ReSyncRedirects | background.js:355-371 | every record ends disabled and the table ends empty |
| Extension.Extension.RefreshHeaderRules | background.js:106-120 | each header rule found for the domain in the current table gets the captured headers; nothing else changes |
| Extension.Extension.RefreshRules | background.js:108-120 | the loop of one-rule updates gives the table with exactly the chosen rules refreshed |
| Extension.Extension.OnBeforeSendHeaders | background.js:83-123 | a non-GET request changes nothing; a GET prunes the domain list and leaves headers and rules as the capture fold gives them; no rule is added or removed; "OFF means no rule" is kept |
| Extension.Extension.GetAllData | background.js:262-270 | the answer is the search over the stored list, in stored order, and the stored switch |
| Install.StoreSeed | background.js:13-54 | the stored list is the corrected example list (ids 1, 3, 5, 7, 9 instead of the written 1 to 5; see "## Left out"), which is spaced, and the switch is OFF |
| Install.FirstTimeSetup | background.js:7-79 | with no stored list, the written examples with corrected ids and OFF are stored and the list is spaced; an existing list is kept; in every case the table ends empty |

## Findings

| source | as written | input that shows it | evidently intended | confidence | as-written member | corrected member |
|---|---|---|---|---|---|---|
| background.js:20-48 | the five example records get the ids 1, 2, 3, 4, 5 | enable the first two examples (ids 1 and 2) and switch ON: the header rule 2 of the first record is replaced by the redirect rule 2 of the second | ids spaced by two, as `AddUpdateRedirect` gives them (background.js:445), so that each record owns `id` and `id + 1` | not executed | Setup.SeedAsWrittenClashes, Setup.SeedAsWrittenLosesHeaderRule | Setup.SeedSpaced, Setup.SeedKeepsRecords (about Setup.Seed, which Install.FirstTimeSetup stores) |

## Left out

- Text.ToLower: lowercases ASCII letters only. JavaScript's `toLowerCase` also maps other Unicode letters.
- Regular-expression semantics: patterns and templates are modelled as strings. Matching a request and applying a substitution are not modelled.
- The engine's rejection of an invalid regular expression or an unsupported substitution is not modelled. The only refusal modelled is for clashing ids.
- The ordering of the engine's rule list: the table is a map. `RefreshRules` visits the chosen ids in an arbitrary order. Each update touches only its own rule, so the order does not change the result.
- Asynchrony: the callbacks and unawaited promises run one after the other. Interleavings are not modelled. This includes the four iterations of `reSyncRedirects`, which in the source run concurrently.
- Storage errors (`chrome.runtime.lastError`) and failed engine callbacks are not modelled. Every storage write succeeds.
- `showWarningPopupLogic`, `displayExtensionMessage` and `getAppOnOffState` (background.js:135-194) are left out. They only show an on-page banner and do not touch records or rules.
- The toolbar click handler (background.js:243-258) is left out. It only manages tabs.
- The external message dispatcher (background.js:261-310) only routes each message to the modelled handler. Only its `GetAllData` branch is modelled, as `GetAllData`.
- The `tempString` and `lastUpdateDate` entries written at install (background.js:60-62) are left out. No modelled operation reads them.
- `onInstalled` with a reason other than `install` does nothing and is not modelled. `FirstTimeSetup` is the install branch. `redirectsStored` stands for `data.redirects` being present.
- Console logging is left out.
- content.js is not part of this model.
- Extension.Extension.OnBeforeSendHeaders: stands for XMLHttpRequests only, the one type the listener is registered for (background.js:124-127). The request type is not modelled, so other request types are outside the model.
- Install.FirstTimeSetup, Install.StoreSeed: store the example records with the corrected ids 1, 3, 5, 7, 9 (`Setup.Seed`) where background.js:20-48 writes 1 to 5. The list as written is `Setup.SeedAsWritten`, and what it leads to is stated by `Setup.SeedAsWrittenClashes` and `Setup.SeedAsWrittenLosesHeaderRule` (see "## Findings").
- Extension.Extension.OnBeforeSendHeaders, Rules.GetToken: captured headers live in their own map (`tokens`), apart from `records`, `onOff` and `allDomines`. In the source they share one storage namespace, keyed by the domain (background.js:102, 542-545). A registered domain named `redirects`, `onOff` or `allDomines` would overwrite that entry, and `getToken` would read it back. The model does not capture this aliasing.
- Extension.Extension.EnableDisableRedirect: `status` is a boolean. The source accepts any truthy or falsy value.
- Extension.Extension.EnableDisableRedirect: the source compares ids with loose `==`, and `parseInt` / unary `+` convert string ids. Ids here are integers throughout.
- Extension.Extension.TriggerMainToggleButton: the empty string stands for every falsy `status`.
- Registry.UpsertKeepsSpaced: proved for a create, and for an update whose id is in the list. The source also accepts an update with an unknown id, and that can break spacing.
- Sync.InstallEachExact: stated for spaced records whose URLs all parse. `Sync.InstallEachStops` covers the unparsable case, and `Sync.AdjacentIdsLoseHeaderRule` covers unspaced ids.
- The stored switch `onOff: ['OFF']` is modelled by its first element. A missing `onOff` reads as OFF.
- Timestamps: `now` is a parameter. Its ISO-8601 format is not modelled.
