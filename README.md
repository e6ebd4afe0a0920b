# Ruanm-OW core logic in Dafny

A model of the logic inside the Ruanm-OW website and its status tool, with proofs about that model. Each module below covers one source file.

- **StatusStore** — the command-line status tool `addstatus.py`.
  - The store is a JSON array of `{id, name, status, uptime, lastUpdated}` records. Each run reads it fresh and writes it back whole. A missing or corrupt file reads as an empty collection.
  - Add-or-update scans the records for an id. Delete filters them.
  - `main` maps argv to help, list, delete or add-or-update.
  - The file is the class `Disk`. Its read and write counters let the contracts say when a command does not touch the store.
- **StatusApi** — `app/api/status/route.ts`, the HTTP twin of the same store.
  - It uses the same read and write steps, here held by `StatusStore.Disk` (`readStatuses` and `writeStatuses`, lines 22-45).
  - There are two differences from the tool. POST does not check the status value, and DELETE writes even when nothing matched.
- **StatusPage** — the status page.
  - It maps a status to its icon, label and style.
  - The overall status is operational only for a non-empty list whose records are all operational.
  - The uptime breakdown into days, hours, minutes and seconds uses JavaScript's flooring division and sign-keeping `%`.
- **OAuthAuthorize** — the OAuth authorization page.
  - The redirect-URI validator checks the requested URI against the application's registered one.
  - The approval redirect follows section 4.1.2 of RFC 6749, and the cancel redirect section 4.1.2.1.
  - It builds the redirect with a URL object, or by string concatenation for custom schemes.
  - Authorization codes are 32 letters and digits and expire after 10 minutes.
- **OAuthToken** — the token endpoint. It handles the authorization-code grant and the refresh-token grant of RFC 6749: section 4.1.3 and section 6, with errors as in section 5.2 and the success response as in section 5.1. It also generates tokens.
- **Alphanumeric** — the random letter-and-digit generator that both OAuth files contain.
- **ProductSearch** — the product list's fuzzy search.
  - A query matches when it is a subsequence of a title's or a description's search text, or a substring of the product's detail URL. The text is walked by characters but the query is split into UTF-16 code units, so a query character beyond U+FFFF never matches by title or description.
  - The product card and the product modal add `?isbeta=true` to the detail link only when they are given a beta application naming that product. The section never gives one: its `betaApplication` state starts as null and is never set, so every link on the page is the plain detail URL. The separate `has_beta_access` check only sets a flag that no link reads.
- **DocsBlocks** — the documentation page's section renderer.
  - It groups table runs, ordered lists and paragraphs.
  - It renders tables and heading levels.
  - It also holds the document search.
- **OAuthDocs** — the OAuth documentation page's line-by-line renderer. It is a state machine with a code-block mode and a table mode, plus the filter that decides which table rows are valid.
- **Konami** — the Konami-code easter egg's sliding window of key codes.
- **StorageManager** — the storage wrapper `lib/storage-manager.ts`.
  - It writes to localStorage, and also to a cookie once the user has accepted cookies.
  - Reads prefer the cookie when cookies are accepted.
  - The model includes the `document.cookie` parser and the clear operation.
- **UserAccount** — the account page's password change, the three-step account-deletion dialog, and the username fallback.

`Text` and `Wrappers` are shared helpers. They provide JavaScript/Python trimming, ASCII lowercasing, split and join, substring and subsequence tests, filter, JavaScript's UTF-16 `length`, and `Option`.

Each file is modelled in the style its code is written in:
- Step-by-step code is written as methods with loops and class fields: the store and its commands, the POST and DELETE handlers, the two renderers, the match loop, the cookie parser, the storage wrapper and the account page.
- Each such method is proved against a specification function. The lemmas about those functions state what the source promises.
- Expression-only code is written as functions and lemmas.

Where the code and the design description disagree, the model follows the code:
- `main` in addstatus.py lowercases the command word before it tests for a status word. So `DOWN`, `Down` and `down` are all refused as ids (`StatusStore.ParseArgs`).
- In the OAuth docs renderer, a fence line does not flush an open table. Rows before and after a code block end up in one table (`OAuthDocs.FenceKeepsTableOpen`).

## Model

| member | source | states |
|---|---|---|
| StatusStore.Disk.ReadStatuses | addstatus.py:21-31 | reading never fails: it returns the file's records, or [] for a missing or corrupt file, and counts one read |
| StatusStore.Disk.WriteStatuses | addstatus.py:33-42 | the write succeeds exactly when the environment allows it; on success the file holds exactly the given records; it counts one write |
| StatusStore.WriteThenRead | addstatus.py:21-42 | writing a collection and reading it back gives the same collection |
| StatusStore.IndexOfId | addstatus.py:49-53 | None exactly when no record has the id; otherwise the first position holding it |
| StatusStore.FindExisting | addstatus.py:49-53 | the scan loop finds the first index whose record has the id, or none |
| StatusStore.Upserted | addstatus.py:55-70 | absent id: exactly one record with uptime 0 is appended, earlier records unchanged; present id: same length, the first match gets the new name, status and timestamp and keeps its id and uptime, every other record (later duplicates included) unchanged |
| StatusStore.UpsertKeepsUnique | addstatus.py:49-70 | if ids are unique before add-or-update they are unique after |
| StatusStore.UpsertIds | addstatus.py:49-70 | afterwards the id is present, and the set of ids grows by exactly that id |
| StatusStore.UpsertTwiceSameLength | addstatus.py:49-70 | two identical add calls leave the same length as one, at most one more than before |
| StatusStore.AddStatus | addstatus.py:44-75 | reads once and writes once; returns true exactly when the write succeeded, and then the file holds the updated collection; the updated/added message is printed whether or not the write succeeds, and the timestamp line only on success |
| StatusStore.WithoutId | addstatus.py:81 | keeps exactly the records whose id differs, in their original order (a subsequence); shorter exactly when the id was present |
| StatusStore.DeleteRemovesOne | addstatus.py:79-83 | with unique ids, deleting a present id removes exactly one record |
| StatusStore.DeleteStatus | addstatus.py:77-89 | writes only when the filter removed something, and then stores the filtered records and prints the deletion message on success; otherwise it prints not-found, returns false, and the file and write count stay unchanged |
| StatusStore.StatusLabelCases | addstatus.py:101-105 | the label is 未知 exactly for a value outside operational/degraded/down; the three known values get three different labels |
| StatusStore.ListingLayout | addstatus.py:100-111 | the listing body has five lines per record, record k at lines 5k to 5k+4, and its status line carries the label of its stored status |
| StatusStore.ListStatuses | addstatus.py:91-111 | prints the listing for the stored records, and only 暂无状态数据 when there are none; reads once |
| StatusStore.ParseArgs | addstatus.py:113-162 | fewer than 2 arguments: help. The command word is compared lowercased. A status word in first place is refused whatever follows. delete needs an id. Otherwise fewer than 4 arguments is refused. The status is lowercased and must be one of the three values. id and name are taken verbatim. Each command is given as an if-and-only-if over argv |
| StatusStore.Run | addstatus.py:113-162 | help and every argument error leave the disk untouched, not even read; list only reads; delete writes exactly when the id was present and prints not-found, nothing, or the deletion message by presence and write outcome; add reads and writes once, stores the upserted collection, and prints the added/updated message followed by the timestamp line only when the write succeeds |
| StatusStore.MixedCaseUpdate | addstatus.py:153-162 | example: updating svc-a with status DOWN stores down and keeps the record's uptime |
| StatusApi.UpsertGrowsByAtMostOne | app/api/status/route.ts:64-84 | the POST upsert never shrinks the collection and grows it by at most one |
| StatusApi.Get | app/api/status/route.ts:47-50 | GET returns the stored records, [] for a missing or corrupt file |
| StatusApi.Post | app/api/status/route.ts:52-103 | an unparseable body gives 500 with no store access; a falsy id, name or status gives 400 with no store access; otherwise it reads and writes once, with no check of the status value, and answers with the upserted records exactly when the write succeeded, else 500 |
| StatusApi.Delete | app/api/status/route.ts:105-136 | no id gives 400 with no store access; otherwise every record with the id is removed, the others keep their order, and the result is written even when nothing matched; success or 500 follows the write |
| StatusPage.StatusMappings | app/status/page.tsx:65-102 | icon, style and label are the gray default / 未知 exactly for values outside the three statuses; the page's labels equal the command-line tool's labels |
| StatusPage.StatusMappingsDistinct | app/status/page.tsx:65-102 | two different known statuses get different icons, styles and labels |
| StatusPage.EveryOperational | app/status/page.tsx:104 | true exactly when every record's status is operational |
| StatusPage.OverallStatus | app/status/page.tsx:104 | operational exactly when the list is non-empty and all records are operational; otherwise (including the empty list) degraded |
| StatusPage.BreakdownInRange | app/status/page.tsx:35-39 | for elapsed time at or after the start: days >= 0, hours < 24, minutes < 60, seconds < 60, and the parts add up to the elapsed milliseconds rounded down to a whole second |
| StatusPage.BreakdownBeforeStart | app/status/page.tsx:35-39 | before the start date the days are negative and hours, minutes and seconds lie between their negated bound and 0 |
| OAuthAuthorize.SchemeOnlyAsWrittenCases | app/oauth/authorize/page.tsx:85-87 | the scheme clause's split test holds exactly when the first "://" ends the URI or is immediately followed by another "://" |
| OAuthAuthorize.RedirectUriRules | app/oauth/authorize/page.tsx:80-88 | a missing or empty request is refused; an exact match is accepted; a registered URI ending in '/' accepts exactly the URIs extending it; any other registered URI outside the scheme clause accepts itself and the URIs extending it past a '/' |
| OAuthAuthorize.SchemeAndPath | app/oauth/authorize/page.tsx:84-87 | a URI of a scheme, "://" and a non-empty path, none of them holding ':', is outside the scheme clause |
| OAuthAuthorize.PrefixNeedsSlash | app/oauth/authorize/page.tsx:82-83 | outside the scheme clause, a registered URI without a trailing '/' accepts an extension of itself exactly when the extension is empty or starts with '/' |
| OAuthAuthorize.SlashRuleForPlainUris | app/oauth/authorize/page.tsx:81-83 | example: for a registered URI such as https://a/cb, what follows it must start with '/': https://a/cbx is refused and https://a/cb/x is accepted |
| OAuthAuthorize.SchemeClauseAcceptsRepeatedSeparator | app/oauth/authorize/page.tsx:85-87 | any registered URI whose first "://" is immediately repeated passes the scheme clause and accepts every URI starting with it |
| OAuthAuthorize.SchemeClauseAcceptsLongerPaths | app/oauth/authorize/page.tsx:85-87 | a registered URI scheme://://path (path not ending in '/') accepts any extension that does not start with '/'; the intended validator refuses it |
| OAuthAuthorize.IntendedSchemeClause | app/oauth/authorize/page.tsx:84-87 | with the intended clause a bare scheme such as ruanmow:// accepts exactly the URIs starting with it, and the clause adds nothing beyond the exact and slash rules |
| OAuthAuthorize.ConsentNeedsRegisteredPrefix | app/oauth/authorize/page.tsx:67-94 | consent is asked only for a known client and a non-empty requested redirect URI that begins with the registered one, whichever validator clause accepts it |
| OAuthAuthorize.RedirectParams | app/oauth/authorize/page.tsx:218-272 | the approval parameters start with code and end with user_profile; state is there exactly when one was supplied, with the client's value; no other key appears |
| OAuthAuthorize.DenialRedirectParams | app/oauth/authorize/page.tsx:311-331 | the denial parameters start with error=access_denied and carry error_description; state is there exactly when supplied; they carry no code |
| OAuthAuthorize.FallbackUrl | app/oauth/authorize/page.tsx:277-283 | refused exactly for a blank URI; otherwise the URI, then '&' when it already holds '?' and '?' when not, then the encoded parameters |
| OAuthAuthorize.GenerateAuthorizationCode | app/oauth/authorize/page.tsx:346-353 | 32 characters, each an ASCII letter or digit |
| OAuthAuthorize.HandleAuthorize | app/oauth/authorize/page.tsx:166-300 | nothing happens without a user and client; a missing user id fails before any insert; otherwise the row holds a 32-character code, the client, user, redirect URI, scopes and an expiry 10 minutes on; then an insert error, a missing redirect URI or a redirect, in that order |
| OAuthAuthorize.HandleCancel | app/oauth/authorize/page.tsx:303-344 | without a redirect URI the error 缺少重定向URI; otherwise the denial redirect by the same two paths |
| OAuthToken.Rotated | app/oauth/token/route.ts:157-164 | the update replaces access token, refresh token and expiry of the rows with the looked-up id and leaves every other row as it was |
| OAuthToken.TokenEndpoint | app/oauth/token/route.ts:6-194 | every error leaves the tables unchanged; a success needs known client credentials and hands out the two given tokens as Bearer with expires_in 3600 |
| OAuthToken.ShapeErrorsBeforeLookup | app/oauth/token/route.ts:12-186 | a missing grant_type gives invalid_request; a missing parameter of either grant gives invalid_request 400; an unknown grant gives unsupported_grant_type; all of these regardless of the tables |
| OAuthToken.BadClientIs401 | app/oauth/token/route.ts:29-41 | for a well-formed request of either grant, client credentials matching no single application give invalid_client with status 401 |
| OAuthToken.CodeExchange | app/oauth/token/route.ts:44-110 | code checks in order: unknown for this client, then expiry strictly before now (so expiry equal to now is accepted), then a different redirect URI; then a failed insert gives server_error with the tables unchanged; success returns Bearer, 3600 and the code's scopes, adds exactly one token row for the code's user, deletes exactly the rows of that code and keeps applications |
| OAuthToken.CodeSingleUse | app/oauth/token/route.ts:98-102 | after a successful exchange the same request is refused as an unknown code |
| OAuthToken.RefreshRotation | app/oauth/token/route.ts:112-179 | an unknown refresh token for this client gives invalid_grant; otherwise a failed update gives server_error 500 (令牌更新失败) with the tables unchanged, and a successful one replaces both tokens of the row, the old scopes are returned, applications and codes are untouched, and the old refresh token no longer matches when it differs from the new one |
| OAuthToken.RotationRetiresToken | app/oauth/token/route.ts:137-164 | after rotating the one row a refresh token matched, no row matches that token |
| OAuthToken.GenerateToken | app/oauth/token/route.ts:196-203 | exactly n characters, each an ASCII letter or digit |
| OAuthToken.HandleTokenRequest | app/oauth/token/route.ts:74-179 | the response is the decision chain's answer for some pair of 64-character alphanumeric tokens |
| Alphanumeric.AlphabetIsAlnum | app/oauth/authorize/page.tsx:347 | the alphabet has 62 characters and holds exactly the ASCII letters and digits |
| Alphanumeric.RandomString | app/oauth/token/route.ts:196-203 | a string of the requested length over the letters and digits |
| ProductSearch.MatchIn | components/products-section.tsx:298-324 | the match loop succeeds exactly when the query is non-empty, has no character beyond U+FFFF (such a character splits into two UTF-16 units that equal nothing in the text) and is a subsequence of the text |
| ProductSearch.ProductMatches | components/products-section.tsx:286-328 | a product matches by its title text or description text under the match loop, or by substring inclusion in the lowercased detail URL |
| ProductSearch.FilterProducts | components/products-section.tsx:281-330 | all products for an empty or blank query; otherwise exactly the products the match predicate keeps, in their order |
| ProductSearch.SelectedByIsFilter | components/products-section.tsx:282-328 | selecting products on prefixes, as the loop does, is the filter by the same test |
| ProductSearch.SelectedIsFilter | components/products-section.tsx:282-328 | the selection for a query is the filter by the match predicate |
| ProductSearch.BlankQueryKeepsAll | components/products-section.tsx:281-284 | a query that is blank once lowercased keeps every product |
| ProductSearch.FilteredIsOrderedSelection | components/products-section.tsx:281-330 | the result is a subsequence of the products in their original order and holds every product the query matches |
| ProductSearch.EmojiTitleNotMatched | components/products-section.tsx:298-311 | example: the title "😀" is not matched by the query "😀", since the query's two UTF-16 units equal no character of the title |
| ProductSearch.SubstringMatches | components/products-section.tsx:298-324 | a query occurring contiguously in a product's title text matches it when it has no character beyond U+FFFF; a query with such a character matches only through the detail URL |
| ProductSearch.ProductKey | components/products-section.tsx:11-17 | exactly the ids 1 to 5 have a product key |
| ProductSearch.DetailHrefCases | components/products-section.tsx:24 | no beta application means the plain link (the only case the section produces, since its application state is never set); for the five known products the suffix appears exactly when the application names that product; the link always starts with detailUrl |
| DocsBlocks.TablePass | app/docs/page.tsx:855-881 | the first pass yields one table block per maximal run of lines whose trimmed text starts with '\|', and keeps every other non-blank line in order |
| DocsBlocks.ListPass | app/docs/page.tsx:884-904 | consecutive list items merge into one ordered list; every other kept line is its own paragraph |
| DocsBlocks.GroupBlocks | app/docs/page.tsx:855-904 | the section's blocks are the table blocks followed by the list and paragraph blocks of its lines |
| DocsBlocks.GroupHasNoTables | app/docs/page.tsx:884-904 | the second pass never yields a table |
| DocsBlocks.TablesFirst | app/docs/page.tsx:869-904 | all table blocks come before every list and paragraph, wherever they stood in the text; block i is a table exactly when i is below the number of runs |
| DocsBlocks.RunsHoldTableLines | app/docs/page.tsx:860-871 | the runs together hold exactly the table lines, in source order |
| DocsBlocks.TableBlocksLines | app/docs/page.tsx:869-881 | the table blocks hold as many lines as the runs |
| DocsBlocks.GroupKeepsLines | app/docs/page.tsx:886-904 | every kept line lands in exactly one list item or paragraph |
| DocsBlocks.NonBlankSplits | app/docs/page.tsx:861-875 | the non-blank lines are the table lines plus the kept lines, never both |
| DocsBlocks.LayoutKeepsLines | app/docs/page.tsx:855-904 | the blocks hold as many lines as the section has non-blank lines |
| DocsBlocks.RenderTable | app/docs/page.tsx:909-913 | nothing for fewer than three non-blank lines; otherwise the header is line 0's cells and the body is the cells of lines 2 onward |
| DocsBlocks.RenderHeading | app/docs/page.tsx:943-955 | a heading exactly for a paragraph starting with '#'; the level is the number of leading '#'; the tag is h2, h3 or h4 for levels 1 to 3 and h5 beyond; the text is the rest, trimmed |
| DocsBlocks.HeadingTags | app/docs/page.tsx:943-955 | example: "# A", "### A" and "##### A" render as h2, h4 and h5 with text A |
| DocsBlocks.FilteredDocumentsSelection | app/docs/page.tsx:740-748 | the search keeps documents in order, keeps every matching document, and for a non-empty query keeps only matching ones |
| OAuthDocs.FenceLanguage | app/docs/oauth/page.tsx:702 | the fence's language is never empty |
| OAuthDocs.FenceLanguageCases | app/docs/oauth/page.tsx:701-705 | an opening fence directly followed by a word names that word's language; a bare fence names text |
| OAuthDocs.SeparatorHasNoContent | app/docs/oauth/page.tsx:719-720 | a separator row holds only bars, dashes and white space |
| OAuthDocs.ValidRowIff | app/docs/oauth/page.tsx:716-722 | a row is kept exactly when, trimmed, it starts with '\|' and holds something besides bars, dashes, colons and white space |
| OAuthDocs.Flush | app/docs/oauth/page.tsx:715-724 | no table when no row is valid; otherwise one table of the valid rows in order |
| OAuthDocs.Classify | app/docs/oauth/page.tsx:751-775 | "## " gives h3 of the rest, "### " gives h4, "- **" gives li without the dash; a blank line gives nothing; at most one element, and a paragraph always holds the whole line |
| OAuthDocs.RenderSection | app/docs/oauth/page.tsx:658-837 | the loop's elements are those of the line-by-line state machine, with an open table flushed at the end |
| OAuthDocs.StepCases | app/docs/oauth/page.tsx:666-800 | every branch of one line's step: a closing fence emits exactly one code element of the collected text in the opening language and resets buffer and language, an opening fence emits nothing and sets the language, and fences leave the table rows alone; inside code any other line is appended with a newline and nothing else changes; outside code a '\|' line is collected, starting a new set of rows after a non-table line; any other line flushes pending rows and is then classified itself |
| OAuthDocs.ElementsOnlyGrow | app/docs/oauth/page.tsx:665-801 | every line only appends elements: the elements after a prefix of the lines are a prefix of the final ones |
| OAuthDocs.OpenCodeEmitsNothing | app/docs/oauth/page.tsx:803-835 | a code block still open at the end emits nothing |
| OAuthDocs.FenceKeepsTableOpen | app/docs/oauth/page.tsx:666-713 | a code block between table rows does not flush them: rows on both sides end up in one table |
| Konami.KonamiShape | components/konami-code-easter-egg.tsx:5-16 | a fact about the constant: the code has ten comma-free key codes and its last key occurs nowhere earlier |
| Konami.Last | components/konami-code-easter-egg.tsx:26 | the window is the last n codes, or all of them when there are fewer |
| Konami.Press | components/konami-code-easter-egg.tsx:25-36 | the stored sequence never exceeds the code's length; triggering is never undone; a new trigger empties the sequence and shows the message; otherwise the sequence is the new window |
| Konami.MatchIsEquality | components/konami-code-easter-egg.tsx:28 | for comma-free codes the joined comparison is sequence equality |
| Konami.PressCases | components/konami-code-easter-egg.tsx:25-36 | a press triggers exactly when the new window equals the code |
| Konami.TargetTriggersOnLastKey | components/konami-code-easter-egg.tsx:24-36 | typing a comma-free code whose last key is unique, after any reachable history, leaves the window of the typed codes untriggered until its last key and triggers on it |
| Konami.KonamiTriggersOnTenthKey | components/konami-code-easter-egg.tsx:5-36 | typing the Konami code triggers on the tenth key and not on an earlier one |
| StorageManager.Lookup | lib/storage-manager.ts:15-25 | a cookie of the name exists exactly when one appears in the jar |
| StorageManager.Upsert | lib/storage-manager.ts:8-13 | after the write the name reads back the new value and every other name reads as before |
| StorageManager.UpsertWellFormed | lib/storage-manager.ts:8-13 | a write of a valid name and value keeps the jar parseable |
| StorageManager.ExpireFacts | lib/storage-manager.ts:58 | expiring keeps every other cookie, in order (a subsequence), and no cookie of the name; it keeps a well-formed jar well formed; lookups of other names are unchanged |
| StorageManager.StripBlanks | lib/storage-manager.ts:21 | the stripped entry is empty or does not start with a space |
| StorageManager.CookieRoundTrip | lib/storage-manager.ts:15-25 | parsing the cookie string of a well-formed jar finds the first cookie of the name and returns its value, null when there is none |
| StorageManager.SetThenGet | lib/storage-manager.ts:27-50 | after setItem getItem returns that value, with or without cookie consent and whatever the cookie days |
| StorageManager.RemoveThenGet | lib/storage-manager.ts:37-60 | after removeItem getItem returns null |
| StorageManager.ClearKeepsCookies | lib/storage-manager.ts:62-76 | with consent and cookies present, clear as written keeps every cookie; the intended clear leaves none |
| StorageManager.Storage.SetCookie | lib/storage-manager.ts:8-13 | a positive number of days stores the cookie, any other expires it; nothing happens without a window |
| StorageManager.Storage.GetCookie | lib/storage-manager.ts:15-25 | the parse loop returns the text after name= in the first entry starting with it once its leading spaces are gone, and null without a window |
| StorageManager.Storage.SetItem | lib/storage-manager.ts:27-35 | localStorage always gets the value; the cookie is written only with consent |
| StorageManager.Storage.GetItem | lib/storage-manager.ts:37-50 | with consent an existing cookie wins, otherwise the localStorage value; null without a window |
| StorageManager.Storage.RemoveItem | lib/storage-manager.ts:52-60 | localStorage always loses the key; the cookie is expired only with consent |
| StorageManager.Storage.ExpireListedCookies | lib/storage-manager.ts:68-74 | expiring every cookie named in the cookie string leaves a well-formed jar empty |
| StorageManager.Storage.ExpireIfConsented | lib/storage-manager.ts:67-75 | with consent a well-formed jar is emptied; without it the jar is unchanged |
| StorageManager.Storage.ClearAsWritten | lib/storage-manager.ts:62-76 | localStorage is emptied, and the consent test that follows always fails, so the jar is always unchanged |
| StorageManager.Storage.Clear | lib/storage-manager.ts:62-76 | with the consent check made first: localStorage is emptied; with consent a well-formed jar is emptied; without it the jar is unchanged |
| StorageManager.Storage.SetJSON | lib/storage-manager.ts:78-81 | stores the value's JSON text as setItem does |
| StorageManager.Storage.GetJSON | lib/storage-manager.ts:83-91 | null when the item is missing or its text does not parse, else the parsed value |
| UserAccount.EmailLocalPart | app/user/page.tsx:357 | the email's text before its first '@', or the whole email without '@'; undefined exactly without an email |
| UserAccount.UsernameFallback | app/user/page.tsx:357 | the expected username is the profile name, else the metadata username, else the email's local part; with none of them no typed name matches |
| UserAccount.EmailUsername | app/user/page.tsx:400 | example: for a user known only by email the expected username is the email up to its '@' |
| UserAccount.PasswordChecks | app/user/page.tsx:256-283 | a change is attempted exactly when both passwords are non-blank, the new one has at least six UTF-16 code units before trimming, it is confirmed and it differs from the current one; the blank and length messages come in that order |
| UserAccount.ThreeEmojiPasswordAccepted | app/user/page.tsx:270 | example: "😀😀😀" is six UTF-16 code units, so it passes the length check and is accepted as a new password |
| UserAccount.BlankLongPasswordRefused | app/user/page.tsx:265-273 | example: six spaces pass the length check but are refused as blank first |
| UserAccount.ErrorText | app/user/page.tsx:337 | the error text is never empty |
| UserAccount.DeleteProblem | app/user/page.tsx:357-365 | deletion proceeds exactly when the username matches and the phrase is 注销我的用户 |
| UserAccount.NextStepOf | app/user/page.tsx:394-407 | the step never decreases and stays within 1 to 3 |
| UserAccount.PrevStepOf | app/user/page.tsx:409-414 | the step never increases and stays within 1 to 3 |
| UserAccount.PressesStayInRange | app/user/page.tsx:394-414 | from step 1 or 2, any run of next/previous presses stays on steps 1 to 3 and reaches step 3 only when the username matches |
| UserAccount.TwoNextsReachFinalStep | app/user/page.tsx:394-407 | example: from step 1, two presses of next reach step 3 exactly when the username matches |
| UserAccount.UserPage.constructor | app/user/page.tsx:30-45 | the dialog starts at step 1 with every field empty and no flag set |
| UserAccount.UserPage.NextStep | app/user/page.tsx:394-407 | 1 goes to 2; 2 goes to 3 only with a matching username and otherwise reports 用户名输入不正确; 3 stays; the step stays valid |
| UserAccount.UserPage.PrevStep | app/user/page.tsx:409-414 | back one step, never below 1; the error is cleared |
| UserAccount.UserPage.CancelDelete | app/user/page.tsx:416-422 | the dialog closes at step 1 with both confirmations and the error cleared |
| UserAccount.UserPage.DeleteUser | app/user/page.tsx:352-392 | deletion is requested exactly when both confirmations pass; sign-out follows exactly when it succeeds; the first failed check or the server error becomes the message |
| UserAccount.UserPage.ChangePassword | app/user/page.tsx:256-341 | the first failed check sets its message, clears the success message and leaves the fields and the busy flag alone; otherwise the busy flag ends cleared, success clears the three fields and shows 密码修改成功！, failure reports 修改密码失败： with the error text, and a missing stored profile changes no message |
| UserAccount.UserPage.CancelChangePassword | app/user/page.tsx:343-350 | the dialog closes with the three password fields and both messages cleared |

## Left out

- File and JSON I/O are not modelled: the files, directory creation, `json.dump` formatting and JSON parsing. The file is the value `FileState` (missing, unparseable, or a record list), and write failure is an environment flag. The stderr messages of `read_statuses` and `write_statuses` are left out.
- StatusStore.Contents: a file holding well-formed JSON that is not a list of five-key records is not representable. The tool would load it and then crash: `{}` fails at `statuses.append`, and a record without `status` raises a KeyError in the listing.
- StatusApi.Post: the body's fields are optional strings. JSON values of other types, such as a numeric id, are not representable, although the route accepts them.
- MatchIn: texts are sequences of Unicode scalar values, so a lone surrogate in a title or description is not representable. Query characters beyond U+FFFF are modelled by the rule that they match nothing.
- Clocks are parameters: `datetime.now()`, `new Date()` and `Date.now()`. Timestamps are opaque strings or millisecond integers. ISO formatting is not modelled.
- `Math.random` becomes a nondeterministic choice of an index into the alphabet. Only the length and the alphabet of codes and tokens are stated.
- Supabase queries, auth calls and bcrypt are not modelled; the model sees only their results. The authorization-code insert and the token insert and update are an error flag or message. The profile lookup and password check of the password change are one outcome value. The account deletion is one server-error value.
- The token endpoint's tables are values. The database's row id for a new token is a parameter. The delete of a used code is assumed to succeed, because the handler ignores its result.
- `new URL` acceptance is a parameter, left unconstrained. In particular, nothing ties it to the URI being non-blank, though `new URL('')` throws; with a blank URI and `parsesAsUrl` true the handlers redirect where the page would show the blank-URI error. `URL` serialisation, `URLSearchParams` encoding, `encodeURIComponent` and `JSON.stringify` are opaque functions passed in.
- Pinyin conversion becomes fields of the product. The product list itself and the session lookup are inputs.
- Case mapping follows only ASCII `toLowerCase` / `.lower()`. Non-ASCII letters are left unchanged.
- Browser cookie storage is simplified. The jar holds one cookie per name in creation order. Expiry dates, the `path` attribute and the clock are reduced to "days > 0 stores, any other number expires". Names and values must be free of ';', and names of '=' and a leading space.
- JSX rendering, the table and code elements' markup, copy-to-clipboard, global-search highlighting, and the docs renderer's other paragraph forms (code, quote, bold markup) are not modelled.
- Timers are left out: the Konami message timeout and page effects, the password dialog's 2-second close, the 1-second redirect delay, and the status page's one-second refresh.
- Concurrent runs of the status tool or requests to the status API, racing on the file, are not modelled.
- Konami.TargetTriggersOnLastKey: stated for reachable states. These remember at most as many codes as the target, none holding ','; key codes are identifiers.
- OAuthToken.TokenEndpoint: its own contract covers only the common facts of every outcome. The error chain and the success tables of each grant are stated by ShapeErrorsBeforeLookup, BadClientIs401, CodeExchange and RefreshRotation.
- OAuthAuthorize.HandleAuthorize: the code reads the stored profile twice, once for the user id and once for the profile it sends. The model reads it once, so both reads see the same value.
- Konami.KonamiTriggersOnTenthKey: stated for reachable states, which remember at most ten codes, none holding ','.
- StorageManager.CookieRoundTrip: the round trip needs the jar's names and values free of ';', and the names free of '=' and a leading space, so the parser finds them again. The looked-up name must be free of '='.
- StorageManager.Storage.Clear: the emptied jar is stated for well-formed jars (see CookieRoundTrip). Otherwise the result is left open.
- StorageManager.Storage.ExpireListedCookies: its result is stated only for well-formed jars, like Clear.
- UserAccount.UserPage.NextStep: requires the step to be 1, 2 or 3. The constructor, CancelDelete and both step methods keep that.
- UserAccount.UserPage.PrevStep: requires the step to be 1, 2 or 3, like NextStep.

## Findings

| source | as written | input that shows it | evidently intended | confidence | as-written member | corrected member |
|---|---|---|---|---|---|---|
| lib/storage-manager.ts:62-76 | `clear()` empties localStorage before it asks `hasCookieConsent()`, which reads localStorage, so the consent test always fails and no cookie is ever expired | localStorage `cookie-consent` = `accepted` and any cookie present; after `clear()` the cookie is still there | read consent first, then empty localStorage and expire every cookie | high (not executed) | StorageManager.Storage.ClearAsWritten, StorageManager.ClearKeepsCookies | StorageManager.Storage.Clear |
| app/oauth/authorize/page.tsx:85-87 | the "scheme only" clause, also at lines 144-146, tests `split('://')[1] === ''`. That is also true when the first "://" is directly followed by another one, so a registered URI with a real path passes it and accepts any extension | registered `a://://b`, requested `a://://bevil`: accepted, though the slash rule refuses it | accept a prefix only when nothing follows the first "://" (a bare scheme such as `ruanmow://`) | medium (not executed) | OAuthAuthorize.SchemeClauseAcceptsLongerPaths | OAuthAuthorize.IsValidRedirectUriIntended, OAuthAuthorize.IntendedSchemeClause |
