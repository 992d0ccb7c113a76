# APK downloader pages, modelled in Dafny

This project models the two pieces of logic in `pages/index.js`.

**The lookup form.** The text typed in is trimmed. It is then accepted either as
a dotted package name (`/^(?:[a-zA-Z0-9]+\.)+[a-zA-Z0-9]+$/`) or as a Play Store
details URL (`/^https?:\/\/play\.google\.com\/store\/(apps|games)\/details\?id=([^\&]+)/`).
A URL is reduced to its `id` value. The name is posted to `/api/app` with the page's
locale. A download is offered only when the reply has `free && !preregister`. The
download link is `https://d.apkpure.com/b/APK/<appId>?version=latest`.

**The package finder.** It holds twelve seeded records. `performSearch` keeps the
records that match a case-insensitive term in their name, description or package
name, and pass the `all` / `popular` / type filter. `sortResults` then orders them
by relevance (left as they are), popularity or rating. Its two keyed sorts are
stable, as `Array.prototype.sort` is, and descending because the comparators are
`b.popularity - a.popularity` and `b.rating - a.rating` (lines 522, 524).
`redirectToDownload` builds
`https://nebhulapk.vercel.app/es?package=` followed by `encodeURIComponent` of the
package name.

The finder (`pages/index.js:303-1006`) is pasted inside the JSX returned by the lookup
page's `Home`, where its `const` declarations cannot appear, so the file does not parse
as written. The model treats the finder as the standalone component its code describes.

Modules:

- `Text` (`text.dfy`): character classes, ASCII case folding, and `includes`.
- `Options` (`options.dfy`): the `Option` type.
- `Lookup` (`lookup.dfy`): `trim`, the two regular expressions, `validateInput`,
  `extractPackageName`, `handleSubmit` and `download`.
- `LookupFacts` (`lookup_facts.dfy`): worked inputs for the lookup form.
- `StableSort` (`stable_sort.dfy`): a stable descending insertion sort on
  sequences, with its specification.
- `UriComponent` (`uri_component.dfy`): `encodeURIComponent` over UTF-8, and a
  decoder that inverts it.
- `Catalog` (`catalog.dfy`): the records and the search and filter tests,
  `sortResults`, `performSearch`, the finder's events and `redirectToDownload`.
- `CatalogFacts` (`catalog_facts.dfy`): what the seeded list gives for particular
  searches.

The network is a parameter. `Lookup.Submit` takes the settled reply of the one
request it makes (`Reply`) and returns the page after it, together with the request
that was sent. A provider failure on the server side is `pages/api/app.jsx`
answering status 500 with `{ error: ... }`. That body parses as JSON, so the page
sees a record without `free`. The model reports this as "not possible"
(`ErrorRecord`), not as a fetch error. Only a rejected `fetch` or a body that is not
JSON reaches the `catch` branch (`FetchFailed`).

Notes on the code's behaviour:

- The `popular` filter keeps ids 1, 2, 5 and 9 of the seeded list (popularity 100,
  95, 98 and 92). Ids 3 and 12 sit at exactly 90 and are left out.
- A provider failure gives the "not possible" message, as explained above.
- The type filter values are `app` and `game`.
- Typing a search term does not re-run the search. Only the search button, Enter,
  or a *changed* filter or sort value does.

## Model

| member | source | states |
|---|---|---|
| `Lookup.Trim` | pages/index.js:54 | The trimmed input is a contiguous slice of the input, and everything cut away is ECMAScript white space. When the result is non-empty, it neither starts nor ends with white space. |
| `Lookup.TrimKeepsPackageName` | pages/index.js:54-56 | Trimming leaves a valid package name unchanged. |
| `Lookup.PackageNameIff` | pages/index.js:24 | The package-name regex accepts exactly the non-empty strings that meet all of these: only letters, digits and dots; no dot at either end; no two dots in a row; at least one dot. |
| `Lookup.SegmentsIff` | pages/index.js:24 | The regex tail `(?:[a-zA-Z0-9]+\.)*[a-zA-Z0-9]+$` accepts exactly the well-formed dotted strings, with no dot required. The greedy matcher therefore loses no match. |
| `Lookup.PackageNameRejects` | pages/index.js:24 | Any of these makes the package-name regex fail: a character outside `[A-Za-z0-9.]`, a leading dot, a trailing dot, or a doubled dot. |
| `Lookup.JoinIsPackageName` | pages/index.js:24 | Two or more non-empty alphanumeric segments joined by single dots always pass the package-name regex. |
| `Lookup.PackageSegments` | pages/index.js:24 | Every accepted package name splits into at least two non-empty alphanumeric segments, and rejoining them with dots gives the name back. |
| `Lookup.MatchStorePrefixComplete` | pages/index.js:25 | Every store prefix, for both schemes and both the `apps` and `games` sections, is recognised, with its own scheme and section. |
| `Lookup.SchemeDetermined` | pages/index.js:25 | A store prefix starts with `https://` exactly when its scheme is https. So trying `https?` one way cannot pick the wrong scheme. |
| `Lookup.SectionDetermined` | pages/index.js:25 | At most one of the `apps` and `games` alternatives can match a given string. |
| `Lookup.UpToAmp` | pages/index.js:25 | The greedy `[^\&]+` capture is the longest `&`-free prefix: it contains no `&`, and it stops only at an `&` or at the end. |
| `Lookup.MatchStoreUrl` | pages/index.js:39-45 | When the URL regex matches, the captured `id` is non-empty and contains no `&`. |
| `Lookup.MatchStoreUrlSound` | pages/index.js:25 | A matched string is a store prefix, then the captured id, then either nothing or text starting with `&`. |
| `Lookup.StoreUrlRoundTrip` | pages/index.js:37-51 | Take any store prefix, a non-empty `&`-free id, and a tail that is empty or starts with `&`. The URL built from them passes validation, and `extractPackageName` returns exactly that id. |
| `Lookup.ExtractPackageName` | pages/index.js:45-50 | Input the URL regex does not match comes back unchanged. |
| `Lookup.PackageNameUnchanged` | pages/index.js:37-51 | A package name never matches the URL regex, so `extractPackageName` returns it as it is. It contains no `&`. |
| `Lookup.NoColonNoStoreUrl` | pages/index.js:25 | A string without `:` cannot match the URL regex. |
| `Lookup.ValidInputRejects` | pages/index.js:22-35 | Input without `:` fails `validateInput` when it has no dot, or has a character outside `[A-Za-z0-9.]`, a leading or trailing dot, or a doubled dot. |
| `Lookup.ValidInputExtractsName` | pages/index.js:56-59 | Input that passes validation always gives a non-empty, `&`-free package name. The second "invalid input" branch is therefore unreachable. |
| `Lookup.Submit` | pages/index.js:53-91 | A request is sent exactly when the trimmed input is valid. If it is not, only the message changes, to "invalid format". If a request is sent, it carries the extracted name and the locale, and loading ends. The download is ready exactly when the reply is a record with `free && !preregister`; it then holds that record and shows no message. A failed fetch gives the fetch error. Any other reply gives "not possible". |
| `Lookup.SubmitPackageName` | pages/index.js:66-69 | A package name typed as it is, is posted unchanged, together with the page's locale. |
| `Lookup.SubmitKeepsReadyHasData` | pages/index.js:73-86 | Submitting never leaves the download button showing without app data to build the link from. |
| `Lookup.ReachableReadyHasData` | pages/index.js:245-246 | On every page reachable from the freshly loaded one by typing and submitting, the download button shows only when there is app data, so `download` always has a link. |
| `Lookup.Type` | pages/index.js:232 | Typing replaces the input and changes nothing else on the page. |
| `Lookup.ApkUrl` | pages/index.js:99 | The download link is the APK host, then the app id, then `?version=latest`, with the app id at a known slice. |
| `Lookup.ApkUrlRoundTrip` | pages/index.js:99 | The app id can be read back out of its download link. |
| `Lookup.ApkUrlInjective` | pages/index.js:99 | Different app ids give different download links. |
| `Lookup.DownloadUrl` | pages/index.js:93-99 | A link exists exactly when the page holds app data, and it reads back to that data's app id. |
| `Text.LetterMissingExcludes` | pages/index.js:495-499 | If a letter of the term is missing from a field in both cases, the case-insensitive `includes` fails. |
| `Text.RareLetterExcludes` | pages/index.js:495-499 | The same holds when the letter occurs only once in the field, at a place where the term does not occur. |
| `Catalog.ParseFilter` | pages/index.js:501-509 | `all` and `popular` are the two special filter values, in both directions. Any other value is compared with the record's `type`. |
| `Catalog.OfTypeMatchesOnlyKinds` | pages/index.js:505-506 | A filter value other than `app` or `game` matches no record. |
| `Catalog.SelectSpec` | pages/index.js:494-510 | The filter step keeps exactly the records that pass both the search test and the filter test, each as often as in its input, and adds nothing. |
| `Catalog.SelectIsSubsequence` | pages/index.js:494 | Filtering keeps the records in their catalog order. |
| `Catalog.SelectAppend` | pages/index.js:494-510 | Filtering a concatenation is the concatenation of the filtered parts. |
| `Catalog.SelectEverything` | pages/index.js:495-502 | With an empty term and the `all` filter, every record passes, in order. |
| `Catalog.ParseSortKey` | pages/index.js:519-528 | `popularity` and `rating`, and only they, select a keyed sort. Any other value, `relevance` among them, keeps the order. |
| `Catalog.SortResultsSpec` | pages/index.js:519-529 | Sorting returns the same records, each as often. Relevance returns its input as it is. The keyed sorts are descending by the key, and records with equal keys keep their input order. |
| `Catalog.SortResultsIdempotent` | pages/index.js:519-529 | Sorting an already sorted result again changes nothing. |
| `Catalog.PerformSearchMembers` | pages/index.js:491-517 | The listed results are exactly the seeded records that pass the search and filter tests, each as often as in the seeded list, which is at most once. |
| `Catalog.SeedOnce` | pages/index.js:307-476 | The seeded records carry the ids 1 to 12 in order, so no record is listed twice. |
| `Catalog.PerformSearchOrder` | pages/index.js:512-516 | Relevance results keep catalog order. Popularity and rating results are in descending order of their key. |
| `Catalog.Step` | pages/index.js:868-906 | Typing stores the term and changes nothing else. The search button reruns the search and changes nothing else. A changed filter or sort value is stored and the search reruns under it. Picking the value already chosen changes nothing, since the effect at lines 545-547 runs only when its dependencies change. |
| `Catalog.MountedShowsSeed` | pages/index.js:545-547 | After mounting, the whole seeded list is shown, and it is a search result. |
| `Catalog.StepKeepsConsistent` | pages/index.js:545-547 | After any event, the list shown is still a search under the current filter and sort, for some term. |
| `Catalog.RedirectUrl` | pages/index.js:539-542 | The redirect address starts with the downloader page and `?package=`. |
| `Catalog.RedirectRoundTrip` | pages/index.js:539-542 | Every package name can be decoded back out of its redirect address. |
| `Catalog.RedirectPlainName` | pages/index.js:540-541 | A name of letters, digits and dots appears in the redirect address unescaped. |
| `StableSort.SortDescIsDescending` | pages/index.js:521-524 | The sorted copy has the input's length, and its keys never increase. |
| `StableSort.SortDescPermutes` | pages/index.js:521-524 | The sorted copy is a permutation of the input. |
| `StableSort.SortDescIsStable` | pages/index.js:521-524 | For every key value, the records with that key appear in the same relative order before and after sorting. |
| `StableSort.SortDescOfDescending` | pages/index.js:521-524 | An input already in descending order is returned unchanged. |
| `StableSort.SortDescIdempotent` | pages/index.js:521-524 | Sorting twice gives the same order as sorting once. |
| `UriComponent.Utf8Decodes` | pages/index.js:541 | The UTF-8 bytes of every code point are well formed, and they decode back to that code point. |
| `UriComponent.DecodeEncode` | pages/index.js:541 | `decodeURIComponent` undoes `encodeURIComponent` for every string. |
| `UriComponent.EncodeUnreserved` | pages/index.js:541 | A string of unreserved characters is not changed by encoding. |
| `UriComponent.EncodeAlphabet` | pages/index.js:541 | Encoded text contains only unreserved characters and `%`. |
| `CatalogFacts.SeedIds` | pages/index.js:307-476 | The seeded records carry ids 1 to 12, in that order. |
| `CatalogFacts.PopularSeed` | pages/index.js:503-504 | `popular` keeps WhatsApp, Candy Crush Saga, Instagram and Netflix. Spotify and Subway Surfers are left out, because their popularity is exactly 90. |
| `CatalogFacts.CandySeed` | pages/index.js:495-499 | The term `candy` matches Candy Crush Saga and no other record. |
| `CatalogFacts.CandySearch` | pages/index.js:491-517 | Searching `candy` with `all` and relevance lists id 2 alone. |
| `CatalogFacts.PopularIds` | pages/index.js:491-517 | `popular` in relevance order lists ids 1, 2, 5, 9. |
| `CatalogFacts.PopularSorted` | pages/index.js:520-521 | The four popular records ordered by popularity are 100, 98, 95, 92. |
| `CatalogFacts.PopularByPopularity` | pages/index.js:491-517 | `popular` under the popularity sort lists ids 1, 5, 2, 9. |
| `CatalogFacts.EverythingShown` | pages/index.js:545-547 | The initial search, with no term, `all` and relevance, lists the whole catalog in its order. |
| `LookupFacts.WhatsAppUrl` | pages/index.js:37-51 | `https://play.google.com/store/apps/details?id=com.whatsapp&hl=en` is valid, and it yields `com.whatsapp`. |
| `LookupFacts.ThreeSegments` | pages/index.js:24 | `com.example.app` is a package name. |
| `LookupFacts.WhatsAppName` | pages/index.js:24 | `com.whatsapp` is a package name. |
| `LookupFacts.RejectedCharacters` | pages/index.js:22-35 | `validateInput` refuses `com.exa_mple` and `com..x`. |
| `LookupFacts.RejectedShapes` | pages/index.js:22-35 | `validateInput` refuses `.com.x` and the single segment `whatsapp`. |
| `LookupFacts.SubmitWhatsApp` | pages/index.js:53-91 | Submitting `com.whatsapp` posts it unchanged. A listing is offered for download exactly when it is free and not a pre-registration. The error record that `pages/api/app.jsx` sends with status 500 gives "not possible". |

## Left out

- Rendering, styles, i18n message texts, the loading spinner, the app card and the
  notification toast are left out. Messages are an enumeration (`Message`).
- `copyToClipboard` is left out, as are its 2-second notification timer and the
  redirect modal. Only the address `redirectToDownload` builds is modelled.
- The state while the request is pending (`isLoading` true, the button disabled) is
  left out. `Submit` returns only the page after the request settles.
- The 300 ms `setTimeout` in `performSearch` is left out. The search runs with the
  state the event leaves behind. A term typed while the timer is pending is not modelled.
- The `fetch` call, `process.env.NEXT_PUBLIC_DOMAIN_URL`, `google-play-scraper` and
  the server handler are not modelled. Their outcome is the `Reply` parameter.
- Only the listing fields the page acts on are modelled: `free`, `preregister`,
  `appId` and `title`.
- JavaScript truthiness of `free` and `preregister` is collapsed to booleans. A
  missing field counts as false, which is the `ErrorRecord` case.
- The hidden anchor element and the click in `download` are not modelled. `DownloadUrl`
  gives the address. It is `None` where the code would throw on a missing `data`.
- The display-only record fields are not modelled: `iconUrl`, and the Font Awesome
  and card markup. `rating` is kept in tenths (4.5 becomes 45). That preserves its order.
- `toLowerCase` folds only ASCII letters here: a non-ASCII capital such as `Á` in a
  term or a field is not lowered. No seeded field contains one.
- `String.prototype.trim` is modelled over code points. No lookup input with lone
  surrogates is modelled, because Dafny's `char` has none.
- `encodeURIComponent` throws `URIError` on a lone surrogate. That path is not
  modelled; no seeded package name contains one.
- The back button (`pages/index.js:254-270`) reads `document.referrer` and the
  browser history. It is not modelled.
- The assignment to `window.location.href` in `redirectToDownload` is not modelled.
  `RedirectUrl` gives the address it assigns.
