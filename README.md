# WebFOCUS REST client core, in Dafny

This project models the browser-side client of the WebFOCUS REST API (`/ibi_apps/rs`). The client:

- turns an action (`signOn`, `signOff`, `get`, `describeFex`, `run`) and the caller's parameters into a request;
- reads the XML envelopes the server answers with: the return code, the CSRF tokens, the repository listing and the unresolved report parameters;
- classifies a report's output by its content type.

Modules:

- `Common`: the `Option` and `Outcome` values, JavaScript truthiness and `||`, and `FilterMap` with its laws.
- `Text`: lower-casing, `endsWith`, `includes` and name order.
- `Xml`: the parsed document as an element tree. It covers `querySelector`/`querySelectorAll` on elements and on the document, `getAttribute` and `textContent`.
- `RequestBuilder`: the method table, the parameter list and the request shape.
- `ApiCalls`: the request each of the six client calls sends, including the object spread of `runReportWithParams`.
- `Envelope`: the return-code test, `returndesc`, and the `key`/`value` reading of an `entry`.
- `SignOn`, `Listing`, `Describe` and `Execution`: what `signOn`, `getContents`, `describeFex` and `runReport`/`runReportWithParams` do with a parsed response.

The loops of the source are methods whose loop invariants tie them to a specification function. The properties the client relies on are proved as lemmas about those functions:

- the service default;
- `null`/`undefined` parameters being dropped;
- the last token winning;
- folders first in name order;
- `querySelector` returning the first of `querySelectorAll`.

## Model

| member | source | states |
|---|---|---|
| RequestBuilder.GetActionMethod | src/api/webfocus.js:8-18 | an action in the table gets its table entry; any other action gets `GET` |
| RequestBuilder.EveryActionIsGet | src/api/webfocus.js:8-18 | with the current table, every action, known or not, is sent with `GET` |
| RequestBuilder.BuildActionParams | src/api/webfocus.js:20-35 | the loop appends the action pair, then the default service pair unless the caller has a service key, then every caller entry that has a value, in the caller's order (`ActionParams`) |
| RequestBuilder.ActionPairFirst | src/api/webfocus.js:20-35 | the first pair is always `IBIRS_action`; the caller's kept pairs follow after the one or two leading pairs |
| RequestBuilder.CallerPairsArePresentEntries | src/api/webfocus.js:28-32 | a caller pair is serialised exactly when the caller's entry has a value (never `null`/`undefined`); filtering distributes over concatenation, so relative order is kept |
| RequestBuilder.ServiceDefaultExactlyWhenAbsent | src/api/webfocus.js:24-32 | with no caller service key there is exactly one service pair, `IBIRS_service=ibfs`, in second place; a caller's service entry is serialised once with its value, or not at all when it is `null`/`undefined` |
| RequestBuilder.CountKept | src/api/webfocus.js:28-32 | among distinct keys, a key's pair appears once if its entry has a value and never if it has none or is absent |
| RequestBuilder.ShapeRequest | src/api/webfocus.js:37-66 | `GET`: the url carries the parameters, there is no body and the headers are a copy of the caller's; `POST`: bare url, parameters as body, `Content-Type` defaulted to the form type only when the caller gave none or an empty one; every other header is unchanged; credentials are always `include` |
| RequestBuilder.BuildRequest | src/api/webfocus.js:37-66 | every request is a `GET` to the endpoint with `ActionParams` as query, no body and the caller's headers |
| ApiCalls.RequestFor | src/api/webfocus.js:83-96 | each call's request is a `GET` whose first query pair names the call's action, followed by the call's own parameters; sign-on, listing and describe ask for XML, the others send no headers |
| ApiCalls.SpreadOverPath | src/api/webfocus.js:373-379 | spreading distinct caller values over `{IBIRS_path: path}` keeps the path key first (taking the caller's value if given) and appends the others in order |
| ApiCalls.RunWithParamsExtra | src/api/webfocus.js:373-379 | the parameters of `runReportWithParams` are the path first, overridden in place by a caller `IBIRS_path`, then every other value in the caller's order |
| Xml.WithTag | src/api/webfocus.js:112 | an element is selected exactly when it is in the listing and has the tag |
| Xml.SelectFirstIsFirstOfAll | src/api/webfocus.js:194 | `querySelector` returns the first element `querySelectorAll` lists, and `null` exactly when that list is empty, on an element and on the document |
| Xml.DescendantAttr | src/api/webfocus.js:114-115 | `querySelector(tag)?.getAttribute(attr)` is a string exactly when the descendant exists and carries the attribute, and then it is that attribute's value |
| Envelope.SignOnError | src/api/webfocus.js:132-136 | the sign-on error is `returndesc` when it is non-empty, the fixed message otherwise, and never empty |
| SignOn.TokenDefaultsToEmpty | src/api/webfocus.js:109-122 | with no entry keyed by the token name, the token stays the empty string |
| SignOn.LastMatchingEntryWins | src/api/webfocus.js:113-122 | the token is the value of the last entry whose key matches |
| SignOn.ExtractTokens | src/api/webfocus.js:109-122 | the loop over the entries yields both tokens as `LatestToken` defines them |
| SignOn.InterpretSignOn | src/api/webfocus.js:103-137 | success exactly on return code `10000` or `0`, with the user and the two latest tokens of every `entry` in the document; otherwise the non-empty sign-on error |
| SignOn.TwoEntryTokens | src/api/webfocus.js:113-122 | a name entry followed by a value entry yields each token from its own entry |
| SignOn.SignOnExample | src/api/webfocus.js:107-131 | a success envelope holding the token name `tok` and the value `abc123` yields exactly those tokens |
| SignOn.SignOnFailureExample | src/api/webfocus.js:132-136 | a `-1` envelope with description `bad creds` fails with that description |
| Listing.Container | src/api/webfocus.js:194 | the container is the first `ibfsobject`; when there is none, it is the first `rootObject`; none exactly when both are missing |
| Listing.ItemElements | src/api/webfocus.js:194-199 | the `item` descendants of the container's first `children` element, in document order; none when the container or its `children` is missing |
| Listing.ObjType | src/api/webfocus.js:202-203 | the text of the first `objtype` descendant when it exists and is non-empty; otherwise the `type` attribute |
| Listing.ItemOf | src/api/webfocus.js:201-213 | name, type and path with their fallbacks; folder exactly when the lower-cased type is `folder` or `mrfolder`; report exactly when it is `fexfile` or the lower-cased name ends in `.fex` |
| Listing.CollectItems | src/api/webfocus.js:199-214 | one item per `item` element, in document order, each as `ItemOf` builds it |
| Listing.ItemsOf | src/api/webfocus.js:199-214 | the items of the elements, position by position |
| Listing.ItemLeTotal | src/api/webfocus.js:220-225 | the listing order relates every two items |
| Listing.ItemLeTransitive | src/api/webfocus.js:220-225 | the listing order is transitive |
| Listing.Insert | src/api/webfocus.js:220-225 | insertion adds exactly one item and keeps a sorted listing sorted |
| Listing.SortItems | src/api/webfocus.js:220-225 | the sorted listing is a permutation of the items and is sorted |
| Listing.FoldersFirst | src/api/webfocus.js:220-225 | in the sorted listing no non-folder precedes a folder, and items of one kind are in name order |
| Listing.InterpretContents | src/api/webfocus.js:184-226 | success exactly on a success code, with the container's items sorted (a sorted permutation); otherwise `returndesc`, possibly `null` |
| Listing.ExampleOrder | src/api/webfocus.js:220-225 | `b.fex`, folder `A Folder` and `a.fex` are listed as `A Folder`, `a.fex`, `b.fex` |
| Describe.OptionOf | src/api/webfocus.js:285-294 | an option exists exactly when both its key and its value are non-empty, and it is labelled by the key |
| Describe.ParameterOf | src/api/webfocus.js:273-302 | a parameter exists exactly for an unresolved entry with a non-empty key and a `values` element; its options are the kept options in document order; it is `select` exactly when it has options; every option has a non-empty label and value |
| Describe.AmperEntries | src/api/webfocus.js:269-272 | the `entry` descendants of the first `amperMap`, in document order; none without an `amperMap` |
| Describe.CollectOptions | src/api/webfocus.js:282-295 | the inner loop pushes exactly the kept options, in order |
| Describe.PushParameter | src/api/webfocus.js:273-304 | one pass of the outer loop appends exactly the parameter the entry yields, or nothing when it does not qualify |
| Describe.CollectParameters | src/api/webfocus.js:272-304 | the outer loop pushes exactly the parameters `ParameterOf` yields, in order |
| Describe.ParametersAreUnresolvedEntries | src/api/webfocus.js:273-302 | a parameter is listed exactly when some entry yields it, and then that entry is unresolved and carries its name as key |
| Describe.NoValuesNoParameter | src/api/webfocus.js:279-281 | an entry without a `values` element yields no parameter |
| Describe.InterpretDescribe | src/api/webfocus.js:259-310 | success exactly on a success code, with the parameters of the first `amperMap` (none without one); otherwise `returndesc` |
| Execution.Classify | src/api/webfocus.js:333-356 | HTML exactly when the header includes `text/html`; PDF exactly when it includes `application/pdf` but not `text/html`; plain text otherwise, also without a header |
| Execution.ClassifyByOccurrence | src/api/webfocus.js:335-349 | classification by where `text/html` and `application/pdf` occur in the header |
| Execution.InterpretRun | src/api/webfocus.js:383-406 | the result carries the object reference for a PDF and the body text otherwise, with the classified kind |
| Text.Lower | src/api/webfocus.js:204 | lower-casing keeps the length and lowers each character |
| Text.IncludesIffOccurs | src/api/webfocus.js:335 | `includes` holds exactly when the substring occurs at some position |
| Text.NameLeTotal | src/api/webfocus.js:224 | name order relates every two names |
| Text.NameLeTransitive | src/api/webfocus.js:224 | name order is transitive |
| Common.FilterMapMember | src/api/webfocus.js:28-32 | a value is in the filtered list exactly when some input maps to it |
| Common.FilterMapAppend | src/api/webfocus.js:28-32 | filtering distributes over concatenation |

`runReport` (src/api/webfocus.js:333-356) and `runReportWithParams` (src/api/webfocus.js:383-406) share `Execution.InterpretRun`, because their content-type branches are identical.

An unresolved entry with a key but no `values` element yields no parameter (src/api/webfocus.js:281); `Describe.NoValuesNoParameter` states it.

## Left out

- `fetch`, `async`/`await` and the `catch` blocks that turn a thrown error into `{success: false, error: error.message}` are not modelled. Each call is modelled from the parsed response on.
- `DOMParser`, and the parse of malformed XML, are not modelled. The document is its root element, which is assumed present.
- `signOff`'s result (`{success: true}` after the request) is not modelled; its request is (`ApiCalls.RequestFor`).
- `URLSearchParams` percent-encoding and `toString` are left out. The query and body are kept as their list of pairs.
- `Object.entries` puts integer-like keys first. Caller entries are taken in the given order.
- Inherited object keys (`toString` and the like) are left out: the action table is looked up by own keys only.
- Text.Lower: lowers ASCII letters only. `toLowerCase` decides every comparison the client makes in the same way. Of the non-ASCII characters, only U+212A (Kelvin sign) lower-cases to an ASCII letter, `k`, and none of `folder`, `mrfolder`, `fexfile` or `.fex` contains `k`. U+0130 lower-cases to `i` followed by U+0307, which cannot complete a match either.
- Text.NameLe: models `localeCompare` as lexicographic order on character codes. Locale collation is not modelled.
- Listing.SortItems: the result is stated to be a sorted permutation. Which of two equal items comes first is left unstated, since `Array.prototype.sort` decides that.
- `URL.createObjectURL` and the body read as a blob: the object reference is a field of `Execution.Response`.
- The response's `text()` body and its `content-type` header are inputs.
- Stores, views, routing and configuration are not part of this model.
