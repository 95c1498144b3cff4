# Vivid media site: verified model of its logic

This project models the logic of a marketing agency's web site in Dafny.
The site is a React front end with a small Node mail relay behind it.
The parts modelled are:

- **API URLs** (`api_url.dfy`, module `ApiUrl`): the backend base URL.
  It comes from a build-time value, or a default when that value is unset
  or blank, and loses one trailing slash. Request paths are joined onto it.
- **Admin console** (`admin.dfy`, module `Admin`): the page where the owner
  logs in and adds or deletes portfolio projects.
  - Pure parts are functions: the category label lookup, form validation,
    tag parsing, the create payload, the image data split, the image URL
    choice, and the three list updates (sort on load, prepend on create,
    remove on delete).
  - The component state and its event handlers are the class
    `AdminConsole`. Each handler is a method.
  - Every backend call is replaced by its outcome, which the method
    receives as an argument.
- **Contact mail relay** (`contact_server.dfy`, module `ContactServer`):
  - `must` and the SMTP options, including the `secure` flag;
  - the start-up that stores the transport (class `MailServer`) and the
    health probe that reports it;
  - the `POST /api/contact` handler: 400 for missing fields, checked before
    503 for a missing transport, checked before the send decides 200 or 500;
  - the relayed message's sender, recipient, reply-to, subject and text.
- **mailto link** (`mailto.dfy`, module `Mailto`): the `buildMailtoLink`
  helper of `src/utils/email.ts`. No page of the site calls it; the contact
  page posts to the mail relay instead. The link is a URI of the scheme in
  section 2 of RFC 6068. The subject and the templated body are
  percent-encoded.
- **Percent-encoding** (`uri_component.dfy`, module `UriComponent`):
  ECMA-262 `encodeURIComponent`, with UTF-8 and section 2.1 of RFC 3986.
  It comes with a decoder, and the round trip is proved.
- **Portfolio filter** (`portfolio.dfy`, module `Portfolio`): the static
  catalog of nine projects, the category buttons, and the list shown for a
  selection.
- **Support modules:**
  - `js_text.dfy` (`JsText`): the JavaScript string built-ins the code
    relies on. These are `trim` with the full ECMAScript white-space set,
    `split`/`join` on one character, `startsWith`/`endsWith`, `a || b` on
    optional strings, and decimal rendering of a status code.
  - `lists.dfy` (`Lists`): `filter` and `map`.
  - `project_type.dfy` (`ProjectType`): the `Project` record.

JavaScript falsiness of a field that may be absent is modelled with
`Option<string>`. `None` and `Some("")` are falsy. React state updates are
applied immediately, in the order the handler issues them.

## Model

| member | source | states |
|---|---|---|
| JsText.OrElse | server/index.js:82 | `a \|\| b` on an optional string: the value when it is a non-empty string, the fallback otherwise |
| JsText.OrElseOpt | server/index.js:74-75 | `a \|\| b` when both sides may be absent: the first side when truthy, otherwise the second |
| JsText.TrimSpec | src/pages/Admin.tsx:242 | `trim` returns a contiguous slice of its input; all text cut off before and after it is white space; the result neither starts nor ends with white space |
| JsText.BlankIffTrimEmpty | src/pages/Admin.tsx:123 | `!s.trim()` holds exactly when the string is nothing but white space |
| JsText.TrimAddsNothing | src/pages/Admin.tsx:242 | every character of a trimmed string occurs in the original |
| JsText.TrimIdempotent | src/pages/Admin.tsx:242 | trimming a trimmed string changes nothing |
| JsText.Split | src/pages/Admin.tsx:58 | `split` on one character returns at least one piece, and no piece holds the separator |
| JsText.SplitNoSep | src/pages/Admin.tsx:241 | a string without the separator splits into itself alone |
| JsText.SplitAppend | src/pages/Admin.tsx:241 | splitting at one separator gives the pieces of the left side followed by the pieces of the right side |
| JsText.JoinSplit | src/pages/Admin.tsx:241 | joining the pieces of a split with the separator restores the string |
| JsText.SplitJoin | src/pages/Admin.tsx:241 | splitting separator-free pieces joined by the separator returns exactly those pieces |
| JsText.NatToString | src/pages/Admin.tsx:91 | the decimal rendering of a status is non-empty, all digits, and starts with `0` only for zero |
| JsText.NatToStringValue | src/pages/Admin.tsx:91 | the rendered digits read back as the status that was rendered |
| Lists.Filter | src/pages/Portfolio.tsx:111 | `filter` keeps only passing elements of the input, and keeps every passing element |
| Lists.Map | src/pages/Admin.tsx:96-99 | `map` keeps the length and applies the function at each position |
| Lists.MapAppend | src/pages/Admin.tsx:242 | mapping a concatenation is the concatenation of the mapped parts |
| Lists.FilterAppend | src/pages/Portfolio.tsx:111 | filtering a concatenation is the concatenation of the filtered parts, so relative order is kept |
| Lists.FilterKeepsAll | src/pages/Admin.tsx:243 | filtering a list whose every element passes returns it unchanged |
| Lists.FilterKeepsNone | src/pages/Portfolio.tsx:111 | filtering a list none of whose elements pass returns the empty list |
| Lists.FilterCount | src/pages/Admin.tsx:327 | a filter keeps every occurrence of a passing element and none of a failing one |
| ApiUrl.SanitizeBaseUrl | src/utils/api.ts:3 | a URL ending in `/` loses exactly that one slash; any other URL is returned unchanged |
| ApiUrl.SanitizeRemovesOneSlash | src/utils/api.ts:3 | sanitizing is idempotent exactly when the URL does not end in `//`: only one slash is removed |
| ApiUrl.ResolveBaseUrl | src/utils/api.ts:5-11 | an unset, empty or white-space-only value gives the default base; any other value is used untrimmed, minus one trailing slash |
| ApiUrl.ResolvedBaseHasNoTrailingSlash | src/utils/api.ts:1-11 | the resolved base never ends in `/` unless the configured value ends in `//`; in particular the default base has no trailing slash |
| ApiUrl.BuildApiUrl | src/utils/api.ts:15-20 | `''` and `'/'` give the base; a path starting with `/` is appended as is; any other path is appended after one added `/` |
| ApiUrl.BuildApiUrlShape | src/utils/api.ts:15-20 | every URL starts with the base; for a non-trivial path the next character is `/`, followed by the path without a doubled slash |
| ApiUrl.BuildApiUrlLeadingSlashIrrelevant | src/utils/api.ts:19 | a path with or without its leading slash yields the same URL |
| UriComponent.Utf8 | src/utils/email.ts:10 | a character's UTF-8 encoding is one to four bytes, one exactly for ASCII |
| UriComponent.HexDigitValue | src/utils/email.ts:10 | an upper-case hex digit reads back as the nibble it was written for |
| UriComponent.Escape | src/utils/email.ts:10 | a byte escapes to `%` and two upper-case hex digits |
| UriComponent.Encode | src/utils/email.ts:10 | `encodeURIComponent` output holds only unreserved characters and `%` |
| UriComponent.EncodeKeepsUnreserved | src/utils/email.ts:10 | a string made only of unreserved characters is copied unchanged |
| UriComponent.EncodeEscaped | src/utils/email.ts:10 | the output is a sequence of unreserved characters and well-formed `%XX` triples |
| UriComponent.EscapedAppend | src/utils/email.ts:10 | two well-formed encodings concatenate to a well-formed encoding |
| UriComponent.DecodeEscapeUtf8 | src/utils/email.ts:10 | the escaped UTF-8 bytes of any character decode to that character and consume exactly those triples |
| UriComponent.DecodeEncodedChar | src/utils/email.ts:10 | decoding an encoded character followed by more text yields the character, then the decoding of the rest |
| UriComponent.DecodeEncode | src/utils/email.ts:10 | percent-decoding the encoding of any string returns that string |
| UriComponent.EncodeInjective | src/utils/email.ts:10 | distinct strings have distinct encodings |
| Mailto.BuildMailtoLink | src/utils/email.ts:8-11 | the link always starts with `mailto:hello@govividmedia.com?subject=`, so the recipient is fixed |
| Mailto.NoAmpersandInEncoding | src/utils/email.ts:10 | no encoded value contains `&` |
| Mailto.SingleFieldSeparator | src/utils/email.ts:10 | the link holds exactly one `&`, right after the encoded subject, and it begins `&body=` |
| Mailto.BuiltLinkFields | src/utils/email.ts:10 | after the prefix, the link is the encoded subject and `body=` plus the encoded body, joined by `&` |
| Mailto.ParseBuiltLink | src/utils/email.ts:9-10 | reading a built link back gives the subject and the body text `Name: …\nEmail: …\n\n…` unchanged |
| ContactServer.Must | server/index.js:22-26 | `must(k)` succeeds exactly when the variable is set and non-empty, returning its value; otherwise the error names `k` |
| ContactServer.TransportOptionsSpec | server/index.js:31-41 | options are built exactly when all five variables are set and non-empty; otherwise the error names the first missing one in evaluation order; `secure` is true exactly when `SMTP_SECURE` is `true` |
| ContactServer.MailServer.constructor | server/index.js:29-47 | the transport is stored exactly when the options build and creation succeeds; a failed verification still leaves it stored |
| ContactServer.MailServer.Health | server/index.js:50-57 | `smtpReady` is whether the transport is stored: true after a failed verification, false after a failed `must` or creation |
| ContactServer.HandleContact | server/index.js:60-91 | missing fields give 400 and no send; with all fields a missing transport gives 503 and no send; otherwise delivery gives 200 with the message id and failure gives 500; each status carries its fixed error text |
| ContactServer.SentMailContents | server/index.js:74-84 | a sent message replies to the submitter and carries the submitted subject; its text has the fixed layout; the sender falls back from `SMTP_FROM` to `SMTP_USER`, the recipient from `CONTACT_RECIPIENT` to `SMTP_USER` |
| ContactServer.MailServer.Contact | server/index.js:60-91 | the handler runs against the stored transport's presence and the server's environment |
| ContactServer.ParseMailTextInverse | server/index.js:83 | when the name and address hold no line break, the mail text gives back all three fields |
| Portfolio.SelectAll | src/pages/Portfolio.tsx:109-110 | `'all'` shows the whole list in its order |
| Portfolio.SelectMembership | src/pages/Portfolio.tsx:111 | any other selection shows only projects of that category, and every project of that category |
| Portfolio.SelectKeepsOrder | src/pages/Portfolio.tsx:109-111 | selection distributes over concatenation, so shown projects keep their relative order |
| Portfolio.SelectNoMatch | src/pages/Portfolio.tsx:111 | a category no project has shows nothing |
| Portfolio.SelectAllMatch | src/pages/Portfolio.tsx:109-111 | a list all of one category is shown in full under that category |
| Portfolio.CatalogIds | src/pages/Portfolio.tsx:7-98 | the catalog has nine projects with ids 1 to 9 in order, hence distinct |
| Portfolio.CatalogCategoriesHaveButtons | src/pages/Portfolio.tsx:7-107 | every catalog project's category is one of the buttons other than `'all'` |
| Portfolio.EveryButtonShowsProjects | src/pages/Portfolio.tsx:100-111 | every button other than `'all'` shows at least one project |
| Admin.FindLabel | src/pages/Admin.tsx:43-46 | the label of the first option with that value, or the value itself when no option has it |
| Admin.CategoryLabels | src/pages/Admin.tsx:25-46 | each of the five categories shows its label; any other value shows as itself |
| Admin.WithField | src/pages/Admin.tsx:143-150 | a field change sets that field and leaves the other six as they were |
| Admin.WithFieldUnchanged | src/pages/Admin.tsx:149 | setting a field to its current value leaves the form unchanged |
| Admin.CreateEmptyForm | src/pages/Admin.tsx:33-41 | the empty form has all seven fields empty and is not valid |
| Admin.FormValidIff | src/pages/Admin.tsx:221-229 | the form is valid exactly when title, category, description and image each trim to something non-empty |
| Admin.ParseTags | src/pages/Admin.tsx:240-243 | every parsed tag is non-empty, already trimmed and free of commas |
| Admin.ParseTagsAppend | src/pages/Admin.tsx:240-243 | the tags of text on either side of a comma are the tags of the left part followed by those of the right part, so input order is kept |
| Admin.ParseTagsOne | src/pages/Admin.tsx:240-243 | a piece without a comma gives its trimmed text as one tag, or no tag when it is blank; with `ParseTagsAppend` this fixes the tags of every input |
| Admin.ParseJoinedTags | src/pages/Admin.tsx:240-243 | clean tags joined by commas parse back to the same tags in the same order |
| Admin.LinkOrPlaceholder | src/pages/Admin.tsx:244-245 | an empty link becomes `#`; a non-empty one is kept verbatim; the result is never empty |
| Admin.BuildPayload | src/pages/Admin.tsx:238-246 | the payload copies the form's text fields, parses the tags, and replaces an empty link or github by `#` |
| Admin.Base64Part | src/pages/Admin.tsx:58-62 | the base64 part, when accepted, is non-empty and holds no comma |
| Admin.Base64PartSpec | src/pages/Admin.tsx:58-62 | the base64 part is the text between the first comma and the second comma or the end; a data URL without a comma has none; one whose first comma is followed by a non-comma character has one |
| Admin.Base64PartPresent | src/pages/Admin.tsx:58-62 | a first comma followed by a non-comma character makes `split(',')[1]` non-empty, so the data is accepted |
| Admin.ReadFileAsBase64 | src/pages/Admin.tsx:48-70 | a read succeeds exactly when the result is a string whose text between the first and second comma (or the end) is non-empty, and it yields that text; a non-string result fails with `Failed to read file.`, a missing part with `Invalid image data.`, and a reader error with its own message or `Failed to read file.` |
| Admin.FinalUrl | src/pages/Admin.tsx:202 | a URL starting with `http` is kept; any other becomes `buildApiUrl` of it, so it starts with the API base |
| Admin.FinalUrlAbsolute | src/pages/Admin.tsx:202 | with the default base the stored image URL always starts with `http` |
| Admin.Normalize | src/pages/Admin.tsx:96-99 | a received project keeps every field except that non-array tags become the empty list |
| Admin.SortByIdDescSpec | src/pages/Admin.tsx:95-100 | the loaded list is sorted by descending id and holds the same projects; projects sharing an id keep their arrival order |
| Admin.InsertByIdPermutes | src/pages/Admin.tsx:100 | each insertion step of the sort adds exactly the one project |
| Admin.InsertByIdSorted | src/pages/Admin.tsx:100 | each insertion step keeps the list sorted by descending id |
| Admin.InsertByIdStable | src/pages/Admin.tsx:100 | each insertion step keeps the order of the projects with any one id |
| Admin.FilterKeepsSorted | src/pages/Admin.tsx:280 | removing projects from a sorted list keeps it sorted |
| Admin.FilterKeepsUnique | src/pages/Admin.tsx:280 | removing projects keeps ids unique |
| Admin.PrependProjectContents | src/pages/Admin.tsx:278-281 | after a create the new project is first, its id occurs nowhere after it, and behind it come exactly the old projects with other ids, as a delete of that id leaves them, so in their old relative order |
| Admin.PrependProjectKeepsUnique | src/pages/Admin.tsx:278-281 | a create keeps the ids unique |
| Admin.PrependProjectKeepsSorted | src/pages/Admin.tsx:278-281 | a create whose id is above every old id keeps the list sorted by descending id |
| Admin.RemoveProjectSpec | src/pages/Admin.tsx:327 | after a delete no project has that id; every other project remains in its old relative order; sortedness and unique ids survive |
| Admin.LoginUnlocksExactly | src/pages/Admin.tsx:117-141 | the console unlocks exactly when the password is not blank and either no password is configured or it equals the configured one exactly, untrimmed |
| Admin.AdminConsole.constructor | src/pages/Admin.tsx:73-84 | the console starts locked, with an empty password, no messages, no projects, an empty form, and the resolved API base |
| Admin.AdminConsole.SetPassword | src/pages/Admin.tsx:363 | typing sets the password and nothing else |
| Admin.AdminConsole.HandleLogin | src/pages/Admin.tsx:117-141 | messages are cleared; a blank password sets the empty-password error; with no configured password the console unlocks with the development notice; an exact match unlocks; a mismatch sets the wrong-password error and leaves `authed` as it was |
| Admin.AdminConsole.HandleFieldChange | src/pages/Admin.tsx:143-150 | the form becomes the old form with that one field replaced; nothing else changes |
| Admin.AdminConsole.LoadProjects | src/pages/Admin.tsx:86-109 | a successful load replaces the list by the normalised data sorted by descending id; a failed load keeps the list and sets the error to the status message or the thrown message |
| Admin.AdminConsole.HandleSubmitProject | src/pages/Admin.tsx:216-290 | a request is sent exactly when the form is valid and the password is not blank, and it carries the built payload; on success the created project is prepended, the form is reset and the success notice shown; any failure keeps list and form and shows the failure's message |
| Admin.AdminConsole.ApplyCreateResult | src/pages/Admin.tsx:257-286 | the create response's outcome: the new list, the form and the messages for each way the response can end |
| Admin.AdminConsole.HandleDeleteProject | src/pages/Admin.tsx:292-333 | an unconfirmed delete changes nothing; a blank password sets the missing-password error; otherwise exactly the projects with that id are removed on success, and on a non-ok response or an error payload the list is unchanged and the error shown |
| Admin.AdminConsole.ApplyDeleteResult | src/pages/Admin.tsx:316-331 | the delete response's outcome: the list filtered and the success notice, or the list unchanged and the error |
| Admin.AdminConsole.HandleImageUpload | src/pages/Admin.tsx:152-214 | no file changes nothing; a blank password sets the missing-password error; a failed read shows the read error; an upload with a URL stores the final URL as the form's image; other outcomes keep the form and show the error |
| Admin.AdminConsole.ApplyUploadResult | src/pages/Admin.tsx:186-207 | the upload response's outcome: the image field set from the returned URL, or the error for a failed, malformed or URL-less response |

## Left out

- Network and libraries: `fetch`, JSON parsing, nodemailer's `createTransport`, `verify` and `sendMail`, and Express's routing, CORS and JSON middleware are not modelled. Their outcomes are parameters: success or failure of creation and verification, the send result, and each HTTP response with its `ok`, status and parsed body.
- Request details: the URLs, the `x-admin-secret` header, and the `filename`/`mimeType` fields of the upload body are not modelled. Only the payload of the create request is.
- Loading flags: `isLoadingProjects`, `isSavingProject` and `uploadingImage` are not modelled. Besides the spinners, they disable the submit button while a save or upload is pending (src/pages/Admin.tsx:551), the file input during an upload (:520) and the Refresh button during a load (:569).
- Admin.AdminConsole: each handler method runs from its request to its response in one call, so no other event happens while a request is pending. The model therefore does not capture these interleavings:
  - field edits, password changes or deletes made while a save, upload or delete is pending;
  - `setForm(createEmptyForm())` after a save discarding edits typed meanwhile (:283);
  - the functional list updates (:278, :327) applying to the list as it is when the response arrives, not as it was when the request left.
- The effect that calls `loadProjects` when `authed` becomes true is not modelled. `LoadProjects` is a method the caller invokes.
- Admin.AdminConsole.HandleDeleteProject: the browser confirmation dialog, and the check for a missing `window`, become the `confirmed` argument. Without a window the source proceeds, which is `confirmed = true`.
- Admin.AdminConsole.HandleImageUpload: clearing the file input (`event.target.value = ''`) is not modelled. A read error is assumed to carry a message, modelled as `ReadFailed(Some(m))` or, with no error object, the default message.
- Admin.ReadFileAsBase64: `FileReader` itself is not modelled. Its outcome is a parameter.
- `Number()` on `SMTP_PORT` is not modelled. The port is kept as the text `must` returned.
- The health probe's timestamp and CORS fields, the `PORT` setting and all console logging are not modelled.
- JsText.Trim: white space is the ECMAScript WhiteSpace and LineTerminator set. Strings are sequences of Unicode scalar values, so lone surrogates cannot be written. The real `encodeURIComponent` throws on them.
- JavaScript falsiness of non-string JSON values, such as a number in `name` or an array `error`, is reduced to absent or empty string.
- A create response's `id` is modelled as present or absent. A non-number `id` counts as absent.
- Admin.SortByIdDescSpec: the sort is a stable insertion sort. JavaScript's `Array.prototype.sort` is stable as of ES2019. The comparator `b.id - a.id` is modelled on unbounded integers, not floating point.
- Rendering is not modelled: JSX, styling, the status banner, the project cards, `Home.tsx` and `Navigation.tsx`.
- `Contact.tsx` is not modelled: it posts the form to `/api/contact`, shows an alert on success or failure, and clears the form on success; the handler it reaches is `ContactServer.HandleContact`.
- `src/lib/api.ts` is a wrapper over the browser's `URL` constructor and `window.location` and is not part of this model.
- `server/index.js` holds only the mail relay. The `/api/projects` and `/api/uploads` endpoints the admin console calls are served by no file of this source, so their store, validation and secret check are not part of this model; only the responses reach it, as parameters.
