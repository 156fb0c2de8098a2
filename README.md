# Guestbook fallback store and gallery lightbox, modelled in Dafny

This project models the two pieces of logic in a personal portfolio site.

- **The guestbook API route in demo mode** (`app/api/guestbook/route.ts`). When no external store is configured, the route keeps a process-wide list of entries. It starts with one demo entry.
  - GET returns the list.
  - POST runs a validation cascade on the request body. It then prepends a new entry with trimmed `name` and `message`.
  - DELETE removes the first entry whose id matches the `id` query parameter.
- **The gallery lightbox** (`components/gallery.tsx`). The lightbox is closed (`null`) or open on one of six images. "Next" and "previous" move round the images with wrap-around.

Files:

- `Wrappers.dfy`: `Option`, which stands for a JavaScript value that may be `null` or `undefined`.
- `JsString.dfy`: the JavaScript string semantics the route relies on.
  - Truthiness of an optional string (`!name`).
  - `length`, counted in UTF-16 code units: a character above U+FFFF counts two, as its surrogate-pair encoding `EncodeChar` shows.
  - `trim`, which strips the full ECMAScript WhiteSpace and LineTerminator set.
- `GuestbookRoute.dfy`:
  - `Entry` and `Response` (one constructor per status/body shape).
  - The pure validation cascade `Validate`.
  - `findIndex` and `splice` as `FindIndex` and `Splice`.
  - The class `FallbackStore`. Its `seq<Entry>` field is `fallbackEntries`, and its methods `Get`, `Post` and `Delete` are the three handlers.
- `Gallery.dfy`:
  - The pure index arithmetic `Next` and `Prev`.
  - `Forward`, which gives the index after `k` presses of "next".
  - The class `Lightbox` with an `Option<nat>` field for `lightboxIndex`.

Values that the handlers read from the clock are method parameters:

- `now` is the decimal `Date.now()` reading in the new id (`demo-<now>`).
- `createdAt` is the new entry's `toISOString()` time stamp.
- `seededAt` is the demo entry's time stamp, taken when the module loads.

The request body is modelled as two already-parsed optional strings. The `id` query parameter is one optional string.

The `FallbackStore` invariant `Valid()` says that every stored entry has a non-empty id, a name of at most 100 code units and a message of at most 500. The constructor establishes it and every handler keeps it.

The route checks emptiness and length on the strings as received, and trims only afterwards:

- `!name || !message` (route.ts:91) and the two `length` tests (route.ts:98, 105) all look at the untrimmed fields.
- `trim()` is applied only when the entry is built (route.ts:116-117).
- So a non-empty, whitespace-only name passes every test and is stored as the empty string (`WhitespaceNameStoredEmpty`).
- A name that is too long only because of padding is refused (`PaddedNameRejected`).
- Only the browser client (`components/guestbook.tsx:52`) refuses blank fields.
- Nothing in route.ts makes ids unique: two POSTs with the same `Date.now()` reading produce the same id. The model does not assume uniqueness (`DeleteKeepsLaterDuplicate`).

## Model

| member | source | states |
|---|---|---|
| `JsString.Truthy` | app/api/guestbook/route.ts:50 | JavaScript truthiness of a possibly missing string: present and not "". Its meaning at the call sites is stated by the first case of `Validate` (line 91) and the 400 case of `FallbackStore.Delete` (line 50); `DemoId` shows that generated ids pass it. |
| `JsString.EncodeChar` | app/api/guestbook/route.ts:98 | the UTF-16 encoding of one character: one unit that is not a surrogate for a character up to U+FFFF, otherwise a high surrogate followed by a low one, and decoding the units gives the character back |
| `JsString.Length` | app/api/guestbook/route.ts:98-105 | `.length` in UTF-16 code units. Its meaning is stated by `LengthIsEncodedSize` (it is the size of the UTF-16 encoding), `LengthBounds`, `LengthOfBmp` and `LengthAppend`. |
| `JsString.LengthIsEncodedSize` | app/api/guestbook/route.ts:98-105 | the `length` of a string is exactly the number of code units of its UTF-16 encoding |
| `JsString.LengthBounds` | app/api/guestbook/route.ts:98 | a string's JavaScript `length` lies between its character count and twice that |
| `JsString.LengthOfBmp` | app/api/guestbook/route.ts:105 | without supplementary-plane characters, `length` equals the character count |
| `JsString.LengthAppend` | app/api/guestbook/route.ts:105 | `length` adds up over concatenation |
| `JsString.IsWhitespace` | app/api/guestbook/route.ts:116-117 | the characters `trim` strips: the ECMAScript WhiteSpace and LineTerminator code points. Its role is stated by `Trim`, `TrimEmpty` and `WhitespaceNameStoredEmpty`. |
| `JsString.TrimStart` | app/api/guestbook/route.ts:116-117 | the result is a suffix of the input; everything dropped is whitespace; the result does not start with whitespace |
| `JsString.TrimEnd` | app/api/guestbook/route.ts:116-117 | the result is a prefix of the input; everything dropped is whitespace; the result does not end with whitespace |
| `JsString.Leading` | app/api/guestbook/route.ts:116-117 | the number of characters `trim` drops at the front: all of them are whitespace, and the character after them, if any, is not |
| `JsString.Trim` | app/api/guestbook/route.ts:116-117 | `trim` yields the contiguous slice after the leading whitespace; every character outside it is whitespace; the slice neither starts nor ends with whitespace |
| `JsString.TrimEmpty` | app/api/guestbook/route.ts:116-117 | a string trims to "" exactly when it is all whitespace (both directions) |
| `JsString.TrimFixed` | app/api/guestbook/route.ts:116-117 | a string that neither starts nor ends with whitespace trims to itself |
| `JsString.TrimIdempotent` | app/api/guestbook/route.ts:116-117 | trimming twice equals trimming once |
| `JsString.LengthSlices` | app/api/guestbook/route.ts:98 | a prefix or suffix never has more code units than the whole string |
| `JsString.TrimShrinks` | app/api/guestbook/route.ts:116-117 | trimming never increases the character count or the `length` |
| `GuestbookRoute.Response.Status` | app/api/guestbook/route.ts:53-121 | the HTTP status of each answer: 200 for a listing and for `{success: true}`, 201 for a created entry, 400 for a refused request, 404 for an unknown id. `FallbackStore.Post` and `FallbackStore.Delete` state which status each outcome gets. |
| `GuestbookRoute.DemoEntry` | app/api/guestbook/route.ts:13-18 | the seeded entry `demo-1` / "Demo User" with the welcome message. `DemoEntryWithinBounds` states that it meets the store invariant, and the constructor states that the list starts as this entry alone. |
| `GuestbookRoute.NewEntry` | app/api/guestbook/route.ts:114-119 | the entry POST builds from an accepted body: trimmed name and message, the generated id and the time stamp. `AcceptedWithinBounds` states that it meets the store invariant, and `FallbackStore.Post` states that it is the one answered and prepended. |
| `GuestbookRoute.DemoId` | app/api/guestbook/route.ts:115 | the id a fallback POST assigns, `demo-<now>`, is always truthy, so DELETE can name it |
| `GuestbookRoute.Validate` | app/api/guestbook/route.ts:91-110 | the cascade in order. A missing or empty field is refused with "Name and message are required." whatever the lengths. A name over 100 is refused with the name message even when the message is too long as well. A message over 500 is refused only when the name checks pass. Exactly the remaining bodies are accepted, with their untrimmed fields. Each case holds in both directions. |
| `GuestbookRoute.DemoNameWithinBounds` | app/api/guestbook/route.ts:15 | the seeded name fits the 100-unit bound |
| `GuestbookRoute.DemoMessageWithinBounds` | app/api/guestbook/route.ts:16 | the seeded message fits the 500-unit bound |
| `GuestbookRoute.DemoEntryWithinBounds` | app/api/guestbook/route.ts:12-19 | the seeded demo entry satisfies the store invariant |
| `GuestbookRoute.AcceptedWithinBounds` | app/api/guestbook/route.ts:98-117 | an entry built from an accepted body, trimmed after the untrimmed length checks, stays within the 100/500 bounds and has a truthy id |
| `GuestbookRoute.WhitespaceNameStoredEmpty` | app/api/guestbook/route.ts:91-117 | a non-empty all-whitespace name within the length bound passes validation and is stored as "" |
| `GuestbookRoute.PaddedNameRejected` | app/api/guestbook/route.ts:98-117 | a space followed by 100 letters is refused with the name-length error although it trims to 100 units |
| `GuestbookRoute.NameOfMaxLengthAccepted` | app/api/guestbook/route.ts:98-103 | the name bound is inclusive: 100 code units pass |
| `GuestbookRoute.PlainSubmission` | app/api/guestbook/route.ts:91-117 | short, plain, already-trimmed fields are accepted and stored unchanged |
| `GuestbookRoute.FindIndex` | app/api/guestbook/route.ts:59-60 | `findIndex` is -1 exactly when no entry has the id. Otherwise it is the position of the first entry with that id. |
| `GuestbookRoute.Splice` | app/api/guestbook/route.ts:66 | `splice(i, 1)` has one entry fewer. The entries before `i` are unchanged and those after it shift down one place, in order. The removed entry is the only multiset difference. |
| `GuestbookRoute.PrependThenDelete` | app/api/guestbook/route.ts:59-66 | after an `unshift` of an entry (line 120), deleting its id finds position 0 and restores the previous list exactly, even when other entries share that id |
| `GuestbookRoute.DeleteKeepsLaterDuplicate` | app/api/guestbook/route.ts:59-66 | when two entries share an id, DELETE removes the first and the later one survives |
| `GuestbookRoute.SpliceWithinBounds` | app/api/guestbook/route.ts:66 | removing an entry keeps the store invariant |
| `GuestbookRoute.FallbackStore.constructor` | app/api/guestbook/route.ts:12-19 | the list starts as the demo entry alone and satisfies the invariant |
| `GuestbookRoute.FallbackStore.Get` | app/api/guestbook/route.ts:24-26 | GET answers 200 with the current list and changes nothing, so back-to-back GETs agree |
| `GuestbookRoute.FallbackStore.Post` | app/api/guestbook/route.ts:91-121 | a refused body gets 400 with the cascade's message and leaves the list unchanged. An accepted one gets 201 with an entry holding the trimmed fields, the `demo-<now>` id and the given time stamp. The list becomes that entry followed by the old list, in order. |
| `GuestbookRoute.FallbackStore.Delete` | app/api/guestbook/route.ts:48-67 | a missing or empty id gets 400 "Entry ID is required." and the list is untouched. An id no entry has gets 404 "Entry not found." and the list is untouched. Otherwise the answer is `{success: true}` and the list is `splice` at the first match. |
| `GuestbookRoute.AnaScenario` | app/api/guestbook/route.ts:114-121 | on a fresh store, POST {Ana, Hi!} answers 201 with that entry; GET lists it before the demo entry; DELETE of its id succeeds; GET then lists the demo entry alone |
| `Gallery.SixImagesWrap` | components/gallery.tsx:13-31 | the gallery has six images; "next" from the sixth shows the first, "previous" from the first shows the sixth, and "next" from any other image shows the following one |
| `Gallery.Next` | components/gallery.tsx:28-31 | `(i + 1) % n` stays in [0, n). From an open index it is the following index, or 0 after the last. |
| `Gallery.Prev` | components/gallery.tsx:33-36 | `(i - 1 + n) % n` stays in [0, n). From an open index it is the preceding one, or n-1 from 0. |
| `Gallery.NextPrevInverse` | components/gallery.tsx:28-36 | next and previous undo each other on every open index |
| `Gallery.ForwardWithinLap` | components/gallery.tsx:30 | within one lap, k presses of next move k places and wrap past the end at most once |
| `Gallery.FullCycle` | components/gallery.tsx:30 | n presses of next return to the starting image, and no smaller positive number of presses does |
| `Gallery.ForwardAdd` | components/gallery.tsx:30 | a + b presses equal a presses followed by b presses |
| `Gallery.ForwardInRange` | components/gallery.tsx:30 | any number of presses from an image lands on an image |
| `Gallery.FullLapsReturn` | components/gallery.tsx:30 | an extra full lap of presses changes nothing |
| `Gallery.Lightbox.constructor` | components/gallery.tsx:23 | the lightbox starts closed |
| `Gallery.Lightbox.Open` | components/gallery.tsx:25 | opening on image k shows k |
| `Gallery.Lightbox.Close` | components/gallery.tsx:26 | closing gives the closed state whatever was shown |
| `Gallery.Lightbox.GoNext` | components/gallery.tsx:28-31 | does nothing while closed; otherwise shows `Next` of the current index, still a valid image |
| `Gallery.Lightbox.GoPrev` | components/gallery.tsx:33-36 | does nothing while closed; otherwise shows `Prev` of the current index, still a valid image |
| `Gallery.Lightbox.PositionLabel` | components/gallery.tsx:119-121 | the open lightbox's label `lightboxIndex + 1 / images.length` has a position between 1 and the image count, with the count as its total |

## Left out

- The external-store branches of GET, POST and DELETE (route.ts:28-41, 70-79, 124-134) are left out. They call a third-party database client that is not part of this model, and the database does the ordering.
- The HTTP and JSON plumbing is left out: `NextResponse`, URL parsing, `request.json()`, and the catch-all handlers that answer 500.
- Body fields are modelled as optional strings. A JSON value of another type is not modelled. Such a value is a truthy number, for example, whose `trim` throws and so gives a 500.
- Clock readings (`Date.now()`, `new Date().toISOString()`) are parameters. Nothing is assumed about them, including the uniqueness of ids.
- Concurrency is not modelled. The module-level list is shared by interleaved requests; here requests are sequential method calls.
- The browser guestbook client (`components/guestbook.tsx`) is left out. It holds fetches, React state, the success-banner timer and date formatting, which are UI and network plumbing rather than sequential logic.
- The gallery's rendering is left out. The six image records are reproduced with their paths, alt texts and captions, but only their count is used.
- Gallery.Lightbox.Open: requires an index below the image count. The grid passes only the indices of its images (gallery.tsx:53-56), and rendering indexes `images[lightboxIndex]` (gallery.tsx:107).
- Strings holding an unpaired surrogate cannot be represented. A JSON body such as `"\ud800"` gives JavaScript a string of length 1, but a Dafny `char` is a Unicode scalar value, so every modelled string is well-formed UTF-16.
- The whitespace set of `JsString.IsWhitespace` is the Unicode Zs category written out as a fixed list. Later Unicode versions are not tracked.
- Presentational files with no logic (profile tabs, profile header, page, tech stack, layout, footer) are not part of this model.
