# Alphabinet site: contact form, testimonial list and sitemaps in Dafny

This project models the few parts of the Alphabinet marketing site that hold
logic rather than layout, and proves properties about them:

- **The contact form controller** (`components/contact.tsx`). It covers the
  four field values, the `errors` map, `success` and `isSubmitting`, and the
  handlers `validateField`, `formatPhone`, `handleChange`, `handleBlur` and
  `handleSubmit`.
  - Each handler is a pure function from state to state. The asynchronous
    part of a submission becomes two events: `Settled(delivered)` for the
    resolution of the send, and `Expired` for the 3000 ms timer that hides
    the success message.
  - Every `validateField` call starts from the map of the current render and
    replaces the stored map with its own copy. So during one submit only the
    last call's write survives. `every` stops at the first failing field, in
    key order name, email, phone, message. The model keeps both behaviours.
  - The regular expressions become predicates over character positions.
    `\s` and `trim` use the JavaScript whitespace set, and `[0-9]` is ASCII.
    The email and phone expressions are each tied by a lemma
    (`EmailPatternIff`, `PhonePatternIff`) to a plain description of the
    strings they accept.
- **The testimonial visibility selector** (`components/testimonials.tsx`). It
  covers `count` and `showAll`, the breakpoint function, the mount and resize
  effect, the toggle, the visible slice, and the button with its label.
- **The two sitemap serialisers.** `app/sitemap/route.ts` writes thirteen
  fixed routes dated with the current day. `app/sitemap.xml/route.ts` writes
  three routes under `SITE_URL`, and its home entry carries the whole build
  date. Both write the same `<url>` element of the Sitemaps protocol 0.9.
  - A reader for that exact layout is the serialisers' partner. Reading a
    document back yields the entries that were written, one per route and in
    order.

Modules: `Wrappers` (Option), `JsText` (JavaScript string behaviour: `trim`,
`\D` removal, `split`/`join`), `ContactRules` (field names, messages, rules,
`formatPhone`), `ContactForm` (the state and handlers), `Testimonials`,
`SitemapXml` (the shared element and its reader), `StaticSitemap` and
`BuildSitemap`.

## Model

| member | source | states |
|---|---|---|
| ContactRules.FieldOfKey | components/contact.tsx:108-121 | The four `case` labels are exactly the four field names: a key selects a field's rule if and only if it is that field's name. |
| ContactRules.ValidIff | components/contact.tsx:108-120 | The `switch` rules through their plain descriptions: a name or message passes exactly when it holds a non-whitespace character, an email exactly when it has the email shape, and a phone exactly when it has the phone shape. |
| ContactRules.ErrorText | components/contact.tsx:108-120 | Every field's message is non-empty, so a recorded entry is truthy and `!errs[name]` reports the failure. |
| ContactRules.EmptyFailsEveryRule | components/contact.tsx:108-120 | The empty string fails all four rules, so a cleared form cannot be submitted as it is. |
| ContactRules.FilledIff | components/contact.tsx:110 | `value.trim()` is non-empty exactly when the value holds a character outside JavaScript's whitespace set. |
| JsText.TrimEmptyIff | components/contact.tsx:119 | `trim` gives the empty string if and only if every character is whitespace. |
| ContactRules.EmailPatternIff | components/contact.tsx:113 | `^[^\s@]+@[^\s@]+\.[^\s@]+$` accepts exactly the strings with one `@`, no whitespace, a non-empty part before the `@`, and a dot after the `@` that has text on both sides. |
| ContactRules.EmailExamples | components/contact.tsx:113 | `a@b.co` passes the email rule and `a@b` does not. |
| ContactRules.PhonePatternIff | components/contact.tsx:116 | `^\+?[0-9\s-]{7,15}$` accepts exactly the strings where a `+` stands only in front and the characters after it are 7 to 15 digits, whitespace characters or dashes. |
| ContactRules.PhoneExamples | components/contact.tsx:116 | `+91 81253 42924` passes the phone rule; `123456` (too short) and `call me` do not. |
| ContactRules.FormatPhone | components/contact.tsx:126-127 | The result keeps only the digits. Exactly twelve digits are regrouped as `+CC DDDDD DDDDD`, with the digits in their original order; any other count is returned bare. |
| ContactRules.FormatPhoneKeepsDigits | components/contact.tsx:126-127 | Formatting neither drops nor invents a digit. |
| ContactRules.FormatPhoneIdempotent | components/contact.tsx:126-127 | Formatting a formatted value again changes nothing, so re-formatting on every keystroke is stable. |
| ContactRules.FormatPhonePassesRule | components/contact.tsx:116-127 | A formatted value passes the phone rule `^\+?[0-9\s-]{7,15}$` if and only if the typed text held 7 to 15 digits. |
| ContactRules.FormatPhoneExample | components/contact.tsx:126-127 | `918125342924` becomes `+91 81253 42924`. |
| JsText.DigitsOfDigits | components/contact.tsx:127 | Removing non-digits from an all-digit string leaves it unchanged. |
| ContactForm.ValidateField | components/contact.tsx:106-124 | Only the entry for `name` can change. A known field's entry is present, with that field's message, exactly when the value fails the rule, and the result is true exactly when it passes. An unknown name leaves the map alone. |
| ContactForm.ValidateKey | components/contact.tsx:106-124 | Called with a field's own key, validation either deletes the entry and returns true, or writes the field's message and returns false. |
| ContactForm.Validated | components/contact.tsx:142-143 | One call of the `every` callback: it reports success exactly when the field passes, judges that field's entry, and changes no other entry. |
| ContactForm.Change | components/contact.tsx:129-134 | The phone is stored formatted and any other field verbatim; the other fields are kept. The field is re-validated against the stored value only when it already shows an error; otherwise the errors are untouched. |
| ContactForm.Blur | components/contact.tsx:136-137 | Leaving a field judges that field's current value and changes no other entry, field or flag. |
| ContactForm.Every | components/contact.tsx:142-144 | Validation stops at the first failing field, and every earlier field passes. The stored map is the render-time map with only that last-checked field's entry rewritten. |
| ContactForm.AllValidInOrder | components/contact.tsx:142-144 | Checking the fields in key order accepts exactly the forms where every field passes. |
| ContactForm.Submit | components/contact.tsx:139-147 | A pending send makes submit a no-op. Otherwise the send starts if and only if all four fields pass, and fields and `success` are kept. A valid form only loses its `message` entry. An invalid one gets only its first failing field's entry judged. |
| ContactForm.Settle | components/contact.tsx:148-157 | A delivered send clears the fields and shows success, keeping the errors. A failed one adds "Submission failed. Try again." under `form` and keeps the fields. Either way the form stops submitting. |
| ContactForm.Expire | components/contact.tsx:152 | The timer hides the success message and touches nothing else. |
| ContactForm.InitialSound | components/contact.tsx:89-92 | The initial state, with empty fields and an empty map, satisfies the errors invariant. |
| ContactForm.StepKeepsSound | components/contact.tsx:106-158 | Every handler preserves the invariant that each field entry in `errors` belongs to a field whose current value fails its rule and carries that field's message. |
| ContactForm.SubmitKeepsSound | components/contact.tsx:139-147 | Submitting, whether accepted or rejected, keeps the errors invariant. |
| ContactForm.RunKeepsSound | components/contact.tsx:106-158 | The errors invariant holds after any sequence of events. |
| ContactForm.SendingStateHasNoFieldErrors | components/contact.tsx:142-147 | From a sound state, a submit that starts a send leaves no field error in the map. |
| ContactForm.SubmitIsReentrancySafe | components/contact.tsx:141-147 | A valid submit sets `isSubmitting`, and a second submit before the send settles changes nothing, so only one send is made. |
| ContactForm.RejectedSubmitChangesOnlyErrors | components/contact.tsx:142-145 | An invalid submit starts no send and keeps the fields and `success`. |
| ContactForm.FormErrorPersists | components/contact.tsx:153-154 | Once set, the `form` error survives every later event: no handler removes that key. |
| ContactForm.EmptyNameScenario | components/contact.tsx:139-145 | A form with an empty name and valid other fields, submitted with no errors, stops with exactly `{name: "Name required"}` and no send. |
| ContactForm.SuccessWhileSubmitting | components/contact.tsx:147-152 | A new valid submit within the success window keeps the success message while the new send is pending. |
| Testimonials.InitialCount | components/testimonials.tsx:35-40 | Below 640 px the count is 3, below 1024 px it is 4, and otherwise 6. |
| Testimonials.InitialCountMonotone | components/testimonials.tsx:35-40 | A wider viewport never shows fewer cards, and no width shows all eleven. |
| Testimonials.Effect | components/testimonials.tsx:45-54 | The effect sets the count from the width and leaves `showAll` alone. |
| Testimonials.Resize | components/testimonials.tsx:46-50 | A resize is ignored while expanded; while collapsed, the count follows the new width. |
| Testimonials.Toggle | components/testimonials.tsx:123 | A click flips `showAll`. The effect, which depends on `showAll`, then sets the count from the width. |
| Testimonials.Visible | components/testimonials.tsx:56 | The visible cards are always a prefix of the table: all of it when expanded, otherwise the first `min(count, length)`. |
| Testimonials.ToggleHiddenIff | components/testimonials.tsx:120 | The toggle button is hidden exactly when the list is collapsed and the visible cards are already the whole table. |
| Testimonials.ToggleLabel | components/testimonials.tsx:126 | The label reads "Show Less" exactly when the list is expanded. |
| Testimonials.NothingVisibleAtFirst | components/testimonials.tsx:42-56 | Before the effect first runs, the count is 0 and no card is visible. |
| Testimonials.RunKeepsCount | components/testimonials.tsx:35-54 | After any sequence of mounts, resizes and clicks, the count is 0 or a breakpoint value, and below eleven. |
| Testimonials.ToggleAlwaysShown | components/testimonials.tsx:120 | With the eleven-entry table, the toggle button is rendered in every reachable state. |
| Testimonials.CollapsedShowsPrefix | components/testimonials.tsx:46-56 | Collapsed, a resize shows exactly the first 3, 4 or 6 cards for the new width, in table order. |
| Testimonials.ToggleTwice | components/testimonials.tsx:45-56 | Two clicks at one width give the collapsed list for that width. |
| Testimonials.ExpandingOnlyAdds | components/testimonials.tsx:56 | Expanding shows the whole table and never hides a card that was visible. |
| SitemapXml.UrlElement | app/sitemap/route.ts:29-34 | The `<url>` template shared by both routes: it opens with `  <url>`, a line break and `<loc>` followed by the location, and closes with the priority, `</priority>` and `</url>`. Its length is the sum of the four fields and the fixed tag text. |
| SitemapXml.ReadItemsWritten | app/sitemap.xml/route.ts:33-40 | Reading a run of written `<url>` elements and the closing tag gives back the entries, in order, provided no field contains `<`. |
| SitemapXml.ReadItemWritten | app/sitemap/route.ts:29-34 | One `<url>` element, with its location, date, frequency and priority, reads back as the entry it was written from, provided no field contains `<`. |
| StaticSitemap.Today | app/sitemap/route.ts:23 | The date is the prefix of the ISO timestamp before its first `T`. It holds no `T`, and the `T` follows it when one exists. |
| StaticSitemap.Entries | app/sitemap/route.ts:27-35 | Each route gives one entry, in table order: base URL plus path, the shared date, the route's frequency and priority. |
| StaticSitemap.Document | app/sitemap/route.ts:25-37 | The document always opens with the XML declaration and `<urlset>` followed by a line break, and ends with `</urlset>` on its own line. With no routes, that line break is all that stands between them. |
| StaticSitemap.Sitemap | app/sitemap/route.ts:3-37 | Whenever the timestamp holds no `<`, the body of `GET` reads back as exactly one entry per route of the thirteen-route table, under `https://alphabinet.com`, dated with the timestamp's day. |
| StaticSitemap.DocumentRoundTrip | app/sitemap/route.ts:25-37 | For any route table, including an empty one, whose base URL, date and route fields hold no `<`: reading the document back gives exactly the entries the routes produce, in order. |
| StaticSitemap.EmptyDocumentReadsBack | app/sitemap/route.ts:25-37 | A document with no routes reads back as no entries. |
| StaticSitemap.RoutesReadable | app/sitemap/route.ts:7-21 | No path, priority or frequency in the thirteen-route table contains `<`. |
| StaticSitemap.SitemapContents | app/sitemap/route.ts:4-37 | For a timestamp without `<`, the served sitemap holds thirteen entries in table order. The first is the bare `https://alphabinet.com`, all share the day of the timestamp, and each has its route's frequency and priority. |
| BuildSitemap.EnvOr | app/sitemap.xml/route.ts:4-7 | An environment value is used when it is set and non-empty; otherwise the fallback is used. |
| BuildSitemap.Entries | app/sitemap.xml/route.ts:33-39 | Each route gives one entry, in order: base URL plus path and the route's own date, frequency and priority. |
| BuildSitemap.Document | app/sitemap.xml/route.ts:31-40 | The document always opens with the XML declaration and `<urlset>`, followed by a line break and two spaces, and ends with `</urlset>` on its own line. With no routes, nothing else stands between them. |
| BuildSitemap.Sitemap | app/sitemap.xml/route.ts:6-40 | Whenever the resolved base URL and the build date hold no `<`, the body of `GET` reads back as exactly the entries of the three routes. |
| BuildSitemap.DocumentRoundTrip | app/sitemap.xml/route.ts:31-40 | For any route list whose base URL and route fields hold no `<`, reading the document back gives exactly the entries the routes produce, in order. |
| BuildSitemap.EntriesOfRoutes | app/sitemap.xml/route.ts:10-29 | The three routes give the home page (daily, 1.0, build date) and the privacy and terms pages (yearly, 0.3, 2024-01-01). |
| BuildSitemap.SitemapContents | app/sitemap.xml/route.ts:7-40 | When the base URL and build date hold no `<`, the served sitemap reads back as exactly those three entries under the base URL. |
| BuildSitemap.DefaultBase | app/sitemap.xml/route.ts:7 | Without `SITE_URL`, and for a build date without `<`, the home entry is `https://www.alphabinet.com`. |
| BuildSitemap.HomeDateUntruncated | app/sitemap.xml/route.ts:4-16 | When the base URL, the build-date variable and the timestamp hold no `<`, the home entry's date is the whole build-date variable, time part included, when it is set and non-empty. Otherwise it is the whole current timestamp. The legal pages keep 2024-01-01. |

## Left out

- Rendering, animation variants, particles, the intersection observer and
  every presentational component. They hold no logic that the state depends on.
- Clocks and timers. The 1000 ms simulated send and the 3000 ms success timer
  are the events `Settled` and `Expired`. `Expired` is accepted in any state,
  because the model does not track how many timers are pending.
- Send failure. The source's send is a timer that always resolves, so its
  failure branch cannot run. The model still offers the failure as an input
  (`Settled(false)`), so the recovery path is covered.
- The browser's own form validation. The form does not set `noValidate` and
  the email input has `type="email"`, so a browser cancels the submit for a
  non-empty email it rejects (such as `xy`) before `handleSubmit` runs, and it
  strips surrounding whitespace from the email value. The model lets
  `Submitted` and `Changed(Email, raw)` occur for any value, which allows more
  behaviours than a browser does; every property above holds for all of them.
- Event objects. `handleChange` and `handleBlur` take a `Field`, because the
  form renders only the four named inputs. The blurred input's value is the
  stored value, because the inputs are controlled.
- JavaScript object semantics for `errors`. Inherited keys such as
  `__proto__` are not modelled, and the map is a plain finite map.
- React's intermediate render. Between a click on the toggle and its effect,
  one render shows the old count with the new `showAll`. `Toggle` describes
  the state after the effect.
- The window, the environment and the clock: `window.innerWidth`,
  `process.env.SITE_URL`, `process.env.NEXT_PUBLIC_BUILD_DATE` and
  `new Date().toISOString()`. They are parameters. The build date is read once
  at module load, and the model takes its resolved value.
- `NextResponse` and the response headers (`Content-Type`, `Cache-Control`).
  Only the response body is modelled.
- The testimonials' quotes, authors and companies. Only the table's length
  (eleven) and its order matter.
- SitemapXml.ReadItemsWritten: the round trip needs every field to be free
  of `<`. Neither route escapes its text, so a `<` in `SITE_URL` or in the
  build date produces a document that does not read back.
- SitemapXml.ReadItemWritten: needs a `<`-free entry, for the same reason.
- StaticSitemap.DocumentRoundTrip, StaticSitemap.SitemapContents and
  StaticSitemap.Sitemap: they promise nothing about a timestamp, base URL or
  route field that holds `<`.
- BuildSitemap.DocumentRoundTrip, BuildSitemap.SitemapContents,
  BuildSitemap.Sitemap, BuildSitemap.DefaultBase and
  BuildSitemap.HomeDateUntruncated: they promise nothing about a `SITE_URL`,
  build date or timestamp that holds `<`.
- ContactRules.ErrorText: its contract promises only that each message is
  non-empty. The exact texts are in its definition, and
  ContactForm.EmptyNameScenario pins down the name's message.
