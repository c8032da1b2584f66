# Gallery widget decision logic, in Dafny

This project models the decision logic of a small browser gallery widget. The widget shows
astronomy-picture-of-the-day feed entries as a card grid and opens a detail modal when a card
is activated. The logic is taken out of the DOM and stated over abstract values:

- **Feed entries** (`feed.dfy`, module `Feed`). An entry is a record of optional strings
  (`Field = Absent | Present(s)`). The module also states the JavaScript rules that the
  widget's fallbacks depend on:
  - `||` and truthiness: a missing field and the empty string are both falsy.
  - `${…}` interpolation: a missing field is shown as `undefined`.
  - The strict `media_type === 'image' / 'video'` comparisons, read as
    `Image | Video | Other(raw)`.
- **Gallery order** (`date_order.dfy`, module `DateOrder`). `[...data].sort(...)` orders
  entries newest-first by `date`, with a missing date read as `''`. `SortByDate` is a stable
  insertion sort. Lemmas show that:
  - its result is newest-first, a permutation of the input, and keeps equal dates in input
    order;
  - it is the only arrangement with those properties. So whatever algorithm the engine uses,
    a stable sort (required since ECMAScript 2019) gives exactly this result.
- **Cards** (`cards.dfy`, module `Cards`). `createCard` as values: the preview dispatch, the
  caption and `aria-label`, and the rule that a click, Enter or Space opens the card's own
  entry exactly once.
- **Modal content** (`modal_view.dfy`, module `ModalView`). The modal's media choice, the
  explanation fallback, and the link that the "Open Source" button opens.
- **Gallery container** (`gallery.dfy`, module `Gallery`). The class `Container` has
  `ShowLoading` and `RenderGallery`. Its children are replaced wholesale, either by the
  "No entries found." placeholder or by one card per entry, appended in a loop. The method
  receives an array reference, with `null` standing for any value that is not an array, and
  sorts a copy of it. `RenderView` is the function the method is proved against.
- **Modal lifecycle** (`lifecycle.dfy`, module `Lifecycle`). The page state is the mounted
  backdrops, the registered `keydown` listeners and `body.style.overflow`, as the datatype
  `PageState`. It has one transition per trigger. The class `Document` keeps the same state in
  fields, and its methods are proved to follow the transitions and to keep the state
  `Balanced`: every registered listener belongs to exactly one mounted backdrop, and every
  mounted backdrop has its listener.

Where the code does something a reader of the widget's design might not expect, the model follows the code:

- `doClose` sets the overflow to `''`. It does not restore an earlier value. With two modals
  open, closing one re-enables scrolling while the other stays mounted
  (`Lifecycle.CloseUnderAnotherModal`).
- The "Open Source" link uses `hdurl || url`, so an empty `hdurl` also falls back to `url`.
  For every kind that is not an image, including unrecognised kinds, the link is `url`.
- A document `keydown` reaches every registered `escHandler`. If several modals are open,
  one Escape closes all of them (`Lifecycle.KeyDown`).
- A video preview uses its thumbnail only when `thumbnail_url` is truthy, so an empty string
  counts as no thumbnail.

## Model

| member | source | states |
|---|---|---|
| `Feed.Text` | js/script.js:211 | a field read with an empty-string fallback: its string when present, the empty string when missing |
| `Feed.Show` | js/script.js:207 | a field interpolated into a template: its string when present, the text "undefined" when missing |
| `Feed.Kind` | js/script.js:204-210 | media type "image" gives Image and "video" gives Video (both directions); any other or missing value gives Other with that raw text |
| `Feed.Or` | js/script.js:295 | the JavaScript or-fallback yields the first field when it is truthy, else the second; the result is truthy iff either operand is |
| `DateOrder.Key` | js/script.js:256 | the sort key (the date, or '' when it is falsy) is empty exactly when the date is missing or empty |
| `DateOrder.LexLeTotal` | js/script.js:256 | any two date strings are comparable |
| `DateOrder.LexLeAntisymmetric` | js/script.js:256 | two date strings each not greater than the other are equal |
| `DateOrder.LexLeTransitive` | js/script.js:256 | the date comparison is transitive |
| `DateOrder.EmptyIsLeast` | js/script.js:256 | the empty key is below every date, and only the empty key is below it |
| `DateOrder.Insert` | js/script.js:256 | inserting one entry grows the sequence by one and adds exactly that entry |
| `DateOrder.SortByDate` | js/script.js:256 | the sorted copy has the input's length and is a permutation of it |
| `DateOrder.SortByDateSorted` | js/script.js:256 | the sorted copy is newest-first: no later entry has a larger date |
| `DateOrder.SortByDateKeepsTies` | js/script.js:256 | for every date, the entries with that date keep their input order (stability) |
| `DateOrder.UndatedLast` | js/script.js:256 | in newest-first order, an entry with a missing or empty date comes after every dated entry |
| `DateOrder.StableSortIsUnique` | js/script.js:256 | two newest-first sequences with the same entries per date are equal |
| `DateOrder.SortByDateCharacterised` | js/script.js:256 | a sequence is the sort result iff it is newest-first and keeps ties in input order |
| `DateOrder.TiedDatesExample` | js/script.js:256 | dates 2020-01-01, 2020-01-01, 2019-12-31 come out in input order |
| `Cards.SelectPreview` | js/script.js:203-232 | image shows `url`; video with non-empty thumbnail shows the thumbnail; video without shows the "▶ Video" panel; other kinds are unsupported; each case in both directions |
| `Cards.AriaLabel` | js/script.js:200 | the label is "Open ", the title, " from ", the date, and nothing else |
| `Cards.CreateCard` | js/script.js:195-237 | the card keeps its own entry, carries the `AriaLabel` of it, the selected preview and the title/date caption |
| `Cards.ActivationCalls` | js/script.js:239-243 | click, Enter or Space makes exactly one `openModal` call with the card's entry; any other key makes none |
| `ModalView.SelectMedia` | js/script.js:290-314 | image shows `hdurl` if non-empty else `url`; video with non-empty `url` is an iframe of it; otherwise "Media unavailable"; each case in both directions |
| `ModalView.Explanation` | js/script.js:316-317 | the text is never empty: the explanation if non-empty, else "No explanation provided." |
| `ModalView.SourceLink` | js/script.js:326-332 | a window opens only for a non-empty link: `hdurl` falling back to `url` for images, `url` otherwise; the link equals the image or iframe the modal shows |
| `ModalView.BuildModal` | js/script.js:277-320 | the modal carries the entry, its title and date, the selected media and the explanation |
| `Gallery.CardsOf` | js/script.js:258-259 | one card per entry, in the given order |
| `Gallery.BuildFragment` | js/script.js:258-259 | the loop appending `createCard(item)` to the fragment yields exactly one card per sorted item, in order |
| `Gallery.RenderView` | js/script.js:248-261 | exactly the "No entries found." placeholder iff the input is not an array or is empty; otherwise one card per entry and nothing else |
| `Gallery.RenderOrder` | js/script.js:255-260 | the rendered cards show the sorted copy: a permutation of the input, newest-first, ties in input order |
| `Gallery.Container.ShowLoading` | js/script.js:188-190 | the container holds exactly one loading node with the message |
| `Gallery.Container.ShowDefaultLoading` | js/script.js:188-189 | with no message given, the container holds exactly one loading node with the default text |
| `Gallery.Container.RenderGallery` | js/script.js:248-261 | the previous children are gone, the container holds exactly `RenderView` of the received value, and the caller's array keeps its order because the sort runs on a copy |
| `Lifecycle.Unmount` | js/script.js:337 | removing backdrops keeps exactly those with other numbers |
| `Lifecycle.Open` | js/script.js:335-354 | one more backdrop at the end showing the entry's modal, one more listener, overflow "hidden"; balance preserved |
| `Lifecycle.Close` | js/script.js:335-339 | that backdrop and that listener are gone, nothing else is removed, overflow is ""; balance preserved |
| `Lifecycle.CloseAll` | js/script.js:335-340 | closing the modals numbered in a set removes exactly their backdrops and listeners, keeps the numbering, resets the overflow to "" when the set is non-empty and leaves it otherwise; balance preserved |
| `Lifecycle.KeyDown` | js/script.js:340-344 | a non-Escape key changes nothing; Escape runs every registered handler (`CloseAll` of all listeners): no listener is left, the overflow becomes "" if any modal was listening and is unchanged otherwise, the numbering is kept, a balanced page ends with no modal, and with no modal open nothing changes |
| `Lifecycle.BackdropClick` | js/script.js:343 | a click on the panel changes nothing; a click on the backdrop itself closes |
| `Lifecycle.OpenThenClose` | js/script.js:335-354 | open then close restores the mounted backdrops and listeners exactly; only the overflow becomes "" |
| `Lifecycle.CloseIdempotent` | js/script.js:335-339 | calling close a second time changes nothing |
| `Lifecycle.TriggersAgree` | js/script.js:340-344 | with one modal open, the close button, a backdrop click and Escape have the same effect |
| `Lifecycle.CloseOneMore` | js/script.js:340-344 | each escHandler closing its modal in turn equals closing all of them at once |
| `Lifecycle.CloseUnderAnotherModal` | js/script.js:336-354 | closing the newer of two modals leaves the older mounted and listening, but sets the overflow to "" |
| `Lifecycle.CyclesBalanced` | js/script.js:335-354 | any number of open/close cycles leaves the backdrops and listeners as they were (no listener leak) |
| `Lifecycle.Document.OpenModal` | js/script.js:266-355 | the document follows `Open`, returns the new backdrop's number, keeps the balance invariant |
| `Lifecycle.Document.DoClose` | js/script.js:335-339 | the document follows `Close` and keeps the balance invariant |
| `Lifecycle.Document.CloseButtonClick` | js/script.js:342 | the close button closes that modal |
| `Lifecycle.Document.OverlayClick` | js/script.js:343 | the document follows `BackdropClick` |
| `Lifecycle.Document.KeyDownEvent` | js/script.js:340-344 | calling every registered handler in turn leaves the document as `KeyDown` says |
| `Lifecycle.Document.CardActivated` | js/script.js:239-243 | a card event opens the card's entry exactly when `ActivationCalls` makes a call, and otherwise changes nothing |

## Left out

- The branding block (js/script.js:24-177) is not modelled. It injects CSS and picks a fact
  banner with `Math.random`, which is presentation plus randomness.
- `fetchEntries` and `attachHandlers` (js/script.js:360-387) are not modelled: a network
  fetch, `async`/`await`, `console.error`, and the "Couldn’t load data" placeholder around them.
  `FeedData` stands for whatever the fetch delivers.
- A second `renderGallery` call simply replaces the first one's result (last write wins).
  The order in which overlapping fetches finish belongs to the fetch and is not modelled.
- The `$`/`$$` query helpers (js/script.js:182-183) are thin DOM wrappers and are not modelled.
- Markup is not modelled: the HTML strings built through `innerHTML`, CSS classes, inline
  styles, the `img` `alt` and `loading` attributes, and the iframe's `allow`, `referrerPolicy`,
  `loading`, `allowFullscreen` and `title`. There is no escaping or sanitising to model,
  because the code does none.
- Date comparison is plain character order, which agrees with `localeCompare` on ISO dates.
  Locale-specific collation is not modelled.
- The engine's sorting algorithm is not modelled. Only its required result (ordered by the
  comparator, and stable) is; `DateOrder.SortByDateCharacterised` shows that this result is
  unique.
- `window.open` is not modelled as a side effect. `ModalView.SourceLink` returns the link
  that would be opened, or `None` when the click does nothing.
- Entry fields are strings or missing. Feed values of other JSON types are not modelled, and
  neither are array items that are not objects. `renderGallery` would throw on a `null` item.
- `preventDefault` on Enter or Space is not modelled.
- Event dispatch is not modelled: bubbling, and a click starting on the panel but ending on
  the backdrop. A click is classified by its final target only.
