# Portfolio page script: a verified model of its interactive state

This project models the stateful parts of the portfolio page's script
(`js/script.js`). The centre is the design-item gallery. It is a modal that shows
named image collections one image at a time. Its previous/next navigation wraps
around, and it shows a `position / total` counter. It locks the page scroll while
it is visible. When an item has no collection of its own, it falls back to that
item's single image. Beside the gallery are four small widgets: the mobile menu,
the text switchers, the project-report toggle and the PDF viewer modal.

Modules:

- `Wrappers`: `Option`, standing for JavaScript's `null`/`undefined`.
- `JsText`: the string operations the script uses. It has `includes` (which
  agrees with the CSS `[src*=…]` test for the non-empty needles the script uses), `split(',')` with its inverse `Join`, the decimal text
  of a number, and the counter text with a parser that reads it back.
- `CyclicIndex`: JavaScript's truncating `%` and the index arithmetic of
  navigation and of the text switcher, with wrap-around and full-turn lemmas.
- `DesignItems`: the page elements as abstract features, the configured
  collection registry, the rule that resolves a key to a collection, and the
  first-match rules that give each design item its key. It also holds the
  initialization loop that classifies the items.
- `DesignGallery`: the `Gallery` class. Its fields are the registry, the current
  collection and index, and three view flags: the modal exists, it is visible,
  and the body's overflow. Its methods are open, close, navigate, the item click,
  the modal's keydown handler and the three `window.*` poster functions. The
  modal's content is a pure function `Render` of the collection and index.
- `PageWidgets`: `NavMenu`, `TextSwitcher`, `ReportToggle` and `PdfModal` as
  classes whose methods are the event handlers.

Behaviour worth noting, as the script is written:

- Closing hides the modal and sets overflow to `'auto'`. It does not release the
  shown image, so the modal's content stays the render of the current state.
- An open that cannot resolve anything leaves every field as it was, including a
  modal that is already visible.
- The fallback in `openDesignModal` reads the first element in the document
  whose `data-collection` is the key. This need not be the clicked item, and the
  caption comes from `alt` only. The item click's own fallback also uses the
  item's `h3`.
- Navigation does not check visibility. Only the keyboard path does.
- Classification is first-match, as written. An item whose heading names both
  sections is classified by the troupe rules only: it gets a troupe key or none,
  never a CS124 key, even with a sticker image.

## Model

| member | source | states |
|---|---|---|
| JsText.Contains | js/script.js:488-502 | `includes`, which agrees with the CSS `[src*=…]` test for non-empty needles, the only ones the script uses: the empty needle is always found, and a found needle is no longer than the text |
| JsText.ContainsAt | js/script.js:488-489 | an occurrence of the needle at any position makes `includes` true |
| JsText.ContainsIffOccurs | js/script.js:488-502 | `includes` holds exactly when the needle occurs at some position, in both directions |
| JsText.Split | js/script.js:143 | `split(',')` yields at least one option, and no option contains a comma |
| JsText.JoinSplit | js/script.js:143 | joining the options with commas gives back the `data-options` text exactly |
| JsText.SplitCount | js/script.js:143 | the number of options is the number of commas plus one |
| JsText.NatToString | js/script.js:468 | the printed number is a non-empty run of decimal digits with no leading zero |
| JsText.ParseNatToString | js/script.js:468 | reading the printed number back gives the number |
| JsText.NatToStringInjective | js/script.js:525 | different numbers never print the same |
| JsText.NatToStringParseNat | js/script.js:468 | a canonical digit string is exactly the printed form of its value |
| JsText.CounterText | js/script.js:468 | the counter text `p / n` reads back as exactly the pair (p, n) |
| JsText.ParseCounterExact | js/script.js:468 | a text reads back as (p, n) if and only if it is the counter text of (p, n), so the counter text is fixed to the digits as printed |
| CyclicIndex.JsRemainder | js/script.js:421 | JavaScript `%` stays strictly between -n and n, equals Dafny's `%` on a non-negative dividend, and takes the dividend's sign otherwise |
| CyclicIndex.NavigateIndex | js/script.js:418-421 | with at most one image the index is unchanged; otherwise a non-negative dividend gives an index in [0, n) |
| CyclicIndex.StepForward | js/script.js:421 | a forward step gives the next index, and 0 after the last |
| CyclicIndex.StepBackward | js/script.js:421 | a backward step gives the previous index, and n-1 before the first |
| CyclicIndex.StepsUndoEachOther | js/script.js:421 | a step back undoes a step forward and the other way round, for any collection size |
| CyclicIndex.ForwardSteps | js/script.js:421 | up to n forward steps from i reach i+k, wrapped once past the end |
| CyclicIndex.FullTurn | js/script.js:421 | n forward steps return to the starting image |
| CyclicIndex.NegativeDividendLeavesRange | js/script.js:552-554 | `switchPoster(-5)` on the first of two images would compute index -1 |
| CyclicIndex.NextOption | js/script.js:147 | the switcher's next index is in range: the following option, and the first after the last |
| CyclicIndex.NextOptionIsForwardStep | js/script.js:147 | the switcher's step equals the gallery's forward step, also for a single option |
| DesignItems.InitialRegistry | js/script.js:190-220 | the seven configured keys, each holding at least one image, with the entries in display order |
| DesignItems.FirstWithCollection | js/script.js:384 | the lookup finds the first element in document order whose `data-collection` is the key, or proves there is none |
| DesignItems.FallbackEntry | js/script.js:387 | the fallback image keeps the img's source; its caption is the alt text when non-empty, and 'Design Item' otherwise |
| DesignItems.ResolveCollection | js/script.js:381-394 | a present non-empty registry entry is used as is; otherwise the first keyed element's first img gives a one-image collection; otherwise nothing resolves; a result is never empty |
| DesignItems.AadtKey | js/script.js:492-500 | inside a troupe section the key is one of the four troupe keys or none, never a CS124 key; featured items get `aadt-featured` exactly; no key exactly when no rule applies |
| DesignItems.Cs124Key | js/script.js:502-506 | inside a CS124 section the key is one of the two CS124 keys or none, never a troupe key; a sticker image gives `cs124-stickers` exactly; no key exactly when neither image test applies |
| DesignItems.ClassifyItem | js/script.js:481-507 | a declared `data-collection` is the key whatever it is; failure only for an item without a declared key or a section; otherwise the key is a heuristic key or none |
| DesignItems.ClassificationRules | js/script.js:481-507 | for each outcome, both directions: any declared key wins; troupe order is featured, social, shirt/merch, workshop; CS124 order (only without the troupe) is sticker, shirt; failure exactly when there is neither a declared key nor a troupe heading ancestor nor a section |
| DesignItems.HeuristicKeysAreConfigured | js/script.js:491-507 | every key the heuristics produce names a configured non-empty collection |
| DesignItems.InitializeDesignItemClicks | js/script.js:476-508 | each item gets the key of its classification, in order; a classification that throws stops the loop at that item |
| DesignItems.ItemTitle | js/script.js:528 | the fallback caption is the alt text if non-empty, else the h3 text if present and non-empty, else 'Design Item' |
| DesignItems.ItemFallbackEntry | js/script.js:523-529 | the registered image is the item's first img with that caption |
| DesignItems.FallbackKey | js/script.js:525 | the key is `fallback-` followed by digits that read back as the item's index |
| DesignItems.FallbackKeyNotConfigured | js/script.js:525 | a `fallback-<index>` key never overwrites a configured collection |
| DesignItems.FallbackKeysDistinct | js/script.js:525 | different items never share a fallback key |
| DesignGallery.Render | js/script.js:426-473 | the image and caption are the current entry's; controls and counter are shown exactly when there is more than one image; the counter reads back as (index+1, n), which fixes its text to the printed `index+1 / n` |
| DesignGallery.Gallery.constructor | js/script.js:321-323 | the registry starts as configured, the collection empty, the index 0, and no modal, no visibility, no scroll lock |
| DesignGallery.Gallery.View | js/script.js:426-473 | the modal has content exactly once it exists, and that content is the render of the current collection and index |
| DesignGallery.Gallery.OpenDesignModal | js/script.js:380-406 | a successful open shows the resolved collection from index 0, visible and scroll-locked, whatever was shown before; a failed open changes nothing; the registry is untouched |
| DesignGallery.Gallery.CloseDesignModal | js/script.js:409-415 | an existing modal is hidden and overflow set to 'auto'; before creation nothing changes; the collection and index never change; a second close repeats the first |
| DesignGallery.Gallery.NavigateDesignImage | js/script.js:418-423 | the index moves by the cyclic rule whether or not the modal is visible; nothing else changes |
| DesignGallery.Gallery.OnItemClick | js/script.js:511-533 | a link click does nothing; a key opens its collection; a keyless item with an image writes only `fallback-<index>`, holding its single image, and shows it at index 0 |
| DesignGallery.CounterExamples | js/script.js:468 | a three-image collection shows "1 / 3" on its first image and "2 / 3" on its second |
| DesignGallery.Gallery.OnKeyDown | js/script.js:366-376 | only while visible: Escape hides the modal (which keeps existing) and unlocks the scroll, ArrowLeft and ArrowRight step back and forward; other keys, or a hidden modal, change nothing |
| DesignGallery.Gallery.OpenPosterModal | js/script.js:544-546 | always shows the two featured posters from the first |
| DesignGallery.Gallery.ClosePosterModal | js/script.js:548-550 | behaves as close |
| DesignGallery.Gallery.SwitchPoster | js/script.js:552-554 | behaves as navigate with the given direction |
| PageWidgets.NavMenu.constructor | js/script.js:3-6 | both the hamburger and the menu start without `active` |
| PageWidgets.NavMenu.OnHamburgerClick | js/script.js:7-10 | toggles the menu; hamburger and menu stay equal |
| PageWidgets.NavMenu.OnNavLinkClick | js/script.js:13-19 | a link click closes the menu |
| PageWidgets.NavMenu.OnDocumentClick | js/script.js:22-27 | a click outside both closes the menu; a click inside either changes nothing |
| PageWidgets.NavMenu.OnKeyDown | js/script.js:126-132 | Escape closes the menu; other keys change nothing |
| PageWidgets.TextSwitcher.constructor | js/script.js:141-144 | the options are the comma-split of `data-options`, starting at index 0 |
| PageWidgets.TextSwitcher.OnClick | js/script.js:146-149 | a click moves to the next option cyclically and shows it |
| PageWidgets.LoadableSource | js/script.js:307-311 | the report loads only from a present, non-empty `data-src` of an existing frame |
| PageWidgets.ReportToggle.constructor | js/script.js:278-281 | the section and label are the markup's, and nothing is loaded yet (`isDocLoaded` false) |
| PageWidgets.ReportToggle.OnToggleClick | js/script.js:290-316 | a click flips the section and its label; the first showing with a loadable source loads it; once loaded the source never changes |
| PageWidgets.PdfSource | js/script.js:235-237 | the viewer gets the `data-pdf` value, or the text "null" when the attribute is missing |
| PageWidgets.PdfModal.constructor | js/script.js:223-228 | the modal starts hidden and the script has assigned the viewer nothing |
| PageWidgets.PdfModal.OnTriggerClick | js/script.js:231-240 | shows the modal with the trigger's document |
| PageWidgets.PdfModal.Close | js/script.js:244-248 | hides the modal and clears the viewer |
| PageWidgets.PdfModal.OnCloseButtonClick | js/script.js:243-249 | the close button closes when it exists |
| PageWidgets.PdfModal.OnModalClick | js/script.js:252-258 | only a click on the backdrop itself closes |
| PageWidgets.PdfModal.OnKeyDown | js/script.js:261-267 | Escape closes a shown modal; otherwise nothing changes |

`DesignGallery.GallerySession` and `DesignGallery.FallbackSession` are clients
of the gallery. The first opens a three-image collection, whose counter reads
"1 / 3" and then "2 / 3". It then closes twice and reopens from index 0. The
second clicks an item without a key whose image is `images/x.png` with alt text
"X Design". That click shows the one-image collection `[{images/x.png, X Design}]`.

## Left out

- Markup construction and styling are not modelled: the modal's HTML, the `cssText` of the new image, and the removal and re-creation of the image element. Only the values the modal shows are kept, in `Render`.
- The counter keeps its old text while it is hidden. The model only gives the counter text when the counter is displayed.
- Event-listener registration, event targets, `closest` and `querySelector` are replaced by abstract element features. The close button and the backdrop click call `CloseDesignModal`, and the previous/next buttons call `NavigateDesignImage(±1)`, so these are covered by those methods.
- `img.src` URL resolution is not computed. `Img.src` is the resolved value, taken as given.
- Registry lookups see only the registry's own keys. Names inherited by a JavaScript object, such as `constructor`, are not modelled.
- A key containing `"` would make the `[data-collection="…"]` selector throw. This is not modelled; every key is treated as a plain string.
- DesignItems.InitializeDesignItemClicks: a classification that throws also ends the rest of the page's setup, so the `window.*` poster functions are never defined. The model only returns the keys of the items before the failing one.
- DesignGallery.Gallery.NavigateDesignImage: a direction that makes `index + direction + n` negative is excluded by the precondition. Only `switchPoster` can pass one. JavaScript would store a negative index and the next render would throw; `NegativeDividendLeavesRange` shows the value.
- DesignGallery.Gallery.SwitchPoster: carries the same precondition. Directions that are not integers are not modelled, and neither are integer directions whose sum with the index and length exceeds 2^53, which JavaScript rounds because its numbers are doubles.
- Diagnostics, analytics and timing are not modelled: `console.log`/`console.error`, `alert`, page-load timing, the service-worker stub, the online/offline logs and the global error handler. They produce output only.
- Browser layout values are not modelled: the navbar hide-on-scroll rule, smooth scrolling to anchors and the IntersectionObserver fade-in. They depend on scroll offsets.
- Timers and hover or press transforms are not modelled, including the switcher's 150 ms scale reset.
- Each widget assumes its elements are present. When the script finds them missing, it installs no handlers and the state never changes. A `.text-switcher` without `data-options` would throw, and that is not modelled.
- PageWidgets.NavMenu: starts with neither element `active`, as in the page markup. If the markup starts them differently, the equality invariant does not hold.
- Loading the report and PDF iframes is not modelled. Only the assigned `src` values and the load-once flag are kept.
- One Escape press reaches the menu, PDF and gallery listeners. Each listener is modelled on its own, because they touch disjoint state.
