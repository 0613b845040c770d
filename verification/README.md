# Stackly site script — a Dafny model of its interactive core

The Stackly marketing site drives its pages with one browser script,
`app.js`. This project models the parts of it that hold state or make
decisions, and proves what they promise:

- **`Header`** (`header.dfy`). The mobile overlay menu and its hamburger button. The
  mobile accordion toggles. The desktop drop-down menus: click-to-toggle,
  keyboard opening, a delayed close when the pointer leaves, cancelled when
  it comes back, and a close on any click outside. The Escape key closes
  the overlay and the desktop drop-downs.
- **`Testimonials`** (`testimonials.dfy`). The autoplay slider. A clone of
  the first slide follows the last one, and a one-off `transitionend`
  listener snaps the track back to slide 0. Hovering or hiding the tab
  pauses it.
- **`ContactForm`** (`contact_form.dfy`). The `isEmail` check
  (`/\S+@\S+\.\S+/`), the contact form's submit handler (validation,
  mailto fallback or JSON post) and the "Open email client" button.
- **`SamplePanel`** (`sample_panel.dfy`). The slide-in "request a sample"
  panel: it saves and restores focus, locks scrolling, closes on Escape,
  traps Tab focus, and handles its request form.
- **`Faq`** (`faq.dfy`). The FAQ accordion, with and without reduced
  motion.
- **`Text`** (`text.dfy`). `String.prototype.trim` over the ECMAScript
  white-space set. **`Optional`** (`optional.dfy`) holds an option type for
  attributes and elements that may be absent.

Handlers that only read and write the page are pure functions over a small
state datatype, and the lemmas are stated about those functions. Handlers
that mutate an object in place are methods of a class, for example:

- `Carousel` holds the slider's closure variables.
- `DesktopNav` holds the item `open` classes as an array and the
  `closeTimers` map.
- `Panel` holds the sample panel's state.
- `FaqItem` holds one FAQ item.

Each method's postcondition states the whole new state. For `Carousel`,
`MobileOverlay` and `FaqItem` it equates the new state with the pure
function applied to the old one. For `DesktopNav` and `Panel` it lists the
fields one by one. Timers, events and the focused element
are inputs: a method runs when the browser would call the handler. The
`transitionend` and timer callbacks are separate methods.

## Model

| member | source | states |
|---|---|---|
| Text.SkipSpace | app.js:442-447 | the position returned is the first one at or after k that is not white space, or the end |
| Text.BackOverSpace | app.js:442-447 | the position returned ends s[i..j] once its trailing white space is removed, and is preceded by a non-space unless it reached i |
| Text.Trim | app.js:442-447 | `trim()` returns a contiguous piece of its input; everything cut away before and after it is white space, and the piece is empty or starts and ends with a non-space character |
| Text.TrimEmptyIff | app.js:454-455 | a trimmed field is empty (so `!data.name` holds) exactly when the field is all white space |
| Text.TrimIdempotent | app.js:442-447 | trimming twice is trimming once |
| ContactForm.IsEmail | app.js:434 | `isEmail` itself, computed by a scan; its meaning is stated by `IsEmailIsRegexTest` and `IsEmailIff` |
| ContactForm.DotFromIff | app.js:434 | the scan for the `.` part succeeds iff a non-space run, a dot and a non-space character follow the `@` |
| ContactForm.EmailFromIff | app.js:434 | the scan from position a succeeds iff some `@` at or after a starts a match |
| ContactForm.IsEmailIff | app.js:434 | `isEmail` holds iff the string has an `@` and a later `.`, each with a non-space character on both sides and only non-space characters between them |
| ContactForm.MatchInPiece | app.js:434 | a match inside a substring is the same as a match of the whole string at the shifted positions, lying inside the substring |
| ContactForm.IsEmailIsRegexTest | app.js:434 | `isEmail` is exactly the unanchored `RegExp.test` of `\S+@\S+\.\S+`: some substring matches the whole pattern |
| ContactForm.MissingPartRejected | app.js:434 | a string with no `@`, or with no `.`, is rejected |
| ContactForm.MatchSurvivesTrim | app.js:434 | a match in a string is also a match, shifted, in the trimmed string |
| ContactForm.MatchBeforeTrim | app.js:434 | a match in the trimmed string is a match, shifted back, in the untrimmed one |
| ContactForm.IsEmailTrimmed | app.js:444-455 | trimming the e-mail field never changes the `isEmail` verdict |
| ContactForm.Collect | app.js:441-450 | name, company, e-mail, phone, project and budget are the trimmed fields; the date and the consent box pass through untouched |
| ContactForm.ResolveAction | app.js:460 | a missing or empty action attribute becomes "#", and any other value is kept; the result is never empty |
| ContactForm.UsesMailto | app.js:461 | the mailto test with `&&` binding tighter than `\|\|`; its effect is stated by `SubmitRoute` and `EmptyActionUnreachable` |
| ContactForm.Submit | app.js:436-478 | the submit handler; its outcomes are stated by `SubmitBlocked` and `SubmitRoute` |
| ContactForm.SubmitBlocked | app.js:452-457 | the submission is blocked iff the name is blank or the e-mail fails `isEmail`, and each error flag is raised for its own field alone |
| ContactForm.SubmitRoute | app.js:459-478 | a valid submission opens mail iff the action is missing, empty, "#", or "/contact" without a server; the subject names the trimmed sender; the mail body is the template filled with the collected fields; otherwise the collected (trimmed) inquiry is posted to the action |
| ContactForm.EmptyActionUnreachable | app.js:460-461 | the `action === ''` test never decides the route, because `\|\| '#'` has already replaced the empty string |
| ContactForm.SenderName | app.js:495 | `trim() \|\| 'Customer'`; stated by `MailtoButtonName` |
| ContactForm.MailtoButton | app.js:494-498 | the button opens the mail client with its subject and its signed body; stated by `MailtoButtonName` |
| ContactForm.MailtoButtonName | app.js:494-498 | the button always signs with a non-empty name: "Customer" for a blank field, otherwise the trimmed field; the button opens the mail client; the subject is "Inquiry from " plus that name, and the body is the fixed greeting followed by that name, so it ends with the signature |
| Testimonials.Initial | app.js:333-337 | the slider starts on slide 0 at offset 0, unarmed and not paused, which is a coherent state for any non-empty track |
| Testimonials.Advance | app.js:344-351 | `next()` moves one slide on, keeps the pause flag, and keeps offset = 100·index with the snap-back armed exactly from the clone on |
| Testimonials.SnapBack | app.js:353-362 | `onTransitionEnd` returns to slide 0 at offset 0 and removes itself |
| Testimonials.AfterTick | app.js:365-367 | a tick does nothing while paused and otherwise advances one slide, keeping the state coherent |
| Testimonials.AfterTransitionEnd | app.js:348-361 | a track `transitionend` does nothing unless the snap-back is registered, and then returns to slide 0 |
| Testimonials.RunCoherent | app.js:339-390 | every sequence of ticks, transition ends, hovers and visibility changes keeps the state coherent |
| Testimonials.OrderlyRunStaysOnTrack | app.js:344-367 | when every armed snap-back happens before the next unpaused tick, the index stays within the slides plus the clone |
| Testimonials.TickWhileArmedOverruns | app.js:344-367 | a tick that arrives while the snap-back is still pending moves the track past the clone |
| Testimonials.TicksAdvance | app.js:364-367 | k unpaused ticks advance the index by exactly k |
| Testimonials.LoopsBackToStart | app.js:344-362 | from any original slide, ticking on to the clone and letting its transition end brings the slider back to slide 0 |
| Testimonials.Carousel.constructor | app.js:333-337 | a new slider over a non-empty track is at its initial, coherent state |
| Testimonials.Carousel.Setup | app.js:325-337 | an empty track sets nothing up; otherwise the slider starts at its initial state |
| Testimonials.Carousel.Next | app.js:344-351 | the fields move as `Advance` says, and coherence is kept |
| Testimonials.Carousel.OnTransitionEnd | app.js:353-362 | the fields move as `SnapBack` says |
| Testimonials.Carousel.Tick | app.js:364-368 | the interval callback moves the fields as `AfterTick` says |
| Testimonials.Carousel.TrackTransitionEnd | app.js:348-361 | a track `transitionend` moves the fields as `AfterTransitionEnd` says |
| Testimonials.Carousel.MouseEnter | app.js:377 | hovering pauses and changes nothing else |
| Testimonials.Carousel.MouseLeave | app.js:378 | leaving resumes and changes nothing else |
| Testimonials.Carousel.VisibilityChange | app.js:384-390 | the slider is paused exactly while the document is hidden |
| Header.OverlayOpened | app.js:8-21 | the overlay is open, `aria-hidden` is "false" and scrolling is locked; with a hamburger it says expanded and shows a cross, and without one those are untouched |
| Header.OverlayClosed | app.js:22-34 | the overlay is closed, `aria-hidden` is "true" and scrolling is unlocked; with a hamburger it says collapsed and shows its lines, and without one those are untouched |
| Header.HamburgerClicked | app.js:36-39 | the hamburger's handler; stated by `HamburgerTwice` |
| Header.HamburgerTwice | app.js:36-39 | from a consistent view a hamburger click flips the overlay, and a second click restores every attribute |
| Header.MobileOverlay.constructor | app.js:3-4 | the overlay starts as the markup has it |
| Header.MobileOverlay.Open | app.js:8-21 | the fields become `OverlayOpened` of the old view |
| Header.MobileOverlay.Close | app.js:22-40 | the fields become `OverlayClosed` of the old view (also the close button's handler) |
| Header.MobileOverlay.HamburgerClick | app.js:36-39 | with a hamburger the click toggles the overlay; without one nothing is listening |
| Header.MobileOverlay.OverlayClick | app.js:41-43 | a click closes the overlay only when it lands on the backdrop itself |
| Header.Toggled | app.js:59 | `classList.toggle('open')` flips the item's class and no other |
| Header.ToggledTwice | app.js:54-69 | toggling the same item twice restores the accordion |
| Header.Accordion.constructor | app.js:54 | the items' classes start as in the markup |
| Header.Accordion.Click | app.js:54-69 | a toggle inside an item flips that item alone; one outside any item changes nothing |
| Header.AllClosed | app.js:144 | every item without the `open` class |
| Header.AfterTriggerClick | app.js:102-113 | a trigger click flips its item and closes every other one, so at most one item is open |
| Header.TriggerClickTwice | app.js:102-113 | two clicks on the same trigger restore the menu exactly when no other item was open |
| Header.DesktopNav.constructor | app.js:72-78 | items start as in the markup, with no close timer |
| Header.DesktopNav.OneTimerPerItem | app.js:78-94 | in a consistent state each item has at most one pending close timer, and it is the one the map records |
| Header.DesktopNav.ClearCloseTimer | app.js:80-86 | the item's timer, if any, is cancelled and its map entry removed; no timer stays pending for it |
| Header.DesktopNav.StartCloseTimer | app.js:87-94 | the old timer is cancelled and one new timer is recorded for the item; other items' timers are untouched |
| Header.DesktopNav.TimerFires | app.js:89-92 | a pending timer closes its item and forgets its entry; a cancelled one changes nothing |
| Header.DesktopNav.CloseAll | app.js:144 | every top-level item loses `open` |
| Header.DesktopNav.TriggerClick | app.js:99-113 | an item with trigger and drop-down changes as `AfterTriggerClick` says; any other item has no listener |
| Header.DesktopNav.TriggerKeyDown | app.js:116-124 | ArrowDown, Enter or Space opens the item without touching the others; other keys do nothing |
| Header.DesktopNav.DocumentClick | app.js:142-145 | a click outside the navigation closes every item, and one inside changes nothing |
| Header.DesktopNav.PointerEnter | app.js:130-138 | entering or touching cancels the item's pending close and removes only its entry; other items' timers are kept |
| Header.DesktopNav.PointerLeave | app.js:131-134 | leaving an open item replaces its entry with a new timer id, not pending before, so exactly one close timer is pending for it; other items' entries are kept; leaving a closed one changes nothing |
| Header.EscapePressed | app.js:45-51 | Escape closes the overlay and every drop-down |
| SamplePanel.IndexOf | app.js:596 | `indexOf` returns the first position of the element, or -1 exactly when it is absent |
| SamplePanel.TrapFocus | app.js:587-605 | closed panel or nothing focusable: no effect; focus ends on the old element or a focusable one; the key is cancelled only for Tab from inside the panel |
| SamplePanel.IndexOfDistinct | app.js:589-596 | in a list of distinct elements, `indexOf` finds an element at its own position |
| SamplePanel.TabCycles | app.js:595-604 | Tab and Shift+Tab cycle through the panel's focusable elements: last wraps to first, first to last |
| SamplePanel.TrapPullsFocusIn | app.js:591-594 | focus outside the open panel is moved to its first focusable element, whatever the key |
| SamplePanel.TrapIgnoresUnlisted | app.js:595-604 | a Tab from an element inside the panel that is not in the focusable list (`indexOf` is -1) is left to the browser |
| SamplePanel.FocusAfterTab | app.js:595-604 | where a Tab on a listed element leaves focus; stated by `TabCycles` |
| SamplePanel.TrapLeavesInnerTabs | app.js:595-604 | a Tab that does not wrap is left to the browser |
| SamplePanel.RequestReplyFor | app.js:680-682 | the request form's check; stated by `RequestSentIff` |
| SamplePanel.RequestSentIff | app.js:680-686 | the request is accepted iff neither name nor e-mail is blank |
| SamplePanel.Panel.constructor | app.js:569-578 | the panel starts closed, not listening, with nothing saved |
| SamplePanel.Panel.Open | app.js:607-619 | opening an open panel changes nothing; otherwise the focused element is saved, the panel shows, scrolling locks, a focus timer is set and the listeners are registered |
| SamplePanel.Panel.Close | app.js:621-629 | closing a closed panel changes nothing; otherwise the panel hides, scrolling unlocks, focus returns to the saved element and the listeners are removed |
| SamplePanel.Panel.FocusTimerFires | app.js:613-616 | the focus timer moves focus to the panel's first focusable element, if it has one |
| SamplePanel.Panel.FocusMoved | app.js:640-647 | while the panel is open, focus that lands outside it is pulled back to its first focusable element |
| SamplePanel.Panel.KeyDown | app.js:631-638 | while listening, Escape closes the panel with the whole post-state of `Close` (hidden, unlocked, focus back on the saved element); Tab goes through `trapFocus` and changes nothing but focus; otherwise nothing happens |
| SamplePanel.Panel.SubmitRequest | app.js:676-691 | the feedback text matches the verdict, and only an accepted request sets the close timer |
| SamplePanel.Panel.RequestTimerFires | app.js:687-690 | the request timer closes an open panel with the whole post-state of `Close`, and leaves a closed one as it was |
| Faq.Init | app.js:745-746 | the panel is hidden, and the button says expanded only when the markup said "true" |
| Faq.InitAgrees | app.js:745-746 | a freshly set-up item is consistent unless its markup already said expanded |
| Faq.OpenAsWritten | app.js:786-821 | `open` as written: with animation an open tidy is added beside any still registered; its effect is stated by `AsWrittenOpenClose` |
| Faq.CloseAsWritten | app.js:823-856 | `close` as written: with animation a close tidy is added and `hidden` is left as it was; stated by `AsWrittenCloseNeverHides` |
| Faq.ToggleAsWritten | app.js:773-784 | `toggle` as written; stated by `ReducedAsWrittenIsCorrected` and `ReducedRunAsWritten` for reduced motion, and by `AsWrittenCloseNeverHides` and `AsWrittenOpenClose` for animation |
| Faq.ReducedAsWrittenIsCorrected | app.js:773-784 | with reduced motion and no tidy registered, the code's `toggle` is exactly the corrected one |
| Faq.ReducedRunAsWritten | app.js:773-856 | with reduced motion, from an agreeing item, every run of the code as written equals the corrected run, and `aria-expanded` and `hidden` agree after every click and transition end |
| Faq.TransitionEndAsWritten | app.js:845-853 | the first `transitionend` removes every `once` tidy, and hides the panel only when it is the height transition |
| Faq.EndsKeepHidden | app.js:853 | after the tidies are gone, later transition ends change nothing |
| Faq.AsWrittenCloseNeverHides | app.js:823-856 | as written, when another transition ends first, closing an open item leaves the panel un-hidden for good |
| Faq.AsWrittenOpenClose | app.js:773-856 | as written, opening and then closing an item leaves the button collapsed with its panel not hidden |
| Faq.Open | app.js:786-821 | opening shows the panel and says expanded; with reduced motion the two agree at once |
| Faq.Close | app.js:823-856 | closing says collapsed; with reduced motion the panel is hidden at once, otherwise `hidden` is left as it was and one close tidy is pending |
| Faq.WaitingTidyMustBeReplaced | app.js:818-853 | with tidies that wait for the height transition but are added beside the pending one, as the code adds them, a reopen before the close ends is hidden by the stale close tidy |
| Faq.Toggle | app.js:773-784 | a toggle flips `aria-expanded` and keeps the item in step |
| Faq.AfterTransitionEnd | app.js:845-853 | a tidy waits for the height transition, and then button and panel agree |
| Faq.RunInStep | app.js:773-856 | with the corrected tidy, button and panel agree at every step with reduced motion, and whenever no tidy is pending |
| Faq.FaqItem.constructor | app.js:745-746 | an item starts as `Init` says |
| Faq.FaqItem.Click | app.js:754-757 | a click toggles the item |
| Faq.FaqItem.KeyDown | app.js:760-765 | Enter or Space (by key or by code) toggles, other keys do nothing |
| Faq.FaqItem.TransitionEnd | app.js:812-853 | the panel's `transitionend` runs the corrected tidy |

## Left out

- The background video, the about and hero parallax effects, lazy image loading and reveal-on-scroll observers, the keyboard focus ripple and the mobile-nav resize fallback are left out. They are presentation only, and no decision in the modelled core depends on their state.
- The contact form's `fetch` response handling, `form.reset()` and the success or error messages are left out. The network is not modelled: `PostJson` records where the inquiry goes.
- `encodeURIComponent` and the `mailto:` URL assembly are left out. `OpenMail` holds the subject and body before encoding.
- The sample panel's `MutationObserver` guard on `aria-hidden` is left out. It reacts to other scripts, which are not part of this model.
- Styles, transition timings, `scrollHeight` reads and `requestAnimationFrame` are left out. Timers and transition ends are events, and the durations only decide their order.
- The carousel's cloned slide and the DOM nodes are left out. `stop()` is left out because nothing calls it.
- `Header.DesktopNav.TriggerClick` and `Header.DesktopNav.TriggerKeyDown`: the move of focus to the drop-down's first link is not modelled.
- `Header.EscapePressed`: it needs an overlay and a desktop navigation that both exist. Escape also closes nested `li.open` items of the desktop navigation, and only the top-level items are modelled.
- `Header.OverlayOpened`, `Header.OverlayClosed` and `SamplePanel.Panel`: the model has a separate scroll lock for the overlay and for the panel. On the page both write the same `body.style.overflow`.
- `SamplePanel.FocusAfterTab`: assumes the panel's focusable elements are consecutive in the page's tab order. That is where the browser's default Tab move goes.
- `SamplePanel.Panel.FocusTimerFires`: focuses the first focusable element even if the panel has closed meanwhile, as the code does. The filter on visible elements is an input, the `focusable` list.
- `Faq`: `singleOpen` is the constant `false`, so the branch that closes other items is not modelled. The reveal-on-scroll styles are left out.
- `Faq.FaqItem`, `Faq.Open`, `Faq.Close`, `Faq.Toggle`, `Faq.AfterTransitionEnd` and `Faq.RunInStep`: follow the corrected tidy from Findings. The code as written is `Faq.ToggleAsWritten` and `Faq.TransitionEndAsWritten`.
- The `aria-expanded` attribute is modelled as whether it equals "true", the only thing the FAQ code reads. The id and `aria-controls` fixes at set-up are left out.
- Strings are sequences of Unicode characters, while JavaScript strings are UTF-16 code units. This does not change `\S`, `trim` or the `isEmail` verdict, because astral characters and surrogate halves are all non-space.

## Findings

| source | as written | input that shows it | evidently intended | confidence | as-written member | corrected member |
|---|---|---|---|---|---|---|
| app.js:845-853 | close's tidy is added with `{ once: true }`, so the first `transitionend` on the panel removes it even when its guard then returns because the property is not `height` | without reduced motion, open an item and then close it: the opacity transition (200 ms) ends before the height one (260 ms), consumes the tidy, and `panel.hidden` is never set again; the button says collapsed while the panel stays un-hidden | the tidy runs when the height transition ends ("tidy only once, and only when the height transition ends"), so a closed panel ends up hidden; and since a tidy then outlives the other transition ends, a toggle must replace the pending tidy rather than add one beside it, or a reopen before the close's height transition ends is hidden by the old close tidy (`Faq.WaitingTidyMustBeReplaced`) | medium, not executed | Faq.AsWrittenCloseNeverHides | Faq.RunInStep |
