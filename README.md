# Portfolio page UI state machines, in Dafny

This project models the only behaviour of a single-page portfolio site that goes beyond static markup. That behaviour is four small, single-threaded UI state machines:

- **Typed-text animator** (hero section, module `Typing`). A timer tick reveals the active phrase one character at a time. Once the whole phrase is shown, a hold timer switches the machine to deleting. Deleting removes one character per tick. A tick over the empty text moves on to the next phrase, modulo the three-phrase rotation. JavaScript's `substring` clamping is written out in `Js.Substring`. The class `Typing.Hero` holds the component's fields. Its two events are tied to the pure transition functions `Step` and `SwitchFires`, and the lemmas are proved about those.
- **Scroll-spy and header** (module `Navigation`). The active section is the last section, in document order, whose window `[offsetTop-100, offsetTop-100+offsetHeight)` holds the scroll offset. Below offset 100 the result is always `home`, and `home` is also the default. The loop of the scroll listener is `SelectSection`, proved against the reference function `ScrollSpy`. The class `Header` also holds the mobile-menu toggle and `scrollToSection`. The nav links, their active marking and the page's section ids are constants.
- **Projects expand/collapse** (module `ProjectList`). Two booleans, `showAll` and `loading`, plus the count of pending expansion timers. A click while expanded collapses at once. A click while collapsed starts loading, and the timer expands the list later. The button is disabled while loading, so a click then is ignored. In every reachable state the list is never expanded while loading. The list shown is the whole collection or its first three entries.
- **Contact submit** (module `ContactForm`). The handler checks the three relay credentials, sends the form, shows one notification, resets the form on success and always ends with `isSubmitting` false. The handler is asynchronous, so the class splits it at its `await`. `HandleSubmit` runs up to the relay call and leaves the send in flight. `SendSettles` is that send's continuation, with the relay's answer (`Delivered` or `Rejected`) as an input. Notifications, relay calls and sends still in flight are logs on the class.

Environment variables, the DOM (section layout, which element ids exist), the relay's answer and timer firings are all parameters or separate event methods. Nothing is read from the outside world.

Two points of the code worth knowing:

- The submit button is never disabled. `isSubmitting` is written but never read, and the button at src/components/Contact.jsx:242-249 has no `disabled` attribute. So the model has no in-flight guard. A submit during another submission's `await` starts a second send of the same, still-filled form. The first delivery resets the form and clears `isSubmitting` while the second send is still pending (`ContactForm.OverlappingSubmissions`).
- On the missing-credentials path, `isSubmitting` is set to false twice: once before the early `return`, and again by the `finally` block. The ghost log `submittingWrites` records both writes.

## Model

| member | source | states |
|---|---|---|
| Js.Substring | src/components/Hero.jsx:25 | `substring` on in-range indices is slicing. From index 0 its result is always a prefix of the string. An end index ≤ 0 gives the empty string, and an end index past the length gives the whole string. |
| Js.Slice | src/components/Projects.jsx:15 | `slice(0, n)` with `n ≥ 0` is the first `min(n, length)` elements. In-range indices are plain slicing. |
| Typing.ActiveIndex | src/components/Hero.jsx:22-23 | `loopNum % phrases.length` is always a valid phrase index, so the active phrase is always defined. |
| Typing.Step | src/components/Hero.jsx:21-39 | A tick's text is always a prefix of the active phrase. A tick never turns deleting on. It schedules the hold switch only from the whole phrase while inserting. It advances `loopNum`, by one, only on a deleting tick over empty text. |
| Typing.SwitchFires | src/components/Hero.jsx:34 | The hold timer turns deleting on, is no longer pending, and leaves the text, phrase and delay alone. |
| Typing.InitialSatisfiesInv | src/components/Hero.jsx:9-12 | The initial state (empty text, inserting, loop 0) meets the invariant and starts on phrase 0. |
| Typing.StepKeepsInv | src/components/Hero.jsx:22-39 | After every tick the text is a prefix of the active phrase, and a pending switch to deleting implies the whole phrase is shown. |
| Typing.SwitchFiresKeepsInv | src/components/Hero.jsx:33-34 | When the hold timer fires, the whole active phrase is shown, so deletion starts only from the full phrase. |
| Typing.InsertingTickGrows | src/components/Hero.jsx:25-31 | An inserting tick on a strict prefix extends the text by exactly the next character of the phrase and sets the delay to 70. |
| Typing.InsertingTickAtFullPhraseHolds | src/components/Hero.jsx:25-34 | An inserting tick on the whole phrase leaves the text unchanged (`substring` clamps), sets the delay to 70 and schedules the switch to deleting. |
| Typing.SwitchScheduledOnlyAtFullPhrase | src/components/Hero.jsx:33-34 | A tick schedules the switch to deleting only when it started from the whole phrase while inserting. |
| Typing.DeletingTickShrinks | src/components/Hero.jsx:25-28 | A deleting tick on non-empty text removes exactly the last character, sets the delay to 40 and stays on the same phrase. |
| Typing.DeletingTickAtEmptyAdvances | src/components/Hero.jsx:35-38 | A deleting tick on empty text keeps `''`, stops deleting, increments `loopNum` by exactly one and sets the delay to 500. |
| Typing.StepTransitions | src/components/Hero.jsx:33-37 | A tick never turns deleting on, because only the hold timer does. The phrase changes only on a deleting tick over empty text, and then by exactly one. |
| Typing.WrapAround | src/components/Hero.jsx:22-37 | The next active index is the current one plus one modulo 3. After the last phrase (index 2) comes index 0. |
| Typing.RunKeepsInv | src/components/Hero.jsx:20-44 | The invariant holds after any number of consecutive ticks. |
| Typing.TypesWholePhrase | src/components/Hero.jsx:25-34 | From any prefix, typing reaches the whole phrase after one tick per missing character, without deleting or changing phrase. |
| Typing.DeletesWholePhrase | src/components/Hero.jsx:25-28 | From any prefix, deleting reaches the empty text after one tick per shown character, still deleting and on the same phrase. |
| Typing.FullCycle | src/components/Hero.jsx:20-44 | From the empty text at the start of a phrase, the cycle type, hold, switch, delete, advance shows the full phrase before deleting. It ends at the empty text on the next phrase (`loopNum + 1`) with the 500 ms pause. |
| Typing.Hero.constructor | src/components/Hero.jsx:9-12 | The component starts in the initial state. |
| Typing.Hero.HandleTyping | src/components/Hero.jsx:21-40 | The tick callback rewrites the four state fields exactly as `Step` does and keeps the invariant. |
| Typing.Hero.HoldTimerFires | src/components/Hero.jsx:34 | The hold timer turns deleting on while the whole phrase is shown. |
| Navigation.InWindow | src/components/Header.jsx:19-21 | An offset is in a section's window only if the section has positive height and the offset is at or below its top minus 100. |
| Navigation.LastMatch | src/components/Header.jsx:18-24 | The index found is one whose window holds the offset, and no later section's window holds it. No index at all means no window holds the offset. |
| Navigation.ScrollSpy | src/components/Header.jsx:13-25 | Offset < 100 gives `home`. Past that, the result is the id of the last section whose window holds the offset, or `home` when none does. The result is always `home` or some section's id. |
| Navigation.SelectSection | src/components/Header.jsx:11-26 | The forward walk that overwrites `current` on each match computes exactly `ScrollSpy`. |
| Navigation.WindowSelectsItsSection | src/components/Header.jsx:18-24 | With non-overlapping windows, any offset ≥ 100 inside a section's window selects exactly that section. |
| Navigation.NavLinkIdsDistinct | src/components/Header.jsx:59-66 | No two navigation links share an id. |
| Navigation.IsActiveLink | src/components/Header.jsx:93 | A link can pass the active-class test only for a section of the page other than `certifications`. |
| Navigation.IndexOfId | src/components/Header.jsx:93 | The first link whose id is the one given, or none exactly when no link has it. |
| Navigation.HighlightedLink | src/components/Header.jsx:59-66 | For every active section at most one nav link is highlighted. If a link is highlighted, its id is the active section. |
| Navigation.AtMostOneActiveLink | src/components/Header.jsx:93 | Two links that both pass the active-class test are the same link. |
| Navigation.CertificationsHighlightsNoLink | src/components/Header.jsx:59-66 | `certifications` is a section of the page, but it has no link, so it highlights none. Every link's id is a section of the page. |
| Navigation.ScrollTarget | src/components/Header.jsx:49-56 | `'#'` scrolls to the top. Any other `#id` scrolls to that element exactly when it exists, and otherwise nothing scrolls. |
| Navigation.EveryNavLinkScrolls | src/components/Header.jsx:59-66 | On this page the Home link scrolls to the top and every other link scrolls to the section it names. |
| Navigation.Header.constructor | src/components/Header.jsx:6-7 | The active section starts as `home` and the menu starts closed. |
| Navigation.Header.HandleScroll | src/components/Header.jsx:11-27 | The scroll listener sets the active section to `ScrollSpy` of the layout and leaves the menu unchanged. |
| Navigation.Header.ToggleMobileMenu | src/components/Header.jsx:124 | The menu button negates `isMobileMenuOpen` and changes nothing else. |
| Navigation.Header.ScrollToSection | src/components/Header.jsx:46-57 | A link click always prevents the default, always closes the menu and scrolls as `ScrollTarget` says. |
| Navigation.ToggleTwiceRestores | src/components/Header.jsx:124 | Two presses of the menu button restore its original state. |
| ProjectList.Displayed | src/components/Projects.jsx:15 | When collapsed, the list shown is the first `min(3, n)` projects in their original order. When expanded, it is the whole list. |
| ProjectList.ButtonLabel | src/components/Projects.jsx:208 | `Loading More...` exactly while loading (whatever `showAll` says), then `Show Less` exactly when expanded and `View All Projects` exactly when collapsed. |
| ProjectList.LabelNamesState | src/components/Projects.jsx:208 | In reachable states each label names exactly one state: `Loading More...` iff loading, `Show Less` iff expanded, `View All Projects` iff neither. |
| ProjectList.Projects.constructor | src/components/Projects.jsx:10-11 | The component starts collapsed, not loading, with no timer pending. |
| ProjectList.Projects.Visible | src/components/Projects.jsx:15 | The four-entry collection shows 3 entries when collapsed and 4 when expanded. |
| ProjectList.Projects.HandleViewAll | src/components/Projects.jsx:51-61 | When expanded it collapses at once and leaves `loading` and the timers alone. When collapsed it sets `loading` and schedules one more timer. |
| ProjectList.Projects.Click | src/components/Projects.jsx:199-202 | A click while loading is ignored. Otherwise the click runs `handleViewAll`. Clicks keep the reachable-state invariant: one timer pending exactly while loading, and never `showAll && loading`. |
| ProjectList.Projects.TimerFires | src/components/Projects.jsx:56-59 | The timer clears `loading`, sets `showAll` and keeps the reachable-state invariant. |
| ProjectList.ExpandCollapseScenario | src/components/Projects.jsx:51-61 | Render, click, click while loading, timer fires, click: 3, 3, 3, 4 and 3 entries shown, with labels View All, Loading, Loading, Show Less, View All. |
| ContactForm.Truthy | src/components/Contact.jsx:59 | A configuration value is falsy exactly when it is unset or the empty string. |
| ContactForm.Configured | src/components/Contact.jsx:59 | The relay call is guarded by all three credentials being set. The guard fails exactly when some credential is unset or empty. |
| ContactForm.Submit | src/components/Contact.jsx:49-76 | A relay call is made iff all three credentials are truthy, with those credentials and the form. The result is the configuration-error toast iff a credential is missing, the success toast iff sent and delivered, and the failure toast iff sent and rejected. The form is emptied exactly on success. |
| ContactForm.OneOfThreeNotifications | src/components/Contact.jsx:61-72 | Every submission shows one of the three notifications, and the three are pairwise distinct. |
| ContactForm.Contact.constructor | src/components/Contact.jsx:14 | The form starts not submitting, with empty fields and no notifications or relay calls. |
| ContactForm.Contact.EditFields | src/components/Contact.jsx:223-240 | Typing into the uncontrolled inputs changes only the form's contents. |
| ContactForm.Contact.HandleSubmit | src/components/Contact.jsx:49-66 | The default is always prevented and `isSubmitting` is written true first. With a missing credential: the configuration-error toast, no relay call, and `false` written twice (early return, then `finally`). Otherwise: exactly one relay call with the credentials and the current form, which stays in flight with `isSubmitting` still true. Every started submission has a notification or a send in flight. |
| ContactForm.Contact.SendSettles | src/components/Contact.jsx:66-76 | Any in-flight send may settle next. It leaves the in-flight list and adds the success toast and resets the form if delivered, or adds the failure toast if rejected. `finally` then writes `isSubmitting` false, whether or not other sends are still in flight. |
| ContactForm.SubmitUninterrupted | src/components/Contact.jsx:49-76 | A submission whose send settles before any other event has exactly the effect `Submit` describes and ends not submitting. |
| ContactForm.OverlappingSubmissions | src/components/Contact.jsx:66-74 | A second submit during the first one's `await` sends the same form twice. After the first delivery, `isSubmitting` is false and the form is empty while one send is still in flight. The notifications follow settle order. |

## Left out

- Animations are not modelled: GSAP timelines, scroll-triggered reveals, framer-motion variants and the AOS initialisation. They are library behaviour with floating-point timings and easings. The one-shot reveal described for sections with scroll-triggered entrances is part of this.
- The presentational components (about, skills, education, certifications, footer, the page composition) have no logic and are not part of this model. The static data files appear only as constants: the four project titles and tech lists, and the page's section ids.
- Project descriptions, images and repository links are display-only and are left out of `ProjectList.Project`.
- React's scheduling and render semantics are not modelled. Timer ticks and timer firings are discrete events (method calls). The tick delays are recorded as state, but no clock is modelled. Tearing a timer down on unmount (`clearTimeout`) is left out, and so is the effect re-running on every render because the phrase array is recreated.
- Typing.Hero.HandleTyping: repeated ticks on the whole phrase before the hold timer fires each schedule a fresh timer in the source. The model keeps one pending switch (a boolean), so several simultaneous hold timers collapse into one. In the source no further tick normally runs in that state, because nothing changes and so nothing re-renders.
- `loopNum` is an unbounded natural number. JavaScript's number precision limit would only matter after about 2^53 phrase cycles.
- Navigation.ScrollTarget: `querySelector` is modelled only for `#id` selectors, the only form the header passes. The check is membership of the id in the document's set of element ids. Smooth scrolling itself, the scroll offsets' fractional parts and the listener registration are left out.
- ContactForm.Contact.HandleSubmit: the relay call's own duration and the moment it settles are not modelled. Which in-flight send settles next is the caller's choice of index in `SendSettles`, so every settle order is covered.
- The mail relay call, reading the environment, `console.error`, how the toast library displays notifications, and the DOM `form.reset()` are not modelled. They become the `RelayResult` input, the `Env` record, the `toasts` log and the three-field `Fields` record.
