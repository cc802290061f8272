# Portfolio page controller, modelled in Dafny

A model of the behaviour behind a single-page portfolio site (`script.js`).
The page runs one handler per browser event. Each handler runs to completion
over a few flags, numbers, strings and element lists. The model keeps those
handlers and the rules inside them:

- the mobile menu toggle (`NavMenu`);
- the portfolio filter bar (`PortfolioFilter`);
- contact-form validation, with its e-mail check (`Email`), the
  whitespace and `trim()` semantics it relies on (`Text`), per-field error
  messages and the submission lock with its 1800 ms cooldown (`ContactForm`);
- the lazily built success modal (`Modal`), with its 5000 ms auto-dismiss
  timer, its `requestAnimationFrame` step and its `transitionend` step;
- the scroll listeners (`ScrollChrome`): the back-to-top button, the
  navbar shadow and the active navigation link;
- the one-shot skill-bar animation (`Animations`);
- the stat counters that climb to the number in their own text
  (`StatCounter`).

State that a handler changes in place is a class field. Element lists
(filter buttons, cards, nav links) are arrays that the handlers' loops
update. Pure rules are functions: the e-mail pattern, card visibility, the
active section and the counter's climb. Host callbacks are explicit event
methods: timers, animation frames, `transitionend` and intersection
entries. For example, `CooldownExpire`, `TimerFires`, `AnimationFrame`,
`TransitionEnd` and `Intersect` stand for the browser running them.

`\s` in the e-mail pattern and `String.prototype.trim` use the same set of
characters in ECMAScript: the WhiteSpace code points together with the
LineTerminator code points. `Text.IsSpace` lists that set.

The counter is meant to climb: its section is headed "Smooth Number Counter
Animation" (script.js:359), and the step `target / 20` (script.js:366) only
makes sense when counting up from below. The code, however, reads the target
and the starting count from the same text. The starting count is therefore
already the target, and no climb happens. The page's own event
(`StatCounter.Counter.Intersect`) follows the code, through
`StatCounter.Counter.StartAsWritten`. The intended version is
`StatCounter.Counter.Start`, reached through
`StatCounter.Counter.IntersectIntended`; see "## Findings".

## Model

| member | source | states |
|---|---|---|
| Text.IsSpace | script.js:146 | the characters `\s` matches and `trim()` removes: the ECMAScript WhiteSpace and LineTerminator code points; its consequences are stated by the trim lemmas and `Email.ValidEmailIff` |
| Text.Trim | script.js:98 | `trim()`: leading whitespace dropped, then trailing whitespace; what it drops is stated by `TrimStartRemovesPrefix` and `TrimEndRemovesSuffix` |
| Text.IsBlank | script.js:98-113 | the `trim() === ''` test; `BlankIffAllSpace` states that it holds exactly for whitespace-only values |
| Text.TrimStartRemovesPrefix | script.js:98 | the leading part `trim()` drops is all whitespace, and what remains is a suffix of the input that starts with a non-space or is empty |
| Text.TrimEndRemovesSuffix | script.js:98 | the trailing part `trim()` drops is all whitespace, and what remains is a prefix of the input that ends with a non-space or is empty |
| Text.BlankIffAllSpace | script.js:98-116 | a field's `trim() === ''` test holds exactly when the value is empty or consists of whitespace only |
| Email.IndexOf | script.js:145-148 | the result is the position of the first `c` in the string, or its length when there is none; no `c` occurs before it |
| Email.IsValidEmail | script.js:145-148 | `isValidEmail`: split at the first `@`, a non-empty local part and a domain with an inner `.`, neither holding `@` or whitespace; `ValidEmailMatchesPattern` proves it equal to the regular expression |
| Email.ValidEmailMatchesPattern | script.js:145-148 | splitting at the first `@` and checking both halves accepts exactly the strings that `^[^\s@]+@[^\s@]+\.[^\s@]+$` matches in full |
| Email.ValidEmailSplits | script.js:146 | an accepted address splits as local part, `@`, domain label, `.`, rest, each part a non-empty run without `@` or whitespace |
| Email.PatternIsValidEmail | script.js:146 | any such split of a string makes it an accepted address |
| Email.SingleAt | script.js:146 | with `at` the first `@`, the string holds exactly one `@` iff there is an `@` and none after it |
| Email.ValidEmailIff | script.js:145-148 | accepted iff: exactly one `@`; the part before it is non-empty and has no whitespace; the part after it has no whitespace and contains a `.` with at least one character on each side |
| Email.EmailExamples | script.js:145-148 | `"a@b.c"` is accepted; `"ab@c"`, `"a b@c.d"` and `""` are rejected |
| ContactForm.Fails | script.js:98-113 | the four tests: name, subject and message blank after trim; email blank after trim or rejected by `isValidEmail` on the untrimmed value |
| ContactForm.FieldErrors | script.js:96-116 | a field is in the error set exactly when its check fails: name, subject or message blank after trim, or email blank after trim or rejected by `isValidEmail` on the untrimmed value |
| ContactForm.ErrorMap | script.js:98-116 | after validation, the error spans shown are exactly the failing fields, each with its own message |
| ContactForm.ValidEmailNotBlank | script.js:103 | an address `isValidEmail` accepts is never blank, so the email test's `trim() === ''` half adds nothing |
| ContactForm.EmailErrorIffInvalid | script.js:103-106 | the email field is marked exactly when `isValidEmail` rejects its value |
| ContactForm.ErrorsAreBlankFields | script.js:98-116 | with a well-formed or blank address, the fields marked are exactly the blank ones |
| ContactForm.ErrorMapIsUnique | script.js:150-155 | any map with the failing fields as keys, each mapped to its message, is `ErrorMap` |
| ContactForm.FilledFormPasses | script.js:96-116 | four filled fields with a well-formed address produce no error |
| ContactForm.FormController.constructor | script.js:77-84 | the lock starts clear, the fields empty, no error shown and nothing submitted |
| ContactForm.FormController.ClearErrors | script.js:157-169 | every error span is hidden and emptied |
| ContactForm.FormController.ShowError | script.js:150-155 | the field's span shows the given message; the other spans are unchanged |
| ContactForm.FormController.Validate | script.js:96-116 | all four checks run without short-circuiting; the spans shown are `ErrorMap` of the values; the result is true iff no field fails |
| ContactForm.FormController.SubmitForm | script.js:171-183 | the payload is logged, the success modal shows the thank-you message with one auto-dismiss timer pending and its `show` frame queued. Its visibility and its waiting `transitionend` listeners are kept. The form is reset |
| ContactForm.FormController.Submit | script.js:80-143 | while locked, nothing changes (the return precedes `clearErrors`). Otherwise the old errors are replaced by the failing fields. A valid form takes the lock, disables a present button, is submitted once and starts the cooldown. The success modal then has its `show` frame queued, keeps its visibility and keeps its waiting `transitionend` listeners. An invalid form leaves the lock, button, values and modal untouched. The button is disabled exactly while the lock is set |
| ContactForm.FormController.CooldownExpire | script.js:133-141 | the lock is released and a present button re-enabled; the values and shown errors stay as they were |
| ContactForm.DoubleSubmitIsBlocked | script.js:84-141 | a second submit during the cooldown submits nothing more and the button stays disabled; after the cooldown it is enabled |
| Modal.SuccessModal.constructor | script.js:188 | the overlay does not exist yet and no timer is pending |
| Modal.SuccessModal.Init | script.js:188-212 | the overlay is built the first time only, hidden and with empty text; later calls change nothing; it exists exactly once |
| Modal.SuccessModal.Show | script.js:214-226 | the modal is built if needed, shows the message, is displayed and waits for a frame to add `show`; the old timer is cancelled and a fresh one is the only pending timer |
| Modal.SuccessModal.ClearTimeout | script.js:224 | the named timer, if any, is no longer pending; others are untouched |
| Modal.SuccessModal.Hide | script.js:228-238 | a no-op before the overlay exists; otherwise `show` is removed, the pending timer is cancelled, the handle is cleared and one more `transitionend` listener is added |
| Modal.SuccessModal.OverlayClick | script.js:209-211 | only a click whose target is the overlay itself hides it, with the same new state as `Hide`: `show` removed, timer cancelled, handle cleared, one more `transitionend` listener, text and display kept; any other click, or any click before the overlay exists, changes nothing |
| Modal.SuccessModal.AnimationFrame | script.js:221 | a waiting frame callback adds `show`; every other field keeps its value |
| Modal.SuccessModal.TransitionEnd | script.js:233-236 | if a `hideModal` listener is waiting, the overlay gets `display: none` and the listeners are removed; every other field keeps its value |
| Modal.SuccessModal.TimerFires | script.js:225 | a cleared or already fired timer does nothing; the pending one hides the modal as `Hide` does, keeping text, display and any waiting frame |
| Modal.ShowTwiceRestartsCountdown | script.js:224-225 | showing again restarts the countdown: the first timer no longer hides the modal, the second does |
| PortfolioFilter.CardShown | script.js:58-68 | a card is shown when the filter is `'all'` or its `data-category` is `===` the filter, `null` included; `ShowAllShowsEverything` and `FilterShowsItsCategory` state the two cases |
| PortfolioFilter.ShowAllShowsEverything | script.js:58-60 | under `'all'` every card is shown |
| PortfolioFilter.FilterShowsItsCategory | script.js:62-68 | any other filter shows exactly the cards whose `data-category` equals it, so a card tagged `all` shows only under `'all'` |
| PortfolioFilter.FilterBar.constructor | script.js:44-45 | one flag per button and per card, none set |
| PortfolioFilter.FilterBar.Click | script.js:47-72 | the clicked button is the only active one; card `i` is hidden iff it is not shown under the clicked filter, whatever it was before; shown cards get the entrance animation |
| PortfolioFilter.WebThenAll | script.js:47-72 | on cards tagged `web`, `design`, `all`: `web` shows card 0 only, then `all` shows all three |
| ScrollChrome.ActiveSectionId | script.js:335-345 | the id of the last section in document order with `scrollY >= top - 200`, or `''`; characterised by `NoSectionReached` and `LastReachedSectionWins` |
| ScrollChrome.LinkActive | script.js:351 | a link is active when `href.slice(1)` equals the current id; a section without an id matches no link |
| ScrollChrome.NoSectionReached | script.js:335-345 | with no section within 200 px, `current` stays `''` |
| ScrollChrome.LastReachedSectionWins | script.js:335-345 | the last section in document order with `scrollY >= top - 200` gives `current` |
| ScrollChrome.CurrentSection | script.js:335-345 | the handler's loop over sections computes `ActiveSectionId` |
| ScrollChrome.LinkTarget | script.js:351 | `slice(1)` drops exactly the leading character; on `''` it gives `''` |
| ScrollChrome.ScrollSpy.constructor | script.js:6 | the links (script.js:6), the back-to-top button (script.js:24) and the navbar (script.js:291) are looked up. Before the first scroll no link is active, the button is hidden and the navbar is flat; those starting classes come from the page's markup, not from code |
| ScrollChrome.ScrollSpy.OnScroll | script.js:334-356 | with the listeners at script.js:26-32 and 293-299: back-to-top shown iff `scrollY > 300`, raised navbar iff `scrollY > 50`; every link is cleared and active again iff its `href` minus its first character is the current section's id |
| ScrollChrome.ActiveSectionExample | script.js:342 | the first section is current at the top; a section 1000 px down takes over at 800 px; `#about` is active for `about` and `#home` is not; a section 300 px down is not yet reached at 0 |
| StatCounter.Digits | script.js:365 | `replace(/\D/g, '')` yields digits only |
| StatCounter.DigitsConcat | script.js:365 | deleting non-digits works piecewise: the digits of `a + b` are those of `a` followed by those of `b` |
| StatCounter.DigitsOfChar | script.js:365 | a single character is kept exactly when it is a digit, so together with `DigitsConcat` every digit is kept in order and nothing else |
| StatCounter.DigitsOfNonDigits | script.js:365 | a text without digits yields `''`, which `+` reads as 0 |
| StatCounter.ParseCount | script.js:365 | `+text.replace(/\D/g, '')`: the decimal value of the text's digits; `ParseDisplay` proves it inverts `Display` |
| StatCounter.Display | script.js:372 | `n + '+'`, the counter's text for value `n`; read back by `ParseDisplay` |
| StatCounter.Decimal | script.js:372 | `String(n)` is a non-empty digit string without a leading zero |
| StatCounter.DecimalRoundTrip | script.js:372 | reading a decimal numeral back gives the number |
| StatCounter.ParseDisplay | script.js:369-372 | re-parsing the displayed `n + '+'` gives `n`, so each tick sees the value the last one wrote |
| StatCounter.Step | script.js:366 | the step `ceil(target / 20)`: zero for a zero target, otherwise the least `s` with `target <= 20 * s` |
| StatCounter.CeilingIsCountPlusStep | script.js:372 | for an integer count, `Math.ceil(count + target / 20)` equals `count + Step(target)` |
| StatCounter.CountUp | script.js:368-377 | the sequence of values shown ends with exactly the target |
| StatCounter.CountUpShape | script.js:371-376 | each value before the snap is one step above the previous one; all but the last two are below the target; the last before the snap overshoots by less than one step; a count at or past the target just shows the target |
| StatCounter.CountUpValueAt | script.js:372 | the `i`-th value before the snap is `count + (i + 1) * Step(target)` |
| StatCounter.IncreasingUntilSnap | script.js:371-373 | the values strictly increase up to the snap |
| StatCounter.CountUpWithin | script.js:371-373 | if `k` steps reach the target, there are at most `k` increments |
| StatCounter.CountUpLength | script.js:371-373 | if exactly `k` steps are needed, there are exactly `k` increments and the snap |
| StatCounter.CountFromZeroWithin20Steps | script.js:366-373 | from 0 the climb ends after at most 20 increments and the snap |
| StatCounter.Decimal150 | script.js:375 | the final text for 150 is `"150+"` |
| StatCounter.AsWrittenCounterJumpsToTarget | script.js:365-371 | for `"150+"` the code reads 150 as both target and count, so the only value shown is 150 |
| StatCounter.CountFrom150Example | script.js:366-376 | from 0 to 150 the step is 8; 20 values: 8, …, 144, 152, then 150 |
| StatCounter.CountFrom150Value | script.js:372 | before the snap, the `i`-th value from 0 to 150 is `8 * (i + 1)` |
| StatCounter.CountFrom150Length | script.js:371-376 | from 0 to 150 there are 19 increments and the snap |
| StatCounter.Counter.constructor | script.js:361 | the counter holds its initial text and is observed |
| StatCounter.Counter.UpdateCount | script.js:368-377 | running the tick chain to the end writes exactly `CountUp` of the count in the text and leaves the text showing the target |
| StatCounter.Counter.StartAsWritten | script.js:364-380 | as written: the target is parsed from the text and the counter shows only the target |
| StatCounter.Counter.Start | script.js:364-380 | as intended: it shows `0+`, then the climb `CountUp(0, target)`, and ends on the target |
| StatCounter.Counter.Intersect | script.js:383-390 | as the page runs it: the first intersecting entry runs `updateCounter` as written and stops the observation, so the only value shown is the target parsed from the text; an entry that is not intersecting, or one after the observation ended, changes nothing |
| StatCounter.Counter.IntersectIntended | script.js:383-390 | the same event with the corrected start: the counter shows `0+`, then `CountUp(0, target)`, and ends on the target |
| Animations.SkillBars.constructor | script.js:326-329 | not animated yet; the section is observed iff it exists |
| Animations.SkillBars.Intersect | script.js:307-324 | the first intersecting entry while the flag is clear saves every width, sets the bars to `'0'`, sets the flag and unobserves; a batch with no intersecting entry, or one after the observation ended, changes nothing; the bars are reset at most once whatever entries arrive |
| Animations.SkillBars.RestoreTimers | script.js:314-317 | each bar gets its saved width back; the saved widths are kept |
| Animations.RepeatedIntersectionsAnimateOnce | script.js:305-321 | three entries into view reset the bars once, and they end at their original widths |
| NavMenu.MobileMenu.constructor | script.js:4-5 | the menu starts closed |
| NavMenu.MobileMenu.Toggle | script.js:8-11 | the hamburger and the panel flip `active` together |
| NavMenu.MobileMenu.LinkClick | script.js:14-19 | a link click closes the menu |

## Left out

- Rendering is abstracted into flags: DOM queries, class and style strings, CSS animations, `innerHTML` and borders. The button's opacity, cursor and `aria-disabled` are folded into one "disabled" flag.
- `console.log` calls are not modelled: the form payload log and the welcome banner (script.js:173, 433-434). The payload log is kept only as the `submitted` sequence.
- The entrance-animation observer (script.js:273-286) is left out. It only sets an animation string on elements once.
- Smooth scrolling (script.js:34-39, 243-263) and the ripple effect (script.js:401-420) are left out: they are pixel geometry from foreign browser calls.
- The page-load opacity (script.js:426-428) is left out; it is a style change.
- Real time is not modelled: timer durations, intersection thresholds and root margins. Interleaving other events between two counter ticks is also not modelled. Each host callback is an explicit event method instead.
- Scroll offsets are whole pixels; a fractional `scrollY` is not captured.
- `Text.IsSpace` treats a string as a sequence of code points. JavaScript strings are UTF-16, so a lone surrogate is not distinguished.
- StatCounter.Decimal: numbers are unbounded naturals, not doubles. `String(n)` switches to exponent notation from 10^21 (`"1e+21"`), and `+digits` rounds above 2^53. Past those values the page's re-parse differs, and `ParseDisplay` does not hold there.
- `StatCounter.CeilingIsCountPlusStep`: the step is exact rational arithmetic, not IEEE doubles. For very large targets the page's floating-point `target / 20` can differ.
- `ContactForm.FormController.SubmitForm`: `contactForm.reset()` is modelled as clearing every field, on the assumption that the inputs have empty default values.
- `ScrollChrome.ScrollSpy.OnScroll`: every link is assumed to have an `href`. A missing one would make `slice` throw.
- `Animations.SkillBars.RestoreTimers`: the per-bar 100 ms timers are merged into one event that restores every bar.
- `StatCounter.Counter.Intersect` takes one entry per call. Each counter has its own observer, which makes every entry in a batch about this counter. The page's `forEach` goes on after `unobserve`, so a second intersecting entry in the same batch runs `updateCounter` once more. The model does not capture that second run. For the code as written it would show the same `Display(target)` again.
- `Modal.SuccessModal.TransitionEnd`: every pending `transitionend` listener runs at once. As in the code, a listener left by an earlier hide also runs after a later show.

## Findings

| source | as written | input that shows it | evidently intended | confidence | as-written member | corrected member |
|---|---|---|---|---|---|---|
| script.js:365-371 | `updateCounter` sets `target` from the counter's text. The first `updateCount` then reads `count` from the same, unchanged text, so `count == target`. The counter jumps straight to the target instead of animating. | a counter whose text is `"150+"`: target 150, count 150; the only value written is `"150+"` | count up from 0 in steps of `ceil(target / 20)`, then snap to the target | not executed | StatCounter.AsWrittenCounterJumpsToTarget | StatCounter.Counter.Start |
