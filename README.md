# Portfolio page script: a verified model

`script.js` drives a one-page portfolio site. This project models the parts of
it that hold state or make decisions, and proves what they promise:

- **The testimonials section** (`Testimonials`, `testimonials.dfy`). "Add
  Testimonial" appends the next of four sample testimonials as a card.
  "Remove Last" fades the last card out and schedules a callback that later
  detaches that card and decrements the counter. Each button is enabled or
  disabled according to the counter.
  - The model is a `Page` value with one pure step function per listener
    (`AddClicked`, `RemoveClicked`, `TimerFired`).
  - The class `TestimonialSection` holds the same state in mutable fields. Its
    methods are proved to take exactly those steps.
  - Timers have no clock here. Every removal callback waits in a FIFO queue of
    pending cards, and the `TimerTick` event runs the oldest one. All callbacks
    share one delay, so they run in the order they were scheduled.
  - Cards carry a node identity, so `removeChild` can miss a node that is
    already gone.
- **Card initials** (`Names`, `names.dfy`): `name.split(' ')`, the first
  character of each part, joined.
- **The contact form's checks** (`Email`, `email.dfy`): `isValidEmail`'s regular
  expression `^[^\s@]+@[^\s@]+\.[^\s@]+$`, and the submit handler's choice of
  notification.
- **The "Change Title" button** (`TitleRotation`, `title_rotator.dfy`): it cycles
  through four job titles.
- **The theme-colour buttons** (`Theme`, `theme.dfy`): a click activates exactly
  one button and stores its hue. On set-up, a stored hue re-activates the
  buttons whose `data-hue` text equals it.

The testimonial step functions take the testimonial list as a parameter `src`,
just as the listeners read `testimonials.length`. The class fixes `src` to the
sample data. Each step function requires `Valid(src, p)`, the invariant of every
reachable page. `Initial` establishes it and every step preserves it.

What the proofs show about the hazards of the deferred removal:

- **An Add while a removal is pending** (`AddDuringPendingRemoval`). The callback
  still removes the card the Remove click picked, which is no longer the last
  one. The page ends up showing testimonials `0..count-2` followed by
  testimonial `count`. That is not the first `count` testimonials.
- **A double Remove** (`DoubleRemoveRemovesOne`). Both clicks capture the same
  last card, and the first callback detaches it. In the second callback,
  `removeChild` throws because the node is gone, so that callback never reaches
  its decrement. One card goes, one click is lost, and the counter still equals
  the number of cards (`AnyRunKeepsInvariant`).

## Model

| member | source | states |
|---|---|---|
| Names.Split | script.js:589 | `split(' ')` always yields at least one part, and no part contains the separator |
| Names.JoinSplit | script.js:589 | joining the parts of a split with the separator gives back the original string |
| Names.InitialsAreWordStarts | script.js:589-590 | the initials are exactly the non-space characters that start a word, in order; they contain no space and are no longer than the name |
| Names.FirstLettersOfSplit | script.js:589-590 | the first characters of the split's parts are the word starts of the string, and the same holds for all parts after the first |
| Names.TwoWordInitials | script.js:589-590 | a first name and a last name, one space apart, give exactly their two first letters |
| Sequences.IndexOf | script.js:140 | returns the first position of an element, or the length when it does not occur; used for the first `@` of an address and for the node `removeChild` looks for |
| Email.ValidEmailSplits | script.js:139-142 | every accepted address splits as local `@` head `.` tail, each part a non-empty run of `[^\s@]` |
| Email.SplitEmailIsValid | script.js:139-142 | every such split is accepted |
| Email.IsValidEmailIffRegex | script.js:139-142 | `isValidEmail` accepts a string if and only if the regular expression matches it |
| Email.ValidEmailShape | script.js:140 | an accepted address contains exactly one `@` and no white space |
| Email.AcceptsShortestAddress | script.js:140 | `a@b.c` is accepted |
| Email.RejectsDomainWithoutDot | script.js:140 | `a@bc` is rejected: the domain needs an inner dot |
| Email.RejectsSecondAt | script.js:140 | `a@b@c.d` is rejected: a second `@` is not allowed |
| Email.SubmitNotice | script.js:114-130 | the success notice is shown if and only if name and message are non-empty and the address matches; the invalid-address error if and only if all fields are filled and the address does not match; only the success notice has kind `success` |
| TitleRotation.Next | script.js:294 | the next index is always a valid title index |
| TitleRotation.After | script.js:292-294 | from a valid index, any number of clicks stays on a valid index |
| TitleRotation.AfterIsModular | script.js:292-294 | `k` clicks advance the index by `k` modulo the number of titles |
| TitleRotation.FourClicksReturn | script.js:266-294 | four clicks return to the starting title, and one to three clicks never do |
| TitleRotation.CaptionDeterminesTitle | script.js:297-301 | two captions are equal if and only if they show the same title |
| TitleRotation.TitleButton.constructor | script.js:289 | the index starts at 0 and the page's name text is left as it was |
| TitleRotation.TitleButton.Click | script.js:292-301 | a click moves to the next index and shows the owner's name and that title |
| TitleRotation.ClickSequence | script.js:289-301 | from set-up, four clicks show the captions of titles 1, 2, 3 and then 0 |
| Theme.DecimalString | script.js:400 | a hue's `data-hue` text is a non-empty string of decimal digits |
| Theme.DecimalRoundTrip | script.js:400-429 | reading the digits of a hue's text gives the hue back |
| Theme.DecimalStringInjective | script.js:400-429 | two hues have the same text if and only if they are equal |
| Theme.ReloadRestoresClick | script.js:418-430 | the hue a click stores activates, after a reload, that button and no other |
| Theme.ForeignHueActivatesNothing | script.js:424-430 | a stored non-empty value that is no button's hue text leaves every button inactive |
| Theme.ColorButtons.constructor | script.js:395-430 | set-up activates button 0 only, unless a non-empty hue is stored; then exactly the buttons whose hue text equals it |
| Theme.ColorButtons.Click | script.js:405-419 | a click leaves exactly the clicked button active and stores its hue text |
| Testimonials.Initial | script.js:447 | the page after set-up (no cards, counter 0, Remove disabled) satisfies the invariant |
| Testimonials.AddClicked | script.js:612-630 | below the limit, an Add appends a card for the next testimonial, increments the counter, enables Remove and disables Add exactly when all are shown; at the limit it changes nothing; the invariant is kept |
| Testimonials.RemoveClicked | script.js:633-641 | with a card shown, a Remove queues the removal of the current last card and changes nothing else; with none it changes nothing; the invariant is kept |
| Testimonials.Without | script.js:644 | removing the card at a position keeps every other card, in order |
| Testimonials.WithoutKeepsDistinct | script.js:644 | after the removal, node identities stay distinct and the removed node is gone |
| Testimonials.TimerFired | script.js:643-656 | the oldest callback detaches its card if it is still present, decrements the counter and updates both buttons; if the card is gone, it throws before the decrement and changes nothing but the queue; the invariant is kept |
| Testimonials.Dispatch | script.js:612-658 | any event, including a click on a disabled button, keeps the invariant |
| Testimonials.GuardsMatchButtons | script.js:612-658 | the listeners' own guards coincide with the buttons' `disabled` flags |
| Testimonials.Run | script.js:612-658 | any sequence of events keeps the invariant |
| Testimonials.RunAppend | script.js:612-658 | running two sequences of events one after the other is running their concatenation |
| Testimonials.AnyRunKeepsInvariant | script.js:581-658 | from set-up, whatever the order of clicks and callbacks, the counter stays within the list, equals the number of cards, and fixes both buttons' flags |
| Testimonials.FireDetaches | script.js:643-645 | a callback whose card is still at a position detaches exactly that card and decrements the counter |
| Testimonials.IndexOfDistinct | script.js:644 | with distinct identities, a card is found at its own position |
| Testimonials.AddKeepsSettled | script.js:612-630 | an Add on a settled page shows one more testimonial, the next one of the list |
| Testimonials.RemoveThenFire | script.js:633-656 | a Remove whose callback runs before the next click detaches the last card |
| Testimonials.RemoveAndWaitKeepsSettled | script.js:633-656 | a Remove followed by its callback takes the last testimonial back, and the page stays settled |
| Testimonials.SettledRunShowsPrefix | script.js:581-658 | over Adds and completed Removes, the container holds exactly the first `count` testimonials, in order |
| Testimonials.PrefixFromStart | script.js:581-658 | the same from set-up |
| Testimonials.RemoveThenAdd | script.js:612-641 | an Add after a Remove appends a card while the earlier card is still queued for removal |
| Testimonials.AddThenFire | script.js:635-645 | that callback then detaches the card before the new one |
| Testimonials.AddDuringPendingRemoval | script.js:612-658 | Remove, Add, then the callback: the counter is unchanged, but the page shows testimonials `0..count-2` followed by testimonial `count`, not the first `count` |
| Testimonials.RemoveTwice | script.js:633-641 | two Removes before a callback queue the same last card twice |
| Testimonials.DoubleRemoveRemovesOne | script.js:633-656 | two Removes and the first callback remove one card; the second callback finds no node and changes only the queue |
| Testimonials.TestimonialSection.constructor | script.js:554-581 | set-up with the sample data gives the initial page |
| Testimonials.TestimonialSection.ClickAdd | script.js:612-630 | the Add listener updates the fields exactly as `AddClicked` does |
| Testimonials.TestimonialSection.ClickRemove | script.js:633-641 | the Remove listener updates the fields exactly as `RemoveClicked` does |
| Testimonials.TestimonialSection.FireTimer | script.js:643-656 | running the oldest callback updates the fields and reports the outcome exactly as `TimerFired` does |
| Testimonials.FillSection | script.js:612-630 | from set-up, four Adds show all four testimonials in order, disable Add and enable Remove |
| Testimonials.RemoveFromFullSection | script.js:633-656 | on the full section, one Remove and its callback detach the fourth card, leave the first three testimonials in order, and enable both buttons |
| Testimonials.CakeyDelightsInitials | script.js:557-590 | "Sarah Johnson" gets the avatar "SJ" |
| Testimonials.TechInnovationsInitials | script.js:562-590 | "Michael Chen" gets the avatar "MC" |
| Testimonials.ProductiveTeamsInitials | script.js:567-590 | "Jessica Williams" gets the avatar "JW" |
| Testimonials.TravelExplorerInitials | script.js:572-590 | "Robert Garcia" gets the avatar "RG" |

## Left out

- The document itself is not modelled: element creation, `innerHTML`, class names, inline styles, the injected style sheets, and the navigation entries that script.js adds.
- The fade-out of a card (opacity and transform before removal) is not modelled. The model keeps only that the card stays in the container until its callback runs.
- Timer delays, smooth scrolling, the scroll-spy, the skills' intersection observer, the project cards' hover effects, the button animations and the notification pop-up's timers are not modelled. These parts do I/O or presentation only.
- Local storage is a parameter (`stored`) and a field (`savedHue`). Setting the `--hue` CSS variable is not modelled.
- The contact form's DOM plumbing (querying the inputs, `preventDefault`, `reset`) is not modelled. Only the decision among the three notices is.
- Names.Split, Names.FirstLetters: characters are Unicode scalar values, while JavaScript strings index UTF-16 code units. A name with a character outside the Basic Multilingual Plane would give half a surrogate pair as its initial in the browser.
- Email.IsValidEmail: the regular expression has no `u` flag, so the browser matches UTF-16 code units. The model matches whole characters, which gives the same verdict for every string whose characters lie in the Basic Multilingual Plane.
- Testimonials.AddClicked, Testimonials.RemoveClicked, Testimonials.TimerFired: these require `Valid`, the invariant every page reachable from set-up satisfies (`AnyRunKeepsInvariant`). Pages outside it are not modelled.
- Testimonials.TimerFired: an exception thrown by `removeChild` ends the callback. The model records it as the outcome `NotFound` rather than as an error reported to the console.
- The card's avatar is computed when the card is created (`RenderCard`). The invariant does not restate it for cards already on the page.
