# Portfolio page behaviour, modelled in Dafny

This project models the behaviour in `script.js`, the script of a static
personal portfolio page. Each part of the page becomes one module:

- **Theme** (`theme.dfy`): the light/dark switch. This covers the `dark` class on the root element, the toggle's `aria-pressed`, and the stored "theme" preference. The mode at start-up is `saved || system`.
- **Nav** (`nav.dfy`): the mobile menu. This covers the `open` class, `aria-expanded` and the body's `overflow`. It also covers the toggle, the outside click and the Escape key, with a click dispatched to the toggle first and then to the document.
- **Reveal** (`reveal.dfy`): the two one-shot intersection observers. The reveal observer adds `visible`; the stats observer starts the counter. This module also has the counter's frames, the cubic ease-out rounded down.
- **Order**, **Projects**, **Schema** and **ProjectsUi** (`order.dfy`, `projects.dfy`, `schema.dfy`, `projects_ui.dfy`): the projects section. This covers:
  - the tag universe;
  - JavaScript's default string sort;
  - the filter strip with "All" first;
  - the filtered list;
  - the card built for each project;
  - the JSON-LD ItemList of CreativeWork items;
  - the stateful module that re-renders the list and then the buttons on every click.
- **Timeline** (`timeline.dfy`): the achievements list, which is cleared and then appended in order.
- **Text**, **Email** and **Contact** (`text.dfy`, `email.dfy`, `contact.dfy`): the contact form. This covers:
  - JavaScript's `trim`;
  - the regular expression `\S+@\S+\.\S+`;
  - the validation;
  - the status line through "Sending…", the thanks and the clearing, with the two timers as explicit steps.

Pure computations are functions with lemmas. Anything the script updates in place is a class whose methods change its fields. Examples are the theme state, the menu, the observers, the projects module, the timeline list and the form.

## Model

| member | source | states |
|---|---|---|
| Common.BoolText | script.js:13 | `String(b)` is "true" exactly when `b` holds |
| Theme.InitialMode | script.js:15-17 | the start-up mode `saved \|\| system`: a saved non-empty string, else "dark" or "light" from the platform preference |
| Theme.InitialModeChoice | script.js:15-17 | a saved non-empty value wins; otherwise the mode is "dark" exactly when the platform prefers dark |
| Theme.ThemeToggle.constructor | script.js:15-17 | start-up applies `saved \|\| system`: the `dark` class, the stored value when storage accepts writes, and `aria-pressed` agreeing with the class |
| Theme.ThemeToggle.Set | script.js:10-14 | the class is present iff the mode is "dark"; the mode is stored when storage accepts it, else storage is unchanged; `aria-pressed` is set only when the button exists; the theme invariant holds afterwards |
| Theme.ThemeToggle.Click | script.js:18 | a click inverts the mode; the stored value and `aria-pressed` follow it |
| Nav.MobileNav.constructor | script.js:23-25 | the menu starts in the state the markup gives it; nothing is synchronised before the first event |
| Nav.MobileNav.Set | script.js:26-30 | `aria-expanded`, the `open` class and the body overflow ("hidden" / "") all agree with the argument |
| Nav.MobileNav.ToggleClicked | script.js:31 | the toggle flips the menu and leaves the attributes in agreement |
| Nav.MobileNav.DocumentClicked | script.js:32-35 | a click outside both the list and the toggle closes an open menu; a click on a closed menu, or inside either element, changes nothing |
| Nav.MobileNav.KeyDown | script.js:36 | Escape always closes (even an already closed menu); any other key changes nothing |
| Nav.MobileNav.Click | script.js:31-35 | with both listeners in dispatch order: a click on the toggle flips the menu exactly once; a click in the list changes nothing; a click elsewhere closes an open menu |
| Reveal.IntersectingTargets | script.js:125-131 | the targets that fire are exactly those of the intersecting entries (their order is stated by IntersectingTargetsAppend) |
| Reveal.IntersectingTargetsAppend | script.js:126-130 | the targets of a batch split in two are those of the first part followed by those of the second, so firing follows batch order |
| Reveal.IntersectingTargetsSingle | script.js:127-130 | a single entry fires its target exactly when it is intersecting |
| Reveal.OneShotObserver.constructor | script.js:133 | every selected element is observed and nothing has fired |
| Reveal.OneShotObserver.OnEntries | script.js:125-131 | each intersecting entry fires its action (`visible`, or the counter animation at script.js:107-108) and stops observing its target; nothing already fired is removed; on batches the browser can deliver, an element fires at most once and never while still observed |
| Reveal.Progress | script.js:98-100 | progress is the elapsed time over 900 ms, capped at 1 |
| Reveal.Frame | script.js:101-102 | the number shown: the target times the cubic ease-out `1 - (1 - t)^3`, rounded down |
| Reveal.FinalFrame | script.js:100-102 | at full progress the counter shows the target rounded down, which is the target itself for a whole-number target |
| Reveal.FrameBounds | script.js:100-102 | for a non-negative target, frames stay between 0 and the final value and never decrease as progress grows |
| Reveal.MonotoneFrames | script.js:99-103 | with non-decreasing, non-negative timestamps, the frames shown never go down |
| Reveal.Animate | script.js:96-105 | each tick shows the eased frame for its progress; ticks continue only while progress is below 1; once 900 ms have elapsed, the last frame shown is the rounded-down target; frames are non-decreasing over an ordered clock |
| Text.TrimStart | script.js:303-305 | drops the leading run of ECMAScript white space and line terminators |
| Text.TrimEnd | script.js:303-305 | drops the trailing run of white space |
| Text.Trim | script.js:303-305 | `String.prototype.trim`: both runs dropped; its properties are the Text lemmas below |
| Text.TrimStartSpec | script.js:303-305 | `trim` drops exactly a leading run of white space: the result is a suffix that starts with a non-space |
| Text.TrimEndSpec | script.js:303-305 | the trailing run is dropped: the result is a prefix that ends with a non-space |
| Text.TrimSpec | script.js:303-305 | a trimmed value is empty or starts and ends with a non-space |
| Text.TrimIsSlice | script.js:303-305 | a trimmed value is a contiguous slice of the input, with only white space on either side |
| Text.TrimFixesTrimmed | script.js:303-305 | a value that is empty, or that starts and ends with a non-space, is its own trim |
| Text.TrimIdempotent | script.js:303-305 | trimming twice equals trimming once |
| Text.TrimEmptyIff | script.js:303-305 | the trimmed value is empty iff the raw value is all white space |
| Email.RegexMatches | script.js:307 | some slice of the string matches `\S+@\S+\.\S+`: non-space characters, '@', non-space characters, '.', non-space characters |
| Email.HasEmailShape | script.js:307 | the direct test: an '@' with a non-space character before it, a later '.' with only non-space characters between, and a non-space character after the '.' |
| Email.ShapeIffRegex | script.js:307 | the direct test (an '@' and a later '.', separated and surrounded by non-space characters) holds iff the string contains a match of `\S+@\S+\.\S+` |
| Email.ShapeIgnoresTrim | script.js:304-307 | trimming the e-mail never changes whether it matches |
| Contact.Accepts | script.js:303-307 | the submit handler's test on the trimmed fields: a non-empty name, an e-mail matching the pattern, a message of at least 4 characters |
| Contact.AcceptsIff | script.js:303-311 | accepted iff the name has a non-space character, the raw e-mail matches, and the trimmed message has at least 4 characters |
| Contact.Examples | script.js:303-311 | an empty name with "bad" and "hi" is rejected; "Jo", "jo@x.com" and "Hello there" are accepted |
| Contact.ContactForm.constructor | script.js:296-299 | a fresh form: empty fields and status, the button enabled, nothing pending |
| Contact.ContactForm.Edit | script.js:303-305 | the visitor's typing sets the three raw field values read on submit |
| Contact.ContactForm.Submit | script.js:301-319 | rejected input sets the error text and the tomato colour and changes nothing else; accepted input disables the button, adds the loading class and shows "Sending…" with the colour unchanged, and starts one round trip |
| Contact.ContactForm.ReplyArrives | script.js:321-327 | after the delay: the button is enabled and no longer loading, the thanks is shown in sea green, the fields are reset, and one clearing is scheduled |
| Contact.ContactForm.ClearTimerFires | script.js:327 | the clearing empties the status line whatever it then shows |
| Contact.Submission | script.js:301-327 | a full visit: accepted input shows "Sending…", the thanks, then an empty line, and ends with empty fields; rejected input shows only the error and keeps the fields |
| Order.Below | script.js:200 | the default string order of `sort()`: character by character, a proper prefix first |
| Order.BelowIrreflexive | script.js:200 | no string sorts before itself |
| Order.BelowTransitive | script.js:200 | the sort order is transitive |
| Order.BelowTotal | script.js:200 | of two different strings, one sorts before the other |
| Order.BelowAsymmetric | script.js:200 | two strings never sort before each other |
| Order.StrictlySortedDistinct | script.js:200 | a strictly sorted list has no duplicates |
| Order.Insert | script.js:200 | inserting a new string keeps the list strictly sorted and adds exactly that string |
| Order.Sort | script.js:200 | `[...allTags].sort()` is strictly sorted and a permutation of the tags |
| Order.StrictlySortedUnique | script.js:200 | two strictly sorted lists with the same elements are equal, so any sorting algorithm gives this order |
| Projects.Shown | script.js:236 | a project passes when the filter is "All" or is one of its tags |
| Projects.Visible | script.js:236 | the listed projects are among the projects and pass the filter |
| Projects.VisibleIsSubsequence | script.js:236 | filtering keeps the original relative order |
| Projects.VisibleMultiplicity | script.js:236 | every copy of a passing project is kept, and every copy of a failing one is dropped |
| Projects.VisibleMember | script.js:236 | a project is listed iff it is a project that passes the filter |
| Projects.VisibleAppend | script.js:236 | filtering a concatenation gives the concatenation of the filtered parts |
| Projects.VisibleAll | script.js:236 | "All" lists every project, in order |
| Projects.VisibleIdempotent | script.js:236 | filtering twice equals filtering once |
| Projects.AddTags | script.js:194 | adding tags to the set keeps the old tags as a prefix and adds no duplicates; it holds exactly the old tags and the added ones |
| Projects.CollectTags | script.js:193-194 | the set accumulated over the projects holds exactly the earlier tags and every tag of a project |
| Projects.TagUniverse | script.js:193-194 | the tag universe has no duplicates and holds exactly the tags some project carries |
| Projects.TagButtons | script.js:200-202 | one button per tag, in order; a button is active iff its tag is the filter |
| Projects.SortedUniverse | script.js:193-200 | the sorted universe is strictly sorted and holds exactly the tags of the projects |
| Projects.FilterButtons | script.js:198-202 | the strip: an "All" button, active iff the filter is "All", followed by the buttons of the sorted tag universe |
| Projects.FilterStrip | script.js:198-202 | the strip is "All" first, then every project tag exactly once in strictly increasing order; a button is active iff its tag is the filter |
| Projects.ButtonTagIsFilter | script.js:198-205 | every button's `data-tag` is "All" or a tag some project carries |
| Projects.FilterStripDependsOnTagSet | script.js:193-202 | the strip depends only on the set of tags, not on which project carries them or in which order they occur |
| Projects.TagButtonsActiveCount | script.js:200-202 | among distinct tag buttons, one is active if the filter is among them, otherwise none |
| Projects.ActiveButtons | script.js:199-202 | the number of active buttons is one for "All" when that is the filter, plus one when the filter is a project tag |
| Projects.ProjectCard | script.js:212-231 | the cover opens `gallery[0]` when that is a non-empty string, else the cover; gallery links follow the gallery in order, labelled `i + 1`, in group `proj-<index>` |
| Projects.CardRoundTrip | script.js:212-231 | a card keeps every field of its project: title, period, cover, description, tags, links and gallery |
| Projects.Cards | script.js:237-238 | one card per listed project, card `i` built with index `i` |
| Projects.CardsShowList | script.js:234-239 | card `i` of the grid shows the `i`-th listed project and is in gallery group `i` |
| Schema.CreativeWork | script.js:254-261 | the item for one project: type CreativeWork, name, description, datePublished, the fixed url and image |
| Schema.CreativeWorks | script.js:254-261 | one item per project, in project order |
| Schema.ItemList | script.js:262-266 | the schema.org ItemList object holding the items |
| Schema.CreativeWorkFields | script.js:254-261 | a CreativeWork item has type "CreativeWork", and its name, description, datePublished and image are the title, desc, period and cover |
| Schema.ReadCreativeWork | script.js:254-261 | reading an item back gives its project's summary |
| Schema.WorksRoundTrip | script.js:254-261 | reading the items back gives one summary per project, in order |
| Schema.ItemListRoundTrip | script.js:253-266 | the schema is a schema.org ItemList that describes every project, in order |
| ProjectsUi.ProjectsModule.constructor | script.js:195-274 | at start-up: the schema is built from all projects, then the buttons are rendered, then the list; the filter is "All" and the grid shows every project |
| ProjectsUi.ProjectsModule.RenderFilterButtons | script.js:197-202 | the strip is rebuilt for the current filter |
| ProjectsUi.ProjectsModule.RenderProjectsList | script.js:234-239 | the grid is cleared and then holds the cards of the filtered list, in order |
| ProjectsUi.ProjectsModule.Click | script.js:203-208 | a click sets the filter to the button's tag, re-renders the list and then the buttons; both regions agree with the new filter |
| Timeline.Entries | script.js:285-289 | one list item per achievement, with its date, title and detail |
| Timeline.AchievementsTimeline.constructor | script.js:282-284 | the timeline list starts empty |
| Timeline.EntriesAppend | script.js:285-289 | the items follow the order of the achievements |
| Timeline.EntriesRoundTrip | script.js:285-289 | every date, title and detail can be read back from the items, in order |
| Timeline.AchievementsTimeline.Render | script.js:281-290 | the list is cleared and then holds one item per achievement, in order |

## Left out

- Theme: if reading storage throws, the saved value is treated as missing. The model takes the saved value as an input; a write that throws is an explicit `storageWritable` flag.
- Theme: there is no listener for later changes of the platform's colour-scheme preference. The script registers none, so the model has none.
- Theme: start-up writes the resolved mode back to storage, as the script's `set` does. It does not skip that write.
- Nav, Contact, ProjectsUi, Timeline: each block returns early when one of its elements is missing. The models assume the elements exist. The theme button is the exception: its absence is modelled.
- Scroll behaviour is not modelled: smooth scrolling, the scroll-spy observer, the progress bar and the scroll-to-top button. They are scroll geometry, with no state beyond one class per element.
- Reveal: the stats counter parses its target with `Number(...)`. The model takes the target as a real number. A non-numeric value (`NaN`) is not modelled.
- Reveal.Animate: floating-point rounding is not modelled. Frames are computed on exact reals.
- Reveal.Animate: the timestamps the browser passes to `requestAnimationFrame` callbacks are an input sequence.
- Reveal.OneShotObserver.OnEntries: "fires at most once" depends on the browser. It holds only for batches that contain observed elements and no duplicates.
- Timers are explicit steps: the 1100 ms round trip and the 2500 ms status clearing. Only their order is modelled, not their durations.
- ProjectsUi: after each list render, a later frame adds `visible` to every card. That step is not modelled.
- ProjectsUi: re-initialising the lightbox library is not modelled. It is a foreign call.
- Cards, the timeline items and the filter buttons are records, not HTML. The markup is built by string interpolation without escaping, and that is not modelled.
- Schema: the ItemList is modelled as a JSON value. Its `JSON.stringify` text and the `<script>` element are not modelled.
- Order.Sort: JavaScript compares UTF-16 code units. The model compares characters, which differs only for characters outside the Basic Multilingual Plane.
- Contact.AcceptsIff: the same difference applies to the message's `length`.
- Contact.ContactForm.ReplyArrives: `form.reset()` is modelled as restoring empty fields. The page's fields have no default values.
- The utilities are not modelled: the footer year, copying the e-mail to the clipboard, and printing the projects page. They are one-line calls into browser services.
- The decorative animations are not modelled.
- The hard-coded project and achievement data is a parameter of the model.
