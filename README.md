# Competitions page: registration form, accordion and site-wide helpers

This project models, in Dafny, the behaviour of the client-side script of a
student-competitions web site. It covers two scripts: `competitions.js`, the
competitions page, and `global.js`, the helpers shared by every page.

The model covers these parts:

- **Validation.** `validateRequired`, `validateEmail` and `validatePhone` exist
  in both scripts. The per-field rule checker `validateField` and the rule
  table `getValidationRules` are modelled, and so is the form validator
  `validateRegistrationForm`. The validator fills an ordered error map: first
  the seven static fields, then, for a team size above one, the name and the
  email of each member from 2 to the team size.
- **Error display.** `displayFormErrors`, `clearFormErrors`, and the
  per-field input/blur handler are modelled over a form view. The view holds
  error messages, "show" flags, "error"/`aria-invalid` flags and focus.
- **Submission.** `handleFormSubmission` validates and displays. An invalid
  form stops there. A valid one shows the loading state, then (with the
  timer run to completion) restores the button and saves a draft.
- **Draft store.** `saveFormDataToStorage` and `loadFormDataFromStorage`
  work over `localStorage`. A draft is offered back for less than one hour.
- **Storage helpers.** The site-wide helpers swallow failures. The page's
  own helpers let them through.
- **Accordion.** `toggleAccordion`, `openAccordionItem`,
  `closeAccordionItem`, `initializeAccordion` and the header's keyboard
  listener act on an array of panels. After any toggle at most one panel is
  open.
- **Navigation menu.** The hamburger toggle, link clicks, Escape, outside
  clicks and `closeMenu` act on a menu object. After each of the menu's own
  handlers, the menu's classes, its ARIA attributes and the body's overflow
  agree with the open flag.
- **Loading state.** `showLoading`/`hideLoading` on a button, and the page's
  placeholder versions.
- **Focus trap.** Tab on the last focusable element wraps to the first, and
  Shift+Tab on the first wraps to the last.
- **Search and filter.** `searchCompetitions` and `filterByStatus` over an
  array of list items. Only their visibility changes.

Both scripts declare `validateRequired`, `validateEmail`, `validatePhone`,
`showLoading`, `hideLoading`, `setLocalStorage` and `getLocalStorage`.
Whichever script loads last supplies all of them at once. The datatype
`Drafts.Helpers` (`SiteWide` or `PageLocal`) makes that choice a parameter
of the submission handler and the draft store. The two `validateRequired`
variants, and the two `validateEmail` variants, are proved to accept the
same values. The phone check differs between the two sets: the site-wide
one counts 10 to 15 digits, while the page's placeholder accepts everything.

Browser inputs are parameters:

- the current time (`Date.now()`);
- whether a storage access fails;
- the page-level `currentCompetition`;
- the targets of clicks and key presses.

At submit time a member name is only checked for being required
(competitions.js:368-371). The per-field handler, by contrast, also demands
a minimum length of 2 (competitions.js:497-499).
`ErrorPresenter.MemberNameChecksDisagree` shows a value where the two
disagree. A `teamSize` that does not parse, or parses to 1 or less, skips
the member checks. That is modelled as written.

## Model

| member | source | states |
|---|---|---|
| Text.Trim | competitions.js:39 | `trim()`: the result sits in the input with only whitespace before and after it, and its own first and last characters are not whitespace; it is empty exactly when the input is all whitespace |
| Text.TrimStart | global.js:283 | the leading whitespace is removed: the result is a suffix, starts with a non-space, and what was dropped is all whitespace |
| Text.TrimEnd | global.js:283 | the trailing whitespace is removed: the result is a prefix, ends with a non-space, and what was dropped is all whitespace |
| Text.LowerChar | global.js:273 | an upper-case ASCII letter becomes its lower-case letter (code point plus 32), and every other character is unchanged; so whether it is whitespace, `@` or `.` is kept |
| Text.Lower | global.js:273 | `toLowerCase()` keeps the length and lower-cases each character on its own |
| Text.NatToString | competitions.js:365-366 | a member index is written as a non-empty run of decimal digits with no leading zero |
| Text.DigitsValueOfNatToString | competitions.js:365-366 | reading the decimal text of `n` back gives `n` |
| Text.NatToStringInjective | competitions.js:365-366 | two indices with the same decimal text are equal, so different members get different field names |
| Text.DigitPrefix | competitions.js:362 | `parseInt` reads the longest prefix of digits of its radix |
| Text.ParseIntOfNatToString | competitions.js:362 | `parseInt` of a decimal number followed by nothing, or by a character that is neither a digit nor `x`, reads back that number |
| Text.DigitPrefixOfDigits | competitions.js:362 | a run of digits followed by a non-digit is the digit prefix |
| Text.ParseInt | competitions.js:362 | `Number.parseInt`: blank text (empty or all whitespace) is `NaN` |
| Text.ParseIntUnsigned | competitions.js:362 | text starting with a digit has no whitespace or sign to skip and is parsed as an unsigned number |
| Text.ParseDecimalDigits | competitions.js:362 | a non-empty decimal run, without a hexadecimal prefix and followed by a non-digit or nothing, parses to its value |
| Text.LowerIdempotent | competitions.js:655 | lower-casing twice is lower-casing once |
| Text.NotContainsMissingChar | competitions.js:666 | a text lacking a character of the term does not include the term |
| Text.ContainsTransitive | competitions.js:666 | `includes` is transitive |
| Validators.ValidateRequired | competitions.js:38-40 | a value passes exactly when it is present and has a non-whitespace character |
| Validators.RequiredVariantsAgree | global.js:282-284 | the site-wide `validateRequired` (truthy value, non-empty trim) accepts exactly the same values |
| Validators.ValidateRequiredTruthy | global.js:282-284 | the site-wide `validateRequired` is truthy exactly when the value is present and not all whitespace |
| Validators.ValidateEmail | competitions.js:42-45 | the hand-written form of the pattern; an accepted address has at least five characters (its full characterisation is EmailCheckMatchesPattern) |
| Validators.ValidateEmailLowercased | global.js:271-274 | the site-wide check on the lower-cased address; an accepted address has at least five characters (agreement in EmailVariantsAgree) |
| Validators.EmailCheckMatchesPattern | competitions.js:42-45 | the email check accepts exactly the language of `^[^\s@]+@[^\s@]+\.[^\s@]+$` |
| Validators.EmailCheckSound | competitions.js:43 | every address the check accepts matches the pattern |
| Validators.EmailCheckComplete | competitions.js:43 | every address matching the pattern is accepted |
| Validators.EmailVariantsAgree | global.js:271-274 | lower-casing first, as the site-wide version does, never changes the verdict |
| Validators.EmailExamples | competitions.js:43 | "a@b.co" is accepted; a text without `@`, or without `.`, is rejected |
| Validators.StripNonDigits | global.js:278 | `replace(/\D/g, "")` leaves only digits and never lengthens |
| Validators.StripNonDigitsAppend | global.js:278 | stripping distributes over concatenation |
| Validators.StripNonDigitsOfDigits | global.js:278 | an all-digit text is left unchanged |
| Validators.PhoneIgnoresNonDigits | global.js:276-280 | inserting non-digit characters never changes the site-wide phone verdict |
| Validators.ValidatePhone | global.js:276-280 | an accepted number has at least ten characters (the digit bounds are PhoneDigitBounds) |
| Validators.ValidatePhonePlaceholder | competitions.js:47-50 | the page's placeholder accepts every input |
| Validators.PhoneDigitBounds | global.js:276-280 | a number of only digits passes exactly when it has 10 to 15 of them |
| FieldRules.ValidateField | competitions.js:388-406 | the error is that of the first rule, in the order required, minimum length, email, phone, that rejects the value; no error exactly when no rule rejects it |
| FieldRules.RequiredRejectsBlank | competitions.js:389-391 | a required field that is missing or blank is reported as required, before any other rule |
| FieldRules.OptionalAcceptsEmpty | competitions.js:393-405 | an optional field left empty or missing is never reported |
| FieldRules.MinLengthIsUntrimmed | competitions.js:393-395 | the minimum length is checked on the untrimmed value: a non-blank name is too short exactly when its raw length is below the minimum |
| FieldRules.MinLengthExamples | competitions.js:393-395 | " a" passes a minimum of 2 and "a" does not |
| FieldRules.Message | competitions.js:389-405 | the message for each reason; the too-short message carries the minimum in decimal between "Must be at least " and " characters" |
| FieldRules.TooShortMessage | competitions.js:394 | the too-short message names the minimum length |
| FieldRules.StaticIndex | competitions.js:487-495 | a field name is found at index k exactly when it is the k-th entry of the rule table |
| FieldRules.GetValidationRules | competitions.js:486-507 | a name starting with "member" and containing "Name" gets the member-name rules; otherwise one containing "Email" gets the member-email rules; otherwise a name in the table gets its entry, and any other name none; every rule set it returns is required |
| FieldRules.StaticNamesAreNotMembers | competitions.js:497-503 | no static field name falls under the member-name patterns |
| FieldRules.StaticFieldRules | competitions.js:486-507 | each static field gets the same rules at input time as at submit time |
| FieldRules.MemberNameFieldRules | competitions.js:497-499 | `member<i>Name` gets required plus minimum length 2 |
| FieldRules.MemberEmailFieldRules | competitions.js:501-503 | `member<i>Email` gets required plus email shape |
| FormValidator.HasKeyAt | competitions.js:357 | a key is in the error map exactly when some entry has it |
| FormValidator.Lookup | competitions.js:357 | looking a key up finds a message exactly when the key is in the error map |
| FormValidator.LookupAppend | competitions.js:357 | appending an entry makes its key map to its message and leaves other keys alone |
| FormValidator.Put | competitions.js:357 | `errors[k] = v` keeps the length when `k` is present and appends `(k, v)` otherwise; when `k` is present every key keeps its position in the key order; afterwards `k` maps to `v` and every other key maps to what it did before |
| FormValidator.TeamSize | competitions.js:362 | a missing or blank `teamSize` parses to `NaN` |
| FormValidator.FormErrors | competitions.js:337-381 | the error map is empty exactly when every check the validator runs passes |
| FormValidator.CollectEmpty | competitions.js:356-359 | collecting failed checks gives nothing exactly when all of them pass |
| FormValidator.MemberNameCheck | competitions.js:365-371 | member `i`'s name check is keyed `member<i>Name` and reports "Team member name is required" exactly when the name is left blank |
| FormValidator.MemberEmailCheck | competitions.js:366-379 | member `i`'s email check is keyed `member<i>Email`; it passes exactly when the email is present and valid, reports "Team member email is required" exactly when it is blank, and otherwise reports the format message |
| FormValidator.MemberChecks | competitions.js:363-381 | the members from 2 to the team size give two checks each |
| FormValidator.ValidateRegistrationForm | competitions.js:337-386 | the error map built is exactly the specified one, and the form is valid exactly when it is empty |
| FormValidator.ValidateStaticFields | competitions.js:351-360 | the loop over the rule table collects the static fields' errors in table order |
| FormValidator.ValidateMembers | competitions.js:362-381 | the loop over members 2 to the team size collects their errors after the static ones |
| FormValidator.ValidateMember | competitions.js:365-379 | one member adds its name error, then its email error (required before shape) |
| FormValidator.FormErrorsOrdered | competitions.js:337-381 | the error map lists static fields in table order before members in index order, with no key twice |
| FormValidator.StaticFieldEntry | competitions.js:352-360 | a static field has an entry exactly when `validateField` reports it, and the entry is that message |
| FormValidator.MemberEntries | competitions.js:362-381 | for 2 ≤ i ≤ team size, member i's name and email have entries exactly when their checks fail; beyond the team size they have none |
| FormValidator.MembersAllMissing | competitions.js:364-380 | if every member field is left blank (absent, empty or whitespace only), the member checks give exactly a "required" entry for each member's name and then its email |
| FormValidator.EmptyMemberFields | competitions.js:362-381 | with every member field left blank, as unfilled rendered inputs submit them, the error map is the static errors followed by two "required" entries per member (four for team size 3) |
| FormValidator.MissingMember | competitions.js:368-375 | a blank member name and a blank member email are both reported as required |
| ErrorPresenter.FocusAfter | competitions.js:428-435 | focus moves only when there are errors, and then only to the input named by the first key; a non-empty first key naming an input always gets focus; no errors leave focus where it was |
| ErrorPresenter.FormView.Clear | competitions.js:438-451 | every error slot is emptied and hidden, every input un-flagged; focus is untouched |
| ErrorPresenter.FormView.Display | competitions.js:408-436 | after clearing, each slot shows the message for its field, flags exactly the erroneous fields, and focuses the first error's input if it exists |
| ErrorPresenter.FormView.HandleInput | competitions.js:453-484 | on input or blur, a field with rules and an error slot shows exactly `validateField`'s verdict; any other field changes nothing |
| ErrorPresenter.DisplayedStaticField | competitions.js:408-436 | after submitting, a static field's slot shows exactly `validateField`'s message for it |
| ErrorPresenter.MemberNameChecksDisagree | competitions.js:368-371 | member name "a" passes at submit time but is too short on input |
| Accordion.Opened | competitions.js:100-111 | an opened panel is active and keeps its content height |
| Accordion.Closed | competitions.js:113-124 | a closed panel is inactive and keeps its content height |
| Accordion.Toggled | competitions.js:75-98 | the panels after a toggle, as many as before (what happens to each is stated by ToggleLeavesAtMostOne, ToggleFlipsClicked and ToggleKeepsClosedOthers) |
| Accordion.OpenItem | competitions.js:100-111 | only the given panel changes, and it is opened |
| Accordion.CloseItem | competitions.js:113-124 | only the given panel changes, and it is closed |
| Accordion.ToggleAccordion | competitions.js:75-98 | the panels become the toggled ones: others that were open are closed and the clicked one flips |
| Accordion.InitializeAccordion | competitions.js:126-137 | inactive panels are put in their closed presentation; active ones are left as they are |
| Accordion.HeaderKeyDown | competitions.js:139-144 | Enter and Space are cancelled and toggle the panel; other keys change nothing |
| Accordion.ToggleLeavesAtMostOne | competitions.js:82-94 | after a toggle at most one panel is open, and only the clicked one can be |
| Accordion.ToggleFlipsClicked | competitions.js:89-94 | the clicked panel is open afterwards exactly when it was closed before |
| Accordion.ToggleKeepsClosedOthers | competitions.js:82-87 | a closed panel other than the clicked one is left exactly as it was |
| Accordion.ToggleKeepsConsistent | competitions.js:75-124 | if every panel's icon and ARIA attributes agree with its active flag, they still do after a toggle |
| Accordion.ToggleTwice | competitions.js:75-98 | toggling the same header twice restores its state and leaves every other panel closed |
| Accordion.OpenThenClose | competitions.js:100-124 | closing an opened panel is closing it; both presentations are consistent |
| Menu.BoolText | global.js:69-70 | a boolean attribute is written "true" or "false" matching its value |
| Menu.NavMenu.constructor | global.js:62 | the menu starts closed and consistent |
| Menu.NavMenu.HamburgerClick | global.js:64-73 | the hamburger flips the open flag and both classes, and the attributes and overflow follow |
| Menu.NavMenu.CloseMenu | global.js:95-102 | the menu ends closed, with classes removed, attributes false/true and overflow "auto" |
| Menu.NavMenu.KeyDown | global.js:82-86 | Escape closes an open menu; any other key, or a closed menu, changes nothing |
| Menu.NavMenu.DocumentClick | global.js:89-93 | a click outside both the hamburger and the menu closes an open menu; otherwise nothing changes |
| Menu.NavMenu.Click | global.js:64-93 | a click on the hamburger flips the menu, a link click and an outside click close it, a click inside the menu keeps it |
| Loading.ShowLoading | global.js:286-297 | no button gives no state; otherwise the button reads "Loading...", is disabled, gains "loading", and the state records the old text and disabled flag |
| Loading.HideLoading | global.js:299-305 | without a button or state nothing changes; otherwise the recorded text and disabled flag come back and "loading" is removed |
| Loading.ShowThenHide | global.js:286-305 | showing then hiding restores the text and disabled flag and leaves the classes without "loading" |
| Loading.ShowLoadingPlaceholder | competitions.js:25-28 | the page's `showLoading` returns "loadingState" and leaves the button alone |
| FocusTrap.Intervention | global.js:405-419 | where the listener moves focus, always to an element inside the container |
| FocusTrap.FocusScope.FocusFirst | global.js:421-422 | focus goes to the first focusable element when there is one |
| FocusTrap.FocusScope.KeyDown | global.js:405-419 | the default is cancelled exactly when the listener moves focus, and focus moves only then |
| FocusTrap.TabFromLastWraps | global.js:412-417 | Tab on the last element moves to the first |
| FocusTrap.ShiftTabFromFirstWraps | global.js:407-411 | Shift+Tab on the first element moves to the last |
| FocusTrap.InterventionOnlyAtEnds | global.js:405-419 | the listener acts exactly for Tab on the last element and Shift+Tab on the first |
| FocusTrap.FocusStaysInside | global.js:397-423 | from any element inside the container, any key leaves focus inside it |
| Storage.Store.Set | global.js:425-433 | reports success exactly when the write is not refused, and stores the value only then |
| Storage.Store.Get | global.js:435-443 | gives the stored value when the read succeeds and the key exists, otherwise the default |
| Storage.Store.SetStrict | competitions.js:52-54 | throws exactly when the write is refused; stores the value otherwise |
| Storage.Store.GetStrict | competitions.js:56-59 | throws exactly when the read fails; otherwise null exactly for a missing key, else the stored value |
| Drafts.Saved | competitions.js:509-519 | saving stores `{data, timestamp}` under the competition's backup key and leaves every other key and its draft unchanged |
| Drafts.BackupKey | competitions.js:512 | the key is "registration_backup_" followed by the competition |
| Drafts.Restored | competitions.js:521-535 | a draft offered back is the one stored under the competition's key |
| Drafts.SaveFormDataToStorage | competitions.js:509-519 | with either helper set, the draft is stored with its time unless the write is refused, which is swallowed |
| Drafts.LoadFormDataFromStorage | competitions.js:521-535 | with either helper set, the saved values come back when the draft exists and is under an hour old; nothing otherwise, or when the read fails |
| Drafts.BackupKeyInjective | competitions.js:512 | two competitions never share a backup key |
| Drafts.LoadAfterSave | competitions.js:509-535 | loading what was saved gives it back exactly when under an hour has passed |
| Drafts.SaveKeepsOtherCompetitions | competitions.js:509-535 | saving a draft for one competition does not change what another loads |
| Drafts.FreshEarlier | competitions.js:526-529 | a draft offered at some time is offered, unchanged, at every earlier time |
| Drafts.StaleDraftIgnored | competitions.js:526-529 | a draft an hour old or older is never offered |
| Search.SearchTerm | competitions.js:655 | the lower-cased, trimmed query, blank exactly when the query is all whitespace |
| Search.Searched | competitions.js:653-672 | the items after a search, as many as before (which items show is stated by BlankQueryShowsAll and SearchShowsMatches) |
| Search.Filtered | competitions.js:674-685 | the items after filtering, as many as before (which items show is stated by FilterByStatus and FilterAllShowsAll) |
| Search.SearchCompetitions | competitions.js:653-672 | the items end up as the specified search result for the query |
| Search.ShowAll | competitions.js:657-660 | a blank term shows every item |
| Search.ShowMatching | competitions.js:662-671 | each item is shown exactly when its lower-cased title or details include the term |
| Search.FilterByStatus | competitions.js:674-685 | the items end up as the specified filter result: "all" shows all, otherwise the items whose badge has the status class |
| Search.BlankQueryShowsAll | competitions.js:657-660 | a blank query shows every item |
| Search.SearchShowsMatches | competitions.js:662-671 | with a non-blank query an item is shown exactly when it matches the term |
| Search.SearchIgnoresQueryCase | competitions.js:655 | the case of the query does not matter |
| Search.SearchNarrows | competitions.js:666 | an item shown for a longer term is shown for any non-blank part of it |
| Search.FilterAllShowsAll | competitions.js:679 | the status "all" shows every item |
| Search.SearchOverridesFilter | competitions.js:653-685 | searching forgets an earlier status filter |
| Search.OnlyDisplayChanges | competitions.js:653-685 | search and filter change nothing about an item but its visibility |
| Submission.ValidateAndDisplay | competitions.js:337-386 | the verdict is "no errors", the view displays exactly the form's error map, and focus moves to the first error's input if there is one |
| Submission.CompleteSubmission | competitions.js:303-331 | the button's text and disabled flag are restored (and "loading" removed with the site-wide helpers) and the draft is saved unless storage refuses |
| Submission.HandleFormSubmission | competitions.js:291-335 | a submission goes ahead exactly when the form has no errors; the errors are displayed either way; focus moves to the first error's input if there is one; a rejected form touches neither the store nor the button; an accepted one saves the draft and restores the button |

## Left out

- Text lengths count characters. JavaScript counts UTF-16 code units, which differs for characters outside the Basic Multilingual Plane.
- Text.Lower lower-cases ASCII letters only. `toLowerCase()` also folds other scripts. (IsSpace is the full ECMAScript WhiteSpace and LineTerminator set.)
- `parseInt` is modelled over unbounded integers. Rounding of numbers beyond 2^53 is not modelled.
- Storage keeps values as values. The JSON text written by `JSON.stringify` and read by `JSON.parse` is not modelled. A failed parse counts as a failed read.
- The 2000 ms submission timer is modelled as running to completion. The 300 ms debounce of the input handler is not modelled.
- The success toast, `closeRegistrationForm`, the analytics `trackEvent`, and console logging are not modelled. The page's `showToast` stub and `handleError` are not modelled either.
- The catch blocks of `handleFormSubmission` and `toggleAccordion` are not modelled. The model assumes every item has its header, content, icon, `h3`, details and status badge, and every field name is a valid CSS identifier for `querySelector`. A missing element throws in the script.
- FormView's one set `errorSlots` stands for two groups of elements. One is the `#<field>-error` elements that `displayFormErrors` and the input handler write to. The other is the `.error-message` elements that `clearFormErrors` walks (competitions.js:440-444). The model assumes each field's error element is also one of the form's `.error-message` elements, and that there are no others.
- Every input's `id` is taken to equal its `name`: `displayFormErrors` finds inputs by id and the input handler by name, and FormView uses one string for both.
- The body's overflow is also written when the registration modal opens and closes (competitions.js:172, competitions.js:194); the menu's agreement with the overflow holds only for its own handlers.
- FieldRules.GetValidationRules does not model names inherited from `Object.prototype` (such as "constructor"), for which `rules[fieldName]` is a non-rule object rather than `undefined`.
- The form is a map from names to values. A form submitting the same name twice is not modelled (`FormData.get` takes the first).
- The page's `hideLoading` (competitions.js:30-32) has an empty body and no result. It is modelled as doing nothing in `Submission.CompleteSubmission`.
- The page's `trapFocus` (competitions.js:12-14) has an empty body. FocusTrap models the site-wide one.
- FocusTrap.NextFocus assumes the browser's default Tab order moves to the adjacent focusable element.
- The `tabindex` and `role` attributes set by `initializeAccordion` are not modelled.
- Menu.NavMenu.constructor assumes the menu markup starts closed.
- The registration modal's opening and closing, `updateMemberFields`, the page's other listeners, and `home.js`/`library.js` are not part of this model.
- Whether a storage access fails is an input (`fails`). The browser's reasons (storage disabled, quota exceeded) are not modelled.
- The `Helpers` parameter stands for the scripts' load order. The model does not decide which script loads last.
