# HUCMSS result system: page scripts in Dafny

This project models the browser scripts of the HUCMSS result system. There
are three scripts:

- the shared page script, `js/app.js`: form validation, toasts, modals and
  the password toggle;
- the dashboard script, `js/dashboard.js`: the table filter, the search
  box (whose typed text never reaches the filter, see "Findings") and
  pagination,
  the signed-in user, the relative-time labels, the section switching and
  logout;
- the login page script, `js/login.js`: the role tabs, the password toggle
  and the submit handlers.

The DOM is replaced by plain data:

- An element is a `Dom.Element` object whose class list is a `set<string>`.
- Elements the scripts only write text into are `Dom.TextNode` objects.
- A table's per-row `style.display` is an `array<bool>` (true: shown).
- Session and local storage are `map<string, string>` fields.
- The open modals are a set of ids, and the toasts are a sequence.

The clock (`Date.now()`) is a parameter `now` in milliseconds, and a parsed
date is an `Option<int>` (`None` for an invalid date, whose NaN fails every
comparison). Redirects and alerts are returned or recorded as values.

The modules:

- `JsString` holds the parts of JavaScript string semantics the scripts
  rely on:
  - the `trim`/`\s` white-space set;
  - ASCII `toLowerCase`/`toUpperCase`;
  - `includes`;
  - `length` in UTF-16 code units;
  - decimal printing of integers;
  - decimal `parseInt`.
- `Dom` holds the element classes and `getElementById` (`FindById`).
- `Forms`, `Notifications` and `Modals` model `js/app.js`.
- `DataTables`, `Session` and `Navigation` model `js/dashboard.js`.
- `Login` models `js/login.js`.

## Model

| member | source | states |
|---|---|---|
| JsString.TrimBlankIffAllSpace | js/app.js:149-151 | `value.trim()` is empty exactly when the value is white space only |
| JsString.ToLowerIdempotent | js/dashboard.js:464 | lower-casing twice is lower-casing once |
| JsString.Trim | js/dashboard.js:432 | `trim` never lengthens a value, and what it leaves neither starts nor ends with white space |
| JsString.ToLower | js/dashboard.js:432 | `toLowerCase` keeps the length, leaves no upper-case ASCII letter and keeps every other character |
| JsString.Contains | js/dashboard.js:465 | `includes` finds the empty term and the text itself in any text, and never a term longer than the text |
| JsString.ParseInt | js/dashboard.js:622 | `parseInt` is NaN exactly when no decimal digit follows the leading white space and the optional sign |
| JsString.RangeReadsBack | js/dashboard.js:634 | a printed range "a-b" gives back `a` from its front and `b` from just after the dash |
| JsString.IntToStringParses | js/dashboard.js:622 | `parseInt` reads back every integer as a template literal prints it |
| JsString.NatToStringInjective | js/dashboard.js:634 | distinct row numbers print differently |
| Dom.FindById | js/dashboard.js:798 | `getElementById` finds the first element with the id, or reports that none has it |
| Forms.IsValidEmailMatchesPattern | js/app.js:192-195 | the address check holds iff the pattern matches: no white space, exactly one `@` with text before it, and after it a dot that is neither first nor last |
| Forms.EmailExamples | js/app.js:192-195 | "a@b.co" is an address; "a@b." and "a b@c.de" are not |
| Forms.IsValidEmail | js/app.js:192-195 | an accepted address has at least five characters, no white space and no second `@` |
| Forms.IsValidPassword | js/app.js:198-200 | at least six code points always pass the length-6 check; fewer than three never do |
| Forms.MarkedInvalid | js/app.js:162-164 | an invalid mark adds red and removes gray and green, keeping every other class |
| Forms.MarkedValid | js/app.js:180-182 | a valid mark removes red and gray and adds green, keeping every other class |
| Forms.InvalidMarkOverrides | js/app.js:162-189 | a later invalid mark wins over an earlier valid or invalid one |
| Forms.ErrorsAfterInvalid | js/app.js:166-176 | the parent's first error goes and the new message is appended; a parent with at most one error ends with exactly the new one |
| Forms.ErrorsAfterValid | js/app.js:184-188 | the parent's first error goes; a parent with at most one error ends with none |
| Forms.MarkFieldInvalid | js/app.js:162-177 | the field's classes and its parent's errors become those of an invalid mark |
| Forms.MarkFieldValid | js/app.js:180-189 | the field's classes and its parent's errors become those of a valid mark |
| Forms.ValidateField | js/app.js:148-159 | the result is false iff the field is required and blank after trimming; then it is marked invalid with "This field is required", otherwise it is marked valid |
| Forms.VerdictOf | js/app.js:116-144 | a field fails iff it is required and blank, or is a non-empty bad e-mail, or is a non-empty password shorter than 6; it is unmarked iff it is optional and fails neither later check |
| Forms.CheckRequired | js/app.js:120-124 | the first loop checks every required field with no early exit; its flag is true iff no required field is blank |
| Forms.CheckEmails | js/app.js:127-133 | the second loop marks exactly the non-empty, untrimmed e-mail values that are not addresses; its flag is true iff there are none |
| Forms.CheckPasswords | js/app.js:136-142 | the third loop marks exactly the non-empty passwords shorter than 6; its flag is true iff there are none |
| Forms.ValidateForm | js/app.js:116-145 | the result is the AND over every field's verdict; each field ends marked by its verdict; every parent keeps at most one error |
| Forms.RequiredEmptyWithValidEmail | js/app.js:116-144 | an empty required field fails the form; a correct optional e-mail stays unmarked |
| Forms.Toggled | js/app.js:334-335 | the type becomes "text" iff it was "password", and "password" otherwise |
| Forms.EyeFor | js/app.js:340-346 | the icon shows a crossed eye iff the password is in clear text, and its other classes stay |
| Forms.ToggleTwiceRestores | js/app.js:332-350 | two toggles restore a password or text input and an icon that agreed with it |
| Forms.TogglePassword | js/app.js:332-350 | an unknown input is a no-op; otherwise the type flips and the icon, if present, follows |
| Notifications.KindOf | js/app.js:215-234 | "success", "error" and "warning" select their own kind; anything else is info |
| Notifications.StyleOf | js/app.js:210-234 | the background, text and border classes of each kind name one and the same colour |
| Notifications.StylesDistinguishKinds | js/app.js:210-234 | different kinds never share an icon, a background, a text colour or a border |
| Notifications.Expired | js/app.js:102-107 | only a non-persistent toast with a timestamp earlier than now can expire |
| Notifications.Survivors | js/app.js:101-111 | a sweep never adds toasts and leaves none that has expired |
| Notifications.SurvivorsExact | js/app.js:101-111 | a sweep keeps exactly the toasts that are persistent, lack a timestamp, or are at most 5000 ms old |
| Notifications.SweepIdempotent | js/app.js:101-111 | a second sweep at the same moment removes nothing |
| Notifications.LaterSweepSubsumes | js/app.js:101-111 | a sweep followed by a later one leaves what the later one alone leaves |
| Notifications.Without | js/app.js:246 | closing never adds toasts and leaves none with the closed identity |
| Notifications.WithoutExact | js/app.js:246 | closing a toast removes that toast and keeps all others |
| Notifications.DismissIdempotent | js/app.js:263-274 | removing a toast already gone changes nothing |
| Notifications.NotificationCenter.Show | js/app.js:203-277 | one toast, with the mapped kind, the persistent flag and the timestamp `now`, is appended with a fresh identity |
| Notifications.NotificationCenter.Dismiss | js/app.js:263-274 | the toast with that identity is removed if still present |
| Notifications.NotificationCenter.Sweep | js/app.js:99-113 | one tick of the sweep leaves the toasts `Survivors` describes |
| Modals.ModalController.Open | js/app.js:280-286 | a known panel becomes active and scrolling is locked; an unknown id changes nothing |
| Modals.ModalController.Close | js/app.js:288-294 | the panel is no longer active and scrolling is restored; an unknown id changes nothing; closing twice equals closing once |
| Modals.ModalController.KeyDown | js/app.js:79-86 | Escape closes every active panel and restores scrolling if any was open; other keys do nothing |
| Modals.ModalController.Click | js/app.js:89-95 | only a click on the backdrop itself closes its panel |
| DataTables.FilterMask | js/dashboard.js:463-471 | a row is shown iff its lower-cased text includes the term or the term is empty |
| DataTables.EmptyTermShowsAll | js/dashboard.js:465 | the empty term shows every row and the count is the number of rows |
| DataTables.UpperCaseTermMatchesNothing | js/dashboard.js:464-465 | the term is not lower-cased: a term with an upper-case letter hides every row |
| DataTables.SearchTerm | js/dashboard.js:432 | the search term is never longer than what was typed, has no upper-case letter, and is empty exactly when only white space was typed |
| DataTables.FilterIgnoresRowCase | js/dashboard.js:464-465 | `filterTable` reads a row only lower-cased: rows differing only in case are shown or hidden together, whatever the term |
| DataTables.FilterTable | js/dashboard.js:456-478 | a missing table is a no-op; each row is shown iff it matches; the label becomes "1-" and the visible count; the result depends only on the rows and the term, so filtering twice equals filtering once |
| DataTables.FilterLabelReadsBack | js/dashboard.js:476 | the search label gives back 1 from its front and the visible count after the dash |
| DataTables.SearchInput | js/dashboard.js:431-438 | the search box's handler as written always throws before filtering, so typing leaves the rows and the label as they were |
| DataTables.TypedSearchIgnored | js/dashboard.js:433 | a table with one blank row stays shown after typing "b", where filtering by the typed text would hide it |
| DataTables.Search | js/dashboard.js:431-437 | the handler as intended, with `this` bound to the input: the rows and the label become those of filtering by the trimmed, lower-cased text |
| DataTables.ClearSearch | js/dashboard.js:443-448 | the clear button shows every row again, and the label counts them all |
| DataTables.TotalPages | js/dashboard.js:611 | the page count is the ceiling of rows over 10 |
| DataTables.PageVisibleCount | js/dashboard.js:599-608 | the visible rows are exactly those in the page's window, whatever a search showed before |
| DataTables.PageShowsAtMostTen | js/dashboard.js:599-608 | at most 10 rows are visible after a page change, and exactly 10 on a page the rows fill |
| DataTables.GoToPage | js/dashboard.js:593-613 | a missing table is a no-op; row i is shown iff (p-1)*10 <= i < (p-1)*10+10; then the pagination is updated with the ceiling page count |
| DataTables.MarkActive | js/dashboard.js:623-626 | a button ends up "active" exactly when its page is the current one, and its other classes are untouched |
| DataTables.ButtonPage | js/dashboard.js:622 | a button without `data-page` has no page; a page is read only from a leading run of digits |
| DataTables.RenderedButtonPage | js/dashboard.js:622-624 | a button whose `data-page` is a printed page number carries exactly that page |
| DataTables.MarkButtons | js/dashboard.js:621-627 | every page button is "active" exactly when its parsed `data-page` is the current page, and keeps its other classes |
| DataTables.UpdatePaginationUI | js/dashboard.js:616-636 | without a pagination element nothing changes; otherwise exactly the buttons whose parsed page equals the current page are active, and the label is start-end |
| DataTables.PageLabelReadsBack | js/dashboard.js:632-634 | the page label gives back the first row number from its front and the last after the dash |
| DataTables.FullPageLabelMatches | js/dashboard.js:632-633 | on a page the rows fill, the label spans exactly the visible rows |
| DataTables.ShortLastPageLabel | js/dashboard.js:632-633 | the label end is not capped at the row count: 11 rows, page 2, one visible row, label "11-20" |
| Session.ElapsedOf | js/dashboard.js:176-189 | days are used iff the age is at least a day, hours iff between an hour and a day, minutes iff between a minute and an hour, else "Just now"; each count is the floor of the age in its unit |
| Session.RelativeLabel | js/dashboard.js:174-190 | an invalid date or an age under a minute, including a negative one, reads "Just now" |
| Session.PluralIffMany | js/dashboard.js:182-186 | the unit takes an "s" iff the count is above one |
| Session.LabelOf | js/dashboard.js:181-189 | the label is "Just now" exactly for an age under a minute; any other label starts with its count, as `parseInt` reads it |
| Session.LabelInjective | js/dashboard.js:182-188 | two ages with different counts or units never get the same label |
| Session.UpdateRelativeTime | js/dashboard.js:172-192 | every element with a non-empty `data-time` shows its label; the others keep their text |
| Session.UserFromSession | js/dashboard.js:34-40 | each field is the stored value, or its default ("guest", "User", "", "", "") when missing or empty |
| Session.StoredOr | js/dashboard.js:35-39 | a field is the stored value when that is non-empty, and the default when the key is missing or empty |
| Session.EmptySessionIsGuest | js/dashboard.js:34-40 | an empty session is the guest user |
| Session.Capitalize | js/dashboard.js:60 | the displayed role has the length of the role, its first character upper-cased and the rest unchanged |
| Session.CapitalizeIdempotent | js/dashboard.js:60 | the displayed role is the first character upper-cased plus the rest, and doing it twice changes nothing more |
| Session.Retitled | js/dashboard.js:76-80 | the title always mentions "Dashboard" afterwards, and a title that already did is kept |
| Session.RetitledIdempotent | js/dashboard.js:76-80 | rewriting the title again, whatever the role, changes nothing |
| Session.SetAll | js/dashboard.js:52-55 | every selected element shows the given text |
| Session.UpdateUserUI | js/dashboard.js:50-81 | the name, role, e-mail and id elements show the user's fields; the title is rewritten only if it lacks "Dashboard" |
| Session.Dashboard.CheckAuthentication | js/dashboard.js:84-91 | a guest gets an error toast "Please login to access the dashboard" and a redirect to login.html; anyone else nothing |
| Session.Dashboard.LoadUserData | js/dashboard.js:33-47 | the user is read from session storage, the header written, and the redirect happens iff the user is the guest |
| Session.LoggedOut | js/dashboard.js:948-956 | local storage is emptied unless `rememberLogin` is "true"; then only the three user keys go and every other entry is kept |
| Session.LogoutIdempotent | js/dashboard.js:948-956 | the remembered flag survives logout, so a second logout changes nothing |
| Session.Dashboard.Logout | js/dashboard.js:943-963 | the session is emptied, local storage cleared as `LoggedOut` says, a success toast shown and login.html targeted |
| Navigation.BreadcrumbLabel | js/dashboard.js:833-847 | exactly the four known sections get a breadcrumb label |
| Navigation.HideAll | js/dashboard.js:793-795 | every content section gains "hidden" and keeps its other classes |
| Navigation.UpdateActiveNav | js/dashboard.js:819-826 | a nav item is active iff its `data-section` is the section; its other classes stay |
| Navigation.ShowSection | js/dashboard.js:791-816 | every content section but the target is hidden; the target, if found, is shown and the nav and breadcrumb follow; without a target the nav is untouched |
| Login.SwapOf | js/login.js:25-34 | exactly teacher, student and admin have a border swap, from one pale border to one strong border |
| Login.ResetTab | js/login.js:5-18 | a reset tab is neither active nor raised, has all three pale borders and no strong one, and keeps its other classes |
| Login.SelectTab | js/login.js:21-34 | the selected tab is active and raised; an unknown role changes no border |
| Login.SelectedTabBorders | js/login.js:5-34 | after a switch to a known role, the selected tab has exactly its own strong border and the other two pale ones |
| Login.ResetTabs | js/login.js:5-18 | every role tab is reset, whatever it held before, and no other element changes |
| Login.HideForms | js/login.js:37-39 | every login form gains "hidden" and no other element changes |
| Login.SwitchRole | js/login.js:3-43 | every other tab is reset and the chosen one selected; every other form is hidden and the chosen one shown |
| Login.TogglePassword | js/login.js:46-59 | without the input it throws before any change; otherwise the type flips, and the eye icon follows if present, or the handler throws if absent |
| Login.DashboardOf | js/login.js:74-104 | each role goes to the page "dashboard-" + the role + ".html" |
| Login.Submit | js/login.js:64-108 | a form goes to its role's dashboard iff both fields are non-empty; otherwise it alerts "Please fill in all fields" |
| Login.RolesRouteApart | js/login.js:74-104 | different roles go to different dashboards |
| Login.BlankFieldsPass | js/login.js:72-74 | values are not trimmed: white space alone counts as filled in |

## Left out

- Timers are not modelled. This covers the sweep interval, the toast entrance and exit animations, `debounce`, and the delayed redirects. Only the state change each callback makes is modelled.
- The clock is a parameter. `updateDateTime`, `formatDate`, `formatTime` and the date parsing in `updateRelativeTime` are not modelled: a parsed date is an input.
- A `data-timestamp` that is empty or does not parse is modelled as a toast without a timestamp. The sweep skips both.
- `sortTable` is not modelled. It uses float `parseFloat` prefixes and locale-aware comparison.
- Charts, tooltips, the sidebar, `innerHTML` templates, form autosave, the notification badge and the randomized live counters are not modelled. They use foreign libraries, layout geometry or random numbers.
- `loadSectionData` and the scroll to the top in `showSection` are not modelled.
- The confirmation dialog of `logout` is not modelled. Only the confirmed callback is.
- Case mapping is ASCII only. `toLowerCase`/`toUpperCase` on other letters is not modelled.
- `parseInt` is decimal only. Its `0x` prefix is not modelled.
- A modal without an `id` is not modelled: Escape's `closeModal("")` leaves such a panel open.
- `updateBreadcrumb` keys inherited by every object (such as `toString`) are not modelled.
- Forms.ValidateForm: states that a parent which held at most one error message still holds at most one, but not which message. Fields may share a parent.
- Forms.CheckRequired: states that a parent which held at most one error message still holds at most one, but not which message.
- Forms.CheckEmails: states that a parent which held at most one error message still holds at most one, but not which message.
- Forms.CheckPasswords: states that a parent which held at most one error message still holds at most one, but not which message.
- Login.TogglePassword: an input with no next sibling throws before the type flips. The model knows only the icon, so it treats that input like one whose icon is missing, and flips the type.
- DataTables.GoToPage: the page is an integer. A non-numeric `data-page` makes `parseInt` give NaN, which hides every row, marks no button and writes "NaN-NaN". That case is not modelled.
- Modals.ModalController.Open: any id in `ids` is treated as a `.modal` panel. In the script, opening an element that is not a `.modal` marks it active and locks scrolling, and Escape never closes it, since Escape selects only `.modal.active` (js/app.js:81).
- JavaScript numbers are doubles, exact only below 2^53 and printed in exponent form from 1e21. The model's integers are unbounded, so row counts, page numbers and timestamps beyond those bounds are not modelled.
- Forms.MarkFieldInvalid: each field's parent has its own list of error messages. In the script, `parentNode.querySelector('.field-error')` searches every descendant, so a parent that contains another field's wrapper can lose that field's message. Field parents are assumed not to contain one another.
- Forms.MarkFieldValid: the same assumption as `Forms.MarkFieldInvalid`, for the error message a valid mark removes.
- Forms.ValidateForm: the same assumption. Its promise about error messages relies on each parent's list being its own.
- Session.UpdateUserUI: the element groups are assumed disjoint. Their selectors name different ids.
- Navigation.ShowSection: content sections, nav items and the target are assumed distinct elements.
- Login.SwitchRole: tabs and forms are assumed distinct elements. The two ids must exist, since the script fails without them.

## Findings

| source | as written | input that shows it | evidently intended | confidence | as-written member | corrected member |
|---|---|---|---|---|---|---|
| js/dashboard.js:433 | the input handler reads `this.dataset.table`, but `debounce` (js/app.js:369-379) calls it with no receiver, so the read throws and `filterTable` never runs | typing "b" into the search box of a table with one blank row: the row stays shown | `this` bound to the input (or `input.dataset.table`, as the clear button reads it), so the rows are filtered by the trimmed, lower-cased text | high; not executed | DataTables.SearchInput, DataTables.TypedSearchIgnored | DataTables.Search |
