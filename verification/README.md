# BiteCount landing page and waitlist admin, modelled in Dafny

BiteCount's web front end has two screens. The landing page collects
waitlist sign-ups. The admin screen lists the sign-ups. Almost all of both
screens is presentation. This project models the few pieces that carry
logic and proves what they promise.

- **Waitlist search** (`admin.dfy`, module `Admin`). The admin table keeps
  the entries whose lower-cased name or lower-cased e-mail includes the
  lower-cased search text, in their original order. Under the table it
  shows "Showing X of Y entries". The mock sign-up list is modelled too,
  together with what the two natural searches show on it.
- **Waitlist form** (`landing.dfy`, module `Landing`). The form has four
  fields: `name`, `email`, `loading` and `submitted`.
  - Keystrokes overwrite the two text fields.
  - Submitting marks the submission pending. After a simulated wait that
    always succeeds, the success panel replaces the form.
  - "Back to Form" brings the form back.

  Two views of this are modelled:
  - a value-level transition function, `Step` and `Run`, over events;
  - a class, `WaitlistForm`, whose methods update the four fields in place
    and are proved to follow `Step`.
- **Header links and the mobile check** (`landing.dfy`). A section link's
  label comes from its slug: split on `-`, capitalise each word, join with
  spaces, so "how-it-works" becomes "How It Works". The page counts as
  mobile when the window is at most 768 pixels wide.
- **String operations** (`text.dfy`, module `Text`). These are the
  JavaScript string operations the two screens use: `toLowerCase`,
  `toUpperCase`, `includes`, `split` and `join`, restricted to ASCII.

Two behaviours of the code are worth stating outright:

- **Searching "john" shows entries 1 and 2.** "Sarah Johnson" includes
  "john" once lower-cased. `Admin.MockJohnShowsTwo` proves it.
- **"Back to Form" only clears `submitted`.** The name and e-mail stay as
  typed, so the form does not return to its empty initial state. See
  `Landing.BackToFormKeepsFields` and `Landing.BackToFormKeepsTypedText`.

## Model

| member | source | states |
|---|---|---|
| Text.LowerChar | app/admin/page.tsx:40-41 | ASCII `toLowerCase` of a character: an upper-case letter becomes its own lower-case letter (same position in the alphabet), and every other character is kept |
| Text.UpperChar | app/page.tsx:290 | ASCII `toUpperCase` of a character: a lower-case letter becomes its own upper-case letter (same position in the alphabet), and every other character is kept |
| Text.CaseRoundTrip | app/page.tsx:290 | on letters, lower-casing and upper-casing undo each other |
| Text.Lower | app/admin/page.tsx:40-41 | `toLowerCase` of a string: same length, and no upper-case letter is left |
| Text.LowerIdempotent | app/admin/page.tsx:40-41 | lower-casing twice is lower-casing once |
| Text.LowerAppend | app/admin/page.tsx:40-41 | lower-casing distributes over concatenation |
| Text.LowerOfLowerCase | app/admin/page.tsx:40-41 | a string without upper-case letters is unchanged by lower-casing |
| Text.Contains | app/admin/page.tsx:40-41 | `includes`: a prefix is always included, and nothing longer than the string is |
| Text.ContainsIffOccurs | app/admin/page.tsx:40-41 | `includes` holds exactly when the query occurs at some position of the string |
| Text.ContainsInfix | app/admin/page.tsx:40-41 | a string placed between two others is included in the result |
| Text.Split | app/page.tsx:289 | `split` on one separator gives at least one piece, and no piece contains the separator |
| Text.Join | app/page.tsx:291 | `join`: no pieces give the empty string; otherwise the result starts with the first piece and its length is the pieces' total plus one separator between each pair of neighbours |
| Text.JoinSplit | app/page.tsx:289-291 | joining the pieces of a split with the same separator gives back the original string |
| Text.SplitJoin | app/page.tsx:289-291 | splitting the join of a non-empty list of separator-free pieces gives back the pieces (an empty list joins to "", which splits to [""]) |
| Admin.Matches | app/admin/page.tsx:39-41 | the filter's test: the lower-cased name or e-mail includes the lower-cased term; a term that lower-cases to the empty string matches every entry |
| Admin.Filter | app/admin/page.tsx:38-42 | the result is no longer than the list, and an entry is in it exactly when it is in the list and its lower-cased name or e-mail includes the lower-cased term |
| Admin.ShowingCount | app/admin/page.tsx:223 | the shown count is the filtered list's length, the total is the full list's length, and shown never exceeds total |
| Admin.FilterSelectsMatching | app/admin/page.tsx:38-42 | the result is the order-preserving subsequence of the list taken at exactly the positions whose entry matches: kept entries match, dropped entries do not |
| Admin.FilterKeepsAllMatching | app/admin/page.tsx:38-42 | a list all of whose entries match is returned whole |
| Admin.FilterDropsAllUnmatched | app/admin/page.tsx:38-42 | a list none of whose entries match filters to nothing |
| Admin.FilterEmptyTermKeepsAll | app/admin/page.tsx:38-42 | an empty search box keeps every entry |
| Admin.FilterCaseInsensitive | app/admin/page.tsx:40-41 | two terms that lower-case alike filter any list identically |
| Admin.FilterSameAsLowerTerm | app/admin/page.tsx:40-41 | a term filters exactly as its lower-case form does |
| Admin.FilterIdempotent | app/admin/page.tsx:38-42 | filtering the filtered list again with the same term changes nothing |
| Admin.FilterIgnoresOtherFields | app/admin/page.tsx:38-42 | id, date and status play no part: lists with the same names and e-mails, position by position, filter to lists with the same names and e-mails |
| Admin.AddressInDomain | app/admin/page.tsx:41 | an address `local@d` with `d` lower-case matches every term that lower-cases to `d` |
| Admin.NameHolds | app/admin/page.tsx:40 | a name whose lower-case form has `q` inside matches every term that lower-cases to `q` |
| Admin.NoJohnWithoutJ | app/admin/page.tsx:40-41 | a string with no `j` in either case does not include "john" once lower-cased |
| Admin.NoJohnAfterHead | app/admin/page.tsx:40-41 | a string with no `j` after its first character, and no `o` second, does not include "john" once lower-cased |
| Admin.NoJohnEntry | app/admin/page.tsx:40-41 | an entry with no `j` in its name or e-mail does not match "john" |
| Admin.NoJohnEntryAfterHead | app/admin/page.tsx:40-41 | an entry whose name and e-mail have a `j` only at the start, not followed by `o`, does not match "john" |
| Admin.MockExampleComShowsAll | app/admin/page.tsx:24-42 | on the mock data, any term lower-casing to "example.com" shows all ten entries: "Showing 10 of 10". Helpers: `DomainMatch1`-`DomainMatch10` (one per entry, :25-34, each address is `local@example.com`), `ExampleComIsLowerCase`, and `FilterKeepsTen` (`FilterKeepsAllMatching` for ten entries) |
| Admin.MockJohnShowsTwo | app/admin/page.tsx:24-42 | on the mock data, any term lower-casing to "john" shows exactly the entries with ids 1 and 2: "Showing 2 of 10". Helpers: `JohnSearch1`-`JohnSearch10` (one per entry, :25-34: John Smith and Sarah Johnson match, the other eight have no "john"), and `FilterKeepsFirstTwoOfTen` (`FilterDropsAllUnmatched` after two kept entries) |
| Landing.NavLabel | app/page.tsx:288-291 | the link label: split on `-`, capitalise each word, join with spaces; the label is as long as the slug (its full content is pinned by `NavLabelIsTitleCase`) |
| Landing.Capitalize | app/page.tsx:290 | capitalising a word keeps its length |
| Landing.TitleCase | app/page.tsx:288-291 | the character-by-character reference definition of a label keeps the slug's length |
| Landing.TitleCaseOfWord | app/page.tsx:290 | on a word without hyphens, the reference definition only capitalises the first character |
| Landing.TitleCaseAroundHyphen | app/page.tsx:289-291 | a hyphen becomes a space, and the text on each side is title-cased on its own |
| Landing.JoinCapitalized | app/page.tsx:289-291 | joining capitalised hyphen-free words with spaces title-cases their hyphen-joined form |
| Landing.NavLabelIsTitleCase | app/page.tsx:288-291 | the split, capitalise and join pipeline equals the character-by-character reference definition for every slug |
| Landing.NavLabelShape | app/page.tsx:288-291 | a label is as long as its slug and has no hyphen; every hyphen becomes a space; the first character of each word is upper-cased; every other character is kept |
| Landing.SlugOfNavLabel | app/page.tsx:278-291 | the label is injective on the page's kind of slug: for a slug without spaces or upper-case letters, lower-casing the label and turning its spaces into hyphens (`SlugOf`, an inverse used only for this proof) gives the slug back |
| Landing.NavSectionLabel0 | app/page.tsx:278-291 | the "features" link reads "Features" (via `WordLabel`: a hyphen-free slug's label is the slug capitalised) |
| Landing.NavSectionLabel1 | app/page.tsx:278-291 | the "how-it-works" link reads "How It Works" (helper `HowItWorksTitleCase` title-cases the slug word by word) |
| Landing.NavSectionLabel2 | app/page.tsx:278-291 | the "app" link reads "App" |
| Landing.NavSectionLabel3 | app/page.tsx:278-291 | the "contact" link reads "Contact" |
| Landing.MobileThreshold | app/page.tsx:54-56 | `isMobile` (`IsMobile`, which is `innerWidth <= 768` by definition): a width of 768 is mobile and 769 is not, and narrowing a mobile window keeps it mobile |
| Landing.Step | app/page.tsx:1148-1253 | only name keystrokes change the name, and only e-mail keystrokes the e-mail; no state is ever pending and completed at once; a pending submission stays pending until the wait ends, and the wait's end completes it; nothing but the wait's end completes a submission |
| Landing.CanSubmit | app/page.tsx:1148-1192 | when the browser fires the submit: form on screen, button enabled, both required fields filled, address accepted; such a state is never the success panel and never inconsistent |
| Landing.Run | app/page.tsx:1148-1253 | events applied in order; once the success panel is shown, only "Back to Form" can take it away |
| Landing.RunKeepsConsistent | app/page.tsx:109-121 | from a consistent state, every sequence of events leads to a consistent state |
| Landing.RunKeepsFieldsWithoutTyping | app/page.tsx:109-121 | events other than keystrokes, including submitting and "Back to Form", never change the name or the e-mail |
| Landing.PendingCompletes | app/page.tsx:114-120 | a pending submission stays pending through any events that are not the wait's end, and the wait's end then completes it |
| Landing.SubmissionAlwaysCompletes | app/page.tsx:109-121 | a submission the browser lets through always reaches the success panel once the wait is over |
| Landing.NoSubmitWhilePending | app/page.tsx:1192 | while a submission is pending the button is disabled, and pressing submit changes nothing |
| Landing.BackToFormKeepsFields | app/page.tsx:1253 | "Back to Form" shows the form again and keeps the name and e-mail |
| Landing.BackToFormKeepsTypedText | app/page.tsx:1253 | after typing, submitting, waiting and going back, the state is not the initial one |
| Landing.ExactlyOnePanel | app/page.tsx:1148-1218 | by definition of the two predicates: exactly one of the form and the success panel is on screen |
| Landing.WaitlistForm.constructor | app/page.tsx:34-37 | the fields start empty, nothing pending, the form on screen |
| Landing.WaitlistForm.SetName | app/page.tsx:1163 | a keystroke in the name field replaces the name and nothing else, following `Step` |
| Landing.WaitlistForm.SetEmail | app/page.tsx:1176 | a keystroke in the e-mail field replaces the e-mail and nothing else, following `Step` |
| Landing.WaitlistForm.BeginSubmit | app/page.tsx:109-111 | a submission starts exactly when the browser lets it through; starting marks it pending, and nothing starts while one is pending; the name and e-mail are kept |
| Landing.WaitlistForm.CompleteSubmit | app/page.tsx:117-120 | the wait's end sets `submitted` and clears `loading`, keeping the name and e-mail |
| Landing.WaitlistForm.Reset | app/page.tsx:1253 | "Back to Form" clears `submitted` only |
| Landing.WaitlistForm.Submit | app/page.tsx:109-121 | the whole handler: a started submission ends on the success panel with nothing pending, and one the browser blocks changes nothing |

## Left out

- Parallax offsets (app/page.tsx:81-107). They are floating-point arithmetic written to DOM styles.
- The custom cursor, its spring physics and variants, and the randomised background blobs. These are visual only; they use a physics library and `Math.random`.
- The resize and mouse-move listeners that `isMobile` switches on and off. These are browser plumbing; only the threshold predicate is modelled.
- All animations, scroll-triggered reveals and `scrollIntoView`.
- The 1500 ms delay. It is modelled only as the gap between `BeginSubmit` and `CompleteSubmit`, or as the `WaitOver` event, with no timing.
- The `console.log` of the name and e-mail in the submit handler. It is output only.
- The browser's e-mail syntax check. Its verdict enters as the `emailAccepted` parameter; the `required` checks are modelled as non-emptiness.
- Landing.WaitlistForm.CompleteSubmit: does one step where the handler makes two state updates in a row; React applies both in one render, so no state in between is observable.
- Text.LowerChar and Text.UpperChar cover ASCII letters only. Full Unicode case mapping is not modelled; it can change a string's length.
- The spinner and caption of the submit button, the static stats cards and tables, and the contact form, which has no handler.
- The Export, Campaign and Delete buttons. They have no behaviour.
- The year in the footers. It reads the clock.
