# Waste collection and reporting: verified model of the page logic

This project models the decision logic of a waste-reporting web application.
Users report waste from a photo. Collectors claim collection tasks and prove a
collection with before and after photos. An external image-understanding
model, the oracle, answers in free text that should hold a JSON object. The
logic lives in two page components:

- **The collect page** (`app/collect/page.tsx`):
  - It claims and completes tasks (`handleStatusChange`).
  - It verifies a collection (`handleVerify`). It cuts the first `{...}` out
    of the oracle's reply. It then applies a five-part rule: four flags, plus
    a confidence strictly above 0.7. On a pass it draws a reward in [10, 59]
    and makes three store calls in a fixed order.
  - It searches the task list by location, shows it in pages of five, and
    shortens long waste-type labels.
- **The report page** (`app/reports/page.tsx`):
  - It sends the photo's base64 payload to the oracle.
  - It removes code fences from the reply and trims it.
  - It accepts the parsed estimate only when its three keys are truthy, and
    copies the estimate into the form.
  - It lets a report be submitted only after a successful estimate.

The pure parts are functions with lemmas. Each page is a class whose fields
are the page's state. Its handlers are methods whose postconditions give the
whole new state. The store calls each page makes are recorded, in order, in a
log field. Things outside the page are method parameters:

- the oracle's reply, with `None` meaning the call threw;
- `JSON.parse`, as a function from text to an optional record;
- the store's answers, including `null` and exceptions;
- the `Math.random()` draw;
- the file reader's data URL.

Files:

- `optional.dfy`: the Option type.
- `js_text.dfy`: the JavaScript built-ins the pages use (`trim`,
  `toLowerCase`, `includes`, `split`, `slice`), with `IndexOf` as a helper for
  the regex match and for `split`.
- `data_url.dfy`: the `split(',')[1]` payload of a data URL.
- `collect_model.dfy`, `collect_list.dfy`, `collect_page.dfy`: the collect page.
- `report_verify.dfy`, `report_page.dfy`: the report page.
- `scenarios.dfy`: concrete walkthroughs that use only the handlers' contracts.

Behaviour of the code that the model follows as written:

- **Extraction.** The pattern `\{[\s\S]*?\}` is not brace-balancing. The match
  starts at the first `{` and ends at the first `}` after it, so a nested
  object is cut short.
- **A failed judge still reports success.** When the reply parses but fails the
  rule, the verification status is still `success`, because it is set before
  the rule is checked. The parsed result is stored and shown; no status update,
  reward or collection record follows.
- **Reward without a status change.** The reward is saved even when the status
  update answers `null` or throws, because `handleStatusChange` catches both.
- **A failing save after the update.** If `saveReward` or `saveCollectedWaste`
  throws, the status ends as `failure` even though the task may already be
  marked verified. The inner handler's logging names an undeclared variable.
  The error that causes is caught by the outer handler, so a parse error also
  ends as `failure`.
- **Claiming.** `handleStatusChange` does not check whether another collector
  has already claimed the task. Only the store's answer decides, so the model
  claims no single-claimant invariant.
- **Page 0.** When no task matches the search, the page count is 0 while the
  page is 1. "Next" is then enabled, and it moves to page 0.

## Model

| member | source | states |
|---|---|---|
| CollectModel.PassesExactly | app/collect/page.tsx:251-257 | a reply passes iff all four flags are true and the confidence is present and strictly above 0.7 |
| CollectModel.ConfidenceBoundary | app/collect/page.tsx:256 | with all flags true, confidence exactly 0.7 fails and a confidence c passes iff c > 0.7 |
| CollectModel.AnyFlagFalseFails | app/collect/page.tsx:251-257 | setting any single flag false, or dropping the confidence, fails the judge whatever the other fields are |
| CollectModel.Reward | app/collect/page.tsx:259 | for any draw 0 <= r < 1 the reward floor(50r)+10 is an integer in [10, 59]; it depends on the draw alone |
| CollectModel.RewardOnto | app/collect/page.tsx:259 | every amount from 10 to 59 is produced by some draw, so the range is exactly [10, 59] |
| CollectModel.RewardBand | app/collect/page.tsx:259 | each amount k is produced by exactly the draws in [(k-10)/50, (k-9)/50) |
| CollectModel.MatchObject | app/collect/page.tsx:233 | a match starts at the first `{`, ends at the first `}` after it, and holds no `}` in between |
| CollectModel.ExtractObject | app/collect/page.tsx:233-236 | the extracted text starts with `{`, ends with `}` and has no `}` inside |
| CollectModel.NoMatchIffNoPair | app/collect/page.tsx:233-236 | extraction fails iff no `}` follows any `{` in the reply (the "No JSON object found" path) |
| CollectModel.ExtractIgnoresSurroundingText | app/collect/page.tsx:233 | a flat object after text without `{`, followed by anything, is extracted exactly as the bare object is |
| CollectModel.ExtractIdempotent | app/collect/page.tsx:233 | extracting from an extracted object returns it unchanged |
| CollectModel.Reassign | app/collect/page.tsx:117-119 | same length; tasks with id taskId get the new status and the user as collector; every other task is unchanged |
| CollectModel.ReassignKeepsIds | app/collect/page.tsx:117-119 | ids and positions are kept, and only tasks with id taskId can differ |
| CollectModel.OnlyOneTaskChanges | app/collect/page.tsx:117-119 | with unique ids, at most one position of the list changes |
| CollectModel.ReassignIdempotent | app/collect/page.tsx:117-119 | repeating the same status change changes nothing more |
| CollectList.FilterByLocation | app/collect/page.tsx:285-287 | every kept task matches the search (lower-cased location contains lower-cased term), and each task is kept exactly as often as it occurs if it matches, else never |
| CollectList.FilterKeepsOrder | app/collect/page.tsx:285-287 | the kept tasks form a subsequence of the list: original order preserved |
| CollectList.EmptySearchKeepsAll | app/collect/page.tsx:285-287 | an empty search term keeps the whole list |
| CollectList.SearchIgnoresTermCase | app/collect/page.tsx:286 | lower-casing the search term first does not change which tasks match |
| CollectList.PageCount | app/collect/page.tsx:289 | the page count is ceil(n/5): the least r with n <= 5r, and 0 exactly when n = 0 |
| CollectList.Paginate | app/collect/page.tsx:290-293 | page p >= 1 is the slice from 5(p-1) to min(5p, n), empty past the end; page 0 is empty; never more than 5 tasks |
| CollectList.PagesInRangeAreFull | app/collect/page.tsx:289-293 | every page from 1 to the page count holds between 1 and 5 tasks |
| CollectList.PagesArePrefix | app/collect/page.tsx:290-293 | pages 1..k together are the first min(5k, n) tasks |
| CollectList.PagesCoverList | app/collect/page.tsx:289-293 | pages 1..pageCount together are exactly the filtered list |
| CollectList.PreviousPage | app/collect/page.tsx:388 | "Previous" gives max(p-1, 1): p-1 when p > 1, and 1 for every p <= 1, page 0 included |
| CollectList.NextPage | app/collect/page.tsx:398 | "Next" gives min(p+1, pageCount): p+1 when p is below the page count, and the page count itself otherwise |
| CollectList.NavigationStaysInRange | app/collect/page.tsx:387-403 | from a page in [1, pageCount] both buttons stay in [1, pageCount] |
| CollectList.NextWithNoPagesGoesToZero | app/collect/page.tsx:397-401 | with no matching task the page count is 0, so "Next" from page 1 is enabled and leads to page 0 |
| CollectList.ShortLabel | app/collect/page.tsx:347 | labels of at most 8 characters are shown as is; longer ones as their first 8 characters plus `...` (11 characters) |
| CollectList.ShortLabelIdempotent | app/collect/page.tsx:347 | shortening a shown label again changes nothing |
| CollectList.ShortLabelCollides | app/collect/page.tsx:347 | two long labels with the same first 8 characters are shown identically |
| CollectPage.ReadReply | app/collect/page.tsx:233-239 | a reply is read only when the oracle answered, a `{...}` was found, and parse accepted that match |
| CollectPage.CollectPage.constructor | app/collect/page.tsx:37-71 | after mounting: the fetched tasks and user, collector iff the stored role is "collector", page 1, status idle, nothing logged |
| CollectPage.CollectPage.FilteredTasks | app/collect/page.tsx:285-287 | the filtered list holds only tasks matching the current search, and every matching task of the page's list is in it |
| CollectPage.CollectPage.VisibleTasks | app/collect/page.tsx:290-293 | the shown tasks number at most 5 and all match the search |
| CollectPage.CollectPage.SetSearchTerm | app/collect/page.tsx:305 | typing sets the search term and leaves the page number alone |
| CollectPage.CollectPage.ClickPrevious | app/collect/page.tsx:387-393 | disabled on page 1, else moves to PreviousPage; the page never goes below 0 |
| CollectPage.CollectPage.ClickNext | app/collect/page.tsx:397-403 | disabled when the page equals the page count, else moves to NextPage of the filtered list |
| CollectPage.CollectPage.UploadImage | app/collect/page.tsx:435-490 | an upload stores only the data URL's payload after the comma as `beforeImageBase64` or `afterImageBase64`, and leaves the other photo's payload alone |
| CollectPage.CollectPage.HandleStatusChange | app/collect/page.tsx:105-127 | without a user or the collector role nothing changes and the store is not called; otherwise the call is logged, and only an updated-task answer rewrites the list via Reassign |
| CollectPage.CollectPage.HandleVerify | app/collect/page.tsx:154-283 | missing task, photo, user or role: nothing changes; unreadable reply: failure, nothing else; failing judge: success, result stored, no store call or reward; pass: the three ordered effects of CreditCollection |
| CollectPage.CollectPage.CreditCollection | app/collect/page.tsx:258-268 | store calls logged in order: status 'verified', saveReward(user, Reward(draw)), then saveCollectedWaste unless saveReward threw; reward set only when both saves return; a throw gives failure |
| DataUrl.Payload | app/reports/page.tsx:187 | split(',')[1] is absent iff the text has no comma, and never contains a comma |
| DataUrl.PayloadOfDataUrl | app/reports/page.tsx:187 | for `header,data` with no comma in either part, the payload is exactly data |
| JsText.Trim | app/reports/page.tsx:208 | trim returns a contiguous part of the text with no whitespace at either end |
| JsText.TrimSurrounded | app/reports/page.tsx:208 | trimming whitespace + x + whitespace, for x with no whitespace at its ends, gives x |
| JsText.TrimIdempotent | app/reports/page.tsx:208 | trimming twice equals trimming once |
| JsText.Lower | app/collect/page.tsx:286 | lower-casing keeps the length, maps each character on its own (A-Z to a-z), and leaves no upper-case ASCII letter |
| JsText.Split | app/reports/page.tsx:187 | `split` yields at least one part, more than one iff the separator occurs, and no part contains the separator |
| JsText.Includes | app/collect/page.tsx:286 | includes holds iff the substring occurs at some position |
| JsText.JoinSplit | app/reports/page.tsx:187 | joining the split parts with the separator restores the text |
| JsText.SplitJoin | app/reports/page.tsx:187 | splitting a join of comma-free parts gives the parts back |
| JsText.JsSlice | app/collect/page.tsx:290-293 | `slice(start, end)` with in-range indices is the part from start to end, an end past the length is cut at the length, and an end not after the start gives nothing; never more elements than the list has |
| ReportVerify.Clean | app/reports/page.tsx:208 | the cleaned reply has no whitespace at either end |
| ReportVerify.StripFences | app/reports/page.tsx:208 | cutting out the fences only removes characters: the result is a subsequence of the reply, the rest kept in order |
| ReportVerify.StripLeavesNoFence | app/reports/page.tsx:208 | after the fences are cut out, no run of three backticks remains |
| ReportVerify.CleanPlainIsTrim | app/reports/page.tsx:208 | on a reply without backticks, cleaning is just trim |
| ReportVerify.CleanFencedEqualsBare | app/reports/page.tsx:208 | a reply wrapped in ```json ... ``` cleans to the same text as the bare reply |
| ReportVerify.CleanFencedBlock | app/reports/page.tsx:208 | a JSON text without backticks and without surrounding whitespace, fenced as ```json on lines of its own, cleans to exactly that text |
| ReportVerify.AcceptedIsPermissive | app/reports/page.tsx:211 | confidence 0 is rejected, any non-zero confidence (even negative) accepted; a missing type or empty quantity is rejected |
| ReportPage.ReportPage.constructor | app/reports/page.tsx:54-69 | initial state: empty form at (0, 0), status idle, nothing submitted or logged |
| ReportPage.ReportPage.HandleVerify | app/reports/page.tsx:177-234 | no file: nothing changes; reader, oracle or parse error, or a falsy key: failure with form and result unchanged; accepted: success, result stored, form type and amount set, location and coordinates kept |
| ReportPage.ReportPage.HandleSubmit | app/reports/page.tsx:235-282 | createReport is called only after success with a user; a new report is prepended and the form, file, preview, status and result reset; a null answer or an exception changes nothing else; no submission left in flight |
| Scenarios.CollectionPasses | app/collect/page.tsx:227-268 | a reply that is one bare JSON object, which `JSON.parse` reads as all four flags true at confidence 0.92, verifies the task, credits a reward in [10, 59] and records the collection, in that order |
| Scenarios.CollectionFailsOnCleaned | app/collect/page.tsx:227-274 | a bare JSON object read as the same reply with cleaned false leaves the tasks, the store calls and the reward alone, while the status reads success |
| Scenarios.RewardDespiteNullUpdate | app/collect/page.tsx:114-127 | with a passing JSON reply and a null answer to the status update, the list stays as it was, yet the reward is saved and set |
| Scenarios.ReportEstimatedAndSubmitted | app/reports/page.tsx:205-273 | a JSON text in a ```json block that `JSON.parse` reads as plastic / 2kg / 0.85 fills the form's type and amount; with a location typed in, submitting calls createReport with them and that location, prepends the row and clears the form |

## Left out

- The oracle calls are not modelled: the model client, the prompt text,
  `generateContent` and `response.text()`. The reply text is a parameter,
  and `None` stands for a call that threw.
- How `JSON.parse` works inside is not modelled; it is a function parameter.
  Parsed records carry only the types the prompts ask for, with a missing or
  `null` key as `None`. Other JSON values are not modelled. Examples are a
  number where a flag is expected, a numeric string as confidence, or a
  non-object top-level value, which the reports page would read as missing
  keys. NaN is not representable, so it is not modelled either.
- Geolocation is not modelled: not in `handleStatusChange`, where it is
  best-effort and only sets unused coordinates, and not in the collect
  `handleVerify`, where it only feeds the prompt. Geocoding and the places
  search box on the reports page are left out too. All of these are browser
  and network I/O.
- `FileReader` is not modelled. The data URL is a parameter, and the preview
  set by `handleFileChange` is a field.
- Toasts, console logging and all rendering are left out, including
  `StatusBadge` and the confidence display. The stored role is read from
  `localStorage`; here it is the constructor's parameter.
- `toISOString().split('T')[0]` is not modelled: the store's report carries
  its creation day already formatted.
- Form edits through `handleInputChange` and `onPlaceChange` are not
  modelled. Neither is choosing a task with "Complete & Verify", nor the Close
  button. The fields they set are public and are set directly.
- The Verify buttons are disabled on a missing file or photo and while
  verifying. This is not modelled, because each handler runs to completion as
  one step. The handlers' own guards are modelled.
- Interleavings of the asynchronous handlers are not modelled, and neither is
  the claim race between collectors. The "verifying" status exists only while
  a call is awaited, and the model never ends a handler in it.
- ReportPage.ReportPage.HandleSubmit: does not require a location. On the page
  the location input is `required`, so the browser blocks a submission with an
  empty location before the handler runs. The handler itself does not check
  it, and the model follows the handler.
- ReportPage.ReportPage.HandleVerify: keeps the location and coordinates of
  the form as it was when Verify was clicked. The page spreads the form it
  captured at the click into the new form, so a location or coordinates set
  while the oracle is awaited are overwritten. Examples are the geocoder
  callback and typing in the location field. The model runs the handler as one
  step and does not show this loss.
- The header (login, roles, notifications), the layout, the sidebar, the
  landing page and the database schema are not part of this model.
- CollectModel.Reward: the draw and `draw * 50` are exact reals, while the
  page multiplies doubles and rounds the product. Just below some band edges
  (the largest double below 0.1, for instance) the rounded product reaches the
  edge, and the page awards one token more than `Reward`. The range [10, 59]
  is the same.
- CollectModel.RewardBand: the bands are exact for real draws. On the page the
  doubles just below some band edges give the next amount, for the reason
  given for `Reward`. The confidence comparison has no such gap, because no
  double lies strictly between the double 0.7 and the real 0.7.
- JsText.Lower: maps only the ASCII letters, whereas `toLowerCase` also folds
  non-ASCII letters (U+212A KELVIN SIGN becomes `k`, for instance). Search
  results differ from the page only for non-ASCII locations or search terms.
- CollectList.ShortLabel: counts Unicode characters, whereas JavaScript
  `length` and `slice` count UTF-16 code units. Labels differ only for
  characters outside the Basic Multilingual Plane.
