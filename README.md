# TV show search page — a Dafny model

The repository is a browser page that searches a public TV-show API and shows
one card per result. This project models its two pieces of logic in
`script.js`:

- **The search lifecycle** (`searchShows`, `displayResults`, `clearResults` and
  the show/hide helpers). The page has four parts: a loading indicator, a
  "no results" indicator, an error element with its text, and a results
  container holding cards. `SearchPage.Page` is a class with these as fields.
  Its methods update them as the helpers do. `DisplayResults` appends one card
  per item in a loop. Each method's new state is tied to a pure transition
  function: `OnSubmit` for submitting a query and `OnOutcome` for the request's
  outcome. The lemmas beside those functions state what the page promises.
  The request is an event carrying an abstract outcome:
  - `Ok(items)`: a 2xx response with its parsed array;
  - `HttpFail(status)`: a status that is not 2xx;
  - `Exn(message)`: a thrown error.
- **The card fields** (`createShowCard`) as pure functions:
  - the image source, or the placeholder;
  - the summary with its tags removed by `replace(/<[^>]*>/g, '')`, or
    "No summary available";
  - the genres joined with ", ", or "Unknown";
  - whether a rating is shown or "N/A";
  - the show's name, used as title and as alternative text.

Properties follow JavaScript truthiness. An absent property, `""` and `0` are
all falsy. So an empty summary falls back, and a rating average of 0 shows
"N/A".

The tag stripper (`Markup.StripTags`) follows the regex engine: it scans left
to right and deletes a `<` together with everything up to the first `>` after
it. A `<` with no `>` after it is kept. It is proved equal to an independent
definition, `Markup.OutsideTags`. That definition says a character is deleted
exactly when it lies between some `<` and the first `>` after that `<`. The
result contains no `<` followed by a `>`, so stripping twice is the same as
stripping once.

Modules: `Options` (absent values), `JsStrings` (`trim`, `join` and its inverse
split, and the decimal text of a status code), `Markup`, `ShowCard`,
`SearchPage`.

The four show/hide flags are independent, and nothing makes them exclusive.
A blank query shows the error and keeps the loading indicator and any earlier
cards as they were. `SearchPage.IndicatorsOverlap` proves this.

## Model

| member | source | states |
|---|---|---|
| `JsStrings.TrimStart` | script.js:15 | the result is a suffix of the input that does not start with white space; everything removed is white space |
| `JsStrings.TrimEnd` | script.js:15 | the result is a prefix of the input that does not end with white space; everything removed is white space |
| `JsStrings.Trim` | script.js:15 | `query.trim()` is no longer than the query and neither starts nor ends with white space |
| `JsStrings.TrimEmptyIffBlank` | script.js:15 | `query.trim()` is empty exactly when the query is empty or only white space, in both directions |
| `JsStrings.Join` | script.js:74 | no parts give ""; one part gives that part; the joined text starts with the first part |
| `JsStrings.JoinAppend` | script.js:74 | joining one more part appends the separator and that part; with the two base cases this fixes the joined text of every list |
| `JsStrings.SplitJoin` | script.js:73-74 | for every non-empty list: when no part contains the separator's first character, splitting the joined text on the separator gives back the list, in order |
| `JsStrings.SplitJoinNoSeparator` | script.js:73-74 | a non-empty list whose parts avoid the separator's first character splits back from its join, in order |
| `JsStrings.NatToString` | script.js:29 | the status text is a non-empty string of decimal digits without a leading zero |
| `JsStrings.ParseNatToString` | script.js:29 | reading the status text back gives the status |
| `Markup.FindClose` | script.js:70 | finds the first `>` at or after a position, or reports that none follows |
| `Markup.StripTags` | script.js:69-70 | the stripped text is no longer than the input and uses only the input's characters |
| `Markup.StripTagsDeletesExactlyTags` | script.js:69-70 | the replace deletes exactly the characters between a `<` and the first `>` after it, and keeps all other characters in order |
| `Markup.StripTagsIsTagFree` | script.js:69-70 | the result has no `<` with a `>` anywhere after it |
| `Markup.StripTagFreeIsIdentity` | script.js:70 | text with nothing to strip is returned unchanged |
| `Markup.StripTagsIdempotent` | script.js:69-70 | stripping twice gives the same text as stripping once |
| `Markup.StrayBracketsSurvive` | script.js:70 | for all `a`, `b`: a `<` with no `>` anywhere after it survives together with everything after it; a `>` with no `<` before it survives together with everything before it |
| `Markup.StripTagsNoCloseSuffix` | script.js:70 | text without `>` appended to any string is kept whole after what that string strips to |
| `Markup.FindCloseExtend` | script.js:70 | appending text without `>` does not change where the first `>` is found |
| `Markup.StripTagsPlainPrefix` | script.js:70 | text without `<` passes through unchanged, and stripping continues after it |
| `Markup.StripTagsTagPrefix` | script.js:70 | a complete tag at the front is deleted whatever follows it |
| `Markup.StripTagsExample` | script.js:69-70 | `"<p>Great <b>show</b></p>"` becomes `"Great show"` |
| `ShowCard.ImageSource` | script.js:66 | a missing image gives the fixed placeholder URL; otherwise the medium image URL |
| `ShowCard.SummaryText` | script.js:68-70 | a missing or empty summary gives "No summary available"; otherwise the tag-free text that keeps exactly the characters outside tags |
| `ShowCard.GenresText` | script.js:72-74 | missing or empty genres give "Unknown"; otherwise the genres joined in order with ", " between them, starting with the first genre; when no genre contains ',', the text splits back into the genres |
| `ShowCard.RatingLabel` | script.js:76-78 | the average is shown exactly when the rating is present and its average is present and not 0; otherwise "N/A" |
| `ShowCard.CreateShowCard` | script.js:61-94 | the name is both the title and the alternative text; the image, summary, genres and rating fields are exactly `ImageSource`, `SummaryText`, `GenresText` and `RatingLabel` of the show's properties |
| `ShowCard.TagOnlySummaryIsEmpty` | script.js:69-70 | every summary made of one or more complete tags and nothing else strips to "", and the "No summary available." fallback does not apply to it |
| `ShowCard.StripTagsOfTags` | script.js:70 | any run of complete tags strips to nothing |
| `ShowCard.GirlsSummary` | script.js:69-70 | `"<p>HBO show</p>"` becomes `"HBO show"` |
| `ShowCard.GirlsGenres` | script.js:73-74 | `["Drama", "Comedy"]` becomes `"Drama, Comedy"` |
| `ShowCard.GirlsCard` | script.js:61-94 | the card of "Girls" with no image has the placeholder, its name twice, rating 8.0, "Drama, Comedy" and "HBO show" |
| `SearchPage.HttpErrorMessage` | script.js:28-29 | the message for a response that is not ok is "HTTP error! status: " followed by the decimal digits of the status, with no leading zero, which read back as the status |
| `SearchPage.HttpErrorMessageInjective` | script.js:29 | different statuses give different messages |
| `SearchPage.FailureText` | script.js:41-43 | a failure shows "Error fetching data: " followed by the error's message |
| `SearchPage.RenderCards` | script.js:53-57 | one card per item, in the order of the items |
| `SearchPage.RenderCardsAppend` | script.js:53-57 | rendering one more item appends exactly that item's card |
| `SearchPage.OnSubmit` | script.js:15-23 | a blank query shows the error with "Please enter a search term" and changes nothing else; any other query shows loading, hides the error and no-results, and empties the cards |
| `SearchPage.OnOutcome` | script.js:28-43 | every outcome hides loading; a failure shows the error with its text; `Ok` sets no-results exactly when the array is empty; the cards change only for a non-empty array, to one card per item |
| `SearchPage.BlankQuerySendsNoRequest` | script.js:15-18 | a blank query shows "Please enter a search term" and changes nothing else: loading, no-results and the cards keep their values |
| `SearchPage.ValidQueryStartsLoading` | script.js:20-23 | a non-blank query shows loading, hides the error, empties the results and hides no-results |
| `SearchPage.SearchWithResults` | script.js:32-57 | a non-empty array leaves exactly one card per item in response order, with loading, no-results and the error all hidden |
| `SearchPage.SearchWithNoResults` | script.js:32-36 | an empty array hides loading, shows no-results and leaves no cards |
| `SearchPage.SearchFailure` | script.js:25-45 | a failure hides loading, shows the error with its message and leaves no cards; status N gives "Error fetching data: HTTP error! status: N" |
| `SearchPage.IndicatorsOverlap` | script.js:14-23 | the flags are not exclusive: loading and error can both be shown, and so can the error and earlier cards |
| `SearchPage.Page.ShowLoading` | script.js:97-99 | sets only the loading flag |
| `SearchPage.Page.ShowNoResults` | script.js:101-103 | sets only the no-results flag |
| `SearchPage.Page.ShowError` | script.js:105-108 | sets the error text and shows the error; nothing else changes |
| `SearchPage.Page.HideError` | script.js:110-112 | hides the error and keeps its text |
| `SearchPage.Page.ClearResults` | script.js:114-117 | empties the cards and hides no-results |
| `SearchPage.Page.DisplayResults` | script.js:49-58 | the container ends up holding exactly the cards of the items in order, and no-results is hidden; the loop appends one card per item |
| `SearchPage.Page.Submit` | script.js:14-23 | sends a request exactly when the query is not blank, and the page becomes `OnSubmit` of its previous state |
| `SearchPage.Page.Complete` | script.js:25-45 | the page becomes `OnOutcome` of its previous state and the outcome |
| `SearchPage.Page.SearchShows` | script.js:14-46 | a whole search: submit, and when a request is sent, handle its outcome |

## Left out

- The HTTP request, `response.json()`, `encodeURIComponent` and the API URL
  are network I/O and library calls. A response is only an abstract
  `Outcome`. A body that is not JSON is an `Exn` outcome. A body that is JSON
  but not an array is not modelled.
- Overlapping searches are not modelled. The source lets a slower, earlier
  response overwrite a newer one. The model handles one request at a time:
  `Complete` applies whatever outcome it is given to the current page.
- The rating is not formatted with `toFixed(1)`, because that is
  floating-point formatting. `RatingText.OneDecimal` carries the average that
  would be formatted.
- A `NaN` average is falsy in the source and would show "N/A". Dafny's `real`
  has no `NaN`, so this case is not modelled.
- The HTML template, `innerHTML` and the image `onerror` fallback are browser
  rendering. A card is the record of strings that the template would insert.
- The event listeners, the Enter key, `focus()`, the timed demo search for
  "girls" and `console.error` are UI bindings, timers and logging.
- Malformed show records are not modelled. The model's items always carry a
  show whose properties have the types listed in `ShowCard`. In the source,
  some malformed values make `createShowCard` throw partway through the loop.
  The cards appended so far then stay, and the error branch runs. This
  happens when:
  - an item has no `show`;
  - `genres` is a non-empty string, or another non-array value with a
    positive `length` and no `join`;
  - `summary` is truthy but not a string;
  - `average` is truthy but not a number.
  
  Other non-array `genres` values, such as a number or a plain object without
  `length`, give "Unknown" and throw nothing.
- The initial visibility of each part comes from the page's markup and
  stylesheet. `index.html` is not part of this model. The `Page` constructor
  therefore takes the initial view as a parameter.
