# Trivia API request handlers, modelled in Dafny

This project models the request-handling core of a small trivia-game REST API
(`backend/flaskr/__init__.py`): seven route handlers over a table of questions
and a table of categories, and four error handlers that turn an aborted
request into a `{success: false, message}` envelope.

The database is replaced by an immutable `Store` holding two sequences,
`questions` and `categories`. Each handler is a pure function from the store
and the request's parsed inputs to a `Reply`. A reply is either `Done(body, store')`
or `Abort(error)`. `Respond` turns a reply into a `Response(status, success, body)`
and the store after the request. An aborted request keeps the old store, because
every handler aborts before it writes. `Handle` dispatches a `Request` to its handler.

Modules, one per concern:

- `Seqs` (seqs.dfy): order-preserving `Filter` and Python's slice `s[start:end]` (`PySlice`), with negative and out-of-range bounds handled as Python handles them.
- `Text` (text.dfy): ASCII lower-casing and substring search, the model of `ILIKE '%term%'`.
- `Models` (models.dfy): `Question`, `Category`, `Store`, lookup by primary key, delete-by-id.
- `Api` (api.dfy): the handlers, the error envelopes, `Respond` and `Handle`.
- `ApiProperties` (api_properties.dfy): lemmas relating several calls.

Modelling choices:

- The `page` argument is an `Option<int>`. `None` stands for an absent or non-integer argument, which Flask's `request.args.get("page", 1, type=int)` reads as 1.
- Page numbers of 0 or less are not excluded. The slice follows Python's semantics, and `GetQuestions` states it for every page p <= 0. The rows served are `[max(0, n+(p-1)*10), max(0, n+p*10))`, except that page 0 slices `[-10:0]` and is always "Not found". For example, when n >= 20, page -1 shows rows `[n-20, n-10)` of the table (`NegativePageCountsFromEnd`).
- The id the database assigns to a created question is the parameter `newId`. The model asks only that it is not already in use.
- `random.choice` is the parameter `choice`: the quiz returns the remaining question at position `choice % count`. `QuizCanPickAnyRemaining` shows every remaining question is reachable this way.
- Create-request fields are `Option` values; `None` is a JSON `null`.
- The category column `type` is named `kind`, because `type` is a Dafny keyword.
- Question ids are unique (the table's primary key). The model states this as `UniqueIds`. The handlers do not assume it. The lemmas that need it (delete removes exactly one row, pages are disjoint) require it, and every handler preserves it.
- The model follows the code: an empty category list, an empty page, an empty search, an empty category listing and an exhausted quiz all give 404 "Not found"; deleting a missing id gives 422 "Unprocessable entity".
- The search term is an `Option<string>`. A JSON `null` term is formatted into the pattern `'%None%'`, so it searches for the text "None" (`SearchText`).

## Model

| member | source | states |
|---|---|---|
| Seqs.Filter | backend/flaskr/__init__.py:159 | the result holds exactly the input elements that satisfy the filter, each satisfying it, and is no longer than the input |
| Seqs.FilterMultiplicity | backend/flaskr/__init__.py:159 | each element passing the filter occurs in the result exactly as often as in the input; a failing element does not occur |
| Seqs.FilterCounts | backend/flaskr/__init__.py:132 | the multiplicity statement for every element at once, as a query returns each matching row once |
| Seqs.FilterRemovesOne | backend/flaskr/__init__.py:76 | when exactly one element fails the filter, filtering removes that element and keeps all others in order |
| Seqs.PySlice | backend/flaskr/__init__.py:56-61 | Python slicing never fails and yields at most end-start elements; non-negative bounds are clamped to the sequence; when both bounds are negative they count from the end and are clamped at 0; an end of 0 gives the empty slice |
| Text.Contains | backend/flaskr/__init__.py:115 | the scanning substring test is true exactly when some window of the text equals the pattern |
| Text.ContainsIgnoreCase | backend/flaskr/__init__.py:115 | `ILIKE '%term%'` holds exactly when the lower-cased term occurs in the lower-cased text |
| Text.MatchIgnoresCase | backend/flaskr/__init__.py:115 | lower-casing the text or the term does not change whether the search matches |
| Text.EmptyTermMatchesAll | backend/flaskr/__init__.py:115 | the empty search term matches every question text |
| Text.SearchFindsOtherCase | backend/test_flaskr.py:116-126 | a case-changed version of the tested hit: the term "test" (the test searches "Test") matches any text starting "Test", such as the created "Test question" |
| Text.SearchMissesOtherWord | backend/flaskr/__init__.py:115 | the term "test" does not match "Exam" |
| Models.FindById | backend/flaskr/__init__.py:71 | lookup by id finds nothing exactly when no stored question has that id, otherwise a stored question with that id |
| Models.RemoveId | backend/flaskr/__init__.py:76 | after deleting an id, no row has it and every row with another id remains exactly as often as before |
| Models.RemoveIdExactlyOne | backend/flaskr/__init__.py:71-76 | with unique ids, deleting the id of row i yields the table without row i, one row shorter, ids still unique |
| Models.RemoveIdKeepsUnique | backend/flaskr/__init__.py:76 | deleting never breaks primary-key uniqueness |
| Models.RemoveIdCount | backend/flaskr/__init__.py:71-76 | with unique ids, deleting a present id removes exactly one row |
| Models.AppendFreshKeepsUnique | backend/flaskr/__init__.py:93-100 | inserting a row with a fresh id keeps ids unique |
| Api.HandlerFor | backend/flaskr/__init__.py:174-212 | a status has a registered error handler exactly when it is one of the four handled codes, and that handler's code is the status |
| Api.ErrorResponse | backend/flaskr/__init__.py:174-212 | every error envelope has success false, a non-200 status, and that status leads back to the same handler |
| Api.GetCategories | backend/flaskr/__init__.py:26-40 | 404 exactly when there are no categories; otherwise all categories, in order, with the store unchanged |
| Api.GetQuestions | backend/flaskr/__init__.py:42-64 | success carries 1 to 10 questions, the unsliced total and all categories; for page p >= 1 it succeeds exactly when (p-1)*10 is below the total, and question k is row (p-1)*10+k; for p <= 0 it serves exactly Python's slice counted from the end and succeeds exactly when that slice is non-empty; failure is 404 |
| Api.DeleteQuestion | backend/flaskr/__init__.py:66-81 | 422 exactly when no question has the id; otherwise the id is gone, every other question and all categories remain, and with unique ids one row is removed |
| Api.CreateQuestion | backend/flaskr/__init__.py:83-105 | 422 exactly when some field is null; otherwise the old rows stay as a prefix and one row with a fresh id and the four given values is appended |
| Api.SearchQuestions | backend/flaskr/__init__.py:107-125 | 404 exactly when no stored question matches; otherwise each matching stored question appears exactly as often as it is stored, no other question appears, and the total equals their count |
| Api.GetQuestionsByCategory | backend/flaskr/__init__.py:127-142 | 404 exactly when no stored question has the category; otherwise each stored question of that category appears exactly as often as it is stored, no other question appears, and the total equals their count |
| Api.RemainingQuestions | backend/flaskr/__init__.py:153-159 | the quiz pool holds exactly the stored questions of the quiz category (all for id 0) whose id was not asked before |
| Api.GetQuizQuestion | backend/flaskr/__init__.py:144-172 | 404 exactly when every pool question was asked; otherwise a stored question of the pool that was not asked before |
| Api.Respond | backend/flaskr/__init__.py:34-212 | success exactly when the handler did not abort, and exactly when the status is 200; an abort keeps the store and answers with its error handler's envelope |
| Api.Handle | backend/flaskr/__init__.py:26-172 | read-only routes and failed requests leave the store unchanged, categories never change, and primary-key uniqueness is preserved |
| ApiProperties.PagesCoverAll | backend/flaskr/__init__.py:47-61 | every question appears on page i/10+1 at position i%10 |
| ApiProperties.PagesDisjoint | backend/flaskr/__init__.py:47-61 | with unique ids, no question appears on two different pages numbered 1 or more |
| ApiProperties.DefaultPageIsFirst | backend/flaskr/__init__.py:47 | a missing page argument serves page 1 |
| ApiProperties.PagePastEndNotFound | backend/flaskr/__init__.py:56-57 | a page starting past the last question, such as page 1000, is 404 |
| ApiProperties.PageZeroNotFound | backend/flaskr/__init__.py:48-57 | page 0 is always 404 |
| ApiProperties.NegativePageCountsFromEnd | backend/flaskr/__init__.py:48-61 | page -1 succeeds with rows n-20 to n-10 when there are at least 20 questions |
| ApiProperties.DeleteRemovesExactlyThat | backend/flaskr/__init__.py:71-81 | with unique ids, deleting row i's id succeeds and leaves exactly the other rows in order |
| ApiProperties.DeleteTwiceFails | backend/flaskr/__init__.py:71-74 | a second delete of the same id is 422 |
| ApiProperties.CreateThenDeleteRestores | backend/flaskr/__init__.py:71-100 | deleting a just-created question gives back the original store |
| ApiProperties.CreatedQuestionListedByCategory | backend/flaskr/__init__.py:132 | a created question is listed under its category |
| ApiProperties.CreateListDeleteScenario | backend/flaskr/__init__.py:83-142 | create {"Q1","A1",1,1} succeeds, category 1 lists it, deleting it restores the store, and category 1 then lists no question with its id |
| ApiProperties.SearchIgnoresTermCase | backend/flaskr/__init__.py:115 | lower-casing the search term gives the same reply |
| ApiProperties.SearchWithoutHitNotFound | backend/test_flaskr.py:128-137 | a term no question text contains, such as "alskdjaskdjlas", gives 404 |
| ApiProperties.NullSearchTermSearchesNone | backend/flaskr/__init__.py:113-115 | a null search term is answered as a search for the text "None" |
| ApiProperties.EmptySearchReturnsAll | backend/flaskr/__init__.py:115-125 | on a non-empty table the empty term returns every question, unpaged, with the full count |
| ApiProperties.QuizCanPickAnyRemaining | backend/flaskr/__init__.py:161-164 | every unasked question of the pool is returned for some random pick |
| ApiProperties.QuizPicksPosition | backend/flaskr/__init__.py:164 | a random pick below the number of remaining questions returns the remaining question at that position |
| ApiProperties.QuizEndsWhenAllAsked | backend/flaskr/__init__.py:159-167 | when every question id was asked before, the quiz is 404 |
| ApiProperties.ErrorTable | backend/flaskr/__init__.py:174-212 | 400 "Bad request", 404 "Not found", 422 "Unprocessable entity", 500 "Internal server error", each with success false |
| ApiProperties.HandlerForIsInverse | backend/flaskr/__init__.py:174-212 | a status code and its error handler determine each other |
| ApiProperties.ErrorsDistinct | backend/flaskr/__init__.py:174-212 | different errors have different codes and different messages |

## Left out

- Flask plumbing is not modelled: app construction, routing, JSON parsing and serialisation, and the `after_request` CORS headers (backend/flaskr/__init__.py:11-24, 214). A request arrives already parsed as a `Request` value. Routing is not modelled, so an unrouted URL such as `/categories/1` has no `Request` value. Flask's `<int:...>` path converters (backend/flaskr/__init__.py:66, 127) accept only unsigned digits, so a negative path id such as `DELETE /questions/-1` is unrouted too: the path ids of `QuestionDelete` and `CategoryQuestionsGet` are `nat`. Flask raises a 404 for it, and the registered `not_found` handler answers with the same envelope as `ErrorResponse(NotFound)`: success false, "Not found".
- SQLAlchemy and the `models` module are not part of this model. The session, `setup_db`, `format()`, `insert()` and `delete()` become sequence operations. The order of rows returned by an unordered query is taken to be the sequence order.
- A missing JSON key raises `KeyError`, which Flask answers with 500; missing keys are not modelled. Create is the exception: its check at backend/flaskr/__init__.py:90 chains the four `is None` tests with a lazy `or`, so once a field is null the later keys are never read, and a body such as `{"question": null}` gets 422, which is what the model's `None` fields give. A missing key gives 500 in create only when every field before it in that chain is present and not null. The 400 and 500 handlers are reachable only through framework errors like this, so the model covers their envelopes but not what triggers them.
- Null fields are modelled for create (422) and for the search term (searched as "None"). A null `quiz_category` is not modelled: it raises `TypeError` at backend/flaskr/__init__.py:153, which gives 500. A null `previous_questions` is not modelled either: it raises `TypeError` at backend/flaskr/__init__.py:159 when the pool is non-empty. `QuizzesPost` therefore takes a non-null id list and category.
- JSON values of the wrong type (a string `difficulty`, say) are not modelled; the inputs are typed.
- Api.CreateQuestion: the database assigns the id. The model takes it as a parameter and requires only that it is fresh. It promises no particular value.
- Api.GetQuizQuestion: makes no claim about the distribution of `random.choice`. It only says which questions may be returned, and `QuizCanPickAnyRemaining` shows each of them can be.
- Api.SearchQuestions: `ILIKE` is modelled as an ASCII lower-casing substring test. The `%` and `_` wildcards and the `\` escape character inside a user's term, and the database collation's case folding beyond ASCII, are not modelled.
- Referential integrity between `Question.category` and category ids is not checked by the source and not imposed by the model.
