/**
 The route handlers of the trivia API and its error handlers. Each handler is a
 pure function from the store and the request's inputs to a `Reply`: either a
 success body paired with the store after the request, or the status the
 handler aborts with. `Respond` then shapes a reply into the JSON envelope
 the client sees, using the error handlers for aborted requests.
 */
module Api {
  import opened Seqs
  import opened Text
  import opened Models

  const QUESTIONS_PER_PAGE: nat := 10

  /** The statuses that have a registered error handler. */
  datatype HttpError = BadRequest | NotFound | UnprocessableEntity | InternalServerError

  /** The body of a JSON response; `success` and the status travel in `Response`. */
  datatype Body =
    | CategoryList(categories: seq<Category>)
    | QuestionPage(questions: seq<Question>, totalQuestions: int, categories: seq<Category>)
    | Message(message: string)
    | QuestionList(questions: seq<Question>, totalQuestions: int)
    | QuizQuestion(question: Question)
    | Failure(message: string)

  /** What a handler produces: a success body with the resulting store, or `abort(status)`. */
  datatype Reply = Done(body: Body, store: Store) | Abort(error: HttpError)

  /** The response the client receives: status code, the `success` flag and the rest of the body. */
  datatype Response = Response(status: int, success: bool, body: Body)

  /** The JSON body of `POST /questions`; `None` stands for a JSON `null`. */
  datatype QuestionInput = QuestionInput(
    question: Option<string>, answer: Option<string>, difficulty: Option<int>, category: Option<int>)

  // ---------------------------------------------------------------------------
  // Error handlers

  function StatusCode(e: HttpError): int {
    match e
    case BadRequest => 400
    case NotFound => 404
    case UnprocessableEntity => 422
    case InternalServerError => 500
  }

  function ErrorMessage(e: HttpError): string {
    match e
    case BadRequest => "Bad request"
    case NotFound => "Not found"
    case UnprocessableEntity => "Unprocessable entity"
    case InternalServerError => "Internal server error"
  }

  /** The error handler registered for a status code, if any. */
  function HandlerFor(status: int): (r: Option<HttpError>)
    ensures r.Some? ==> StatusCode(r.value) == status
    ensures (exists e :: StatusCode(e) == status) ==> r.Some?
  {
    if status == 400 then Some(BadRequest)
    else if status == 404 then Some(NotFound)
    else if status == 422 then Some(UnprocessableEntity)
    else if status == 500 then Some(InternalServerError)
    else None
  }

  /** The envelope an error handler returns: `success` false, its fixed message, its status. */
  function ErrorResponse(e: HttpError): (resp: Response)
    ensures !resp.success
    ensures resp.status != 200
    ensures HandlerFor(resp.status) == Some(e)
  {
    Response(StatusCode(e), false, Failure(ErrorMessage(e)))
  }

  // ---------------------------------------------------------------------------
  // Route handlers

  /** GET /categories */
  function GetCategories(store: Store): (r: Reply)
    ensures r.Abort? <==> |store.categories| == 0
    ensures r.Abort? ==> r.error == NotFound
    ensures r.Done? ==> r.store == store && r.body == CategoryList(store.categories)
  {
    if |store.categories| == 0 then Abort(NotFound)
    else Done(CategoryList(store.categories), store)
  }

  /** The `page` query argument: absent or not an integer reads as page 1. */
  function PageNumber(page: Option<int>): int {
    match page
    case Some(p) => p
    case None => 1
  }

  /** Index of the first question on page `p`. */
  function PageStart(p: int): int {
    (p - 1) * QUESTIONS_PER_PAGE
  }

  /** GET /questions?page=N */
  function GetQuestions(store: Store, page: Option<int>): (r: Reply)
    ensures r.Abort? ==> r.error == NotFound
    ensures r.Done? ==> && r.store == store
                        && r.body.QuestionPage?
                        && 1 <= |r.body.questions| <= QUESTIONS_PER_PAGE
                        && r.body.totalQuestions == |store.questions|
                        && r.body.categories == store.categories
    ensures PageNumber(page) >= 1 ==>
              (r.Done? <==> PageStart(PageNumber(page)) < |store.questions|)
    ensures PageNumber(page) >= 1 && r.Done? ==>
              && |r.body.questions| == Min(QUESTIONS_PER_PAGE, |store.questions| - PageStart(PageNumber(page)))
              && forall k :: 0 <= k < |r.body.questions| ==>
                   r.body.questions[k] == store.questions[PageStart(PageNumber(page)) + k]
    ensures PageNumber(page) <= 0 ==>
              var n := |store.questions|;
              var lo := Max(0, n + PageStart(PageNumber(page)));
              var hi := if PageNumber(page) == 0 then 0
                        else Max(0, n + PageStart(PageNumber(page)) + QUESTIONS_PER_PAGE);
              && (r.Done? <==> lo < hi)
              && (r.Done? ==> r.body.questions == store.questions[lo..hi])
  {
    var start := PageStart(PageNumber(page));
    var end := start + QUESTIONS_PER_PAGE;
    var slice := PySlice(store.questions, start, end);
    if |slice| == 0 then Abort(NotFound)
    else Done(QuestionPage(slice, |store.questions|, store.categories), store)
  }

  /** DELETE /questions/{questionId} */
  function DeleteQuestion(store: Store, questionId: int): (r: Reply)
    ensures r.Abort? <==> questionId !in Ids(store.questions)
    ensures r.Abort? ==> r.error == UnprocessableEntity
    ensures r.Done? ==> && r.body == Message("Question successfully deleted")
                        && r.store.categories == store.categories
                        && questionId !in Ids(r.store.questions)
                        && forall q :: q in r.store.questions <==> q in store.questions && q.id != questionId
    ensures r.Done? && UniqueIds(store.questions) ==>
              && UniqueIds(r.store.questions)
              && |r.store.questions| == |store.questions| - 1
  {
    match FindById(store.questions, questionId)
    case None => Abort(UnprocessableEntity)
    case Some(_) =>
      RemoveIdKeepsUnique(store.questions, questionId);
      RemoveIdCount(store.questions, questionId);
      Done(Message("Question successfully deleted"),
           store.(questions := RemoveId(store.questions, questionId)))
  }

  /** The create validation: every one of the four fields is non-null. */
  predicate IsComplete(input: QuestionInput) {
    input.question.Some? && input.answer.Some? && input.difficulty.Some? && input.category.Some?
  }

  /**
   POST /questions. The database assigns the new row's id; the model takes it as
   `newId` and asks only that it be fresh.
   */
  function CreateQuestion(store: Store, input: QuestionInput, newId: int): (r: Reply)
    requires newId !in Ids(store.questions)
    ensures r.Abort? <==> (input.question.None? || input.answer.None? ||
                           input.difficulty.None? || input.category.None?)
    ensures r.Abort? ==> r.error == UnprocessableEntity
    ensures r.Done? ==> && r.body == Message("Question successfully created")
                        && r.store.categories == store.categories
                        && |r.store.questions| == |store.questions| + 1
                        && r.store.questions[..|store.questions|] == store.questions
                        && var q := r.store.questions[|store.questions|];
                           && q.id !in Ids(store.questions)
                           && Some(q.question) == input.question
                           && Some(q.answer) == input.answer
                           && Some(q.difficulty) == input.difficulty
                           && Some(q.category) == input.category
    ensures r.Done? && UniqueIds(store.questions) ==> UniqueIds(r.store.questions)
  {
    if !IsComplete(input) then Abort(UnprocessableEntity)
    else
      var q := Question(newId, input.question.value, input.answer.value,
                        input.difficulty.value, input.category.value);
      AppendFreshKeepsUnique(store.questions, q);
      Done(Message("Question successfully created"), store.(questions := store.questions + [q]))
  }

  /** The search filter `Question.question ILIKE '%term%'`. */
  function MatchesTerm(term: string): Question -> bool {
    (q: Question) => ContainsIgnoreCase(q.question, term)
  }

  /** POST /questions/search */
  function SearchQuestions(store: Store, searchTerm: string): (r: Reply)
    ensures r.Abort? <==> forall q :: q in store.questions ==> !OccursIgnoreCase(searchTerm, q.question)
    ensures r.Abort? ==> r.error == NotFound
    ensures r.Done? ==> && r.store == store
                        && r.body.QuestionList?
                        && r.body.totalQuestions == |r.body.questions|
                        && (forall q :: q in r.body.questions <==> q in store.questions && OccursIgnoreCase(searchTerm, q.question))
                        && forall q :: multiset(r.body.questions)[q]
                                         == if OccursIgnoreCase(searchTerm, q.question) then multiset(store.questions)[q] else 0
  {
    var found := Filter(store.questions, MatchesTerm(searchTerm));
    FilterCounts(store.questions, MatchesTerm(searchTerm));
    if |found| == 0 then Abort(NotFound)
    else
      assert found[0] in found;
      Done(QuestionList(found, |found|), store)
  }

  /** GET /categories/{categoryId}/questions */
  function GetQuestionsByCategory(store: Store, categoryId: int): (r: Reply)
    ensures r.Abort? <==> forall q :: q in store.questions ==> q.category != categoryId
    ensures r.Abort? ==> r.error == NotFound
    ensures r.Done? ==> && r.store == store
                        && r.body.QuestionList?
                        && r.body.totalQuestions == |r.body.questions|
                        && (forall q :: q in r.body.questions <==> q in store.questions && q.category == categoryId)
                        && forall q :: multiset(r.body.questions)[q]
                                         == if q.category == categoryId then multiset(store.questions)[q] else 0
  {
    var found := Filter(store.questions, InCategory(categoryId));
    FilterCounts(store.questions, InCategory(categoryId));
    if |found| == 0 then Abort(NotFound)
    else
      assert found[0] in found;
      Done(QuestionList(found, |found|), store)
  }

  /** Quiz category 0 means "all categories"; any other id selects that category. */
  predicate InQuizPool(q: Question, quizCategoryId: int) {
    quizCategoryId == 0 || q.category == quizCategoryId
  }

  /** The filter `question["id"] not in previous_questions`. */
  function NotAsked(previousQuestions: seq<int>): Question -> bool {
    (q: Question) => q.id !in previousQuestions
  }

  /** The questions a quiz may still ask: the category's pool minus those already asked. */
  function RemainingQuestions(store: Store, previousQuestions: seq<int>, quizCategory: Category): (r: seq<Question>)
    ensures forall q :: q in r <==> && q in store.questions
                                    && InQuizPool(q, quizCategory.id)
                                    && q.id !in previousQuestions
  {
    var pool := if quizCategory.id == 0 then store.questions
                else Filter(store.questions, InCategory(quizCategory.id));
    Filter(pool, NotAsked(previousQuestions))
  }

  /**
   POST /quizzes. `random.choice` is modelled by the parameter `choice`: the
   question at position `choice` (modulo the count) of the remaining ones.
   */
  function GetQuizQuestion(store: Store, previousQuestions: seq<int>, quizCategory: Category, choice: nat): (r: Reply)
    ensures r.Abort? <==> forall q :: q in store.questions && InQuizPool(q, quizCategory.id) ==> q.id in previousQuestions
    ensures r.Abort? ==> r.error == NotFound
    ensures r.Done? ==> && r.store == store
                        && r.body.QuizQuestion?
                        && r.body.question in store.questions
                        && InQuizPool(r.body.question, quizCategory.id)
                        && r.body.question.id !in previousQuestions
  {
    var remaining := RemainingQuestions(store, previousQuestions, quizCategory);
    if |remaining| == 0 then Abort(NotFound)
    else
      assert remaining[0] in remaining;
      Done(QuizQuestion(remaining[choice % |remaining|]), store)
  }

  // ---------------------------------------------------------------------------
  // Dispatch

  /**
   A request to one of the seven routes, with its parsed inputs. The `<int:...>`
   path converters match only unsigned digits, so a path id is a `nat`.
   */
  datatype Request =
    | CategoriesGet                                            // GET /categories
    | QuestionsGet(page: Option<int>)                          // GET /questions?page=N
    | QuestionDelete(questionId: nat)                          // DELETE /questions/{id}
    | QuestionsPost(input: QuestionInput)                      // POST /questions
    | SearchPost(searchTerm: Option<string>)                   // POST /questions/search
    | CategoryQuestionsGet(categoryId: nat)                    // GET /categories/{id}/questions
    | QuizzesPost(previousQuestions: seq<int>, quizCategory: Category)  // POST /quizzes

  /** Shapes a handler's reply into the response; an aborted request keeps the old store. */
  function Respond(store: Store, reply: Reply): (result: (Response, Store))
    ensures result.0.success <==> reply.Done?
    ensures result.0.success <==> result.0.status == 200
    ensures reply.Done? ==> result.0.body == reply.body && result.1 == reply.store
    ensures reply.Abort? ==> && result.1 == store
                             && HandlerFor(result.0.status) == Some(reply.error)
                             && result.0.body == Failure(ErrorMessage(reply.error))
  {
    match reply
    case Done(body, after) => (Response(200, true, body), after)
    case Abort(e) => (ErrorResponse(e), store)
  }

  /** The text the search pattern is built from: a JSON `null` term formats as "None". */
  function SearchText(searchTerm: Option<string>): string {
    match searchTerm
    case Some(s) => s
    case None => "None"
  }

  /** Is this a route that writes to the store? */
  predicate IsWrite(req: Request) {
    req.QuestionDelete? || req.QuestionsPost?
  }

  /**
   Serves one request. `newId` is the id the database would assign to a
   created question and `choice` stands for the quiz's random pick.
   */
  function Handle(store: Store, req: Request, newId: int, choice: nat): (result: (Response, Store))
    requires req.QuestionsPost? ==> newId !in Ids(store.questions)
    ensures !IsWrite(req) ==> result.1 == store
    ensures !result.0.success ==> result.1 == store
    ensures result.0.success <==> result.0.status == 200
    ensures UniqueIds(store.questions) ==> UniqueIds(result.1.questions)
    ensures result.1.categories == store.categories
  {
    var reply := match req
      case CategoriesGet => GetCategories(store)
      case QuestionsGet(page) => GetQuestions(store, page)
      case QuestionDelete(id) => DeleteQuestion(store, id)
      case QuestionsPost(input) => CreateQuestion(store, input, newId)
      case SearchPost(term) => SearchQuestions(store, SearchText(term))
      case CategoryQuestionsGet(c) => GetQuestionsByCategory(store, c)
      case QuizzesPost(previous, category) => GetQuizQuestion(store, previous, category, choice);
    Respond(store, reply)
  }
}
