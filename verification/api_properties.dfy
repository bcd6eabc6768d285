/**
 Properties that relate several calls of the handlers: how the pages of
 `GET /questions` partition the question table, how creating and deleting
 a question undo each other, what search and quiz selection can return, and
 the fixed table of error envelopes.
 */
module ApiProperties {
  import opened Seqs
  import opened Text
  import opened Models
  import opened Api

  // ---------------------------------------------------------------------------
  // Paging

  /** Question `i` of the table is shown on page `i / 10 + 1`, at position `i % 10`. */
  lemma PagesCoverAll(store: Store, i: int)
    requires 0 <= i < |store.questions|
    ensures var r := GetQuestions(store, Some(i / QUESTIONS_PER_PAGE + 1));
            && r.Done?
            && i % QUESTIONS_PER_PAGE < |r.body.questions|
            && r.body.questions[i % QUESTIONS_PER_PAGE] == store.questions[i]
  {
  }

  /** With unique ids, two different pages numbered 1 or more never show the same question. */
  lemma PagesDisjoint(store: Store, p1: int, p2: int, q: Question)
    requires UniqueIds(store.questions)
    requires 1 <= p1 && 1 <= p2 && p1 != p2
    ensures var r1, r2 := GetQuestions(store, Some(p1)), GetQuestions(store, Some(p2));
            r1.Done? && r2.Done? && q in r1.body.questions ==> q !in r2.body.questions
  {
  }

  /** Without a `page` argument the first page is served. */
  lemma DefaultPageIsFirst(store: Store)
    ensures GetQuestions(store, None) == GetQuestions(store, Some(1))
  {
  }

  /** A page past the end of the table, such as page 1000 of a small table, is "Not found". */
  lemma PagePastEndNotFound(store: Store, p: int)
    requires p >= 1
    requires |store.questions| <= PageStart(p)
    ensures GetQuestions(store, Some(p)) == Abort(NotFound)
  {
  }

  /** Page 0 slices `[-10:0]`, which is always empty, so it is "Not found". */
  lemma PageZeroNotFound(store: Store)
    ensures GetQuestions(store, Some(0)) == Abort(NotFound)
  {
  }

  /**
   Negative pages are not rejected: page -1 slices `[-20:-10]`, which Python
   reads from the end of the table.
   */
  lemma NegativePageCountsFromEnd(store: Store)
    requires |store.questions| >= 20
    ensures var n := |store.questions|;
            GetQuestions(store, Some(-1))
              == Done(QuestionPage(store.questions[n - 20..n - 10], n, store.categories), store)
  {
  }

  // ---------------------------------------------------------------------------
  // Delete and create

  /** Deleting the id of row `i` removes that row and leaves every other row, in order. */
  lemma DeleteRemovesExactlyThat(store: Store, i: int)
    requires UniqueIds(store.questions)
    requires 0 <= i < |store.questions|
    ensures var qs := store.questions;
            DeleteQuestion(store, qs[i].id)
              == Done(Message("Question successfully deleted"), store.(questions := qs[..i] + qs[i + 1..]))
  {
    RemoveIdExactlyOne(store.questions, i);
  }

  /** A second delete of the same id is refused with 422. */
  lemma DeleteTwiceFails(store: Store, id: int)
    ensures var r := DeleteQuestion(store, id);
            r.Done? ==> DeleteQuestion(r.store, id) == Abort(UnprocessableEntity)
  {
  }

  /** Deleting a question that was just created gives back the store as it was. */
  lemma {:induction false} CreateThenDeleteRestores(store: Store, input: QuestionInput, newId: int)
    requires newId !in Ids(store.questions)
    ensures var r := CreateQuestion(store, input, newId);
            r.Done? ==> DeleteQuestion(r.store, newId) == Done(Message("Question successfully deleted"), store)
  {
    var r := CreateQuestion(store, input, newId);
    if r.Done? {
      var qs := store.questions;
      var q := r.store.questions[|qs|];
      assert r.store.questions == qs + [q];
      assert q in r.store.questions;
      FilterAppend(qs, [q], HasOtherId(newId));
      forall i | 0 <= i < |qs| ensures HasOtherId(newId)(qs[i]) {
        assert qs[i] in qs;
      }
      FilterAll(qs, HasOtherId(newId));
      assert Filter([q], HasOtherId(newId)) == [] by {
        assert [q][1..] == [];
      }
    }
  }

  /** A created question is served by its category's listing. */
  lemma CreatedQuestionListedByCategory(store: Store, input: QuestionInput, newId: int)
    requires newId !in Ids(store.questions)
    ensures var r := CreateQuestion(store, input, newId);
            r.Done? ==>
              var listing := GetQuestionsByCategory(r.store, input.category.value);
              && listing.Done?
              && Question(newId, input.question.value, input.answer.value,
                          input.difficulty.value, input.category.value) in listing.body.questions
  {
  }

  /**
   Create {"Q1", "A1", 1, 1}, find it under category 1, delete it, and category 1
   no longer lists it; the store is back where it started.
   */
  lemma CreateListDeleteScenario(store: Store, newId: int)
    requires newId !in Ids(store.questions)
    ensures var input := QuestionInput(Some("Q1"), Some("A1"), Some(1), Some(1));
            var created := CreateQuestion(store, input, newId);
            && created.Done?
            && (var listed := GetQuestionsByCategory(created.store, 1);
                && listed.Done?
                && Question(newId, "Q1", "A1", 1, 1) in listed.body.questions)
            && (var deleted := DeleteQuestion(created.store, newId);
                && deleted == Done(Message("Question successfully deleted"), store)
                && (var relisted := GetQuestionsByCategory(deleted.store, 1);
                    relisted.Done? ==> forall q :: q in relisted.body.questions ==> q.id != newId))
  {
    var input := QuestionInput(Some("Q1"), Some("A1"), Some(1), Some(1));
    CreatedQuestionListedByCategory(store, input, newId);
    CreateThenDeleteRestores(store, input, newId);
  }

  // ---------------------------------------------------------------------------
  // Search

  /** Upper- or lower-casing the search term does not change the answer. */
  lemma SearchIgnoresTermCase(store: Store, term: string)
    ensures SearchQuestions(store, Lower(term)) == SearchQuestions(store, term)
  {
    forall i | 0 <= i < |store.questions|
      ensures MatchesTerm(Lower(term))(store.questions[i]) == MatchesTerm(term)(store.questions[i])
    {
      MatchIgnoresCase(store.questions[i].question, term);
    }
    FilterExtensional(store.questions, MatchesTerm(Lower(term)), MatchesTerm(term));
  }

  /** The empty search term returns the whole table, unpaged. */
  lemma EmptySearchReturnsAll(store: Store)
    requires |store.questions| > 0
    ensures SearchQuestions(store, "")
              == Done(QuestionList(store.questions, |store.questions|), store)
  {
    forall i | 0 <= i < |store.questions| ensures MatchesTerm("")(store.questions[i]) {
      EmptyTermMatchesAll(store.questions[i].question);
    }
    FilterAll(store.questions, MatchesTerm(""));
  }

  /** A term that no question text contains, such as "alskdjaskdjlas", gives "Not found". */
  lemma SearchWithoutHitNotFound(store: Store, term: string)
    requires forall q :: q in store.questions ==> !ContainsIgnoreCase(q.question, term)
    ensures SearchQuestions(store, term) == Abort(NotFound)
  {
  }

  /** A JSON `null` search term is formatted into the pattern as the text "None". */
  lemma NullSearchTermSearchesNone(store: Store, newId: int, choice: nat)
    ensures Handle(store, SearchPost(None), newId, choice) == Respond(store, SearchQuestions(store, "None"))
  {
  }

  // ---------------------------------------------------------------------------
  // Quiz

  /** Every question the quiz may still ask is the answer for some random pick. */
  lemma QuizCanPickAnyRemaining(store: Store, previousQuestions: seq<int>, quizCategory: Category, q: Question)
    requires q in store.questions
    requires InQuizPool(q, quizCategory.id)
    requires q.id !in previousQuestions
    ensures exists choice: nat ::
              GetQuizQuestion(store, previousQuestions, quizCategory, choice) == Done(QuizQuestion(q), store)
  {
    var remaining := RemainingQuestions(store, previousQuestions, quizCategory);
    assert q in remaining;
    var k :| 0 <= k < |remaining| && remaining[k] == q;
    QuizPicksPosition(store, previousQuestions, quizCategory, k);
  }

  /** A pick below the number of remaining questions selects exactly that position. */
  lemma QuizPicksPosition(store: Store, previousQuestions: seq<int>, quizCategory: Category, k: nat)
    requires k < |RemainingQuestions(store, previousQuestions, quizCategory)|
    ensures GetQuizQuestion(store, previousQuestions, quizCategory, k)
              == Done(QuizQuestion(RemainingQuestions(store, previousQuestions, quizCategory)[k]), store)
  {
    assert k % |RemainingQuestions(store, previousQuestions, quizCategory)| == k;
  }

  /** Once every question of the pool has been asked, the quiz answers "Not found". */
  lemma QuizEndsWhenAllAsked(store: Store, quizCategory: Category, choice: nat)
    ensures var previous := seq(|store.questions|, i requires 0 <= i < |store.questions| => store.questions[i].id);
            GetQuizQuestion(store, previous, quizCategory, choice) == Abort(NotFound)
  {
    var previous := seq(|store.questions|, i requires 0 <= i < |store.questions| => store.questions[i].id);
    forall q | q in store.questions ensures q.id in previous {
      var i :| 0 <= i < |store.questions| && store.questions[i] == q;
      assert previous[i] == q.id;
    }
  }

  // ---------------------------------------------------------------------------
  // Error envelopes

  /** The four error handlers and their fixed messages. */
  lemma ErrorTable()
    ensures ErrorResponse(BadRequest) == Response(400, false, Failure("Bad request"))
    ensures ErrorResponse(NotFound) == Response(404, false, Failure("Not found"))
    ensures ErrorResponse(UnprocessableEntity) == Response(422, false, Failure("Unprocessable entity"))
    ensures ErrorResponse(InternalServerError) == Response(500, false, Failure("Internal server error"))
  {
  }

  /** A status code and its error handler determine each other. */
  lemma HandlerForIsInverse(status: int, e: HttpError)
    ensures HandlerFor(status) == Some(e) <==> StatusCode(e) == status
  {
  }

  /** Different errors carry different statuses and different messages. */
  lemma ErrorsDistinct(e1: HttpError, e2: HttpError)
    requires e1 != e2
    ensures StatusCode(e1) != StatusCode(e2)
    ensures ErrorMessage(e1) != ErrorMessage(e2)
  {
  }
}
