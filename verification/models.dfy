/**
 The two stored entities of the trivia game and the store that holds them.
 The relational tables `categories(id, type)` and `questions(id, question,
 answer, difficulty, category)` become two sequences; a row's `format()`
 dictionary is the record itself.
 */
module Models {
  import opened Seqs

  datatype Option<T> = None | Some(value: T)

  /** A category row. The column `type` is a Dafny keyword, so the field is called `kind`. */
  datatype Category = Category(id: int, kind: string)

  /** A question row; `category` refers to a category id, but nothing checks that it exists. */
  datatype Question = Question(id: int, question: string, answer: string, difficulty: int, category: int)

  /** The database: all questions and all categories, in the order a query returns them. */
  datatype Store = Store(questions: seq<Question>, categories: seq<Category>)

  function Ids(qs: seq<Question>): (ids: set<int>)
    ensures forall q :: q in qs ==> q.id in ids
    ensures forall id :: id in ids ==> exists q :: q in qs && q.id == id
  {
    set q | q in qs :: q.id
  }

  /** `id` is the primary key of the questions table: no two rows share one. */
  ghost predicate UniqueIds(qs: seq<Question>) {
    forall i, j :: 0 <= i < |qs| && 0 <= j < |qs| && qs[i].id == qs[j].id ==> i == j
  }

  /** Lookup by primary key, `query(Question).get(id)`. */
  function FindById(qs: seq<Question>, id: int): (r: Option<Question>)
    ensures r.None? <==> id !in Ids(qs)
    ensures r.Some? ==> r.value in qs && r.value.id == id
  {
    if |qs| == 0 then None
    else if qs[0].id == id then Some(qs[0])
    else FindById(qs[1..], id)
  }

  /** The filter `Question.id != id`. */
  function HasOtherId(id: int): Question -> bool {
    (q: Question) => q.id != id
  }

  /** The filter `Question.category == c`. */
  function InCategory(c: int): Question -> bool {
    (q: Question) => q.category == c
  }

  /** Every row except those whose id is `id`, the table after `DELETE ... WHERE id = id`. */
  function RemoveId(qs: seq<Question>, id: int): (r: seq<Question>)
    ensures id !in Ids(r)
    ensures forall q :: q in r <==> q in qs && q.id != id
    ensures forall q :: multiset(r)[q] == if q.id != id then multiset(qs)[q] else 0
  {
    FilterCounts(qs, HasOtherId(id));
    Filter(qs, HasOtherId(id))
  }

  /** With unique ids, removing a present id drops exactly the one row that carries it. */
  lemma RemoveIdExactlyOne(qs: seq<Question>, i: int)
    requires UniqueIds(qs)
    requires 0 <= i < |qs|
    ensures RemoveId(qs, qs[i].id) == qs[..i] + qs[i + 1..]
    ensures |RemoveId(qs, qs[i].id)| == |qs| - 1
    ensures UniqueIds(RemoveId(qs, qs[i].id))
  {
    var p := HasOtherId(qs[i].id);
    assert !p(qs[i]);
    FilterRemovesOne(qs, p, i);
    var r := qs[..i] + qs[i + 1..];
    forall a, b | 0 <= a < |r| && 0 <= b < |r| && r[a].id == r[b].id
      ensures a == b
    {
      var a' := if a < i then a else a + 1;
      var b' := if b < i then b else b + 1;
      assert r[a] == qs[a'] && r[b] == qs[b'];
    }
  }

  /** Removing rows never makes ids collide. */
  lemma RemoveIdKeepsUnique(qs: seq<Question>, id: int)
    ensures UniqueIds(qs) ==> UniqueIds(RemoveId(qs, id))
  {
    if UniqueIds(qs) {
      if id in Ids(qs) {
        var i :| 0 <= i < |qs| && qs[i].id == id;
        RemoveIdExactlyOne(qs, i);
      } else {
        FilterAll(qs, HasOtherId(id));
      }
    }
  }

  /** Appending a row with a fresh id keeps the ids unique. */
  lemma AppendFreshKeepsUnique(qs: seq<Question>, q: Question)
    requires q.id !in Ids(qs)
    ensures UniqueIds(qs) ==> UniqueIds(qs + [q])
  {
  }

  /** With unique ids, removing a present id shortens the table by exactly one row. */
  lemma RemoveIdCount(qs: seq<Question>, id: int)
    ensures UniqueIds(qs) && id in Ids(qs) ==> |RemoveId(qs, id)| == |qs| - 1
  {
    if UniqueIds(qs) && id in Ids(qs) {
      var i :| 0 <= i < |qs| && qs[i].id == id;
      RemoveIdExactlyOne(qs, i);
    }
  }
}
