/**
 * The records the quiz reads and writes: flashcards, the user profile with its
 * quiz statistics, and the category documents whose points the quiz raises.
 * The redux store and the document database are modelled together as one
 * in-memory `Store` object.
 */
module Entities {
  import opened Wrappers

  datatype Flashcard = Flashcard(id: string, prompt: string, solution: string)

  /** One entry of `user.stats`, appended by every submitted quiz. */
  datatype Stat = Stat(date: string, setRef: string, score: nat, questions: nat)

  /** The persisted user profile, restricted to the fields the quiz touches. */
  datatype User = User(xp: nat, heartcoin: nat, completedQuiz: seq<string>, stats: seq<Stat>)

  datatype Category = Category(id: string, name: string, points: nat)

  /** A flashcard set, with the category it belongs to. */
  datatype QuizSet = QuizSet(id: string, categoryRef: string)

  /** The counters of a freshly signed-up user. */
  const NewUser: User := User(0, 0, [], [])

  /** `Array.prototype.includes`: a linear scan for `x`. */
  function Includes<T(==)>(s: seq<T>, x: T): (r: bool)
    ensures r <==> x in s
  {
    s != [] && (s[0] == x || Includes(s[1..], x))
  }

  /** `Array.prototype.find` by `_id`: the first category whose id is `id`, if any. */
  function FindCategory(categories: seq<Category>, id: string): (r: Option<Category>)
    ensures r.None? <==> forall i :: 0 <= i < |categories| ==> categories[i].id != id
    ensures r.Some? ==> r.value in categories && r.value.id == id
  {
    if categories == [] then None
    else if categories[0].id == id then Some(categories[0])
    else FindCategory(categories[1..], id)
  }

  /** `updateCard` with `{points: p}`: every document with id `id` gets `p` points. */
  function SetPoints(categories: seq<Category>, id: string, p: nat): (r: seq<Category>)
    ensures |r| == |categories|
    ensures forall i :: 0 <= i < |categories| ==>
      r[i] == if categories[i].id == id then categories[i].(points := p) else categories[i]
  {
    if categories == [] then []
    else
      var c := categories[0];
      [if c.id == id then c.(points := p) else c] + SetPoints(categories[1..], id, p)
  }

  /** A category updated by `SetPoints` is then found with the new point total. */
  lemma {:induction false} FindAfterSetPoints(categories: seq<Category>, id: string, p: nat)
    requires FindCategory(categories, id).Some?
    ensures FindCategory(SetPoints(categories, id, p), id)
            == Some(FindCategory(categories, id).value.(points := p))
  {
    var r := SetPoints(categories, id, p);
    if categories[0].id != id {
      assert r[1..] == SetPoints(categories[1..], id, p);
      FindAfterSetPoints(categories[1..], id, p);
    }
  }

  /** What the quiz reads of the store: the signed-in user and the category documents. */
  datatype StoreState = StoreState(user: User, categories: seq<Category>)

  class Store {
    var user: User
    var categories: seq<Category>

    function State(): StoreState
      reads this
    {
      StoreState(user, categories)
    }

    /** A store holding a newly signed-up user and the given categories. */
    constructor (categories: seq<Category>)
      ensures State() == StoreState(NewUser, categories)
    {
      this.user := NewUser;
      this.categories := categories;
    }
  }
}
