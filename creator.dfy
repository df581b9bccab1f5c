/** The question list of the exam creator: add a blank question, remove by id,
    edit one question by id, and the check made before an exam is saved. */
module Creator {
  import opened Records
  import Scoring

  const OptionCount := 4
  const MissingFieldsMessage := "Title and questions required."

  /** A question as the creator can produce it: four options, a correct
      option among them, and a positive weight. */
  predicate WellFormed(q: Question)
  {
    |q.options| == OptionCount && 0 <= q.correctAnswerIndex < OptionCount && q.points > 0
  }

  predicate AllWellFormed(qs: seq<Question>)
  {
    forall i :: 0 <= i < |qs| ==> WellFormed(qs[i])
  }

  /** The question the Add button appends: empty text, four empty options, option 0 correct, 1 point. */
  function BlankQuestion(id: string): (q: Question)
    ensures q.id == id && WellFormed(q)
  {
    Question(id, "", ["", "", "", ""], 0, 1, 1)
  }

  function AddQuestion(qs: seq<Question>, freshId: string): (r: seq<Question>)
    ensures |r| == |qs| + 1 && r[..|qs|] == qs
    ensures r[|qs|].id == freshId && WellFormed(r[|qs|])
    ensures AllWellFormed(qs) ==> AllWellFormed(r)
  {
    qs + [BlankQuestion(freshId)]
  }

  /** Keeps every question whose id differs, in order. */
  function RemoveQuestion(qs: seq<Question>, id: string): (r: seq<Question>)
    ensures |r| <= |qs|
    ensures forall q: Question :: q.id != id ==> multiset(r)[q] == multiset(qs)[q]
    ensures forall q: Question :: q.id == id ==> multiset(r)[q] == 0
    ensures forall i :: 0 <= i < |r| ==> r[i] in qs && r[i].id != id
  {
    if |qs| == 0 then []
    else
      assert qs == [qs[0]] + qs[1..];
      (if qs[0].id != id then [qs[0]] else []) + RemoveQuestion(qs[1..], id)
  }

  lemma {:induction false} RemoveKeepsWellFormed(qs: seq<Question>, id: string)
    requires AllWellFormed(qs)
    ensures AllWellFormed(RemoveQuestion(qs, id))
  {
    var r := RemoveQuestion(qs, id);
    forall i | 0 <= i < |r| ensures WellFormed(r[i]) {
      var j :| 0 <= j < |qs| && qs[j] == r[i];
    }
  }

  lemma ConcatAssoc<T>(a: seq<T>, b: seq<T>, c: seq<T>)
    ensures a + (b + c) == (a + b) + c
  {
  }

  /** One step of the removal: the first question is kept or dropped, then the rest. */
  lemma RemoveStep(qs: seq<Question>, id: string)
    requires |qs| > 0
    ensures RemoveQuestion(qs, id) == (if qs[0].id != id then [qs[0]] else []) + RemoveQuestion(qs[1..], id)
  {
  }

  /** Removal works piece by piece: removing from a concatenation removes from
      each part and keeps the parts in their order. */
  lemma {:induction false} RemoveDistributes(x: seq<Question>, y: seq<Question>, id: string)
    ensures RemoveQuestion(x + y, id) == RemoveQuestion(x, id) + RemoveQuestion(y, id)
  {
    if |x| == 0 {
      assert x + y == y;
    } else {
      var head := if x[0].id != id then [x[0]] else [];
      calc {
        RemoveQuestion(x + y, id);
      == { assert (x + y)[0] == x[0] && (x + y)[1..] == x[1..] + y; RemoveStep(x + y, id); }
        head + RemoveQuestion(x[1..] + y, id);
      == { RemoveDistributes(x[1..], y, id); }
        head + (RemoveQuestion(x[1..], id) + RemoveQuestion(y, id));
      == { ConcatAssoc(head, RemoveQuestion(x[1..], id), RemoveQuestion(y, id)); }
        (head + RemoveQuestion(x[1..], id)) + RemoveQuestion(y, id);
      == { RemoveStep(x, id); }
        RemoveQuestion(x, id) + RemoveQuestion(y, id);
      }
    }
  }

  /** Removing an id no question carries leaves the list as it was. */
  lemma {:induction false} RemoveAbsentKeepsAll(qs: seq<Question>, id: string)
    requires forall i :: 0 <= i < |qs| ==> qs[i].id != id
    ensures RemoveQuestion(qs, id) == qs
  {
    if |qs| > 0 {
      RemoveAbsentKeepsAll(qs[1..], id);
      assert qs == [qs[0]] + qs[1..];
    }
  }

  /** The three field edits the creator offers. */
  datatype Edit =
    | SetText(text: string)
    | SetCorrect(option: int)
    | SetOption(option: int, value: string)

  /** The option index of an edit is one of the question's options (the UI offers no other). */
  predicate Fits(q: Question, e: Edit)
  {
    match e
    case SetText(_) => true
    case SetCorrect(k) => 0 <= k < |q.options|
    case SetOption(k, _) => 0 <= k < |q.options|
  }

  function Apply(q: Question, e: Edit): (r: Question)
    requires Fits(q, e)
    ensures r.id == q.id && r.points == q.points && r.maxAttempts == q.maxAttempts
    ensures e.SetText? ==> r.text == e.text && r.options == q.options
                           && r.correctAnswerIndex == q.correctAnswerIndex
    ensures e.SetCorrect? ==> r.correctAnswerIndex == e.option && r.text == q.text
                              && r.options == q.options
    ensures e.SetOption? ==> r.options == q.options[e.option := e.value] && r.text == q.text
                             && r.correctAnswerIndex == q.correctAnswerIndex
    ensures WellFormed(q) ==> WellFormed(r)
  {
    match e
    case SetText(t) => q.(text := t)
    case SetCorrect(k) => q.(correctAnswerIndex := k)
    case SetOption(k, v) => q.(options := q.options[k := v])
  }

  /** Applies the edit to every question carrying `id`; the others are unchanged. */
  function UpdateQuestion(qs: seq<Question>, id: string, e: Edit): (r: seq<Question>)
    requires forall i :: 0 <= i < |qs| && qs[i].id == id ==> Fits(qs[i], e)
    ensures |r| == |qs|
    ensures forall i :: 0 <= i < |qs| ==> r[i].id == qs[i].id
    ensures forall i :: 0 <= i < |qs| && qs[i].id != id ==> r[i] == qs[i]
    ensures forall i :: 0 <= i < |qs| && qs[i].id == id ==> r[i] == Apply(qs[i], e)
    ensures AllWellFormed(qs) ==> AllWellFormed(r)
  {
    seq(|qs|, i requires 0 <= i < |qs| => if qs[i].id == id then Apply(qs[i], e) else qs[i])
  }

  /** The Save button: a title and at least one question are required. */
  function BuildExam(title: string, questions: seq<Question>, durationMinutes: int,
                     freshId: string, createdAt: int, accessCode: string, teacherId: string): (r: Result<Exam>)
    ensures r.Err? <==> title == "" || |questions| == 0
    ensures r.Err? ==> r.message == MissingFieldsMessage
    ensures r.Ok? ==> r.value.title == title && r.value.questions == questions
                      && r.value.id == freshId && r.value.accessCode == accessCode
                      && r.value.teacherId == teacherId && r.value.durationMinutes == durationMinutes
                      && r.value.createdAt == createdAt && r.value.description == ""
  {
    if title == "" || |questions| == 0 then Err(MissingFieldsMessage)
    else Ok(Exam(freshId, title, "", teacherId, questions, durationMinutes, createdAt, accessCode))
  }

  /** On questions the creator produced, a fresh attempt (all slots -1) scores 0
      out of a total of at least one point per question. */
  lemma {:induction false} CreatedQuestionsFreshAttempt(qs: seq<Question>)
    requires AllWellFormed(qs)
    ensures Scoring.ScoreOf(qs, seq(|qs|, _ => -1)) == 0
    ensures Scoring.TotalPoints(qs) >= |qs|
  {
    Scoring.UnansweredScoresZero(qs, seq(|qs|, _ => -1));
    TotalAtLeastCount(qs);
  }

  lemma {:induction false} TotalAtLeastCount(qs: seq<Question>)
    requires AllWellFormed(qs)
    ensures Scoring.TotalPoints(qs) >= |qs|
  {
    if |qs| > 0 {
      var front := qs[..|qs| - 1];
      assert forall i :: 0 <= i < |front| ==> front[i] == qs[i];
      TotalAtLeastCount(front);
    }
  }
}
