/** The student's attempt (`StudentExamInterface`): the answer vector, the
    countdown and `submit`. `submit` has no finished flag: the timer and both
    finish buttons call it, and every call builds a new submission. The
    timer calls it at most once, because it clears its interval first. */
module Attempt {
  import opened Records
  import Scoring
  import Countdown

  /** The unanswered marker of the answer vector. */
  const Unanswered := -1

  class AttemptSession {
    const exam: Exam
    const student: StudentSession
    var answers: seq<int>
    var timeLeft: int
    var timerRunning: bool

    ghost predicate Valid()
      reads this
    {
      |answers| == |exam.questions| && timeLeft >= 0
    }

    function Timer(): Countdown.Timer
      reads this
    {
      Countdown.Timer(timeLeft, timerRunning)
    }

    /** `sub` is the record `submit` hands to `onFinish` in the current state. */
    ghost predicate Finalizes(sub: Submission, id: string, timestamp: int, teacherInfo: Teacher)
      reads this
    {
      && sub.id == id
      && sub.examId == exam.id
      && sub.studentName == student.name
      && sub.studentId == student.id
      && sub.studentGender == student.gender
      && sub.answers == answers
      && sub.score == Scoring.ScoreOf(exam.questions, answers)
      && sub.totalPoints == Scoring.TotalPoints(exam.questions)
      && sub.timestamp == timestamp
      && sub.teacherInfo == teacherInfo
    }

    /** Mounting the attempt: every slot unanswered, the full time on the clock, the interval running. */
    constructor (exam: Exam, student: StudentSession)
      requires exam.durationMinutes >= 1
      ensures this.exam == exam && this.student == student
      ensures Valid()
      ensures answers == seq(|exam.questions|, _ => Unanswered)
      ensures Timer() == Countdown.Timer(Countdown.StartTime(exam.durationMinutes), true)
    {
      this.exam := exam;
      this.student := student;
      answers := seq(|exam.questions|, _ => Unanswered);
      timeLeft := Countdown.StartTime(exam.durationMinutes);
      timerRunning := true;
    }

    /** Clicking option `option` of question `question`; earlier choices are overwritten. */
    method SelectAnswer(question: int, option: int)
      requires Valid() && 0 <= question < |answers|
      modifies this`answers
      ensures Valid()
      ensures answers == old(answers)[question := option]
      ensures Scoring.ScoreOf(exam.questions, answers)
           == Scoring.ScoreOf(exam.questions, old(answers))
              - Scoring.Earned(exam.questions, old(answers), question)
              + Scoring.Earned(exam.questions, answers, question)
    {
      Scoring.ScoreAfterSelect(exam.questions, answers, question, option);
      answers := answers[question := option];
    }

    /** `submit`: grades the current answers and builds the submission.
        The id, the timestamp and the teacher profile are supplied by the caller. */
    method Submit(id: string, timestamp: int, teacherInfo: Teacher) returns (sub: Submission)
      ensures Finalizes(sub, id, timestamp, teacherInfo)
      ensures Scoring.NonNegativePoints(exam.questions) ==> 0 <= sub.score <= sub.totalPoints
    {
      var score := Scoring.ComputeScore(exam.questions, answers);
      sub := Submission(id, exam.id, student.name, student.id, student.gender, answers,
                        score, Scoring.TotalPoints(exam.questions), timestamp, teacherInfo);
      if Scoring.NonNegativePoints(exam.questions) {
        Scoring.ScoreBounds(exam.questions, answers);
      }
    }

    /** One firing of the one-second interval. When it reaches the end it clears
        the interval before calling `submit`, so later firings do nothing. */
    method Tick(id: string, timestamp: int, teacherInfo: Teacher) returns (fired: Option<Submission>)
      requires Valid()
      modifies this`timeLeft, this`timerRunning
      ensures Valid()
      ensures Timer() == Countdown.Tick(old(Timer())).next
      ensures fired.Some? <==> Countdown.Tick(old(Timer())).submits
      ensures fired.Some? ==> Finalizes(fired.value, id, timestamp, teacherInfo)
      ensures !old(timerRunning) ==> fired == None
    {
      if !timerRunning {
        return None;
      }
      if timeLeft <= 1 {
        timerRunning := false;
        var sub := Submit(id, timestamp, teacherInfo);
        timeLeft := 0;
        fired := Some(sub);
      } else {
        timeLeft := timeLeft - 1;
        fired := None;
      }
    }
  }
}
