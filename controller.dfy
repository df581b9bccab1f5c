/** The `App` component's state and handlers: the current view, its copies of
    the stored records, the exam being taken and the student's identity. */
module Controller {
  import opened Records
  import Store
  import Lookup
  import Attempt
  import Countdown

  const TeacherAccessCode := "EDU-TEACH-2025"

  /** Every student session is opened with this gender; the form does not ask. */
  const SessionGender := "male"

  class App {
    const store: Store.RecordStore
    var view: ViewState
    var teacher: Option<Teacher>
    var exams: seq<Exam>
    var submissions: seq<Submission>
    var activeExamId: Option<string>
    var studentSession: Option<StudentSession>

    /** The component's copies of the exams and submissions are the stored ones:
        each handler that writes the store refreshes its copy. */
    ghost predicate Valid()
      reads this, store
    {
      exams == store.GetExams() && submissions == store.GetSubmissions()
    }

    /** The initial state, read from the store. */
    constructor (store: Store.RecordStore)
      ensures this.store == store && Valid()
      ensures view == Home && activeExamId == None && studentSession == None
      ensures teacher == store.GetTeacher() && exams == store.GetExams()
      ensures submissions == store.GetSubmissions()
    {
      this.store := store;
      view := Home;
      teacher := store.GetTeacher();
      exams := store.GetExams();
      submissions := store.GetSubmissions();
      activeExamId := None;
      studentSession := None;
    }

    /** The hash handler: a `#/exam/<key>` route matching a stored exam by id or
        access code opens its login; anything else changes nothing. It reads the
        store, not the component's copy of the exams. */
    method HandleHash(hash: string)
      requires Valid()
      modifies this`activeExamId, this`view
      ensures Valid()
      ensures Lookup.ExamForHash(store.GetExams(), hash).Some? ==>
                activeExamId == Some(Lookup.ExamForHash(store.GetExams(), hash).value.id)
                && view == StudentLogin
                && Lookup.Find(exams, Lookup.IdOnly(activeExamId.value)).Some?
      ensures Lookup.ExamForHash(store.GetExams(), hash).None? ==>
                activeExamId == old(activeExamId) && view == old(view)
    {
      var key := Lookup.ExamKeyFromHash(hash);
      if key.Some? {
        var target := Lookup.Find(store.GetExams(), Lookup.IdOrCode(key.value));
        if target.Some? {
          assert Lookup.Matches(target.value, Lookup.IdOnly(target.value.id));
          activeExamId := Some(target.value.id);
          view := StudentLogin;
        }
      }
    }

    /** The "locate exam" form: the typed code is upper-cased and compared with the
        access codes of the component's exams. On a miss nothing changes. */
    method EnterExamCode(typed: string) returns (found: bool)
      requires Valid() && view == StudentFindExam
      modifies this`activeExamId, this`view
      ensures Valid()
      ensures found <==> Lookup.ExamForTypedCode(exams, typed).Some?
      ensures found ==> activeExamId == Some(Lookup.ExamForTypedCode(exams, typed).value.id)
                        && view == StudentLogin
                        && Lookup.Find(exams, Lookup.IdOnly(activeExamId.value)).Some?
      ensures !found ==> activeExamId == old(activeExamId) && view == StudentFindExam
    {
      var exam := Lookup.Find(exams, Lookup.CodeOnly(Lookup.ToUpper(typed)));
      found := exam.Some?;
      if found {
        assert Lookup.Matches(exam.value, Lookup.IdOnly(exam.value.id));
        activeExamId := Some(exam.value.id);
        view := StudentLogin;
      }
    }

    /** The educator gate: only the exact access phrase opens the teacher area. */
    method EnterTeacherKey(key: string) returns (accepted: bool)
      requires Valid() && view == TeacherGate
      modifies this`view
      ensures Valid()
      ensures accepted <==> key == TeacherAccessCode
      ensures accepted ==> view == (if teacher.Some? then TeacherDashboard else TeacherSettings)
      ensures !accepted ==> view == TeacherGate
    {
      accepted := key == TeacherAccessCode;
      if accepted {
        view := if teacher.Some? then TeacherDashboard else TeacherSettings;
      }
    }

    /** The student login form: refused when this id has already submitted this
        exam; otherwise the session opens and the exam view starts. */
    method StudentLoginSubmit(name: string, id: string) returns (refused: bool)
      requires Valid() && view == StudentLogin && activeExamId.Some?
      modifies this`studentSession, this`view
      ensures Valid()
      ensures refused <==> store.IsIdUsedForExam(id, activeExamId.value)
      ensures refused ==> studentSession == old(studentSession) && view == StudentLogin
      ensures !refused ==> studentSession == Some(StudentSession(name, id, SessionGender))
                           && view == StudentTakeExam
    {
      refused := store.IsIdUsedForExam(id, activeExamId.value);
      if !refused {
        studentSession := Some(StudentSession(name, id, SessionGender));
        view := StudentTakeExam;
      }
    }

    /** Mounting the exam view for the active exam, found by id among the component's exams. */
    method StartAttempt() returns (session: Attempt.AttemptSession)
      requires Valid() && view == StudentTakeExam && activeExamId.Some? && studentSession.Some?
      requires Lookup.Find(exams, Lookup.IdOnly(activeExamId.value)).Some?
      requires Lookup.Find(exams, Lookup.IdOnly(activeExamId.value)).value.durationMinutes >= 1
      ensures fresh(session) && session.Valid()
      ensures session.exam.id == activeExamId.value
      ensures session.exam == Lookup.Find(exams, Lookup.IdOnly(activeExamId.value)).value
      ensures session.student == studentSession.value
      ensures session.answers == seq(|session.exam.questions|, _ => Attempt.Unanswered)
      ensures session.Timer() == Countdown.Timer(Countdown.StartTime(session.exam.durationMinutes), true)
    {
      var exam := Lookup.Find(exams, Lookup.IdOnly(activeExamId.value)).value;
      session := new Attempt.AttemptSession(exam, studentSession.value);
    }

    /** `onFinish`: store the submission, refresh the copy, return home. */
    method OnFinish(sub: Submission)
      requires Valid()
      modifies store`submissionsRecord, this`submissions, this`view
      ensures Valid()
      ensures store.GetSubmissions() == old(store.GetSubmissions()) + [sub]
      ensures submissions == store.GetSubmissions()
      ensures store.IsIdUsedForExam(sub.studentId, sub.examId)
      ensures view == Home
    {
      store.SaveSubmission(sub);
      submissions := store.GetSubmissions();
      view := Home;
    }

    /** `onSave` of the creator: store the exam, refresh the copy, back to the dashboard. */
    method SaveExam(exam: Exam)
      requires Valid()
      modifies store`examsRecord, this`exams, this`view
      ensures Valid()
      ensures store.GetExams() == old(store.GetExams()) + [exam]
      ensures exams == store.GetExams()
      ensures view == TeacherDashboard
    {
      store.SaveExam(exam);
      exams := store.GetExams();
      view := TeacherDashboard;
    }
  }

  /** After a finished attempt, opening the same exam again and logging in with the
      same student id is refused. */
  method RetakeIsRefused(app: App, sub: Submission, hash: string, name: string) returns (refused: bool)
    requires app.Valid()
    requires Lookup.ExamForHash(app.store.GetExams(), hash).Some?
    requires Lookup.ExamForHash(app.store.GetExams(), hash).value.id == sub.examId
    modifies app, app.store
    ensures refused && app.view == StudentLogin
    ensures app.studentSession == old(app.studentSession)
  {
    ghost var target := Lookup.ExamForHash(app.store.GetExams(), hash);
    app.OnFinish(sub);
    assert Lookup.ExamForHash(app.store.GetExams(), hash) == target;
    app.HandleHash(hash);
    assert app.activeExamId == Some(sub.examId);
    refused := app.StudentLoginSubmit(name, sub.studentId);
  }

  /** Following a shared link, logging in with an id not yet used for that exam
      and mounting the exam view: the attempt opens on the linked exam's id, for
      that student, with every slot unanswered and the full time on the clock. */
  method OpenFromLink(app: App, hash: string, name: string, id: string)
    returns (session: Attempt.AttemptSession)
    requires app.Valid()
    requires Lookup.ExamForHash(app.exams, hash).Some?
    requires !app.store.IsIdUsedForExam(id, Lookup.ExamForHash(app.exams, hash).value.id)
    requires forall e :: e in app.exams ==> e.durationMinutes >= 1
    modifies app
    ensures app.Valid() && app.view == StudentTakeExam
    ensures session.exam.id == Lookup.ExamForHash(app.exams, hash).value.id
    ensures session.student == StudentSession(name, id, SessionGender)
    ensures session.answers == seq(|session.exam.questions|, _ => Attempt.Unanswered)
    ensures session.Timer().running && session.Timer().timeLeft == session.exam.durationMinutes * 60
  {
    app.HandleHash(hash);
    var refused := app.StudentLoginSubmit(name, id);
    session := app.StartAttempt();
  }

  /** `submit` keeps no record of having run: a second call (the other finish
      button, or the timer, before the view changes) stores a second submission
      for the same student and exam. */
  method SubmitTwice(app: App, session: Attempt.AttemptSession, teacherInfo: Teacher,
                     firstId: string, secondId: string, timestamp: int)
    requires app.Valid()
    modifies app, app.store
    ensures |app.store.GetSubmissions()| == |old(app.store.GetSubmissions())| + 2
    ensures var subs := app.store.GetSubmissions();
            var n := |subs|;
            subs[n - 2].studentId == subs[n - 1].studentId == session.student.id
            && subs[n - 2].examId == subs[n - 1].examId == session.exam.id
  {
    var first := session.Submit(firstId, timestamp, teacherInfo);
    app.OnFinish(first);
    var second := session.Submit(secondId, timestamp, teacherInfo);
    app.OnFinish(second);
  }

  /** Left alone, an attempt of `durationMinutes` is submitted by the timer on
      firing number `durationMinutes * 60`, graded on the answers as they stand. */
  method ExpireAttempt(session: Attempt.AttemptSession, id: string, timestamp: int, teacherInfo: Teacher)
    returns (sub: Submission, firings: nat)
    requires session.Valid() && session.exam.durationMinutes >= 1
    requires session.Timer() == Countdown.Timer(Countdown.StartTime(session.exam.durationMinutes), true)
    modifies session
    ensures firings == Countdown.StartTime(session.exam.durationMinutes)
    ensures session.Timer() == Countdown.Timer(0, false)
    ensures session.answers == old(session.answers)
    ensures session.Finalizes(sub, id, timestamp, teacherInfo)
  {
    var T := Countdown.StartTime(session.exam.durationMinutes);
    firings := 0;
    var fired: Option<Submission> := None;
    while fired.None?
      invariant session.Valid() && session.answers == old(session.answers)
      invariant firings <= T
      invariant fired.None? ==> firings < T && session.Timer() == Countdown.Timer(T - firings, true)
      invariant fired.Some? ==> firings == T && session.Timer() == Countdown.Timer(0, false)
                                && session.Finalizes(fired.value, id, timestamp, teacherInfo)
      decreases T - firings, fired.None?
    {
      fired := session.Tick(id, timestamp, teacherInfo);
      firings := firings + 1;
    }
    sub := fired.value;
  }
}
