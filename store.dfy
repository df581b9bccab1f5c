/** The `storage` object: a keyed store holding an optional teacher profile,
    an append-only list of exams and an append-only list of submissions.
    An absent key reads as "no teacher" or as an empty list. */
module Store {
  import opened Records

  /** True iff some submission in `subs` belongs to this student and this exam. */
  function AnyMatch(subs: seq<Submission>, studentId: string, examId: string): (found: bool)
    ensures found <==> exists i :: 0 <= i < |subs| && subs[i].studentId == studentId && subs[i].examId == examId
  {
    if |subs| == 0 then false
    else (subs[0].studentId == studentId && subs[0].examId == examId) || AnyMatch(subs[1..], studentId, examId)
  }

  /** Appending one submission adds exactly its own (student, exam) pair to the used pairs. */
  lemma {:induction false} AnyMatchAppend(subs: seq<Submission>, s: Submission, studentId: string, examId: string)
    ensures AnyMatch(subs + [s], studentId, examId)
        <==> AnyMatch(subs, studentId, examId) || (s.studentId == studentId && s.examId == examId)
  {
    var all := subs + [s];
    assert all[|subs|] == s;
    assert forall i :: 0 <= i < |subs| ==> all[i] == subs[i];
  }

  class RecordStore {
    var teacherRecord: Option<Teacher>
    var examsRecord: Option<seq<Exam>>
    var submissionsRecord: Option<seq<Submission>>

    /** A store in which none of the three keys is set. */
    constructor ()
      ensures teacherRecord == None && examsRecord == None && submissionsRecord == None
    {
      teacherRecord, examsRecord, submissionsRecord := None, None, None;
    }

    function GetTeacher(): (t: Option<Teacher>)
      reads this
      ensures teacherRecord.None? ==> t == None
    {
      teacherRecord
    }

    function GetExams(): (es: seq<Exam>)
      reads this
      ensures examsRecord.None? ==> es == []
      ensures examsRecord.Some? ==> es == examsRecord.value
    {
      match examsRecord
      case None => []
      case Some(list) => list
    }

    function GetSubmissions(): (ss: seq<Submission>)
      reads this
      ensures submissionsRecord.None? ==> ss == []
      ensures submissionsRecord.Some? ==> ss == submissionsRecord.value
    {
      match submissionsRecord
      case None => []
      case Some(list) => list
    }

    /** Whether this student has already submitted this exam. */
    function IsIdUsedForExam(studentId: string, examId: string): (used: bool)
      reads this
      ensures used <==> exists i :: 0 <= i < |GetSubmissions()|
                          && GetSubmissions()[i].studentId == studentId
                          && GetSubmissions()[i].examId == examId
    {
      AnyMatch(GetSubmissions(), studentId, examId)
    }

    method SaveTeacher(teacher: Teacher)
      modifies this`teacherRecord
      ensures GetTeacher() == Some(teacher)
    {
      teacherRecord := Some(teacher);
    }

    method SaveExam(exam: Exam)
      modifies this`examsRecord
      ensures GetExams() == old(GetExams()) + [exam]
    {
      var exams := GetExams();
      examsRecord := Some(exams + [exam]);
    }

    /** Appends without looking for an earlier record of the same pair. */
    method SaveSubmission(submission: Submission)
      modifies this`submissionsRecord
      ensures GetSubmissions() == old(GetSubmissions()) + [submission]
      ensures IsIdUsedForExam(submission.studentId, submission.examId)
      ensures forall studentId, examId ::
                !(studentId == submission.studentId && examId == submission.examId) ==>
                  (IsIdUsedForExam(studentId, examId) <==> old(IsIdUsedForExam(studentId, examId)))
    {
      var subs := GetSubmissions();
      submissionsRecord := Some(subs + [submission]);
      forall studentId, examId
        ensures AnyMatch(subs + [submission], studentId, examId)
            <==> AnyMatch(subs, studentId, examId)
                 || (submission.studentId == studentId && submission.examId == examId)
      {
        AnyMatchAppend(subs, submission, studentId, examId);
      }
    }

    method ClearAll()
      modifies this
      ensures GetTeacher() == None && GetExams() == [] && GetSubmissions() == []
      ensures forall studentId, examId :: !IsIdUsedForExam(studentId, examId)
    {
      teacherRecord, examsRecord, submissionsRecord := None, None, None;
    }
  }
}
