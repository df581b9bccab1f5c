/** The records of shared.ts: questions, exams, the teacher profile,
    submissions, the student identity held by the controller, and the views. */
module Records {

  datatype Option<T> = None | Some(value: T)

  /** An operation that either yields a value or reports a message to the user. */
  datatype Result<T> = Ok(value: T) | Err(message: string)

  /** One multiple-choice question; `correctAnswerIndex` indexes `options`. */
  datatype Question = Question(
    id: string,
    text: string,
    options: seq<string>,
    correctAnswerIndex: int,
    points: int,
    maxAttempts: int)

  datatype Exam = Exam(
    id: string,
    title: string,
    description: string,
    teacherId: string,
    questions: seq<Question>,
    durationMinutes: int,
    createdAt: int,
    accessCode: string)

  datatype Teacher = Teacher(
    id: string,
    name: string,
    school: string,
    university: string,
    department: string,
    email: string,
    subject: string,
    level: string,
    academicYear: string)

  /** A graded attempt, with a copy of the teacher profile taken when it was built. */
  datatype Submission = Submission(
    id: string,
    examId: string,
    studentName: string,
    studentId: string,
    studentGender: string,
    answers: seq<int>,
    score: int,
    totalPoints: int,
    timestamp: int,
    teacherInfo: Teacher)

  /** The identity a student types on the login form. */
  datatype StudentSession = StudentSession(name: string, id: string, gender: string)

  datatype ViewState =
    | Home
    | TeacherDashboard
    | CreateExam
    | ExamView
    | StudentLogin
    | StudentTakeExam
    | TeacherSettings
    | Results
    | TeacherGate
    | StudentFindExam
}
