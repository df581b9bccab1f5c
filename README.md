# EduAssess attempt engine and record store, in Dafny

EduAssess is a browser application in which an educator builds timed
multiple-choice exams and students take them once each. This project models
the part of it that has logic of its own:

- the student's attempt (`StudentExamInterface` in `App.tsx`): the answer
  vector that starts all `-1`, answer selection, the one-second countdown that
  submits when time runs out, `submit`'s grading, and the `m:ss` clock with its
  under-five-minutes warning;
- the controller state of `App`: locating an exam from the `#/exam/<key>` route
  or from a typed access code, the educator gate, the student login with its
  "already submitted" check, `onFinish` and `onSave`;
- the creator's question-list edits (`ExamCreatorUI`) and its save check;
- the `storage` object over the browser's key-value store: an optional teacher
  profile, an append-only exam list and an append-only submission list.

`services/storage.ts` holds the same `storage` object as `shared.ts`, line for
line, over the identical declarations of `types.ts`. Both are modelled by the
one class `Store.RecordStore`: every row below that cites `shared.ts:236-267`
applies equally to `services/storage.ts:10-41` (getters, `saveTeacher` and `saveExam` 11-29,
`isIdUsedForExam` 30-33, `saveSubmission` 34-37, `clearAll` 38-40).

Files: `records.dfy` (the record types of `shared.ts`), `store.dfy`,
`scoring.dfy`, `countdown.dfy`, `clock_display.dfy`, `attempt.dfy`,
`lookup.dfy`, `creator.dfy`, `controller.dfy`.

Modelling choices:

- `submit` has no "already finished" flag in the source, and the model adds
  none. The timer reaches `submit` at most once because it clears its interval
  first (`Countdown.CountdownFiresOnce`); the two finish buttons call the same
  `submit`, and `Controller.SubmitTwice` shows that two calls store two
  submissions for one student and exam.
- `submit` hands its record to `onFinish`; in the model
  `AttemptSession.Submit` and `AttemptSession.Tick` return that record and the
  caller passes it to `App.OnFinish`.
- The timer is an explicit step, `AttemptSession.Tick`. Its state is
  `Countdown.Timer`, and `Countdown.Run` iterates it. A cleared interval never
  fires again, so a tick on a stopped timer changes nothing.
- A storage key that is absent is `None`. The getters read it as "no teacher"
  or as an empty list, and `ClearAll` makes all three keys absent.
- The submission id (`crypto.randomUUID`), the timestamp (`Date.now`), the
  generated access code and the teacher profile snapshot are parameters.

## Model

| member | source | states |
|---|---|---|
| `Scoring.ComputeScore` | App.tsx:447-448 | the accumulator loop of `submit` returns the sum of the points of exactly those questions whose answer slot exists and equals the correct option |
| `Scoring.TotalPoints` | App.tsx:449 | the total of the question weights is never negative when no weight is |
| `Scoring.ScoreBounds` | App.tsx:447-449 | with non-negative points, 0 <= score <= totalPoints for every answer vector |
| `Scoring.UnansweredScoresZero` | App.tsx:431-448 | a vector whose slots are all -1 (of any length, so missing slots too) scores 0 when no correct option is negative |
| `Scoring.AllCorrectScoresTotal` | App.tsx:447-449 | a vector that picks every correct option scores exactly totalPoints |
| `Scoring.ScoreAfterSelect` | App.tsx:475 | overwriting answer slot k changes the score only by what question k earns before and after |
| `Scoring.ScoreUnaffected` | App.tsx:448 | answer slots beyond the questions never change the score |
| `Scoring.TwoQuestionExample` | App.tsx:447-449 | points [1,2], correct options [1,0]: total 3; [1,1] scores 1, [1,0] scores 3, [-1,-1] scores 0 |
| `Countdown.StartTime` | App.tsx:432 | the clock starts at durationMinutes whole minutes and zero seconds; at least 60 seconds for a duration of at least one minute |
| `Countdown.Tick` | App.tsx:437-441 | a firing that submits was running and leaves the timer stopped at 0; a stopped timer is unchanged; the time never grows nor goes below 0 |
| `Countdown.StoppedStaysStopped` | App.tsx:439 | after `clearInterval`, any number of further firings changes nothing and submits nothing |
| `Countdown.CountdownFiresOnce` | App.tsx:432-441 | from T >= 1 seconds, k < T firings leave T-k seconds and no submit; T or more firings leave 0, the timer stopped and exactly one submit |
| `Countdown.SubmitsOnLastTick` | App.tsx:437-441 | firing k+1 submits exactly when k+1 == T, never earlier and never later |
| `Countdown.AttemptEndsOnTime` | App.tsx:432 | an attempt of durationMinutes >= 1 shows 1 second after durationMinutes*60-1 firings and is submitted once by firing durationMinutes*60 |
| `ClockDisplay.Decimal` | App.tsx:461 | the decimal text of a number is non-empty and all digits; one digit below 10, two below 100; it starts with '0' only for 0 itself, so no leading zero (100 minutes show as "100") |
| `ClockDisplay.DecimalRoundTrip` | App.tsx:461 | reading the decimal text back gives the number |
| `ClockDisplay.PadTwo` | App.tsx:461 | left padding with '0' yields two characters from at most two, and keeps digits digits |
| `ClockDisplay.PadTwoKeepsValue` | App.tsx:461 | the padding zeros do not change the value read back |
| `ClockDisplay.ClockText` | App.tsx:461 | the clock text is digits, a colon, and exactly two digits, and the minutes start with '0' only when they are the single digit 0 ("0:05", never "00:05"); with `ClockTextFields` this fixes the text |
| `ClockDisplay.ClockTextFields` | App.tsx:461 | the digits before the colon read as `Math.floor(t / 60)` and the two after it as `t % 60`, so "0:75" is never shown |
| `ClockDisplay.ClockTextRoundTrip` | App.tsx:461 | minutes*60 + seconds read back from the clock text is the remaining time |
| `ClockDisplay.LowTimeWarning` | App.tsx:460 | the warning style is on exactly while fewer than five whole minutes are shown |
| `Attempt.AttemptSession.constructor` | App.tsx:431-432 | a new attempt has one -1 slot per question, durationMinutes*60 seconds and a running interval |
| `Attempt.AttemptSession.SelectAnswer` | App.tsx:475 | slot `question` becomes `option`, every other slot and the length stay, re-selecting overwrites, and the score moves only by that question's points |
| `Attempt.AttemptSession.Submit` | App.tsx:446-450 | the record carries the exam id, the student's name, id and gender, the current answers, their score, the total, the given id, timestamp and teacher; with non-negative points 0 <= score <= total |
| `Attempt.AttemptSession.Tick` | App.tsx:436-442 | the new timer is one countdown step of the old; it returns a submission exactly when that step submits, built from the current answers; a stopped timer returns none |
| `Lookup.FindIndex` | App.tsx:96 | the position returned is the first exam that matches; none is returned only when no exam matches |
| `Lookup.Find` | App.tsx:201 | a found exam is in the list, matches, and no exam before it matches (the first match, as `find` returns); nothing is found exactly when no exam matches |
| `Lookup.ExamForHash` | App.tsx:94-96 | an exam is selected only for a hash starting with `#/exam/`, and it is the first exam whose id or access code is the rest of the hash, as `find` returns; none is selected exactly when the prefix is missing or no exam has that id or code |
| `Lookup.ExamKeyFromHash` | App.tsx:94-95 | a key is read exactly when the hash starts with `#/exam/`, and the hash is that prefix followed by the key |
| `Lookup.ShareLinkResolves` | App.tsx:94-98 | the shared link `#/exam/<accessCode>` (built at App.tsx:263) leads back to its exam unless an earlier exam has that string as id or code |
| `Lookup.UpperChar` | App.tsx:200 | a letter a-z becomes the capital 32 code points below it; every other character is kept |
| `Lookup.ToUpper` | App.tsx:200 | upper-casing keeps the length, replaces each letter a-z by its capital, keeps every other character, and leaves no lower-case ASCII letter |
| `Lookup.ExamForTypedCode` | App.tsx:200-201 | a found exam is in the list, its access code is the upper-cased input, and no exam before it has that code; nothing is found exactly when no exam has that code |
| `Lookup.TypedCodeIgnoresCase` | App.tsx:200-201 | a typed code finds the same exam in either case, and an access code with a lower-case letter can never be found by typing |
| `Creator.BlankQuestion` | App.tsx:409 | the added question has the fresh id, four options, a correct option among them and a positive weight |
| `Creator.AddQuestion` | App.tsx:409 | adding appends one question after the unchanged list and keeps every question well formed |
| `Creator.RemoveQuestion` | App.tsx:412 | removal keeps every question with another id as often as before and drops every question with that id |
| `Creator.RemoveDistributes` | App.tsx:412 | `filter` works piece by piece: removing from `x + y` is removing from `x` followed by removing from `y`, so the kept questions stay in their order |
| `Creator.RemoveAbsentKeepsAll` | App.tsx:412 | removing an id that no question carries returns the list unchanged |
| `Creator.RemoveKeepsWellFormed` | App.tsx:412 | removal keeps every question well formed |
| `Creator.Apply` | App.tsx:413-418 | setting the text changes only the text; setting the correct option changes only the correct index; setting option k replaces only option k; each keeps the id, the weight and the attempt limit, and keeps the question well formed |
| `Creator.UpdateQuestion` | App.tsx:413-418 | the list keeps its length and ids; questions with another id are unchanged, those with the id are edited; well-formedness is kept |
| `Creator.BuildExam` | App.tsx:398-402 | saving fails with "Title and questions required." exactly when the title is empty or there is no question; otherwise the exam carries the title, questions, duration, id, creation time, code and teacher given, with an empty description |
| `Creator.CreatedQuestionsFreshAttempt` | App.tsx:409-418 | on questions the creator produced, a fresh all -1 attempt scores 0 out of at least one point per question |
| `Creator.TotalAtLeastCount` | App.tsx:449 | on well-formed questions the total is at least the number of questions |
| `Controller.App.constructor` | App.tsx:78-83 | the app starts at HOME, with no active exam or session, and with the store's teacher, exams and submissions, so its copies agree with the store |
| `Controller.App.HandleHash` | App.tsx:92-101 | a route that matches a stored exam by id or code sets that exam active and shows its login, and the active id then names an exam of the component's list; otherwise nothing changes; the copies keep agreeing with the store |
| `Controller.App.EnterExamCode` | App.tsx:198-202 | a typed code, upper-cased, that equals an exam's access code sets that exam active and shows its login, and the active id then names an exam of the list; on a miss nothing changes |
| `Controller.App.EnterTeacherKey` | App.tsx:217-221 | exactly the phrase "EDU-TEACH-2025" opens the dashboard (or the profile form when no teacher is stored); any other key leaves the gate |
| `Controller.App.StudentLoginSubmit` | App.tsx:350-358 | refused exactly when the store holds a submission for this id and exam, and then nothing changes; otherwise the session (gender "male") opens and the exam view starts |
| `Controller.App.StartAttempt` | App.tsx:368-371 | the attempt mounted is for the first exam with the active id and the logged-in student, with all slots unanswered and the full time |
| `Controller.App.OnFinish` | App.tsx:372 | the submission is appended to the store, the copy refreshed, the pair is now marked as used, and the view is HOME |
| `Controller.App.SaveExam` | App.tsx:380 | the exam is appended to the store, the copy refreshed, and the view is the dashboard |
| `Controller.OpenFromLink` | App.tsx:350-371 | following a shared link, logging in with an unused id and mounting the exam view opens an attempt on the linked exam, for that student, with all slots unanswered and the full time: after the route handler (App.tsx:92-101) the `find(...)!` at mount cannot miss |
| `Controller.RetakeIsRefused` | App.tsx:355-372 | after a finished attempt, reopening the exam and logging in with the same student id is refused |
| `Controller.SubmitTwice` | App.tsx:446-463 | two calls of `submit` store two submissions for the same student and exam: nothing guards against a second finish |
| `Controller.ExpireAttempt` | App.tsx:436-444 | left alone, an attempt is submitted by firing number durationMinutes*60, stops the timer at 0 and is graded on its answers as they stand |
| `Store.AnyMatch` | shared.ts:258 | true exactly when some submission has both this student id and this exam id |
| `Store.AnyMatchAppend` | services/storage.ts:30-37 | appending a submission adds exactly its own (student, exam) pair to the used pairs |
| `Store.RecordStore.GetTeacher` | shared.ts:237-240 | with no stored profile the teacher is absent |
| `Store.RecordStore.GetExams` | shared.ts:244-247 | with no stored list the exams are empty; otherwise they are the stored list |
| `Store.RecordStore.GetSubmissions` | shared.ts:252-255 | with no stored list the submissions are empty; otherwise they are the stored list |
| `Store.RecordStore.IsIdUsedForExam` | shared.ts:256-259 | true exactly when a stored submission matches both the student id and the exam id |
| `Store.RecordStore.SaveTeacher` | shared.ts:241-243 | the profile read back afterwards is the one saved; exams and submissions are untouched |
| `Store.RecordStore.SaveExam` | shared.ts:248-251 | the exams become the old exams followed by the new one |
| `Store.RecordStore.SaveSubmission` | shared.ts:260-263 | the submissions become the old ones followed by the new one, even when its pair was already used; the pair is now used and every other pair keeps its answer |
| `Store.RecordStore.ClearAll` | shared.ts:264-266 | afterwards no teacher, no exams, no submissions, and no pair is used |

## Left out

- Rendering: the JSX markup, styles, icons, `AnimatedCard`, `Button`, `Footer` and the translation tables.
- `setInterval` scheduling and the React effect lifecycle: a tick is an explicit step. The unmount cleanup that clears the interval when the view leaves the exam is not modelled.
- The `latestAnswers` ref: `submit` reads the answers directly. The window between `setAnswers` and the effect that copies them into the ref is not modelled.
- The delivery of clicks between React renders: the model does not decide whether a second finish can arrive before the view changes. `Controller.SubmitTwice` shows what happens if it does.
- `alert`, the clipboard, `window.location.reload`, the `hashchange` listener registration and the language setting. `ClearAll` also erases the stored language in the source; the language is not modelled.
- `JSON.stringify` and `JSON.parse`: the store holds typed values and the round trip is taken to be the identity.
- `crypto.randomUUID`, `Date.now` and the `Math.random` access code: they are parameters.
- The average-score percentage on the dashboard, which uses floating-point division and `toFixed`.
- `parseInt` of the duration field: the number input has no minimum, so it can yield NaN, 0 or a negative duration. `Attempt.AttemptSession.constructor` requires `durationMinutes >= 1`, which excludes all three. In the source, an attempt of 0 or fewer minutes submits on its first firing, and a negative start shows a negative clock until then.
- `storage.getTeacher()!` in `submit`: the teacher profile is a parameter of `Submit`, so the case where no profile is stored is not modelled.
- Lookup.ToUpper, Lookup.UpperChar: map only the ASCII letters a-z, while `toUpperCase` also maps other letters (such as 'é' and 'ß'). For input outside ASCII the model differs from the source.
- Creator.BuildExam: the saved exam object has no `description` key at all, so `JSON.stringify` drops the undefined field. The model's `Exam` always has the field, and an absent description is modelled as the empty string; nothing reads it.
- Controller.App.StudentLoginSubmit: the `required` attributes on the name and id inputs make the browser refuse an empty field before the handler runs. That form-level check is not modelled, so the model also opens a session for an empty name or id.
- The teacher profile form (`handleRegister`), the results table and the exports of `services/export.ts` are not part of this model.
- `RecordStore.constructor` is a store with no key set. It stands for an empty browser store and has no source line of its own.
