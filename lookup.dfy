/** Locating an exam: from the `#/exam/<key>` route (by id or access code),
    from the access code a student types (upper-cased first), and by id when
    the attempt is mounted. Each returns the first exam that matches. */
module Lookup {
  import opened Records

  const ExamRoutePrefix := "#/exam/"

  datatype Criterion =
    | IdOrCode(key: string)
    | CodeOnly(code: string)
    | IdOnly(id: string)

  predicate Matches(e: Exam, c: Criterion)
  {
    match c
    case IdOrCode(key) => e.id == key || e.accessCode == key
    case CodeOnly(code) => e.accessCode == code
    case IdOnly(id) => e.id == id
  }

  /** Position of the first exam that matches, as `Array.prototype.find` scans. */
  function FindIndex(exams: seq<Exam>, c: Criterion): (r: Option<nat>)
    ensures r.Some? ==> r.value < |exams| && Matches(exams[r.value], c)
    ensures r.Some? ==> forall j :: 0 <= j < r.value ==> !Matches(exams[j], c)
    ensures r.None? ==> forall j :: 0 <= j < |exams| ==> !Matches(exams[j], c)
  {
    if |exams| == 0 then None
    else if Matches(exams[0], c) then Some(0)
    else match FindIndex(exams[1..], c)
      case None => None
      case Some(i) => Some(i + 1)
  }

  /** The first exam that matches: no exam before it matches. */
  function Find(exams: seq<Exam>, c: Criterion): (r: Option<Exam>)
    ensures r.Some? ==> r.value in exams && Matches(r.value, c)
    ensures r.Some? ==> exists i :: 0 <= i < |exams| && exams[i] == r.value
                                    && forall j :: 0 <= j < i ==> !Matches(exams[j], c)
    ensures r.None? <==> forall e :: e in exams ==> !Matches(e, c)
  {
    match FindIndex(exams, c)
    case None => None
    case Some(i) => Some(exams[i])
  }

  /** The key of an exam route: what follows the prefix, when the hash starts with it. */
  function ExamKeyFromHash(hash: string): (key: Option<string>)
    ensures key.Some? <==> ExamRoutePrefix <= hash
    ensures key.Some? ==> hash == ExamRoutePrefix + key.value
  {
    if ExamRoutePrefix <= hash then Some(hash[|ExamRoutePrefix|..]) else None
  }

  /** The exam a route hash selects, if any: the first whose id or access code is the route key. */
  function ExamForHash(exams: seq<Exam>, hash: string): (r: Option<Exam>)
    ensures r.Some? ==> ExamRoutePrefix <= hash && r.value in exams
                        && Matches(r.value, IdOrCode(hash[|ExamRoutePrefix|..]))
    ensures r.Some? ==> exists i :: 0 <= i < |exams| && exams[i] == r.value
                          && forall j :: 0 <= j < i ==> !Matches(exams[j], IdOrCode(hash[|ExamRoutePrefix|..]))
    ensures r.None? <==> !(ExamRoutePrefix <= hash)
                         || forall e :: e in exams ==> !Matches(e, IdOrCode(hash[|ExamRoutePrefix|..]))
  {
    match ExamKeyFromHash(hash)
    case None => None
    case Some(key) => Find(exams, IdOrCode(key))
  }

  /** The shared link of an exam leads back to it, unless an earlier exam
      has that access code as its id or its code. */
  lemma ShareLinkResolves(exams: seq<Exam>, i: nat)
    requires i < |exams|
    requires forall j :: 0 <= j < i ==> !Matches(exams[j], IdOrCode(exams[i].accessCode))
    ensures ExamForHash(exams, ExamRoutePrefix + exams[i].accessCode) == Some(exams[i])
  {
    var key := exams[i].accessCode;
    assert ExamKeyFromHash(ExamRoutePrefix + key) == Some(key) by {
      assert (ExamRoutePrefix + key)[|ExamRoutePrefix|..] == key;
    }
    var r := FindIndex(exams, IdOrCode(key));
    assert Matches(exams[i], IdOrCode(key));
    assert r.Some? && r.value == i;
  }

  /** Upper-cases an ASCII letter; every other character is kept. */
  function UpperChar(c: char): (u: char)
    ensures 'a' <= c <= 'z' ==> u as int == c as int - 32 && 'A' <= u <= 'Z'
    ensures !('a' <= c <= 'z') ==> u == c
  {
    if 'a' <= c <= 'z' then (c as int - 32) as char else c
  }

  /** `toUpperCase`, on ASCII letters. */
  function ToUpper(s: string): (u: string)
    ensures |u| == |s|
    ensures forall i :: 0 <= i < |s| && 'a' <= s[i] <= 'z' ==> u[i] as int == s[i] as int - 32
    ensures forall i :: 0 <= i < |s| && !('a' <= s[i] <= 'z') ==> u[i] == s[i]
    ensures forall i :: 0 <= i < |u| ==> !('a' <= u[i] <= 'z')
  {
    seq(|s|, i requires 0 <= i < |s| => UpperChar(s[i]))
  }

  lemma ToUpperIdempotent(s: string)
    ensures ToUpper(ToUpper(s)) == ToUpper(s)
  {
  }

  /** The exam found for a typed code: the first whose access code is the upper-cased input. */
  function ExamForTypedCode(exams: seq<Exam>, typed: string): (r: Option<Exam>)
    ensures r.Some? ==> r.value in exams && r.value.accessCode == ToUpper(typed)
    ensures r.Some? ==> exists i :: 0 <= i < |exams| && exams[i] == r.value
                          && forall j :: 0 <= j < i ==> exams[j].accessCode != ToUpper(typed)
    ensures r.None? <==> forall e :: e in exams ==> e.accessCode != ToUpper(typed)
  {
    Find(exams, CodeOnly(ToUpper(typed)))
  }

  /** Typing a code in lower or upper case finds the same exam; an exam whose
      access code holds a lower-case letter can never be found by typing. */
  lemma TypedCodeIgnoresCase(exams: seq<Exam>, typed: string, e: Exam)
    ensures ExamForTypedCode(exams, ToUpper(typed)) == ExamForTypedCode(exams, typed)
    ensures (exists i :: 0 <= i < |e.accessCode| && 'a' <= e.accessCode[i] <= 'z')
            ==> ExamForTypedCode(exams, typed) != Some(e)
  {
    ToUpperIdempotent(typed);
  }
}
