/** `Reporter.generate_report` of scheduler/src/jobs/report.py. The clock
  reading and the traceback's text are inputs. */
module Report {
  import opened Text
  import opened Calendar
  import opened Wrappers

  const SubjectHead := "[양육비 예측 파이프라인 오류 발생 알림("
  const SubjectTail := ")]"

  /** `now.strftime("%Y-%m-%d, %H:%M:%S")`. */
  function When(now: PyDateTime): string {
    Print(now, WhenFormat)
  }

  /** The fixed text around the four fields of the report body. */
  const Before1 := "\n            에러 발생 시간: "
  const Before2 := ",\n            에러 타입: "
  const Before3 := ",\n            에러 메세지: "
  const Before4 := "\n            에러 Traceback: "
  const After := "\n        "

  /** The report body: time, exception class name, message and traceback,
      one per indented line. */
  function Content(when: string, e: Exc, traceback: string): string {
    Before1 + when + Before2 + e.kind + Before3 + e.message + Before4 + traceback + After
  }

  function GenerateReport(e: Exc, now: PyDateTime, traceback: string): (r: map<string, string>)
    ensures r.Keys == {"subject", "content"}
    ensures StartsWith(r["subject"], SubjectHead) && EndsWith(r["subject"], SubjectTail)
    ensures Contains(r["content"], When(now))
    ensures Contains(r["content"], e.kind) && Contains(r["content"], e.message)
  {
    var when := When(now);
    var content := Content(when, e, traceback);
    FieldsOccur(Before1, when, Before2, e.kind, Before3, e.message, Before4 + traceback + After);
    assert content == Before1 + when + Before2 + e.kind + Before3 + e.message + (Before4 + traceback + After);
    var subject := SubjectHead + when + SubjectTail;
    Framed(SubjectHead, when, SubjectTail);
    map["subject" := subject, "content" := content]
  }

  /** Each field occurs in the body, the first right after its label. */
  lemma FieldsOccur(l1: string, x: string, l2: string, y: string, l3: string, z: string, rest: string)
    ensures var s := l1 + x + l2 + y + l3 + z + rest;
      OccursAt(s, x, |l1|) && Contains(s, x) && Contains(s, y) && Contains(s, z)
  {
    var s := l1 + x + l2 + y + l3 + z + rest;
    ContainsInfix(l1, x, l2 + y + l3 + z + rest);
    assert s == l1 + x + (l2 + y + l3 + z + rest);
    ContainsInfix(l1 + x + l2, y, l3 + z + rest);
    assert s == l1 + x + l2 + y + (l3 + z + rest);
    ContainsInfix(l1 + x + l2 + y + l3, z, rest);
  }

  /** A text framed by a head and a tail is recovered by cutting both off. */
  lemma Framed(head: string, x: string, tail: string)
    ensures var s := head + x + tail;
      StartsWith(s, head) && EndsWith(s, tail) && s[|head|..|s| - |tail|] == x
  {
    var s := head + x + tail;
    assert s[..|head|] == head;
    assert s[|s| - |tail|..] == tail;
    assert s[|head|..|s| - |tail|] == x;
  }

  /** The one clock reading is recoverable from the subject, and the same
      text stands right after the first label of the content. */
  lemma ReportWhen(e: Exc, now: PyDateTime, traceback: string)
    ensures var s := GenerateReport(e, now, traceback)["subject"];
      |s| >= |SubjectHead| + |SubjectTail|
      && Parse(s[|SubjectHead|..|s| - |SubjectTail|], WhenFormat) == Ok(now)
      && OccursAt(GenerateReport(e, now, traceback)["content"], s[|SubjectHead|..|s| - |SubjectTail|], |Before1|)
  {
    var when := When(now);
    Framed(SubjectHead, when, SubjectTail);
    WhenRoundTrip(now);
    FieldsOccur(Before1, when, Before2, e.kind, Before3, e.message, Before4 + traceback + After);
    assert Content(when, e, traceback) == Before1 + when + Before2 + e.kind + Before3 + e.message + (Before4 + traceback + After);
  }
}
