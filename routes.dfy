/** The per-session state and the three routes that read and change it: the page (`GET /`),
    `POST /upload` and `POST /ask`. The OCR, extraction and question-answering services are
    opaque inputs, each either a result or the message of the exception it raised. */
module Routes {
  import opened Wrappers
  import opened Text
  import opened Schedule
  import opened Extraction
  import opened Blobs

  /** The flash notices the routes emit. Only ParsingComplete is in the success category. */
  datatype Notice =
    | ChoosePdf
    | OnlyPdf
    | ProcessingFailed(reason: string)
    | ParsingComplete(totalWeight: real, mayBeIncomplete: bool)
    | EnterQuestion
    | UploadFirst
  {
    predicate IsError() {
      !ParsingComplete?
    }
  }

  /** The upload route's success notice: it carries the summed weight and says "(may be
      incomplete)" exactly when that total lies outside 90 to 110. */
  function CompletionNotice(schedule: seq<Entry>): (n: Notice)
    ensures n.ParsingComplete? && !n.IsError()
    ensures n.totalWeight == Total(schedule)
    ensures n.mayBeIncomplete <==> Total(schedule) < 90.0 || Total(schedule) > 110.0
  {
    ParsingComplete(Total(schedule), !InBand(Total(schedule)))
  }

  /** The demo schedule sums to 95, so its upload gets the plain message. */
  lemma DemoUploadNotice()
    ensures CompletionNotice(Demo().schedule) == ParsingComplete(95.0, false)
  {
    MockScheduleTotal();
  }

  const DemoAnswerPrefix: string := "(Demo) Based on the syllabus: "
  const DemoAnswerSuffix: string := " \U{2192} Late penalty is 10%/day up to 3 days; attendance mandatory."
  const NotFoundAnswer: string := "I couldn't find that in the syllabus."
  const FailedAnswerPrefix: string := "Q&A failed: "

  /** The answer the ask route stores for a (stripped, non-blank) question: the demo template in
      demo mode; otherwise the service's stripped reply, a fixed fallback when that is blank, or
      the failure message when the call raised. It is never empty. */
  function Answer(question: string, mock: bool, reply: Result<string, string>): (a: string)
    ensures a != ""
    ensures mock ==> |a| == |DemoAnswerPrefix| + |question| + |DemoAnswerSuffix|
                     && a[..|DemoAnswerPrefix|] == DemoAnswerPrefix
                     && a[|DemoAnswerPrefix|..|DemoAnswerPrefix| + |question|] == question
                     && a[|a| - |DemoAnswerSuffix|..] == DemoAnswerSuffix
    ensures !mock && reply.Success? && Strip(reply.value) != "" ==> a == Strip(reply.value)
    ensures !mock && reply.Success? && Strip(reply.value) == "" ==> a == NotFoundAnswer
    ensures !mock && reply.Success? ==> !IsSpace(a[0]) && !IsSpace(a[|a| - 1])
    ensures !mock && reply.Failure? ==>
              && |a| == |FailedAnswerPrefix| + |reply.error|
              && a[..|FailedAnswerPrefix|] == FailedAnswerPrefix
              && a[|FailedAnswerPrefix|..] == reply.error
  {
    if mock then DemoAnswerPrefix + question + DemoAnswerSuffix
    else match reply
      case Success(text) => if Strip(text) == "" then NotFoundAnswer else Strip(text)
      case Failure(e) => FailedAnswerPrefix + e
  }

  /** The demo answer determines the question it was built from. */
  lemma DemoAnswerRecoversQuestion(q1: string, q2: string, r1: Result<string, string>, r2: Result<string, string>)
    requires Answer(q1, true, r1) == Answer(q2, true, r2)
    ensures q1 == q2
  {
    var a := Answer(q1, true, r1);
    assert q1 == a[|DemoAnswerPrefix|..|DemoAnswerPrefix| + |q1|];
    assert q2 == a[|DemoAnswerPrefix|..|DemoAnswerPrefix| + |q2|];
  }

  /** A service answer is stored already stripped: stripping it again changes nothing. */
  lemma ServiceAnswerStripped(question: string, text: string)
    ensures Strip(Answer(question, false, Success(text))) == Answer(question, false, Success(text))
  {
    StripFixed(Answer(question, false, Success(text)));
  }

  /** What the page renders from the session. */
  datatype Page = Page(
    faq: Option<map<string, string>>,
    schedule: Option<seq<Entry>>,
    syllabusText: string,
    summary: Option<string>,
    answer: Option<string>)

  /** The session dictionary: each key is None until first written. */
  class Session {
    var faq: Option<map<string, string>>
    var schedule: Option<seq<Entry>>
    var summary: Option<string>
    var textPath: Option<string>
    var lastAnswer: Option<string>

    /** A fresh session holds nothing. */
    constructor ()
      ensures faq.None? && schedule.None? && summary.None? && textPath.None? && lastAnswer.None?
    {
      faq, schedule, summary, textPath, lastAnswer := None, None, None, None, None;
    }

    /** The OCR text the session's stored path points to ("" when there is none). */
    function StoredText(store: BlobStore): (text: string)
      reads this, store
      ensures textPath.None? || textPath.value !in store.files ==> text == ""
      ensures '\r' !in text
    {
      ReadBlob(store.files, textPath.GetOr(""))
    }

    /** `GET /`: renders the session and pops the last answer, so it is shown once. */
    method Index(store: BlobStore) returns (page: Page)
      modifies this`lastAnswer
      ensures page == Page(faq, schedule, StoredText(store), summary, old(lastAnswer))
      ensures lastAnswer.None?
    {
      page := Page(faq, schedule, StoredText(store), summary, lastAnswer);
      lastAnswer := None;
    }

    /** `POST /upload` with the form's file (its filename, None when no file was sent), the OCR
        result, the extraction reply, the temporary directory and the fresh UUID token.
        A missing or unnamed file, or a name not ending in ".pdf" in any case, changes nothing;
        so does any exception from OCR or extraction. Otherwise the OCR text is saved to a new
        blob and the path, FAQ, schedule and summary are all overwritten; the last answer stays. */
    method Upload(file: Option<string>, ocr: Result<string, string>, mock: bool,
                  reply: Result<Reply, string>, dir: string, token: string, store: BlobStore)
      returns (notice: Notice)
      modifies this, store
      ensures file.None? || file.value == "" ==>
                notice == ChoosePdf && unchanged(this, store)
      ensures file.Some? && file.value != "" && !IsPdfName(file.value) ==>
                notice == OnlyPdf && unchanged(this, store)
      ensures file.Some? && file.value != "" && IsPdfName(file.value) && ocr.Failure? ==>
                notice == ProcessingFailed(ocr.error) && unchanged(this, store)
      ensures file.Some? && file.value != "" && IsPdfName(file.value) && ocr.Success?
              && !mock && reply.Failure? ==>
                notice == ProcessingFailed(reply.error) && unchanged(this, store)
      ensures file.Some? && file.value != "" && IsPdfName(file.value) && ocr.Success?
              && (mock || reply.Success?) ==>
                var path := BlobPath(dir, "syllabus", token);
                var result := if mock then Demo() else
                  Structured(reply.value.faq.GetOr(map[]),
                             SortByWeek(Coerced(reply.value.schedule.GetOr([]))),
                             reply.value.summary.GetOr(""));
                && store.files == old(store.files)[path := ocr.value]
                && textPath == Some(path)
                && faq == Some(result.faq)
                && schedule == Some(result.schedule)
                && summary == Some(result.summary)
                && lastAnswer == old(lastAnswer)
                && notice == CompletionNotice(result.schedule)
    {
      if file.None? || file.value == "" {
        return ChoosePdf;
      }
      if !IsPdfName(file.value) {
        return OnlyPdf;
      }
      if ocr.Failure? {
        return ProcessingFailed(ocr.error);
      }
      var extracted := ExtractStructured(mock, reply);
      if extracted.Failure? {
        return ProcessingFailed(extracted.error);
      }
      var path := store.Save(dir, "syllabus", token, ocr.value);
      textPath := Some(path);
      faq := Some(extracted.value.faq);
      schedule := Some(extracted.value.schedule);
      summary := Some(extracted.value.summary);
      notice := CompletionNotice(extracted.value.schedule);
    }

    /** `POST /ask` with the form's question (None when the field is absent) and the answering
        service's reply. A blank question, or a session whose stored text is empty or missing,
        changes nothing; otherwise only the last answer is set. */
    method Ask(question: Option<string>, mock: bool, reply: Result<string, string>, store: BlobStore)
      returns (notice: Option<Notice>)
      modifies this`lastAnswer
      ensures Strip(question.GetOr("")) == "" ==>
                notice == Some(EnterQuestion) && lastAnswer == old(lastAnswer)
      ensures Strip(question.GetOr("")) != "" && StoredText(store) == "" ==>
                notice == Some(UploadFirst) && lastAnswer == old(lastAnswer)
      ensures Strip(question.GetOr("")) != "" && StoredText(store) != "" ==>
                notice.None? && lastAnswer == Some(Answer(Strip(question.GetOr("")), mock, reply))
    {
      var q := Strip(question.GetOr(""));
      if q == "" {
        return Some(EnterQuestion);
      }
      if StoredText(store) == "" {
        return Some(UploadFirst);
      }
      lastAnswer := Some(Answer(q, mock, reply));
      notice := None;
    }
  }

  /** An answer is shown by the first page view after asking and by no later one. */
  method AnswerShownOnce(s: Session, store: BlobStore, question: string, mock: bool, reply: Result<string, string>)
    returns (first: Page, second: Page)
    requires Strip(question) != "" && s.StoredText(store) != ""
    modifies s
    ensures first.answer == Some(Answer(Strip(question), mock, reply))
    ensures second.answer.None?
    ensures second == first.(answer := None)
  {
    var notice := s.Ask(Some(question), mock, reply, store);
    first := s.Index(store);
    second := s.Index(store);
  }
}
