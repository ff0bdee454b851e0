/** Running a report: the response is classified by its declared content type into exactly
    one of HTML, PDF or plain text, which decides what the result carries. */
module Execution {
  import opened Common
  import opened Text

  datatype ContentKind = Html | Pdf | PlainText

  /** The response as the client sees it: the `content-type` header, if any, and the body read
      as text. `objectUrl` is the reference the browser hands out for the body read as a blob. */
  datatype Response = Response(contentType: Option<string>, body: string, objectUrl: string)

  datatype ExecutionResult = ExecutionResult(contentType: ContentKind, result: string)

  const HTML_TYPE := "text/html"
  const PDF_TYPE := "application/pdf"

  /** HTML when the header mentions `text/html`, else PDF when it mentions `application/pdf`,
      else plain text, also when there is no header. */
  function Classify(contentType: Option<string>): (k: ContentKind)
    ensures k == Html <==> contentType.Some? && Includes(contentType.value, HTML_TYPE)
    ensures k == Pdf <==>
              contentType.Some? && !Includes(contentType.value, HTML_TYPE) &&
              Includes(contentType.value, PDF_TYPE)
    ensures k == PlainText <==>
              contentType.None? ||
              (!Includes(contentType.value, HTML_TYPE) && !Includes(contentType.value, PDF_TYPE))
  {
    if Truthy(contentType) && Includes(contentType.value, HTML_TYPE) then Html
    else if Truthy(contentType) && Includes(contentType.value, PDF_TYPE) then Pdf
    else PlainText
  }

  /** A header in which `text/html` occurs anywhere is HTML, whatever else it says; one in which
      neither type occurs anywhere is plain text. */
  lemma ClassifyByOccurrence(contentType: string)
    ensures (exists i :: OccursAt(contentType, HTML_TYPE, i)) ==> Classify(Some(contentType)) == Html
    ensures (exists i :: OccursAt(contentType, PDF_TYPE, i)) ==> Classify(Some(contentType)) != PlainText
    ensures (forall i :: !OccursAt(contentType, HTML_TYPE, i) && !OccursAt(contentType, PDF_TYPE, i)) ==>
              Classify(Some(contentType)) == PlainText
  {
    IncludesIffOccurs(contentType, HTML_TYPE);
    IncludesIffOccurs(contentType, PDF_TYPE);
  }

  /** The result of `runReport` and `runReportWithParams`: the object reference for a PDF, the
      body text otherwise. */
  function InterpretRun(response: Response): (r: ExecutionResult)
    ensures r.contentType == Classify(response.contentType)
    ensures r.contentType == Pdf ==> r.result == response.objectUrl
    ensures r.contentType != Pdf ==> r.result == response.body
  {
    match Classify(response.contentType)
    case Html => ExecutionResult(Html, response.body)
    case Pdf => ExecutionResult(Pdf, response.objectUrl)
    case PlainText => ExecutionResult(PlainText, response.body)
  }
}
