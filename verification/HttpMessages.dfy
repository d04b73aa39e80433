/** Requests and responses; text is a sequence of characters, one per byte. */
module HttpMessages {
  import opened Common
  import SendFlow

  datatype HttpRequest = HttpRequest(
    method_: string, url: string, path: string, query: string, version: string, headers: map<string, string>, body: string)

  const BLANK_REQUEST := HttpRequest("", "", "", "", "", map[], "")

  /** A body to be sent from a file. */
  datatype FileBody = FileBody(file: SendFlow.FileRef, size: nat, offset: nat)

  datatype HttpResponse = HttpResponse(
    status: nat, message: string, headers: map<string, string>, body: string, file: Option<FileBody>, close: bool)
  {
    /** A file body counts only with an open file behind it. */
    predicate HasFile() { file.Some? && (file.value.file.NotRegular? || file.value.file.Regular?) }

    function BodySize(): nat { if HasFile() then file.value.size else |body| }

    function WithHeader(field: string, value: string): HttpResponse { this.(headers := headers[field := value]) }
  }

  const BLANK_RESPONSE := HttpResponse(200, "OK", map[], "", None, false)

  function Decimal(n: nat): string {
    (if n < 10 then [] else Decimal(n / 10)) + ["0123456789"[n % 10]]
  }

  /** The number a string of decimal digits stands for. */
  function Number(digits: string): nat {
    if digits == "" then 0 else
      Number(digits[..|digits| - 1]) * 10 + var d := digits[|digits| - 1]; if '0' <= d <= '9' then d as nat - '0' as nat else 0
  }

  lemma {:induction false} ReadsBack(n: nat)
    ensures Number(Decimal(n)) == n
  {
    var d := Decimal(n);
    assert d[..|d| - 1] == if n < 10 then [] else Decimal(n / 10);
    DigitValue(n % 10);
    if n >= 10 { ReadsBack(n / 10); }
  }

  lemma DigitValue(k: nat)
    requires k < 10
    ensures var d := "0123456789"[k]; '0' <= d <= '9' && d as nat - '0' as nat == k
  {
  }

  /** A ready-made answer; it asks for the connection to be closed. */
  function PlainText(status: nat, message: string, body: string): HttpResponse {
    HttpResponse(status, message, map["Content-Type" := "text/plain", "Content-Length" := Decimal(|body|)], body, None, true)
  }
}
