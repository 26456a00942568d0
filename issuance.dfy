/**
 * The issuing handler: look the certificate up, create its record only if
 * it is absent, render the certificate with the date of record, publish the
 * PDF as a best-effort step that always releases the browser, and answer
 * with the retrieval URL.
 */
module Issuance {

  import opened Wrappers
  import opened Certificates
  import opened Storage

  /** The values merged into the certificate template (the fixed seal image aside). */
  datatype TemplateData = TemplateData(id: string, name: string, grade: string, date: Timestamp)

  /** A rendered PDF, identified by the template data it was rendered from. */
  datatype Document = Pdf(source: TemplateData)

  /** The step of the render-and-publish block that throws, if one does. */
  datatype Fault = LaunchFault | PageFault | PdfFault | UploadFault

  datatype IssueResponse = IssueResponse(statusCode: int, success: bool, message: string, url: string)

  const CreatedMessage: string := "Certificado criado com sucesso!"

  /**
   * The record table after one issuance: a record is created from the
   * request only when none exists for `id`; an existing one is never updated.
   */
  function AfterIssue(records: map<string, CertificateRecord>, id: string, name: string, grade: string, now: Timestamp)
    : (after: map<string, CertificateRecord>)
    ensures id in after
    ensures id in records ==> after == records
    ensures id !in records ==> after[id] == CertificateRecord(id, name, grade, now)
    ensures forall k :: k != id ==> (k in after <==> k in records)
    ensures forall k :: k != id && k in records ==> after[k] == records[k]
    ensures KeysMatch(records) ==> KeysMatch(after)
  {
    if id in records then records else records[id := CertificateRecord(id, name, grade, now)]
  }

  /** The number of puts one issuance sends to the table. */
  function WritesOf(records: map<string, CertificateRecord>, id: string): nat
  {
    if id in records then 0 else 1
  }

  /** Each put of an issuance adds one record; none replaces a record. */
  lemma AfterIssueSize(records: map<string, CertificateRecord>, id: string, name: string, grade: string, now: Timestamp)
    ensures records.Keys <= AfterIssue(records, id, name, grade, now).Keys
    ensures |AfterIssue(records, id, name, grade, now)| == |records| + WritesOf(records, id)
  {
    var after := AfterIssue(records, id, name, grade, now);
    if id !in records {
      assert after.Keys == records.Keys + {id};
    }
  }

  /** The date printed on the certificate: the stored `created_at` if a record existed, else the current time. */
  function EffectiveDate(existing: Option<CertificateRecord>, now: Timestamp): Timestamp
  {
    if existing.Some? then existing.value.createdAt else now
  }

  /** The template data: id, name and grade of the request, and the effective date. */
  function TemplateDataFor(id: string, name: string, grade: string, existing: Option<CertificateRecord>, now: Timestamp)
    : (data: TemplateData)
    ensures data.id == id && data.name == name && data.grade == grade
  {
    TemplateData(id, name, grade, EffectiveDate(existing, now))
  }

  /**
   * The date rendered is the record's date after the issuance, and the name
   * and grade rendered are the request's, even when the stored record
   * carries other values.
   */
  lemma TemplateDataOfIssue(records: map<string, CertificateRecord>, id: string, name: string, grade: string, now: Timestamp)
    ensures var data := TemplateDataFor(id, name, grade, Lookup(records, id), now);
      && data.date == AfterIssue(records, id, name, grade, now)[id].createdAt
      && (id in records ==> data.date == records[id].createdAt)
      && (id !in records ==> data.date == now)
      && data.name == name && data.grade == grade
  {
  }

  /** A launched headless browser; it stays open until it is closed. */
  class Engine {
    var open: bool

    constructor Launch()
      ensures open
    {
      open := true;
    }

    method Close()
      modifies this
      ensures !open
    {
      open := false;
    }
  }

  /** The public bucket the PDFs are published to, by object key. */
  class Bucket {
    var objects: map<string, Document>

    constructor ()
      ensures objects == map[]
    {
      objects := map[];
    }

    /** A put replaces the object under `key`. */
    method PutObject(key: string, body: Document)
      modifies this
      ensures objects == old(objects)[key := body]
    {
      objects := objects[key := body];
    }
  }

  /**
   * Only a case-split helper for `RenderAndPublish`: a fault is one of the
   * four throwing steps, or there is none.
   */
  lemma FaultCases(fault: Option<Fault>)
    ensures fault.None? || fault == Some(LaunchFault) || fault == Some(PageFault)
      || fault == Some(PdfFault) || fault == Some(UploadFault)
  {
    match fault {
      case None =>
      case Some(f) =>
        match f {
          case LaunchFault =>
          case PageFault =>
          case PdfFault =>
          case UploadFault =>
        }
    }
  }

  /**
   * The try/catch/finally block: launch a browser, load the page, print the
   * PDF and publish it under `id.pdf`. A throw at any step skips the rest and
   * is logged; the browser, if it was launched, is closed on every path.
   */
  method RenderAndPublish(bucket: Bucket, content: TemplateData, fault: Option<Fault>)
    returns (browser: Engine?, logged: bool)
    modifies bucket
    ensures browser != null <==> fault != Some(LaunchFault)
    ensures browser != null ==> fresh(browser) && !browser.open
    ensures logged <==> fault.Some?
    ensures bucket.objects ==
      if fault.None? then old(bucket.objects)[BlobKey(content.id) := Pdf(content)] else old(bucket.objects)
  {
    browser := null;
    var thrown := false;
    FaultCases(fault);
    // try
    if fault == Some(LaunchFault) {
      thrown := true;
    } else {
      browser := new Engine.Launch();
      if fault == Some(PageFault) || fault == Some(PdfFault) {
        thrown := true;
      } else {
        var pdf := Pdf(content);
        if fault == Some(UploadFault) {
          thrown := true;
        } else {
          bucket.PutObject(BlobKey(content.id), pdf);
        }
      }
    }
    // catch: the error is only logged
    logged := thrown;
    // finally
    if browser != null {
      browser.Close();
    }
  }

  /**
   * The issuing handler. Whatever happens while rendering or publishing,
   * it answers 200 with the retrieval URL of `id`.
   */
  method Issue(table: RecordTable, bucket: Bucket, id: string, name: string, grade: string, now: Timestamp, fault: Option<Fault>)
    returns (response: IssueResponse, browser: Engine?, logged: bool)
    requires table.Valid()
    modifies table, bucket
    ensures table.Valid()
    ensures table.records == AfterIssue(old(table.records), id, name, grade, now)
    ensures table.puts == old(table.puts) + WritesOf(old(table.records), id)
    ensures bucket.objects ==
      if fault.None?
      then old(bucket.objects)[BlobKey(id) := Pdf(TemplateDataFor(id, name, grade, Lookup(old(table.records), id), now))]
      else old(bucket.objects)
    ensures fault.None? ==> bucket.objects[BlobKey(id)].source.date == table.records[id].createdAt
    ensures response == IssueResponse(200, true, CreatedMessage, Url(id))
    ensures logged <==> fault.Some?
    ensures browser != null <==> fault != Some(LaunchFault)
    ensures browser != null ==> fresh(browser) && !browser.open
  {
    var existing := table.Query(id);
    if existing.None? {
      table.Put(CertificateRecord(id, name, grade, now));
    }
    var content := TemplateDataFor(id, name, grade, existing, now);
    browser, logged := RenderAndPublish(bucket, content, fault);
    response := IssueResponse(200, true, CreatedMessage, Url(id));
  }
}
