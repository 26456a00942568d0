/**
 * The verifying handler: a read-only lookup of the certificate by id that
 * answers 200 with the stored record and its retrieval URL, or 400.
 */
module Verification {

  import opened Wrappers
  import opened Certificates
  import opened Storage
  import opened Issuance
  import opened History

  datatype VerifyData = VerifyData(userCertificate: CertificateRecord, url: string)

  datatype VerifyResponse = VerifyResponse(statusCode: int, success: bool, message: string, data: Option<VerifyData>)

  const ValidMessage: string := "Certificado v\U{E1}lido"

  const InvalidMessage: string := "Certificado inv\U{E1}lido"

  /** The response to a verification request for `id` against the table `records`. */
  function Verify(records: map<string, CertificateRecord>, id: string): (r: VerifyResponse)
    ensures r.success <==> id in records
    ensures r.statusCode == (if id in records then 200 else 400)
    ensures id in records ==> r.message == ValidMessage && r.data == Some(VerifyData(records[id], Url(id)))
    ensures id !in records ==> r.data.None? && r.message == InvalidMessage
    ensures KeysMatch(records) && r.success ==> r.data.value.userCertificate.id == id
  {
    match Lookup(records, id)
    case Some(userCertificate) =>
      VerifyResponse(200, true, ValidMessage, Some(VerifyData(userCertificate, Url(id))))
    case None =>
      VerifyResponse(400, false, InvalidMessage, None)
  }

  /** The verifying handler: it only queries the table, which it has no licence to change. */
  method Handle(table: RecordTable, id: string) returns (response: VerifyResponse)
    requires table.Valid()
    ensures response == Verify(table.records, id)
  {
    var userCertificate := table.Query(id);
    if userCertificate.Some? {
      response := VerifyResponse(200, true, ValidMessage, Some(VerifyData(userCertificate.value, Url(id))));
    } else {
      response := VerifyResponse(400, false, InvalidMessage, None);
    }
  }

  /** A found certificate's URL is the one issuance answered with, and it names the certificate. */
  lemma VerifyUrlIsIssueUrl(records: map<string, CertificateRecord>, id: string)
    requires id in records
    ensures Verify(records, id).data.value.url == Url(id)
    ensures IdOfUrl(Verify(records, id).data.value.url) == Some(id)
  {
    UrlRoundTrip(id);
  }

  /**
   * Issue then verify: after the first issuance for a new id, verification
   * finds the record with the first call's name, grade and time, and no
   * later issuance, for that id or any other, changes what it finds.
   */
  lemma IssueThenVerify(records: map<string, CertificateRecord>, id: string, name: string, grade: string,
                        now: Timestamp, later: seq<IssueRequest>)
    requires id !in records
    ensures Verify(Replay(records, [IssueRequest(id, name, grade, now)] + later), id)
      == VerifyResponse(200, true, ValidMessage, Some(VerifyData(CertificateRecord(id, name, grade, now), Url(id))))
  {
    var reqs := [IssueRequest(id, name, grade, now)] + later;
    assert reqs[1..] == later;
    var first := AfterIssue(records, id, name, grade, now);
    assert Replay(records, reqs) == Replay(first, later);
    ReplayKeepsRecord(first, later, id);
  }

  /** An id that no issuance has named is not found. */
  lemma UnknownIdNotFound(records: map<string, CertificateRecord>, reqs: seq<IssueRequest>, id: string)
    requires id !in records
    requires forall i :: 0 <= i < |reqs| ==> reqs[i].id != id
    ensures Verify(Replay(records, reqs), id) == VerifyResponse(400, false, InvalidMessage, None)
  {
    ReplayKeys(records, reqs);
  }
}
