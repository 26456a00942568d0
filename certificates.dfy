/**
 * The certificate record kept in the `users_certificate` table, the lookup
 * of a record by its key, and the public address of the published PDF.
 * Both handlers share these definitions.
 */
module Certificates {

  import opened Wrappers

  /** The ISO-8601 text stored in `created_at`; it is never parsed here. */
  type Timestamp = string

  datatype CertificateRecord = CertificateRecord(
    id: string,
    name: string,
    grade: string,
    createdAt: Timestamp)

  /** The table is keyed by `id`: every record sits under its own id. */
  ghost predicate KeysMatch(records: map<string, CertificateRecord>)
  {
    forall k :: k in records ==> records[k].id == k
  }

  /**
   * The query on `id = :id` followed by `Items[0]`: the record stored
   * under `id`, or nothing when the query matched no item.
   */
  function Lookup(records: map<string, CertificateRecord>, id: string): (r: Option<CertificateRecord>)
    ensures r.Some? <==> id in records
    ensures r.Some? ==> r.value == records[id]
    ensures KeysMatch(records) && r.Some? ==> r.value.id == id
  {
    if id in records then Some(records[id]) else None
  }

  /** Public address of the bucket the certificates are published to. */
  const BucketBase: string := "https://renato-certificate-ignite-serverless.s3.amazonaws.com/"

  const PdfSuffix: string := ".pdf"

  /** The object key a certificate's PDF is published under. */
  function BlobKey(id: string): (key: string)
    ensures |key| == |id| + |PdfSuffix|
    ensures key[..|id|] == id && key[|id|..] == PdfSuffix
  {
    id + PdfSuffix
  }

  /** The retrieval URL both handlers return: the bucket address followed by the object key. */
  function Url(id: string): (u: string)
    ensures |u| == |BucketBase| + |BlobKey(id)|
    ensures u[..|BucketBase|] == BucketBase && u[|BucketBase|..] == BlobKey(id)
  {
    BucketBase + BlobKey(id)
  }

  /** Recovers the certificate id from a retrieval URL, if it is one. */
  function IdOfUrl(u: string): (r: Option<string>)
    ensures r.Some? ==> |u| == |BucketBase| + |r.value| + |PdfSuffix|
  {
    if |u| >= |BucketBase| + |PdfSuffix|
       && u[..|BucketBase|] == BucketBase
       && u[|u| - |PdfSuffix|..] == PdfSuffix
    then Some(u[|BucketBase|..|u| - |PdfSuffix|])
    else None
  }

  /** Every retrieval URL names the id it was built from. */
  lemma UrlRoundTrip(id: string)
    ensures IdOfUrl(Url(id)) == Some(id)
  {
    var u := Url(id);
    assert u == BucketBase + (id + PdfSuffix);
    assert u[|u| - |PdfSuffix|..] == PdfSuffix;
    assert u[|BucketBase|..|u| - |PdfSuffix|] == id;
  }

  /** Only retrieval URLs are recognised, and each one is rebuilt exactly. */
  lemma IdOfUrlSound(u: string)
    ensures IdOfUrl(u).Some? ==> Url(IdOfUrl(u).value) == u
  {
    if IdOfUrl(u).Some? {
      var id := IdOfUrl(u).value;
      assert u == u[..|BucketBase|] + u[|BucketBase|..|u| - |PdfSuffix|] + u[|u| - |PdfSuffix|..];
    }
  }

  /** Distinct certificates never share a retrieval URL. */
  lemma UrlInjective(a: string, b: string)
    ensures Url(a) == Url(b) ==> a == b
  {
    UrlRoundTrip(a);
    UrlRoundTrip(b);
  }
}
