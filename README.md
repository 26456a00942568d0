# Certificate issuance and verification, modelled in Dafny

This project models the two serverless handlers of a completion-certificate
service. The issuing handler (`src/functions/generateCertificate.ts`) works in five steps:
- It looks a certificate up by `id` in the `users_certificate` table.
- It creates the record `{id, name, grade, created_at}` only when none exists. It never updates an existing record.
- It renders the certificate with the date of record. That is the stored `created_at` when a record existed, else the current time.
- It publishes the PDF under `id.pdf`. A failure there is caught and logged, and the browser is closed on every path.
- It always answers 200 with the retrieval URL.

The verifying handler (`src/functions/verifyCertificate.ts`) looks the certificate up by `id`. It answers 200 with the stored record and the same URL, or 400.

Layout, one module per file:
- `wrappers.dfy` (`Wrappers`): `Option`.
- `certificates.dfy` (`Certificates`): the record, the lookup by key, the object key and the retrieval URL with its inverse.
- `storage.dfy` (`Storage`): the record table as a class. It holds a `records` map and a `puts` counter, and it has a query and a put.
- `issuance.dfy` (`Issuance`): the issuing handler. The table change is the specification function `AfterIssue`. The browser is an `Engine` object and the public bucket a `Bucket` object. The try/catch/finally block is the method `RenderAndPublish`, and the handler is `Issue`.
- `history.dfy` (`History`): sequences of issuance calls made one after another. It covers idempotence, the single put per id and date-of-record preservation.
- `verification.dfy` (`Verification`): the verifying handler as the function `Verify` and the read-only method `Handle`, plus the issue-then-verify round trip.

Timestamps are the ISO-8601 text stored in `created_at`, kept uninterpreted.
The failure of the render/publish block is a parameter `fault: Option<Fault>`. It names the step that throws: the browser launch, the page load, the PDF print or the upload.

Two behaviours of the code worth knowing:
- The seal image is read and the template compiled before the `try` (generateCertificate.ts:65-76), so their failures are not caught and propagate out of the handler. The model leaves those two file reads out (see below) and does not count them among the caught faults.
- An unknown id is answered 400 (verifyCertificate.ts:34).

## Model

| member | source | states |
|---|---|---|
| `Certificates.Lookup` | src/functions/generateCertificate.ts:37-47 | the query by `id` plus `Items[0]` finds a record exactly when one is stored under `id`; it is that record, and its `id` is the one asked for |
| `Certificates.BlobKey` | src/functions/generateCertificate.ts:110 | the object key is the id followed by `.pdf` |
| `Certificates.Url` | src/functions/generateCertificate.ts:128 | the retrieval URL is the bucket's public address followed by the object key of the id |
| `Certificates.UrlRoundTrip` | src/functions/generateCertificate.ts:128 | the id can be read back from the retrieval URL |
| `Certificates.IdOfUrlSound` | src/functions/verifyCertificate.ts:27 | any string read back as an id is exactly that id's retrieval URL |
| `Certificates.UrlInjective` | src/functions/verifyCertificate.ts:27 | two different certificates never share a retrieval URL |
| `Storage.RecordTable.Query` | src/functions/generateCertificate.ts:37-47 | the query returns the stored record for `id` or nothing, and changes nothing |
| `Storage.RecordTable.Put` | src/functions/generateCertificate.ts:52-62 | a put stores the item under its id, counts one write and keeps every record under its own id |
| `Issuance.AfterIssue` | src/functions/generateCertificate.ts:47-63 | create-if-absent: a new id gets exactly `{id, name, grade, created_at = now}`, an existing record stays as it was, and every other key is unchanged |
| `Issuance.AfterIssueSize` | src/functions/generateCertificate.ts:51-63 | an issuance adds one record when it writes and none otherwise; no record is lost |
| `Issuance.TemplateDataFor` | src/functions/generateCertificate.ts:70-76 | the template gets the request's id, name and grade |
| `Issuance.TemplateDataOfIssue` | src/functions/generateCertificate.ts:68-76 | the rendered date is the record's `created_at` after the call: the stored one if a record existed, else `now`; name and grade are the request's even when the stored ones differ |
| `Issuance.Engine.Launch` | src/functions/generateCertificate.ts:81-85 | a launched browser is open |
| `Issuance.Engine.Close` | src/functions/generateCertificate.ts:119 | a closed browser is no longer open |
| `Issuance.Bucket.PutObject` | src/functions/generateCertificate.ts:107-115 | publishing replaces the object under the key and leaves the others |
| `Issuance.RenderAndPublish` | src/functions/generateCertificate.ts:78-120 | the browser is launched unless the launch throws, and once launched it is closed on every path; an error is logged exactly when a step throws; the PDF rendered from the template data lands under `id.pdf` exactly when no step throws, and otherwise the bucket is unchanged |
| `Issuance.Issue` | src/functions/generateCertificate.ts:34-132 | the table becomes `AfterIssue` of the old one, one put is counted exactly when the id was new, and the published PDF carries the record's date; the answer is always 200, `success`, with `Url(id)`, whatever fault occurs; an error is logged exactly when a fault occurs; the browser is released when launched |
| `History.ReplayKeepsRecord` | src/functions/generateCertificate.ts:51-63 | once stored, a record (name, grade, created_at) is never changed or removed by any later issuance |
| `History.ReplayKeys` | src/functions/generateCertificate.ts:51-63 | issuance only adds records, and only under ids that were issued |
| `History.ReplayKeepsKeysMatch` | src/functions/generateCertificate.ts:52-61 | every record stays under its own id through any sequence of issuances |
| `History.ReplayWritesCountNewRecords` | src/functions/generateCertificate.ts:51-63 | over any sequence of issuances the number of puts equals the number of records created: no put overwrites |
| `History.RepeatedIssuance` | src/functions/generateCertificate.ts:51-63 | N issuances for one id leave the table as the first did and send exactly one put when the id was new, none otherwise |
| `History.SameIdChangesNothing` | src/functions/generateCertificate.ts:51-63 | issuances for an id already stored neither write nor change the table |
| `History.IssueTwice` | src/functions/generateCertificate.ts:47-68 | a second issuance for an id with other name, grade and time leaves the table unchanged and the date of record is the first call's |
| `Verification.Verify` | src/functions/verifyCertificate.ts:17-39 | a stored id answers 200, `success`, the valid-certificate message, the stored record and `Url(id)`; an unknown id answers 400, no `success`, the invalid-certificate message, no data |
| `Verification.Handle` | src/functions/verifyCertificate.ts:4-40 | the handler answers `Verify` of the table and only reads the table |
| `Verification.VerifyUrlIsIssueUrl` | src/functions/verifyCertificate.ts:27 | verification returns the same URL issuance returns, and it names the certificate |
| `Verification.IssueThenVerify` | src/functions/verifyCertificate.ts:17-30 | after the first issuance of a new id, verification finds that call's name, grade and time, whatever issuances follow |
| `Verification.UnknownIdNotFound` | src/functions/verifyCertificate.ts:33-39 | an id that no issuance named is answered 400 |

## Left out

- Record-table client calls: the table name, the key-condition expression and the `Items` list are out. The table is a map keyed by `id`, so a query has at most one match.
- A failing query or put propagates out of the handler as an unhandled error. The model treats both as succeeding.
- Concurrency: the query and the put are not atomic, so two first issuances for one id can race and both write. The model is sequential. The single-put and idempotence lemmas are about calls made one after another.
- Bucket details are out: the bucket name, the ACL and the content type. A PDF is identified by the template data it was rendered from; its bytes are not modelled.
- Browser details are out: the viewport, `newPage`, waiting for navigation, the PDF options (A4, landscape, background, CSS page size) and the offline `./certificate.pdf` copy. Each throwing step is one `Fault` value.
- A failing `browser.close()` in the `finally` block is not modelled; closing always succeeds.
- `compileTemplate`: reading `certificate.hbs` and compiling it with Handlebars are foreign file and library calls. So is reading `selo.png` as base64. Both run before the `try`. They are assumed to succeed, and the seal image is not a field of `TemplateData`.
- Timestamps: dayjs parsing of the stored ISO text and `DD/MM/YYYY` formatting are not interpreted. The template carries the timestamp itself, and the clock is the `now` parameter.
- Request and response bodies: `JSON.parse` and `JSON.stringify` are out. The responses are datatypes with status code, `success`, message and data.
- Logging: the `console.log` of a caught error is the `logged` flag of `RenderAndPublish`.
- Serving the object: the bucket's public URL is assumed to serve the object under the same key. The model proves only that the URL and the object key are built from the same `id`.
