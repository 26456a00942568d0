/**
 * Sequences of issuance calls, one after another, as the table sees them:
 * what the table holds after them and how many puts they sent. Calls that
 * overlap in time are not covered (see the README).
 */
module History {

  import opened Certificates
  import opened Issuance

  /** The part of an issuance request the record table depends on. */
  datatype IssueRequest = IssueRequest(id: string, name: string, grade: string, now: Timestamp)

  /** The table after the calls in `reqs`, in order. */
  function Replay(records: map<string, CertificateRecord>, reqs: seq<IssueRequest>): map<string, CertificateRecord>
    decreases |reqs|
  {
    if reqs == [] then records
    else
      var r := reqs[0];
      Replay(AfterIssue(records, r.id, r.name, r.grade, r.now), reqs[1..])
  }

  /** The number of puts the calls in `reqs` send, in order. */
  function ReplayWrites(records: map<string, CertificateRecord>, reqs: seq<IssueRequest>): nat
    decreases |reqs|
  {
    if reqs == [] then 0
    else
      var r := reqs[0];
      WritesOf(records, r.id) + ReplayWrites(AfterIssue(records, r.id, r.name, r.grade, r.now), reqs[1..])
  }

  /** Once a record exists, no later issuance changes or removes it. */
  lemma {:induction false} ReplayKeepsRecord(records: map<string, CertificateRecord>, reqs: seq<IssueRequest>, id: string)
    requires id in records
    ensures id in Replay(records, reqs) && Replay(records, reqs)[id] == records[id]
    decreases |reqs|
  {
    if reqs != [] {
      var r := reqs[0];
      ReplayKeepsRecord(AfterIssue(records, r.id, r.name, r.grade, r.now), reqs[1..], id);
    }
  }

  /** Issuance only ever adds records, and only under the ids it was asked for. */
  lemma {:induction false} ReplayKeys(records: map<string, CertificateRecord>, reqs: seq<IssueRequest>)
    ensures records.Keys <= Replay(records, reqs).Keys
    ensures forall k :: k in Replay(records, reqs) && k !in records ==> exists i :: 0 <= i < |reqs| && reqs[i].id == k
    decreases |reqs|
  {
    if reqs != [] {
      var r := reqs[0];
      var next := AfterIssue(records, r.id, r.name, r.grade, r.now);
      ReplayKeys(next, reqs[1..]);
      forall k | k in Replay(records, reqs) && k !in records
        ensures exists i :: 0 <= i < |reqs| && reqs[i].id == k
      {
        if k in next {
          assert reqs[0].id == k;
        } else {
          var i :| 0 <= i < |reqs[1..]| && reqs[1..][i].id == k;
          assert reqs[i + 1].id == k;
        }
      }
    }
  }

  /** Every table reached by issuance keeps each record under its own id. */
  lemma {:induction false} ReplayKeepsKeysMatch(records: map<string, CertificateRecord>, reqs: seq<IssueRequest>)
    requires KeysMatch(records)
    ensures KeysMatch(Replay(records, reqs))
    decreases |reqs|
  {
    if reqs != [] {
      var r := reqs[0];
      ReplayKeepsKeysMatch(AfterIssue(records, r.id, r.name, r.grade, r.now), reqs[1..]);
    }
  }

  /** Every put creates a new record: the puts sent equal the records added. */
  lemma {:induction false} ReplayWritesCountNewRecords(records: map<string, CertificateRecord>, reqs: seq<IssueRequest>)
    ensures |records| <= |Replay(records, reqs)|
    ensures ReplayWrites(records, reqs) == |Replay(records, reqs)| - |records|
    decreases |reqs|
  {
    if reqs != [] {
      var r := reqs[0];
      AfterIssueSize(records, r.id, r.name, r.grade, r.now);
      ReplayWritesCountNewRecords(AfterIssue(records, r.id, r.name, r.grade, r.now), reqs[1..]);
    }
  }

  /**
   * Repeated issuance for one id is idempotent on the table: N calls leave
   * the table as the first call left it and send at most one put, exactly
   * one when the id was new.
   */
  lemma {:induction false} RepeatedIssuance(records: map<string, CertificateRecord>, reqs: seq<IssueRequest>)
    requires |reqs| > 0
    requires forall i :: 0 <= i < |reqs| ==> reqs[i].id == reqs[0].id
    ensures Replay(records, reqs) == Replay(records, reqs[..1])
    ensures ReplayWrites(records, reqs) == (if reqs[0].id in records then 0 else 1)
    decreases |reqs|
  {
    var r := reqs[0];
    var first := AfterIssue(records, r.id, r.name, r.grade, r.now);
    assert Replay(records, reqs[..1]) == first;
    SameIdChangesNothing(first, reqs[1..], r.id);
  }

  /** Issuance for an id already in the table neither writes nor changes it. */
  lemma {:induction false} SameIdChangesNothing(records: map<string, CertificateRecord>, reqs: seq<IssueRequest>, id: string)
    requires id in records
    requires forall i :: 0 <= i < |reqs| ==> reqs[i].id == id
    ensures Replay(records, reqs) == records
    ensures ReplayWrites(records, reqs) == 0
    decreases |reqs|
  {
    if reqs != [] {
      SameIdChangesNothing(records, reqs[1..], id);
    }
  }

  /** Two issuances for one id leave the table as the first left it, whatever the second carries. */
  lemma IssueTwice(records: map<string, CertificateRecord>, id: string,
                   name1: string, grade1: string, now1: Timestamp,
                   name2: string, grade2: string, now2: Timestamp)
    ensures var once := AfterIssue(records, id, name1, grade1, now1);
      && AfterIssue(once, id, name2, grade2, now2) == once
      && WritesOf(once, id) == 0
      && once[id].createdAt == (if id in records then records[id].createdAt else now1)
  {
  }
}
