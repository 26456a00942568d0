/**
 * The `users_certificate` table as the handlers see it: a query by key and
 * an unconditional put. The table counts its puts so that the number of
 * writes an issuance causes can be stated.
 */
module Storage {

  import opened Wrappers
  import opened Certificates

  class RecordTable {
    var records: map<string, CertificateRecord>
    var puts: nat

    ghost predicate Valid()
      reads this
    {
      KeysMatch(records)
    }

    constructor ()
      ensures Valid() && records == map[] && puts == 0
    {
      records := map[];
      puts := 0;
    }

    /** The query on `id = :id`; it only reads the table. */
    method Query(id: string) returns (found: Option<CertificateRecord>)
      requires Valid()
      ensures found == Lookup(records, id)
      ensures found.Some? ==> found.value.id == id
    {
      if id in records {
        found := Some(records[id]);
      } else {
        found := None;
      }
    }

    /** A put stores the item under its id, replacing whatever was there. */
    method Put(item: CertificateRecord)
      requires Valid()
      modifies this
      ensures Valid()
      ensures records == old(records)[item.id := item]
      ensures puts == old(puts) + 1
    {
      records := records[item.id := item];
      puts := puts + 1;
    }
  }
}
