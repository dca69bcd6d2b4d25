/** The deletion loop of the memory scope, on the record table itself. */
module ForgetMemories {

  import opened ForgetProtocol

  /** The ids of a request that name a live record of its space. */
  predicate Targeted(records: map<RecordId, Record>, space: nat, ids: seq<RecordId>, id: RecordId) {
    id in ids && id in records && records[id].space == space && !records[id].softDeleted
  }

  class RecordStore {
    var records: map<RecordId, Record>

    constructor (records: map<RecordId, Record>)
      ensures this.records == records
    {
      this.records := records;
    }

    method RetrieveDetail(space: nat, id: RecordId) returns (found: bool)
      ensures found == (id in records && records[id].space == space && !records[id].softDeleted)
    {
      found := id in records && records[id].space == space && !records[id].softDeleted;
    }

    method HardDelete(space: nat, id: RecordId) returns (deleted: bool)
      modifies this
      ensures deleted == (id in old(records) && old(records)[id].space == space)
      ensures records == if deleted then old(records) - {id} else old(records)
    {
      deleted := id in records && records[id].space == space;
      if deleted {
        records := records - {id};
      }
    }

    /** Exactly the live records of the space that the request names are removed, and the count is the
        drop in stored records, whatever ids repeat or are unknown. */
    method ForgetMemories(space: nat, ids: seq<RecordId>) returns (deleted: nat)
      modifies this
      ensures forall id :: id in records <==> id in old(records) && !Targeted(old(records), space, ids, id)
      ensures forall id | id in records :: records[id] == old(records)[id]
      ensures |records| + deleted == |old(records)|
    {
      deleted := 0;
      for i := 0 to |ids|
        invariant forall id :: id in records <==> id in old(records) && !Targeted(old(records), space, ids[..i], id)
        invariant forall id | id in records :: records[id] == old(records)[id]
        invariant |records| + deleted == |old(records)|
      {
        assert ids[..i + 1] == ids[..i] + [ids[i]];
        var found := RetrieveDetail(space, ids[i]);
        if !found {
          continue;
        }
        ghost var before := records;
        var removed := HardDelete(space, ids[i]);
        assert records.Keys == before.Keys - {ids[i]};
        assert |records| == |records.Keys| && |before| == |before.Keys|;
        if removed {
          deleted := deleted + 1;
        }
      }
      assert ids[..|ids|] == ids;
    }
  }
}
