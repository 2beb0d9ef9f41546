/** The in-memory metadata store (pkg/metadata/store.go): buckets and active multipart uploads. */
module MetadataStore {
  import opened MultipartModel

  datatype Outcome<+T> = Ok(value: T) | BucketExists | BucketNotFound | UploadNotFound

  ghost predicate OldestFirst(uploads: map<string, Upload>, ids: seq<string>) {
    && (forall id :: id in ids ==> id in uploads)
    && forall i, j :: 0 <= i < j < |ids| ==> uploads[ids[i]].initiated <= uploads[ids[j]].initiated
  }

  lemma InsertOldest(uploads: map<string, Upload>, ids: seq<string>, id: string, i: nat)
    requires OldestFirst(uploads, ids) && id in uploads && id !in ids && i <= |ids|
    requires forall j :: 0 <= j < i ==> uploads[ids[j]].initiated <= uploads[id].initiated
    requires i < |ids| ==> uploads[id].initiated <= uploads[ids[i]].initiated
    requires forall j, k :: 0 <= j < k < |ids| ==> ids[j] != ids[k]
    ensures var out := ids[..i] + [id] + ids[i..];
            && OldestFirst(uploads, out)
            && (forall x :: x in out <==> x in ids || x == id)
            && forall j, k :: 0 <= j < k < |out| ==> out[j] != out[k]
  {
    assert ids == ids[..i] + ids[i..];
  }

  class MemoryStore {
    var buckets: set<string>
    var uploads: map<string, Upload>

    constructor ()
      ensures buckets == {} && uploads == map[]
    {
      buckets, uploads := {}, map[];
    }

    method CreateBucket(name: string) returns (r: Outcome<()>)
      modifies this
      ensures uploads == old(uploads)
      ensures r == if name in old(buckets) then BucketExists else Ok(())
      ensures buckets == old(buckets) + {name}
    {
      if name in buckets { return BucketExists; }
      buckets := buckets + {name};
      return Ok(());
    }

    method DeleteBucket(name: string) returns (r: Outcome<()>)
      modifies this
      ensures uploads == old(uploads)
      ensures r == if name in old(buckets) then Ok(()) else BucketNotFound
      ensures buckets == old(buckets) - {name}
    {
      if name !in buckets { return BucketNotFound; }
      buckets := buckets - {name};
      return Ok(());
    }

    /** `id` is the freshly drawn random upload id, `now` the clock. */
    method InitiateMultipartUpload(bucket: string, key: string, id: string, now: int)
      requires id !in uploads
      modifies this
      ensures buckets == old(buckets)
      ensures uploads == old(uploads)[id := Upload(bucket, key, now, map[])]
    {
      uploads := uploads[id := Upload(bucket, key, now, map[])];
    }

    method GetMultipartUpload(id: string) returns (r: Outcome<Upload>)
      ensures r == if id in uploads then Ok(uploads[id]) else UploadNotFound
    {
      return if id in uploads then Ok(uploads[id]) else UploadNotFound;
    }

    method PutPart(id: string, n: nat, etag: string, size: nat) returns (r: Outcome<()>)
      modifies this
      ensures buckets == old(buckets)
      ensures r == if id in old(uploads) then Ok(()) else UploadNotFound
      ensures uploads == if id in old(uploads)
                         then old(uploads)[id := old(uploads)[id].(parts := old(uploads)[id].parts[n := Part(etag, size)])]
                         else old(uploads)
    {
      if id !in uploads { return UploadNotFound; }
      var u := uploads[id];
      uploads := uploads[id := u.(parts := u.parts[n := Part(etag, size)])];
      return Ok(());
    }

    method CompleteMultipartUpload(id: string) returns (r: Outcome<Upload>)
      modifies this
      ensures buckets == old(buckets)
      ensures r == if id in old(uploads) then Ok(old(uploads)[id]) else UploadNotFound
      ensures uploads == old(uploads) - {id}
    {
      if id !in uploads { return UploadNotFound; }
      r := Ok(uploads[id]);
      uploads := uploads - {id};
    }

    method AbortMultipartUpload(id: string) returns (r: Outcome<()>)
      modifies this
      ensures buckets == old(buckets)
      ensures r == if id in old(uploads) then Ok(()) else UploadNotFound
      ensures uploads == old(uploads) - {id}
    {
      if id !in uploads { return UploadNotFound; }
      uploads := uploads - {id};
      return Ok(());
    }

    /** Active uploads of a bucket, or of all buckets for "", each once, oldest first; ties in any order. */
    method ListMultipartUploads(bucket: string) returns (ids: seq<string>)
      ensures forall id :: id in ids <==> id in uploads && (bucket == "" || uploads[id].bucket == bucket)
      ensures forall i, j :: 0 <= i < j < |ids| ==> ids[i] != ids[j]
      ensures OldestFirst(uploads, ids)
    {
      ids := [];
      var todo := uploads.Keys;
      while todo != {}
        invariant todo <= uploads.Keys
        invariant forall id :: id in ids <==> id in uploads && id !in todo && (bucket == "" || uploads[id].bucket == bucket)
        invariant forall i, j :: 0 <= i < j < |ids| ==> ids[i] != ids[j]
        invariant OldestFirst(uploads, ids)
        decreases todo
      {
        var id :| id in todo;
        todo := todo - {id};
        if bucket == "" || uploads[id].bucket == bucket {
          var i := 0;
          while i < |ids| && uploads[ids[i]].initiated <= uploads[id].initiated
            invariant 0 <= i <= |ids|
            invariant forall j :: 0 <= j < i ==> uploads[ids[j]].initiated <= uploads[id].initiated
          {
            i := i + 1;
          }
          InsertOldest(uploads, ids, id, i);
          ids := ids[..i] + [id] + ids[i..];
        }
      }
    }

    method ActiveMultipartCount(bucket: string) returns (n: nat)
      ensures n == |set id | id in uploads && uploads[id].bucket == bucket|
      ensures n == 0 <==> forall id :: id in uploads ==> uploads[id].bucket != bucket
    {
      n := 0;
      ghost var counted: set<string> := {};
      var todo := uploads.Keys;
      while todo != {}
        invariant todo <= uploads.Keys
        invariant counted == set id | id in uploads && id !in todo && uploads[id].bucket == bucket
        invariant n == |counted|
        decreases todo
      {
        var id :| id in todo;
        todo := todo - {id};
        if uploads[id].bucket == bucket {
          n := n + 1;
          counted := counted + {id};
        }
      }
      assert counted == set id | id in uploads && uploads[id].bucket == bucket;
      if n != 0 {
        ghost var id :| id in counted;
      } else {
        forall id | id in uploads ensures uploads[id].bucket != bucket {
          assert id !in counted;
        }
      }
    }
  }
}
