/** The HTTP twin of the status store (app/api/status/route.ts): the same record file
    (kept under data/ instead of public/), GET returning it, POST adding or updating one
    record, DELETE removing records by id. Unlike the command-line tool, POST does not
    check the status against the three known values, and DELETE always writes. */
module StatusApi {
  import opened Wrappers
  import opened StatusStore

  /** The destructured POST body; None stands for a property that is absent or null. */
  datatype PostBody = PostBody(id: Option<string>, name: Option<string>, status: Option<string>)

  /** JavaScript truthiness of an optional string: present and non-empty. */
  predicate Truthy(v: Option<string>)
  {
    v.Some? && v.value != ""
  }

  /** The JSON responses: `{ success: true, statuses }` with status 200, or `{ error }`
      with the given HTTP status. */
  datatype ApiResponse = Success(statuses: seq<Record>) | Failure(code: int, error: string)

  /** Add-or-update grows the collection by at most one record and never shrinks it. */
  lemma UpsertGrowsByAtMostOne(s: seq<Record>, id: string, name: string, status: string, now: string)
    ensures |s| <= |Upserted(s, id, name, status, now)| <= |s| + 1
  {
  }

  /** GET: the current collection, [] for a missing or corrupt file. */
  method Get(disk: Disk) returns (statuses: seq<Record>)
    modifies disk`readCount
    ensures statuses == Contents(disk.file)
  {
    statuses := disk.ReadStatuses();
  }

  /** POST. `body` is None when request.json() throws. */
  method Post(disk: Disk, body: Option<PostBody>, now: string) returns (resp: ApiResponse)
    modifies disk
    ensures body.None? ==> resp == Failure(500, "服务器错误") && unchanged(disk)
    ensures body.Some? && !(Truthy(body.value.id) && Truthy(body.value.name) && Truthy(body.value.status)) ==>
      resp == Failure(400, "缺少必要参数") && unchanged(disk)
    ensures body.Some? && Truthy(body.value.id) && Truthy(body.value.name) && Truthy(body.value.status) ==>
      var updated := Upserted(Contents(old(disk.file)), body.value.id.value, body.value.name.value, body.value.status.value, now);
      disk.readCount == old(disk.readCount) + 1 && disk.writeCount == old(disk.writeCount) + 1 &&
      (!disk.writeFails ==> disk.file == Stored(updated) && resp == Success(updated)) &&
      (disk.writeFails ==> resp == Failure(500, "保存状态失败"))
  {
    if body.None? {
      return Failure(500, "服务器错误");
    }
    var b := body.value;
    if !(Truthy(b.id) && Truthy(b.name) && Truthy(b.status)) {
      return Failure(400, "缺少必要参数");
    }
    var id, name, status := b.id.value, b.name.value, b.status.value;
    var statuses := disk.ReadStatuses();
    var existingIndex := IndexOfId(statuses, id);
    if existingIndex.Some? {
      var i := existingIndex.value;
      statuses := statuses[i := statuses[i].(name := name, status := status, lastUpdated := now)];
    } else {
      statuses := statuses + [Record(id, name, status, 0, now)];
    }
    var success := disk.WriteStatuses(statuses);
    if success {
      resp := Success(statuses);
    } else {
      resp := Failure(500, "保存状态失败");
    }
  }

  /** DELETE ?id=…: removes every record with that id and writes the result back even
      when nothing matched. `idParam` is None when the query has no id. */
  method Delete(disk: Disk, idParam: Option<string>) returns (resp: ApiResponse)
    modifies disk
    ensures !Truthy(idParam) ==> resp == Failure(400, "缺少 id 参数") && unchanged(disk)
    ensures Truthy(idParam) ==>
      var filtered := WithoutId(Contents(old(disk.file)), idParam.value);
      disk.readCount == old(disk.readCount) + 1 && disk.writeCount == old(disk.writeCount) + 1 &&
      (!disk.writeFails ==> disk.file == Stored(filtered) && resp == Success(filtered)) &&
      (disk.writeFails ==> resp == Failure(500, "删除状态失败"))
  {
    if !Truthy(idParam) {
      return Failure(400, "缺少 id 参数");
    }
    var statuses := disk.ReadStatuses();
    var filteredStatuses := WithoutId(statuses, idParam.value);
    var success := disk.WriteStatuses(filteredStatuses);
    if success {
      resp := Success(filteredStatuses);
    } else {
      resp := Failure(500, "删除状态失败");
    }
  }
}
