/** The command-line status tool (addstatus.py): a JSON array of status records kept in
    public/statuses.json, read fresh on every run, changed in memory by add-or-update or
    delete, and written back whole; and the dispatcher that maps argv to help, list,
    delete or add-or-update.

    The file is the value `FileState`; the JSON encoding, the directory creation and the
    clock are outside the model (the timestamp `now` is a parameter). Printed lines are
    returned as `seq<string>`, one element per line, so ordering of messages and writes
    can be stated. */
module StatusStore {
  import opened Wrappers
  import opened Text

  /** One element of the stored JSON array. `status` is whatever the file holds. */
  datatype Record = Record(id: string, name: string, status: string, uptime: int, lastUpdated: string)

  /** The store file as a run finds it. */
  datatype FileState = Missing | Unparseable | Stored(records: seq<Record>)

  const ValidStatuses: seq<string> := ["operational", "degraded", "down"]

  /** What read_statuses returns for a file: a missing or corrupt file reads as []. */
  function Contents(f: FileState): (s: seq<Record>)
    ensures f.Stored? ==> s == f.records
    ensures !f.Stored? ==> s == []
  {
    if f.Stored? then f.records else []
  }

  predicate HasId(s: seq<Record>, id: string)
  {
    exists j :: 0 <= j < |s| && s[j].id == id
  }

  predicate UniqueIds(s: seq<Record>)
  {
    forall j, k :: 0 <= j < k < |s| ==> s[j].id != s[k].id
  }

  /** The first position whose record carries `id`. */
  function IndexOfId(s: seq<Record>, id: string): (r: Option<nat>)
    ensures r.None? <==> !HasId(s, id)
    ensures r.Some? ==> r.value < |s| && s[r.value].id == id
    ensures r.Some? ==> forall j :: 0 <= j < r.value ==> s[j].id != id
  {
    if s == [] then None
    else if s[0].id == id then Some(0)
    else
      match IndexOfId(s[1..], id)
      case None =>
        assert forall j :: 0 < j < |s| ==> s[j] == s[1..][j - 1];
        None
      case Some(i) =>
        assert s[i + 1] == s[1..][i];
        Some(i + 1)
  }

  /** The collection after add_status's in-memory step: the first record with `id` gets the
      new name, status and timestamp and keeps its uptime; with no such record a new one
      with uptime 0 is appended. */
  function Upserted(s: seq<Record>, id: string, name: string, status: string, now: string): (r: seq<Record>)
    ensures !HasId(s, id) ==> r == s + [Record(id, name, status, 0, now)]
    ensures HasId(s, id) ==> |r| == |s|
    ensures HasId(s, id) ==>
      var i := IndexOfId(s, id).value;
      r[i] == Record(id, name, status, s[i].uptime, now) &&
      forall j :: 0 <= j < |s| && j != i ==> r[j] == s[j]
  {
    match IndexOfId(s, id)
    case Some(i) => s[i := s[i].(name := name, status := status, lastUpdated := now)]
    case None => s + [Record(id, name, status, 0, now)]
  }

  /** Add-or-update keeps ids unique: a new id is appended only when absent. */
  lemma UpsertKeepsUnique(s: seq<Record>, id: string, name: string, status: string, now: string)
    requires UniqueIds(s)
    ensures UniqueIds(Upserted(s, id, name, status, now))
  {
    var r := Upserted(s, id, name, status, now);
    if HasId(s, id) {
      var i := IndexOfId(s, id).value;
      forall j, k | 0 <= j < k < |r| ensures r[j].id != r[k].id {
        assert r[j].id == s[j].id && r[k].id == s[k].id;
      }
    } else {
      forall j, k | 0 <= j < k < |r| ensures r[j].id != r[k].id {
        if k == |s| { assert r[j] == s[j]; } else { assert r[j] == s[j] && r[k] == s[k]; }
      }
    }
  }

  /** After add-or-update the id is present, and the set of ids grows by exactly that id. */
  lemma UpsertIds(s: seq<Record>, id: string, name: string, status: string, now: string)
    ensures HasId(Upserted(s, id, name, status, now), id)
    ensures forall x :: HasId(Upserted(s, id, name, status, now), x) <==> HasId(s, x) || x == id
  {
    var r := Upserted(s, id, name, status, now);
    if HasId(s, id) {
      var i := IndexOfId(s, id).value;
      assert r[i].id == id;
      forall x ensures HasId(r, x) <==> HasId(s, x) || x == id {
        if HasId(s, x) { var j :| 0 <= j < |s| && s[j].id == x; assert r[j].id == x; }
        if HasId(r, x) { var j :| 0 <= j < |r| && r[j].id == x; assert s[j].id == x; }
      }
    } else {
      assert r[|s|].id == id;
      forall x ensures HasId(r, x) <==> HasId(s, x) || x == id {
        if HasId(s, x) { var j :| 0 <= j < |s| && s[j].id == x; assert r[j].id == x; }
        if HasId(r, x) { var j :| 0 <= j < |r| && r[j].id == x; if j < |s| { assert s[j].id == x; } }
      }
    }
  }

  /** Two identical add calls in a row leave the same length as one call (only the
      timestamp of the touched record differs). */
  lemma UpsertTwiceSameLength(s: seq<Record>, id: string, name: string, status: string, now1: string, now2: string)
    ensures var once := Upserted(s, id, name, status, now1);
      var twice := Upserted(once, id, name, status, now2);
      |twice| == |once| && |once| <= |s| + 1
  {
    UpsertIds(s, id, name, status, now1);
  }

  /** The list comprehension of delete_status: the records whose id differs, in order. */
  function WithoutId(s: seq<Record>, id: string): (r: seq<Record>)
    ensures |r| <= |s|
    ensures forall x :: x in r <==> x in s && x.id != id
    ensures IsSubsequence(r, s)
    ensures |r| < |s| <==> HasId(s, id)
  {
    if s == [] then []
    else
      var rest := WithoutId(s[1..], id);
      assert HasId(s, id) <==> s[0].id == id || HasId(s[1..], id) by {
        if HasId(s, id) && s[0].id != id {
          var j :| 0 <= j < |s| && s[j].id == id;
          assert s[1..][j - 1].id == id;
        }
        if HasId(s[1..], id) {
          var j :| 0 <= j < |s| - 1 && s[1..][j].id == id;
          assert s[j + 1].id == id;
        }
      }
      if s[0].id == id then
        SubsequenceOfTail(rest, s);
        rest
      else
        [s[0]] + rest
  }

  /** With unique ids, deleting a present id removes exactly one record. */
  lemma {:induction false} DeleteRemovesOne(s: seq<Record>, id: string)
    requires UniqueIds(s) && HasId(s, id)
    ensures |WithoutId(s, id)| == |s| - 1
    decreases |s|
  {
    assert UniqueIds(s[1..]) by {
      forall j, k | 0 <= j < k < |s| - 1 ensures s[1..][j].id != s[1..][k].id {
        assert s[1..][j] == s[j + 1] && s[1..][k] == s[k + 1];
      }
    }
    if s[0].id == id {
      assert !HasId(s[1..], id) by {
        forall j | 0 <= j < |s| - 1 ensures s[1..][j].id != id {
          assert s[1..][j] == s[j + 1];
        }
      }
    } else {
      var j :| 0 <= j < |s| && s[j].id == id;
      assert s[1..][j - 1].id == id;
      DeleteRemovesOne(s[1..], id);
    }
  }

  /** The label map of list_statuses. */
  function StatusLabel(status: string): string
  {
    if status == "operational" then "正常运行"
    else if status == "degraded" then "性能下降"
    else if status == "down" then "服务中断"
    else "未知"
  }

  /** The three valid statuses get three different labels; every other value is 未知. */
  lemma StatusLabelCases(status: string)
    ensures StatusLabel(status) == "未知" <==> status !in ValidStatuses
    ensures forall a, b :: a in ValidStatuses && b in ValidStatuses && a != b ==> StatusLabel(a) != StatusLabel(b)
  {
  }

  const Rule: string := "--------------------------------------------------------------------------------"

  function RecordLines(r: Record): seq<string>
  {
    ["ID: " + r.id, "名称: " + r.name, "状态: " + StatusLabel(r.status), "最后更新: " + r.lastUpdated, Rule]
  }

  function ListingBody(s: seq<Record>): seq<string>
  {
    if s == [] then [] else ListingBody(s[..|s| - 1]) + RecordLines(s[|s| - 1])
  }

  /** Everything list_statuses prints for a collection. */
  function Listing(s: seq<Record>): seq<string>
  {
    if s == [] then ["暂无状态数据"] else ["", "当前状态列表:", Rule] + ListingBody(s)
  }

  /** The listing prints five lines per record, record k at lines 5k .. 5k+4 of the body,
      its status line carrying the label of its stored status. */
  lemma {:induction false} ListingLayout(s: seq<Record>, k: nat)
    requires k < |s|
    ensures |ListingBody(s)| == 5 * |s|
    ensures ListingBody(s)[5 * k..5 * k + 5] == RecordLines(s[k])
    ensures ListingBody(s)[5 * k + 2] == "状态: " + StatusLabel(s[k].status)
    decreases |s|
  {
    var init := s[..|s| - 1];
    if k < |s| - 1 {
      ListingLayout(init, k);
      assert init[k] == s[k];
    } else if |s| > 1 {
      ListingLayout(init, 0);
    }
  }

  /** The store file and the counters of how often a run read or wrote it. */
  class Disk {
    var file: FileState
    /** Whether writing fails in this environment (permissions, full disk). */
    const writeFails: bool
    var readCount: nat
    var writeCount: nat

    constructor (file: FileState, writeFails: bool)
      ensures this.file == file && this.writeFails == writeFails
      ensures readCount == 0 && writeCount == 0
    {
      this.file := file;
      this.writeFails := writeFails;
      readCount := 0;
      writeCount := 0;
    }

    /** read_statuses: never fails; a missing or unparseable file reads as []. */
    method ReadStatuses() returns (statuses: seq<Record>)
      modifies this`readCount
      ensures statuses == Contents(file)
      ensures readCount == old(readCount) + 1
    {
      readCount := readCount + 1;
      match file
      case Stored(records) => statuses := records;
      case _ => statuses := [];
    }

    /** write_statuses: replaces the whole file on success. On failure nothing is
        promised about the file (opening it for writing may already have truncated it). */
    method WriteStatuses(statuses: seq<Record>) returns (ok: bool)
      modifies this`file, this`writeCount
      ensures ok == !writeFails
      ensures ok ==> file == Stored(statuses)
      ensures writeCount == old(writeCount) + 1
    {
      writeCount := writeCount + 1;
      if writeFails {
        ok := false;
      } else {
        file := Stored(statuses);
        ok := true;
      }
    }
  }

  /** Writing a collection and reading it back gives the same collection. */
  method WriteThenRead(disk: Disk, statuses: seq<Record>) returns (back: seq<Record>)
    requires !disk.writeFails
    modifies disk
    ensures back == statuses
  {
    var ok := disk.WriteStatuses(statuses);
    back := disk.ReadStatuses();
  }

  /** The for/enumerate loop of add_status that finds the first record with `id`. */
  method FindExisting(statuses: seq<Record>, id: string) returns (existing: Option<nat>)
    ensures existing == IndexOfId(statuses, id)
  {
    existing := None;
    var i := 0;
    while i < |statuses|
      invariant 0 <= i <= |statuses|
      invariant forall j :: 0 <= j < i ==> statuses[j].id != id
    {
      if statuses[i].id == id {
        existing := Some(i);
        return;
      }
      i := i + 1;
    }
  }

  /** add_status: read, update the first match in place or append, print the
      updated/added message, then write; the timestamp line follows only a successful
      write, while the first message is printed whether or not the write succeeds. */
  method AddStatus(disk: Disk, id: string, name: string, status: string, now: string) returns (ok: bool, out: seq<string>)
    modifies disk
    ensures disk.readCount == old(disk.readCount) + 1 && disk.writeCount == old(disk.writeCount) + 1
    ensures ok == !disk.writeFails
    ensures ok ==> disk.file == Stored(Upserted(Contents(old(disk.file)), id, name, status, now))
    ensures out == [if HasId(Contents(old(disk.file)), id) then "已更新状态: " + name else "已添加状态: " + name]
                   + (if ok then ["当前时间: " + now] else [])
  {
    var statuses := disk.ReadStatuses();
    var existing := FindExisting(statuses, id);
    if existing.Some? {
      var i := existing.value;
      statuses := statuses[i := statuses[i].(name := name, status := status, lastUpdated := now)];
      out := ["已更新状态: " + name];
    } else {
      statuses := statuses + [Record(id, name, status, 0, now)];
      out := ["已添加状态: " + name];
    }
    ok := disk.WriteStatuses(statuses);
    if ok {
      out := out + ["当前时间: " + now];
    }
  }

  /** delete_status: writes only when the filter removed something. */
  method DeleteStatus(disk: Disk, id: string) returns (ok: bool, out: seq<string>)
    modifies disk
    ensures disk.readCount == old(disk.readCount) + 1
    ensures HasId(Contents(old(disk.file)), id) ==>
      disk.writeCount == old(disk.writeCount) + 1 && ok == !disk.writeFails &&
      (ok ==> disk.file == Stored(WithoutId(Contents(old(disk.file)), id))) &&
      out == (if ok then ["已删除状态 ID: " + id] else [])
    ensures !HasId(Contents(old(disk.file)), id) ==>
      disk.writeCount == old(disk.writeCount) && disk.file == old(disk.file) &&
      !ok && out == ["未找到状态 ID: " + id]
  {
    var statuses := disk.ReadStatuses();
    var originalCount := |statuses|;
    statuses := WithoutId(statuses, id);
    if |statuses| < originalCount {
      ok := disk.WriteStatuses(statuses);
      out := if ok then ["已删除状态 ID: " + id] else [];
    } else {
      out := ["未找到状态 ID: " + id];
      ok := false;
    }
  }

  /** list_statuses. */
  method ListStatuses(disk: Disk) returns (out: seq<string>)
    modifies disk`readCount
    ensures out == Listing(Contents(disk.file))
    ensures disk.readCount == old(disk.readCount) + 1
  {
    var statuses := disk.ReadStatuses();
    if statuses == [] {
      out := ["暂无状态数据"];
      return;
    }
    out := ["", "当前状态列表:", Rule];
    var i := 0;
    while i < |statuses|
      invariant 0 <= i <= |statuses|
      invariant out == ["", "当前状态列表:", Rule] + ListingBody(statuses[..i])
    {
      assert statuses[..i + 1][..i] == statuses[..i];
      out := out + RecordLines(statuses[i]);
      i := i + 1;
    }
    assert statuses[..i] == statuses;
  }

  /** What main makes of argv (argv[0] is the script path). */
  datatype Command =
    | Help
    | List
    | Delete(id: string)
    | DeleteWithoutId
    | StatusWordAsId
    | TooFewArguments
    | InvalidStatus
    | Add(id: string, name: string, status: string)

  /** The branch chain of main. The command word is lower-cased before every test, so a
      status word in first place is refused in any case and with any number of arguments
      after it; id and name are taken verbatim; the status is lower-cased and must be one
      of the three values. */
  function ParseArgs(argv: seq<string>): (c: Command)
    ensures c.Help? <==> |argv| < 2
    ensures c.List? <==> |argv| >= 2 && Lower(argv[1]) == "list"
    ensures c.Delete? <==> |argv| >= 3 && Lower(argv[1]) == "delete"
    ensures c.Delete? ==> c.id == argv[2]
    ensures c.DeleteWithoutId? <==> |argv| == 2 && Lower(argv[1]) == "delete"
    ensures c.StatusWordAsId? <==> |argv| >= 2 && Lower(argv[1]) in ValidStatuses
    ensures c.TooFewArguments? <==>
      2 <= |argv| < 4 && Lower(argv[1]) !in ["list", "delete"] + ValidStatuses
    ensures c.InvalidStatus? <==>
      |argv| >= 4 && Lower(argv[1]) !in ["list", "delete"] + ValidStatuses && Lower(argv[3]) !in ValidStatuses
    ensures c.Add? <==>
      |argv| >= 4 && Lower(argv[1]) !in ["list", "delete"] + ValidStatuses && Lower(argv[3]) in ValidStatuses
    ensures c.Add? ==> c.id == argv[1] && c.name == argv[2] && c.status == Lower(argv[3])
  {
    if |argv| < 2 then Help
    else
      var command := Lower(argv[1]);
      if command == "list" then List
      else if command == "delete" then
        if |argv| < 3 then DeleteWithoutId else Delete(argv[2])
      else if command in ValidStatuses then StatusWordAsId
      else if |argv| < 4 then TooFewArguments
      else
        var status := Lower(argv[3]);
        if status !in ValidStatuses then InvalidStatus else Add(argv[1], argv[2], status)
  }

  const HelpText: seq<string> := [
    "状态管理工具", "", "用法:", "  添加/更新状态:",
    "    python addstatus.py <id> <name> <status>",
    "    状态可选值: operational, degraded, down",
    "", "  删除状态:", "    python addstatus.py delete <id>",
    "", "  列出所有状态:", "    python addstatus.py list",
    "", "示例:",
    "  python addstatus.py web-server Web服务器 operational",
    "  python addstatus.py database 数据库 operational",
    "  python addstatus.py delete web-server",
    "  python addstatus.py list"
  ]

  /** The lines main prints for a command that never touches the store. */
  function ErrorText(c: Command): seq<string>
  {
    match c
    case DeleteWithoutId => ["错误: 请提供要删除的状态 ID", "用法: python addstatus.py delete <id>"]
    case StatusWordAsId => ["错误: 请提供状态 ID 和名称", "用法: python addstatus.py <id> <name> <status>"]
    case TooFewArguments =>
      ["错误: 参数不足", "用法: python addstatus.py <id> <name> <status>", "状态可选值: operational, degraded, down"]
    case InvalidStatus => ["错误: 状态值无效", "状态可选值: operational, degraded, down"]
    case _ => HelpText
  }

  /** main: help and every argument error print and leave the store alone (not even
      read); list only reads; delete and add-or-update do a full read-modify-write. */
  method Run(disk: Disk, argv: seq<string>, now: string) returns (out: seq<string>)
    modifies disk
    ensures var c := ParseArgs(argv);
      !(c.List? || c.Delete? || c.Add?) ==> unchanged(disk) && out == ErrorText(c)
    ensures ParseArgs(argv).List? ==>
      out == Listing(Contents(disk.file)) && disk.file == old(disk.file) &&
      disk.writeCount == old(disk.writeCount) && disk.readCount == old(disk.readCount) + 1
    ensures ParseArgs(argv).Delete? ==>
      var id := ParseArgs(argv).id;
      disk.readCount == old(disk.readCount) + 1 &&
      (HasId(Contents(old(disk.file)), id) <==> disk.writeCount == old(disk.writeCount) + 1) &&
      (!HasId(Contents(old(disk.file)), id) ==> disk.file == old(disk.file)) &&
      (HasId(Contents(old(disk.file)), id) && !disk.writeFails ==>
        disk.file == Stored(WithoutId(Contents(old(disk.file)), id))) &&
      out == (if !HasId(Contents(old(disk.file)), id) then ["未找到状态 ID: " + id]
              else if disk.writeFails then [] else ["已删除状态 ID: " + id])
    ensures ParseArgs(argv).Add? ==>
      var c := ParseArgs(argv);
      disk.readCount == old(disk.readCount) + 1 && disk.writeCount == old(disk.writeCount) + 1 &&
      (!disk.writeFails ==> disk.file == Stored(Upserted(Contents(old(disk.file)), c.id, c.name, c.status, now))) &&
      out == [if HasId(Contents(old(disk.file)), c.id) then "已更新状态: " + c.name else "已添加状态: " + c.name]
             + (if disk.writeFails then [] else ["当前时间: " + now])
  {
    var c := ParseArgs(argv);
    match c
    case List =>
      out := ListStatuses(disk);
    case Delete(id) =>
      var _, o := DeleteStatus(disk, id);
      out := o;
    case Add(id, name, status) =>
      var _, o := AddStatus(disk, id, name, status, now);
      out := o;
    case _ =>
      out := ErrorText(c);
  }

  /** Updating svc-a with status "DOWN" stores "down" and keeps its uptime. */
  lemma MixedCaseUpdate(uptime: int, earlier: string, now: string)
    ensures var s := [Record("svc-a", "Service A", "operational", uptime, earlier)];
      var c := ParseArgs(["addstatus.py", "svc-a", "Service A", "DOWN"]);
      c == Add("svc-a", "Service A", "down") &&
      Upserted(s, c.id, c.name, c.status, now) == [Record("svc-a", "Service A", "down", uptime, now)]
  {
    var s := [Record("svc-a", "Service A", "operational", uptime, earlier)];
    assert Lower("DOWN") == "down";
    assert Lower("svc-a") == "svc-a";
    assert HasId(s, "svc-a") by { assert s[0].id == "svc-a"; }
  }
}
