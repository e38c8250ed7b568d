/**
 * The two capped lists StorageManager keeps (storage.js): the version
 * history, newest first, at most ten entries and evicted from the tail to
 * respect a size quota; and the backup ring, newest first, at most five
 * entries. Both are looked up by id with `Array.prototype.find`.
 */
module Ledger {
  import opened Wrappers
  import opened Json
  import opened Project

  const MaxHistoryVersions := 10
  const MaxBackups := 5
  /** storageQuotas.maxHistorySize: 2 MiB. */
  const MaxHistorySize := 2 * 1024 * 1024

  /** generateHistoryId: `'history_' + Date.now() + '_' + random`. */
  function NewHistoryId(env: Env): (id: string)
    ensures |id| > 0
  {
    "history_" + env.historyToken
  }

  /** generateBackupId: `'backup_' + Date.now() + '_' + random`. */
  function NewBackupId(env: Env): (id: string)
    ensures |id| > 0
  {
    "backup_" + env.backupToken
  }

  function StrList(ss: seq<string>): (r: seq<Value>)
    ensures |r| == |ss| && forall i | 0 <= i < |ss| :: r[i] == Str(ss[i])
  {
    seq(|ss|, i requires 0 <= i < |ss| => Str(ss[i]))
  }

  /** The entry addToHistory records: `{id, project: {...p}, timestamp, size, changes}`. */
  function HistoryEntry(id: string, project: Value, now: Timestamp, size: nat, changes: seq<string>): (e: Value)
    ensures e.Obj? && e.keys == ["id", "project", "timestamp", "size", "changes"]
    ensures Get(e, "id") == Str(id) && Get(e, "project") == Copy(project)
    ensures Get(e, "timestamp") == Str(now) && Get(e, "size") == Num(size)
    ensures Get(e, "changes") == Arr(StrList(changes))
  {
    Obj(["id", "project", "timestamp", "size", "changes"],
        map["id" := Str(id), "project" := Copy(project), "timestamp" := Str(now),
            "size" := Num(size), "changes" := Arr(StrList(changes))])
  }

  /** The entry createBackup records: `{id, project: {...p}, reason, timestamp, size}`. */
  function BackupEntry(id: string, project: Value, reason: string, now: Timestamp, size: nat): (e: Value)
    ensures e.Obj? && e.keys == ["id", "project", "reason", "timestamp", "size"]
    ensures Get(e, "id") == Str(id) && Get(e, "project") == Copy(project)
    ensures Get(e, "reason") == Str(reason) && Get(e, "timestamp") == Str(now) && Get(e, "size") == Num(size)
  {
    Obj(["id", "project", "reason", "timestamp", "size"],
        map["id" := Str(id), "project" := Copy(project), "reason" := Str(reason),
            "timestamp" := Str(now), "size" := Num(size)])
  }

  /** `history[0]?.project`: the project of the newest entry, `undefined` when there is none. */
  function PreviousProject(h: seq<Value>): (prev: Value)
    ensures |h| == 0 ==> prev == Undefined
    ensures |h| > 0 && h[0].Obj? ==> prev == Get(h[0], "project")
    ensures |h| > 0 && !h[0].Obj? ==> prev == Undefined
  {
    if |h| == 0 || Nullish(h[0]) then Undefined else Get(h[0], "project")
  }

  /** `list.slice(0, n)` / `list.splice(n)`: the first `n` elements, or all of them. */
  function Cap(list: seq<Value>, n: nat): (r: seq<Value>)
    ensures |r| == if |list| <= n then |list| else n
    ensures r == list[..|r|]
  {
    if |list| <= n then list else list[..n]
  }

  /**
   * The eviction loop of addToHistory: drop the oldest entry while the
   * serialized history is over the quota and more than one entry is left.
   * The result is a prefix of the input, keeps at least one entry of a
   * non-empty input and, unless a single entry is left, fits the quota.
   */
  function Evict(h: seq<Value>, size: Value -> nat): (r: seq<Value>)
    ensures |r| <= |h| && r == h[..|r|]
    ensures |h| > 0 ==> |r| > 0
    ensures |r| > 1 ==> size(Arr(r)) <= MaxHistorySize
    decreases |h|
  {
    if size(Arr(h)) > MaxHistorySize && |h| > 1 then Evict(h[..|h| - 1], size) else h
  }

  /** Eviction stops at the longest prefix that fits: every longer prefix is over the quota. */
  lemma {:induction false} EvictMinimal(h: seq<Value>, size: Value -> nat, n: nat)
    requires |Evict(h, size)| < n <= |h|
    ensures size(Arr(h[..n])) > MaxHistorySize
    decreases |h|
  {
    if n < |h| {
      var h' := h[..|h| - 1];
      assert h'[..n] == h[..n];
      EvictMinimal(h', size, n);
    } else {
      assert h[..n] == h;
    }
  }

  /** A history that already fits the quota is not evicted from. */
  lemma EvictWithinQuota(h: seq<Value>, size: Value -> nat)
    requires size(Arr(h)) <= MaxHistorySize
    ensures Evict(h, size) == h
  {
  }

  /** The history addToHistory writes: the entry in front, capped to ten, then evicted. */
  function PushHistory(h: seq<Value>, entry: Value, size: Value -> nat): (r: seq<Value>)
    ensures 1 <= |r| <= MaxHistoryVersions && r[0] == entry
  {
    Evict(Cap([entry] + h, MaxHistoryVersions), size)
  }

  /**
   * After adding, the new entry is first, there are between one and ten
   * entries, the older survivors are a prefix of the previous history in
   * order, and a history of more than one entry fits the quota.
   */
  lemma PushHistoryShape(h: seq<Value>, entry: Value, size: Value -> nat)
    ensures var r := PushHistory(h, entry, size);
      && 1 <= |r| <= MaxHistoryVersions
      && r[0] == entry
      && r[1..] == h[..|r| - 1]
      && (|r| > 1 ==> size(Arr(r)) <= MaxHistorySize)
  {
    var c := Cap([entry] + h, MaxHistoryVersions);
    var r := Evict(c, size);
    assert r == c[..|r|];
    assert c == ([entry] + h)[..|c|];
    forall i | 1 <= i < |r| ensures r[i] == h[i - 1] {
      assert r[i] == c[i] == ([entry] + h)[i];
    }
    assert r[1..] == h[..|r| - 1];
  }

  /** The backup list createBackup writes: the backup in front, the five newest kept. */
  function PushBackup(b: seq<Value>, backup: Value): (r: seq<Value>)
    ensures |r| == if |b| < MaxBackups then |b| + 1 else MaxBackups
    ensures r[0] == backup && r[1..] == b[..|r| - 1]
  {
    var r := Cap([backup] + b, MaxBackups);
    assert r[1..] == ([backup] + b)[1..|r|];
    r
  }

  /** `entry.id === id`. */
  predicate HasId(entry: Value, id: string) {
    Get(entry, "id") == Str(id)
  }

  /** The outcome of `list.find(e => e.id === id)`. */
  datatype Search = Threw | Missing | Found(index: nat)

  /**
   * `list.find(e => e.id === id)`, which throws a TypeError when it reaches
   * a `null`/`undefined` element before a match. A found entry is the first
   * match; a missing one means no element matches.
   */
  function FindById(list: seq<Value>, id: string): (r: Search)
    ensures r.Found? ==> r.index < |list| && HasId(list[r.index], id)
    ensures r.Found? ==> forall j | 0 <= j < r.index :: !Nullish(list[j]) && !HasId(list[j], id)
    ensures r.Missing? <==> forall j | 0 <= j < |list| :: !Nullish(list[j]) && !HasId(list[j], id)
    ensures r.Threw? ==> exists i | 0 <= i < |list| :: Nullish(list[i]) && forall j | 0 <= j < i :: !HasId(list[j], id)
    decreases |list|
  {
    if list == [] then Missing
    else if Nullish(list[0]) then Threw
    else if HasId(list[0], id) then Found(0)
    else
      var rest := FindById(list[1..], id);
      match rest
      case Found(i) => Found(i + 1)
      case Missing => Missing
      case Threw =>
        var i :| 0 <= i < |list[1..]| && Nullish(list[1..][i]) && forall j | 0 <= j < i :: !HasId(list[1..][j], id);
        assert Nullish(list[i + 1]) && forall j | 0 <= j < i + 1 :: !HasId(list[j], id) by {
          forall j | 0 <= j < i + 1 ensures !HasId(list[j], id) {
            if j > 0 { assert list[j] == list[1..][j - 1]; }
          }
        }
        Threw
  }

  /** An entry added to the front is found by its id. */
  lemma FindNewest(list: seq<Value>, entry: Value, id: string)
    requires HasId(entry, id)
    ensures FindById([entry] + list, id) == Found(0)
  {
  }
}
