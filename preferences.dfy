/**
 * User preferences (storage.js): the defaults, the shallow merge of stored
 * preferences over them, and the dotted-key update that walks and creates
 * nested objects.
 */
module Preferences {
  import opened Wrappers
  import opened Json

  const Notifications := Obj(
    ["saveSuccess", "autoSave", "errors", "warnings"],
    map["saveSuccess" := Bool(true), "autoSave" := Bool(false), "errors" := Bool(true), "warnings" := Bool(true)])

  const Shortcuts := Obj(
    ["save", "run", "format", "toggleTheme"],
    map["save" := Str("Ctrl+S"), "run" := Str("Ctrl+Enter"), "format" := Str("Ctrl+Shift+F"),
        "toggleTheme" := Str("Ctrl+Shift+T")])

  const DefaultKeys := [
    "autoSave", "livePreview", "fontSize", "tabSize", "wordWrap", "theme", "lastActiveFile",
    "editorMode", "previewMode", "consoleEnabled", "snippetsEnabled", "historyEnabled",
    "compressionEnabled", "backupEnabled", "analyticsEnabled", "notifications", "shortcuts"]

  /** getDefaultPreferences. */
  const Defaults := Obj(DefaultKeys, map[
    "autoSave" := Bool(true),
    "livePreview" := Bool(true),
    "fontSize" := Num(14),
    "tabSize" := Num(2),
    "wordWrap" := Bool(true),
    "theme" := Str("vs-dark"),
    "lastActiveFile" := Str("html"),
    "editorMode" := Str("monaco"),
    "previewMode" := Str("desktop"),
    "consoleEnabled" := Bool(true),
    "snippetsEnabled" := Bool(true),
    "historyEnabled" := Bool(true),
    "compressionEnabled" := Bool(true),
    "backupEnabled" := Bool(true),
    "analyticsEnabled" := Bool(true),
    "notifications" := Notifications,
    "shortcuts" := Shortcuts])

  /** A key's length and first character; distinct tags mean distinct keys. */
  function Tag(k: string): int {
    if |k| == 0 then 0 else |k| * 1000 + k[0] as int
  }

  lemma DistinctByTag(ks: seq<string>)
    requires forall i, j | 0 <= i < j < |ks| :: Tag(ks[i]) != Tag(ks[j])
    ensures Distinct(ks)
  {
  }

  lemma DefaultKeysDistinct()
    ensures Distinct(DefaultKeys)
  {
    var tags := [8097, 11108, 8102, 7116, 8119, 5116, 14108, 10101, 11112, 14099, 15115, 14104, 18099, 13098, 16097, 13110, 9115];
    forall i | 0 <= i < |DefaultKeys| ensures Tag(DefaultKeys[i]) == tags[i] {
    }
    DistinctByTag(DefaultKeys);
  }

  /** The defaults are a JavaScript object: every key once, each with a value. */
  lemma DefaultsWellFormed()
    ensures WellFormed(Defaults)
  {
    DefaultKeysDistinct();
  }

  /** The defaults switch auto-save, history and analytics on. */
  lemma DefaultsEnableFeatures()
    ensures Truthy(Get(Defaults, "autoSave")) && Truthy(Get(Defaults, "historyEnabled"))
    ensures Truthy(Get(Defaults, "analyticsEnabled"))
  {
  }

  /** The copy `{...defaults}` setPreferences spreads first is the defaults themselves. */
  lemma DefaultsCopy()
    ensures Spread(EmptyObject, Defaults) == Defaults
  {
    DefaultsWellFormed();
    CopyOfObject(Defaults);
  }

  /**
   * setPreferences' merge `{...defaults, ...p}`: the given fields over
   * (a copy of, by DefaultsCopy) the defaults.
   */
  function Merge(p: Value): (r: Value)
    ensures r.Obj? && Defaults.keys <= r.keys
    ensures !p.Obj? ==> r == Defaults
  {
    Spread(Defaults, p)
  }

  /**
   * A merged key holds the given preference when the given object has it,
   * and the default otherwise; only the top level is merged.
   */
  lemma MergeGet(p: Value, k: string)
    requires WellFormed(p)
    ensures Get(Merge(p), k) == if k in p.props then p.props[k] else Get(Defaults, k)
  {
    SpreadGet(Defaults, p, k);
  }

  /** Merging what a merge produced changes nothing that can be read. */
  lemma MergeIdempotent(p: Value, k: string)
    requires WellFormed(p)
    ensures Get(Merge(Merge(p)), k) == Get(Merge(p), k)
  {
    MergeGet(p, k);
    MergeWellFormed(p);
    MergeGet(Merge(p), k);
    SpreadKeysDomain(Defaults, p.keys, p.props, k);
    DefaultsWellFormed();
  }

  lemma {:induction false} SpreadKeysWellFormed(acc: Value, keys: seq<string>, props: map<string, Value>)
    requires WellFormed(acc)
    ensures WellFormed(SpreadKeys(acc, keys, props))
    decreases |keys|
  {
    if keys != [] {
      var acc' := if keys[0] in props then Set(acc, keys[0], props[keys[0]]) else acc;
      SpreadKeysWellFormed(acc', keys[1..], props);
    }
  }

  /** The merge builds a JavaScript object: each key once, in order. */
  lemma MergeWellFormed(p: Value)
    ensures WellFormed(Merge(p))
  {
    DefaultsWellFormed();
    if p.Obj? {
      SpreadKeysWellFormed(Defaults, p.keys, p.props);
    }
  }

  // ---------------------------------------------------------------------------
  // Dotted keys
  // ---------------------------------------------------------------------------

  /** `s.split('.')`: the maximal dot-free pieces, in order; never empty. */
  function Split(s: string): (parts: seq<string>)
    ensures |parts| > 0
    ensures forall i | 0 <= i < |parts| :: '.' !in parts[i]
    decreases |s|
  {
    if |s| == 0 then [""]
    else
      var rest := Split(s[1..]);
      if s[0] == '.' then [""] + rest
      else [[s[0]] + rest[0]] + rest[1..]
  }

  /** `parts.join('.')`. */
  function JoinDots(parts: seq<string>): string
    requires |parts| > 0
    decreases |parts|
  {
    if |parts| == 1 then parts[0] else parts[0] + "." + JoinDots(parts[1..])
  }

  /** Joining the pieces with dots gives the key back. */
  lemma {:induction false} JoinSplit(s: string)
    ensures JoinDots(Split(s)) == s
    decreases |s|
  {
    if |s| > 0 {
      JoinSplit(s[1..]);
      var rest := Split(s[1..]);
      if s[0] == '.' {
        assert s == [s[0]] + s[1..];
      } else {
        var ps := Split(s);
        assert ps[1..] == rest[1..];
        if |rest| == 1 {
          assert s == [s[0]] + s[1..];
        } else {
          assert JoinDots(ps) == ps[0] + "." + JoinDots(rest[1..]);
          assert s == [s[0]] + s[1..];
        }
      }
    }
  }

  /** Splitting dot-free pieces joined with dots gives the pieces back. */
  lemma {:induction false} SplitJoin(parts: seq<string>)
    requires |parts| > 0 && forall i | 0 <= i < |parts| :: '.' !in parts[i]
    ensures Split(JoinDots(parts)) == parts
    decreases |parts|, |parts[0]|
  {
    var p := parts[0];
    if |p| == 0 {
      if |parts| > 1 {
        SplitJoin(parts[1..]);
        assert JoinDots(parts) == "." + JoinDots(parts[1..]);
        assert JoinDots(parts)[1..] == JoinDots(parts[1..]);
      }
    } else {
      var parts' := [p[1..]] + parts[1..];
      assert parts'[1..] == parts[1..];
      assert forall i | 0 <= i < |parts'| :: '.' !in parts'[i] by {
        assert forall c | c in p[1..] :: c in p;
      }
      SplitJoin(parts');
      var s := JoinDots(parts);
      if |parts| == 1 {
        assert s[1..] == p[1..] == JoinDots(parts');
      } else {
        assert s == p + "." + JoinDots(parts[1..]);
        assert s[1..] == p[1..] + "." + JoinDots(parts[1..]) == JoinDots(parts');
      }
      assert s[0] == p[0] && p[0] != '.';
      assert p == [p[0]] + p[1..];
    }
  }

  /**
   * The assignment updatePreference performs: walk `keys` from `node`,
   * replacing a falsy step by a new `{}`, and set the last key to `value`.
   * `None` is the TypeError of assigning into something that is not an
   * object.
   */
  function SetPath(node: Value, keys: seq<string>, value: Value): (r: Option<Value>)
    requires |keys| > 0
    ensures r.Some? ==> r.value.Obj? && node.Obj?
    ensures r.Some? ==> forall j | j != keys[0] :: Get(r.value, j) == Get(node, j)
    decreases |keys|
  {
    if !node.Obj? then None
    else if |keys| == 1 then Some(Set(node, keys[0], value))
    else
      var child := Get(node, keys[0]);
      match SetPath(if Truthy(child) then child else EmptyObject, keys[1..], value)
      case None => None
      case Some(c) => Some(Set(node, keys[0], c))
  }

  /** `node[k1][k2]...[kn]`, `undefined` once a step is missing. */
  function GetPath(node: Value, keys: seq<string>): Value
    requires |keys| > 0
    decreases |keys|
  {
    if |keys| == 1 then Get(node, keys[0]) else GetPath(Get(node, keys[0]), keys[1..])
  }

  /** Reading a path only looks at the first key's value. */
  lemma GetPathSameHead(a: Value, b: Value, keys: seq<string>)
    requires |keys| > 0 && Get(a, keys[0]) == Get(b, keys[0])
    ensures GetPath(a, keys) == GetPath(b, keys)
  {
  }

  /** A path whose first key the stored preferences have reads the same after the merge over the defaults. */
  lemma MergeKeepsPath(p: Value, keys: seq<string>)
    requires WellFormed(p) && |keys| > 0 && keys[0] in p.props
    ensures GetPath(Merge(p), keys) == GetPath(p, keys)
  {
    MergeGet(p, keys[0]);
    GetPathSameHead(Merge(p), p, keys);
  }

  /** After a successful update, reading the same path gives the new value. */
  lemma {:induction false} SetPathThenGet(node: Value, keys: seq<string>, value: Value)
    requires |keys| > 0 && SetPath(node, keys, value).Some?
    ensures GetPath(SetPath(node, keys, value).value, keys) == value
    decreases |keys|
  {
    if |keys| > 1 {
      var child := Get(node, keys[0]);
      SetPathThenGet(if Truthy(child) then child else EmptyObject, keys[1..], value);
    }
  }

  /**
   * An update changes no other path: a path `q` that agrees with `keys`
   * on the first `i` keys and then leaves it reads the same afterwards.
   */
  lemma {:induction false} SetPathKeepsOtherPaths(node: Value, keys: seq<string>, value: Value, q: seq<string>, i: nat)
    requires i < |keys| && i < |q| && q[..i] == keys[..i] && q[i] != keys[i]
    requires SetPath(node, keys, value).Some?
    ensures GetPath(SetPath(node, keys, value).value, q) == GetPath(node, q)
    decreases |keys|
  {
    var r := SetPath(node, keys, value).value;
    if i == 0 {
      GetPathSameHead(r, node, q);
    } else {
      assert q[0] == keys[0] by { assert q[..i][0] == keys[..i][0]; }
      var child := Get(node, keys[0]);
      var next := if Truthy(child) then child else EmptyObject;
      var c := SetPath(next, keys[1..], value).value;
      assert Get(r, q[0]) == c;
      assert q[1..][..i - 1] == keys[1..][..i - 1] by {
        assert q[1..][..i - 1] == q[..i][1..];
        assert keys[1..][..i - 1] == keys[..i][1..];
      }
      SetPathKeepsOtherPaths(next, keys[1..], value, q[1..], i - 1);
      if !Truthy(child) {
        // a falsy step is not an object, so it reads every path like `{}`
        GetPathSameHead(child, EmptyObject, q[1..]);
      }
    }
  }

  /**
   * The walk fails exactly when it meets a truthy step that is not an
   * object (or the root is not one); falsy steps are created on the way.
   */
  lemma {:induction false} SetPathFails(node: Value, keys: seq<string>, value: Value)
    requires |keys| > 0
    ensures SetPath(node, keys, value).None? <==>
      !node.Obj? || (|keys| > 1 && Truthy(Get(node, keys[0])) && SetPath(Get(node, keys[0]), keys[1..], value).None?)
  {
    if node.Obj? && |keys| > 1 && !Truthy(Get(node, keys[0])) {
      assert SetPath(EmptyObject, keys[1..], value).Some? by {
        EmptyObjectPath(keys[1..], value);
      }
    }
  }

  /** A path into a fresh `{}` always succeeds. */
  lemma {:induction false} EmptyObjectPath(keys: seq<string>, value: Value)
    requires |keys| > 0
    ensures SetPath(EmptyObject, keys, value).Some?
    decreases |keys|
  {
    if |keys| > 1 {
      EmptyObjectPath(keys[1..], value);
    }
  }

  /**
   * The objects the walk passes through, rebuilt bottom-up around `inner`:
   * `spine[i][ks[i]]` is set to the rebuilt level below it.
   */
  function Rebuild(spine: seq<Value>, ks: seq<string>, inner: Value): Value
    requires |spine| == |ks| && forall j | 0 <= j < |spine| :: spine[j].Obj?
    decreases |spine|
  {
    if |spine| == 0 then inner
    else Rebuild(spine[..|spine| - 1], ks[..|ks| - 1], Set(spine[|spine| - 1], ks[|ks| - 1], inner))
  }

  /** Rebuild applied to a successful inner update, `None` for a failed one. */
  function Lift(spine: seq<Value>, ks: seq<string>, inner: Option<Value>): Option<Value>
    requires |spine| == |ks| && forall j | 0 <= j < |spine| :: spine[j].Obj?
  {
    match inner
    case None => None
    case Some(v) => Some(Rebuild(spine, ks, v))
  }

  /** One step of the walk: a successful update below `keys[i]` is lifted into `node` by one assignment. */
  lemma SetPathStep(node: Value, keys: seq<string>, i: nat, value: Value)
    requires node.Obj? && i + 1 < |keys|
    ensures var child := Get(node, keys[i]);
      SetPath(node, keys[i..], value) == Lift([node], [keys[i]], SetPath(if Truthy(child) then child else EmptyObject, keys[i + 1..], value))
  {
    assert keys[i..][1..] == keys[i + 1..];
    var child := Get(node, keys[i]);
    var below := SetPath(if Truthy(child) then child else EmptyObject, keys[i + 1..], value);
    if below.Some? {
      RebuildOne(node, keys[i], below.value);
    }
  }

  lemma RebuildOne(node: Value, k: string, inner: Value)
    requires node.Obj?
    ensures Rebuild([node], [k], inner) == Set(node, k, inner)
  {
    assert [node][..0] == [] && [k][..0] == [];
  }

  /** Lifting through a longer spine is lifting through its last level, then through the rest. */
  lemma LiftAppend(spine: seq<Value>, ks: seq<string>, node: Value, k: string, inner: Option<Value>)
    requires |spine| == |ks| && (forall j | 0 <= j < |spine| :: spine[j].Obj?) && node.Obj?
    ensures Lift(spine + [node], ks + [k], inner) == Lift(spine, ks, Lift([node], [k], inner))
  {
    if inner.Some? {
      assert (spine + [node])[..|spine|] == spine;
      assert (ks + [k])[..|ks|] == ks;
      RebuildOne(node, k, inner.value);
    }
  }

  /** The walk's invariant survives one step down from an object `node`. */
  lemma DescendStep(root: Value, keys: seq<string>, value: Value, spine: seq<Value>, node: Value, i: nat)
    requires i + 1 < |keys| && |spine| == i && (forall j | 0 <= j < i :: spine[j].Obj?) && node.Obj?
    requires SetPath(root, keys, value) == Lift(spine, keys[..i], SetPath(node, keys[i..], value))
    ensures var child := Get(node, keys[i]);
      var next := if Truthy(child) then child else EmptyObject;
      SetPath(root, keys, value) == Lift(spine + [node], keys[..i + 1], SetPath(next, keys[i + 1..], value))
  {
    var child := Get(node, keys[i]);
    var next := if Truthy(child) then child else EmptyObject;
    SetPathStep(node, keys, i, value);
    LiftAppend(spine, keys[..i], node, keys[i], SetPath(next, keys[i + 1..], value));
    assert keys[..i + 1] == keys[..i] + [keys[i]];
  }

  /** Reassembling the last level first. */
  lemma RebuildStep(spine: seq<Value>, ks: seq<string>, j: nat, inner: Value)
    requires |spine| == |ks| && (forall k | 0 <= k < |spine| :: spine[k].Obj?) && 0 < j <= |spine|
    ensures Rebuild(spine[..j], ks[..j], inner) == Rebuild(spine[..j - 1], ks[..j - 1], Set(spine[j - 1], ks[j - 1], inner))
  {
    assert spine[..j][..j - 1] == spine[..j - 1] && ks[..j][..j - 1] == ks[..j - 1];
  }
}
