/**
  The export, import and midport reducers of the pod store (ui/src/lib/reducers/export.js).
  Each reducer updates the pod `state.pods[id]` in place: it creates a missing `exports`,
  `imports` or `midports` object, sets, deletes or flips one of its boolean entries, or
  replaces the object wholesale.

  A JavaScript object that is `null` or `undefined` is `None`; an object, even an empty
  one, is truthy and is `Some`. Reading a field of `null`/`undefined` throws a TypeError;
  the store then keeps its previous state, as a reducer that throws commits nothing.
*/
module ExportReducers {
  import opened Wrappers

  /** A pod's name-to-flag object (exports, imports, midports, reexports). */
  type Flags = map<string, bool>

  /** The fields of a pod these reducers touch; `io` maps an output name to its payload. */
  datatype Pod = Pod(
    exports: Option<Flags>,
    reexports: Option<Flags>,
    imports: Option<Flags>,
    midports: Option<Flags>,
    io: Option<map<string, string>>)

  /** `if (!obj) obj = {}; obj[name] = false`: the entry is created, unset. */
  function AddFlag(flags: Option<Flags>, name: string): (r: Flags)
    ensures r.Keys == flags.GetOr(map[]).Keys + {name}
    ensures !r[name]
    ensures forall k :: k in flags.GetOr(map[]) && k != name ==> r[k] == flags.value[k]
  {
    flags.GetOr(map[])[name := false]
  }

  /** `obj[name] = !obj[name]`: a missing entry is `undefined`, so it becomes `true`. */
  function Toggle(flags: Flags, name: string): (r: Flags)
    ensures r.Keys == flags.Keys + {name}
    ensures r[name] <==> !(name in flags && flags[name])
    ensures forall k :: k in flags && k != name ==> r[k] == flags[k]
  {
    flags[name := !(name in flags && flags[name])]
  }

  /** `delete obj[name]`: the entry is gone, whether or not it was there. */
  function Remove<V>(m: map<string, V>, name: string): (r: map<string, V>)
    ensures r.Keys == m.Keys - {name}
    ensures forall k :: k in r ==> r[k] == m[k]
  {
    m - {name}
  }

  /** `toggleDeckExport` on the exports: `self` is set when it was not truthy and cleared otherwise. */
  function ToggleSelf(flags: Option<Flags>): (r: Flags)
    ensures r.Keys == flags.GetOr(map[]).Keys + {"self"}
    ensures r["self"] <==> !("self" in flags.GetOr(map[]) && flags.value["self"])
    ensures forall k :: k in flags.GetOr(map[]) && k != "self" ==> r[k] == flags.value[k]
  {
    var f := flags.GetOr(map[]);
    if !("self" in f && f["self"]) then f["self" := true] else f["self" := false]
  }

  /** Adding the same entry twice is the same as adding it once. */
  lemma AddFlagIdempotent(flags: Option<Flags>, name: string)
    ensures AddFlag(Some(AddFlag(flags, name)), name) == AddFlag(flags, name)
  {
    var once := AddFlag(flags, name);
    var twice := AddFlag(Some(once), name);
    assert twice.Keys == once.Keys;
  }

  /** Toggling an existing entry twice restores the object. */
  lemma ToggleTwice(flags: Flags, name: string)
    requires name in flags
    ensures Toggle(Toggle(flags, name), name) == flags
  {
    var twice := Toggle(Toggle(flags, name), name);
    assert twice.Keys == flags.Keys;
  }

  /** Toggling a missing entry twice leaves it present and unset: `undefined` does not come back. */
  lemma ToggleMissingTwice(flags: Flags, name: string)
    requires name !in flags
    ensures Toggle(Toggle(flags, name), name) == flags[name := false]
  {
    var twice := Toggle(Toggle(flags, name), name);
    assert twice.Keys == flags[name := false].Keys;
  }

  /** Toggling the deck's `self` twice gives back a truthy-or-not value that matches the start. */
  lemma ToggleSelfTwice(flags: Option<Flags>)
    ensures var twice := ToggleSelf(Some(ToggleSelf(flags)));
      twice["self"] <==> ("self" in flags.GetOr(map[]) && flags.value["self"])
  {
  }

  /** Removing an entry that was just added gives back the object without it. */
  lemma RemoveAdded(flags: Flags, name: string)
    ensures Remove(AddFlag(Some(flags), name), name) == Remove(flags, name)
  {
    var a := Remove(AddFlag(Some(flags), name), name);
    assert a.Keys == Remove(flags, name).Keys;
  }

  /** `state.pods`: the pods of the open repository by id. */
  class PodStore {
    var pods: map<string, Pod>

    constructor(pods: map<string, Pod>)
      ensures this.pods == pods
    {
      this.pods := pods;
    }

    /** `addPodExport({id, name})`. */
    method AddPodExport(id: string, name: string) returns (err: Option<string>)
      modifies this
      ensures err.None? <==> id in old(pods)
      ensures err.None? ==> pods == old(pods)[id := old(pods)[id].(exports := Some(AddFlag(old(pods)[id].exports, name)))]
      ensures err.Some? ==> pods == old(pods)
    {
      if id !in pods {
        return Some("TypeError");
      }
      var pod := pods[id];
      pods := pods[id := pod.(exports := Some(AddFlag(pod.exports, name)))];
      err := None;
    }

    /** `setPodExport({id, exports, reexports})`: both objects are replaced by the payload's. */
    method SetPodExport(id: string, exports: Option<Flags>, reexports: Option<Flags>) returns (err: Option<string>)
      modifies this
      ensures err.None? <==> id in old(pods)
      ensures err.None? ==> pods == old(pods)[id := old(pods)[id].(exports := exports, reexports := reexports)]
      ensures err.Some? ==> pods == old(pods)
    {
      if id !in pods {
        return Some("TypeError");
      }
      pods := pods[id := pods[id].(exports := exports, reexports := reexports)];
      err := None;
    }

    /** `clearIO({id, name})`: removes one output; the pod must have an `io` object. */
    method ClearIO(id: string, name: string) returns (err: Option<string>)
      modifies this
      ensures err.None? <==> id in old(pods) && old(pods)[id].io.Some?
      ensures err.None? ==> pods == old(pods)[id := old(pods)[id].(io := Some(Remove(old(pods)[id].io.value, name)))]
      ensures err.Some? ==> pods == old(pods)
    {
      if id !in pods || pods[id].io.None? {
        return Some("TypeError");
      }
      var pod := pods[id];
      pods := pods[id := pod.(io := Some(Remove(pod.io.value, name)))];
      err := None;
    }

    /** `deletePodExport({id, name})`: the pod must have an `exports` object. */
    method DeletePodExport(id: string, name: string) returns (err: Option<string>)
      modifies this
      ensures err.None? <==> id in old(pods) && old(pods)[id].exports.Some?
      ensures err.None? ==> pods == old(pods)[id := old(pods)[id].(exports := Some(Remove(old(pods)[id].exports.value, name)))]
      ensures err.Some? ==> pods == old(pods)
    {
      if id !in pods || pods[id].exports.None? {
        return Some("TypeError");
      }
      var pod := pods[id];
      pods := pods[id := pod.(exports := Some(Remove(pod.exports.value, name)))];
      err := None;
    }

    /** `clearPodExport({id})`: `exports` becomes `null`. */
    method ClearPodExport(id: string) returns (err: Option<string>)
      modifies this
      ensures err.None? <==> id in old(pods)
      ensures err.None? ==> pods == old(pods)[id := old(pods)[id].(exports := None)]
      ensures err.Some? ==> pods == old(pods)
    {
      if id !in pods {
        return Some("TypeError");
      }
      pods := pods[id := pods[id].(exports := None)];
      err := None;
    }

    /** `togglePodExport({id, name})`: the pod must have an `exports` object. */
    method TogglePodExport(id: string, name: string) returns (err: Option<string>)
      modifies this
      ensures err.None? <==> id in old(pods) && old(pods)[id].exports.Some?
      ensures err.None? ==> pods == old(pods)[id := old(pods)[id].(exports := Some(Toggle(old(pods)[id].exports.value, name)))]
      ensures err.Some? ==> pods == old(pods)
    {
      if id !in pods || pods[id].exports.None? {
        return Some("TypeError");
      }
      var pod := pods[id];
      pods := pods[id := pod.(exports := Some(Toggle(pod.exports.value, name)))];
      err := None;
    }

    /** `toggleDeckExport({id})`: creates `exports` if needed and flips `self`. */
    method ToggleDeckExport(id: string) returns (err: Option<string>)
      modifies this
      ensures err.None? <==> id in old(pods)
      ensures err.None? ==> pods == old(pods)[id := old(pods)[id].(exports := Some(ToggleSelf(old(pods)[id].exports)))]
      ensures err.Some? ==> pods == old(pods)
    {
      if id !in pods {
        return Some("TypeError");
      }
      var pod := pods[id];
      pods := pods[id := pod.(exports := Some(ToggleSelf(pod.exports)))];
      err := None;
    }

    /** `addPodImport({id, name})`. */
    method AddPodImport(id: string, name: string) returns (err: Option<string>)
      modifies this
      ensures err.None? <==> id in old(pods)
      ensures err.None? ==> pods == old(pods)[id := old(pods)[id].(imports := Some(AddFlag(old(pods)[id].imports, name)))]
      ensures err.Some? ==> pods == old(pods)
    {
      if id !in pods {
        return Some("TypeError");
      }
      var pod := pods[id];
      pods := pods[id := pod.(imports := Some(AddFlag(pod.imports, name)))];
      err := None;
    }

    /** `deletePodImport({id, name})`: the pod must have an `imports` object. */
    method DeletePodImport(id: string, name: string) returns (err: Option<string>)
      modifies this
      ensures err.None? <==> id in old(pods) && old(pods)[id].imports.Some?
      ensures err.None? ==> pods == old(pods)[id := old(pods)[id].(imports := Some(Remove(old(pods)[id].imports.value, name)))]
      ensures err.Some? ==> pods == old(pods)
    {
      if id !in pods || pods[id].imports.None? {
        return Some("TypeError");
      }
      var pod := pods[id];
      pods := pods[id := pod.(imports := Some(Remove(pod.imports.value, name)))];
      err := None;
    }

    /** `togglePodImport({id, name})`: the pod must have an `imports` object. */
    method TogglePodImport(id: string, name: string) returns (err: Option<string>)
      modifies this
      ensures err.None? <==> id in old(pods) && old(pods)[id].imports.Some?
      ensures err.None? ==> pods == old(pods)[id := old(pods)[id].(imports := Some(Toggle(old(pods)[id].imports.value, name)))]
      ensures err.Some? ==> pods == old(pods)
    {
      if id !in pods || pods[id].imports.None? {
        return Some("TypeError");
      }
      var pod := pods[id];
      pods := pods[id := pod.(imports := Some(Toggle(pod.imports.value, name)))];
      err := None;
    }

    /** `addPodMidport({id, name})`. */
    method AddPodMidport(id: string, name: string) returns (err: Option<string>)
      modifies this
      ensures err.None? <==> id in old(pods)
      ensures err.None? ==> pods == old(pods)[id := old(pods)[id].(midports := Some(AddFlag(old(pods)[id].midports, name)))]
      ensures err.Some? ==> pods == old(pods)
    {
      if id !in pods {
        return Some("TypeError");
      }
      var pod := pods[id];
      pods := pods[id := pod.(midports := Some(AddFlag(pod.midports, name)))];
      err := None;
    }

    /** `deletePodMidport({id, name})`: nothing happens when the pod has no `midports` object. */
    method DeletePodMidport(id: string, name: string) returns (err: Option<string>)
      modifies this
      ensures err.None? <==> id in old(pods)
      ensures err.None? && old(pods)[id].midports.None? ==> pods == old(pods)
      ensures err.None? && old(pods)[id].midports.Some? ==>
        pods == old(pods)[id := old(pods)[id].(midports := Some(Remove(old(pods)[id].midports.value, name)))]
      ensures err.Some? ==> pods == old(pods)
    {
      if id !in pods {
        return Some("TypeError");
      }
      var pod := pods[id];
      if pod.midports.Some? {
        pods := pods[id := pod.(midports := Some(Remove(pod.midports.value, name)))];
      }
      err := None;
    }

    /** `togglePodMidport({id, name})`: the pod must have a `midports` object. */
    method TogglePodMidport(id: string, name: string) returns (err: Option<string>)
      modifies this
      ensures err.None? <==> id in old(pods) && old(pods)[id].midports.Some?
      ensures err.None? ==> pods == old(pods)[id := old(pods)[id].(midports := Some(Toggle(old(pods)[id].midports.value, name)))]
      ensures err.Some? ==> pods == old(pods)
    {
      if id !in pods || pods[id].midports.None? {
        return Some("TypeError");
      }
      var pod := pods[id];
      pods := pods[id := pod.(midports := Some(Toggle(pod.midports.value, name)))];
      err := None;
    }
  }
}
