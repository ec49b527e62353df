/** The metadata record of one cached object (Meta in internal/cache/store.go). */
module CacheMeta {
  import opened Spans

  datatype Total = Unknown | Known(bytes: int)

  datatype Meta = Meta(
    host: string,
    path: string,
    rawQuery: string,
    spans: seq<Span>,
    total: Total,
    etag: string,
    contentType: string,
    status: int,
    location: string,
    extraHeaders: map<string, string>,
    aliasOf: string,
    originPath: string,
    originPaths: seq<string>)

  /** metaTotal: what an entry counts against the quota. */
  function Bytes(m: Meta): (n: int)
    ensures n >= 0
  {
    if m.total.Known? && m.total.bytes > 0 then m.total.bytes else 0
  }
}

/** Which models own a shared body: appendOwner in internal/cache/store.go and the owner algebra of
    internal/admin/models/cache.go. */
module Owners {
  import opened Text
  import opened CacheMeta

  const MAX_ORIGIN_PATHS: nat := 64

  predicate Sorted(owners: seq<string>) {
    forall i, j :: 0 <= i < j < |owners| ==> Less(owners[i], owners[j])
  }

  /** What every owner list on disk satisfies: sorted, duplicate-free, bounded, no empty name. */
  predicate WellKept(owners: seq<string>) {
    Sorted(owners) && |owners| <= MAX_ORIGIN_PATHS && "" !in owners
  }

  /** The first position whose entry is not below owner. */
  function Position(owners: seq<string>, owner: string): (i: nat)
    ensures i <= |owners|
    ensures forall j :: 0 <= j < i ==> Less(owners[j], owner)
    ensures i < |owners| ==> !Less(owners[i], owner)
  {
    if owners == [] || !Less(owners[0], owner) then 0 else 1 + Position(owners[1..], owner)
  }

  /** The owner list after appendOwner. */
  function WithOwner(owners: seq<string>, owner: string): seq<string> {
    if owner == "" then owners
    else
      var i := Position(owners, owner);
      if i < |owners| && owners[i] == owner then owners
      else if |owners| >= MAX_ORIGIN_PATHS then owners
      else owners[..i] + [owner] + owners[i..]
  }

  /** On a sorted list the lower bound is unique, so any search that finds one finds Position. */
  lemma {:induction false} PositionUnique(owners: seq<string>, owner: string, i: nat)
    requires Sorted(owners) && i <= |owners|
    requires forall j :: 0 <= j < i ==> Less(owners[j], owner)
    requires forall j :: i <= j < |owners| ==> !Less(owners[j], owner)
    ensures i == Position(owners, owner)
  {
    if i > 0 { PositionUnique(owners[1..], owner, i - 1); }
  }

  /** appendOwner, with the binary search of sort.SearchStrings. */
  method AppendOwner(owners: seq<string>, owner: string) returns (r: seq<string>)
    requires Sorted(owners)
    ensures r == WithOwner(owners, owner)
  {
    if owner == "" { return owners; }
    var i, j := 0, |owners|;
    while i < j
      invariant 0 <= i <= j <= |owners|
      invariant forall k :: 0 <= k < i ==> Less(owners[k], owner)
      invariant forall k :: j <= k < |owners| ==> !Less(owners[k], owner)
    {
      var h := (i + j) / 2;
      if Less(owners[h], owner) {
        forall k | 0 <= k < h ensures Less(owners[k], owner) { LessTransitive(owners[k], owners[h], owner); }
        i := h + 1;
      } else {
        forall k | h < k < |owners| ensures !Less(owners[k], owner) {
          if Less(owners[k], owner) { LessTransitive(owners[h], owners[k], owner); }
        }
        j := h;
      }
    }
    PositionUnique(owners, owner, i);
    if i < |owners| && owners[i] == owner { return owners; }
    if |owners| >= MAX_ORIGIN_PATHS { return owners; }
    return owners[..i] + [owner] + owners[i..];
  }

  /** appendOwner keeps the list well kept, never loses an owner, and records the new one unless the list is full. */
  lemma {:induction false} WithOwnerKeeps(owners: seq<string>, owner: string)
    requires WellKept(owners)
    ensures WellKept(WithOwner(owners, owner))
    ensures forall o :: o in owners ==> o in WithOwner(owners, owner)
    ensures forall o :: o in WithOwner(owners, owner) ==> o in owners || o == owner
    ensures owner != "" && |owners| < MAX_ORIGIN_PATHS ==> owner in WithOwner(owners, owner)
    ensures owner !in owners && |owners| == MAX_ORIGIN_PATHS ==> WithOwner(owners, owner) == owners
  {
    var i := Position(owners, owner);
    if owner != "" && !(i < |owners| && owners[i] == owner) && |owners| < MAX_ORIGIN_PATHS {
      forall k | i <= k < |owners|
        ensures Less(owner, owners[k])
      {
        LessTotal(owner, owners[i]);
        if i < k { LessTransitive(owner, owners[i], owners[k]); }
      }
      InsertKeeps(owners, owner, i);
    }
  }

  lemma {:induction false} InsertedAt(owners: seq<string>, owner: string, i: nat, k: nat)
    requires i <= |owners| && k <= |owners|
    ensures (owners[..i] + [owner] + owners[i..])[k] ==
            if k < i then owners[k] else if k == i then owner else owners[k - 1]
  {
  }

  lemma {:induction false} InsertedMembers(owners: seq<string>, owner: string, i: nat, o: string)
    requires i <= |owners|
    ensures o in owners[..i] + [owner] + owners[i..] <==> o in owners || o == owner
  {
    assert owners == owners[..i] + owners[i..];
  }

  lemma {:induction false} InsertKeeps(owners: seq<string>, owner: string, i: nat)
    requires Sorted(owners) && i <= |owners|
    requires forall k :: 0 <= k < i ==> Less(owners[k], owner)
    requires forall k :: i <= k < |owners| ==> Less(owner, owners[k])
    ensures Sorted(owners[..i] + [owner] + owners[i..])
    ensures forall o :: o in owners[..i] + [owner] + owners[i..] <==> o in owners || o == owner
  {
    var r := owners[..i] + [owner] + owners[i..];
    forall a, b | 0 <= a < b < |r|
      ensures Less(r[a], r[b])
    {
      InsertedAt(owners, owner, i, a);
      InsertedAt(owners, owner, i, b);
    }
    forall o
      ensures o in r <==> o in owners || o == owner
    {
      InsertedMembers(owners, owner, i, o);
    }
  }

  // ---- which model a path names --------------------------------------------

  datatype Model = NoModel | Model(org: string, name: string)

  predicate IsRepoKind(s: string) {
    s == "datasets" || s == "spaces"
  }

  /** ParseHFModelPath, without the revision it also returns. */
  function ParseModel(p: string): Model {
    var parts := Split(if |p| > 0 && p[0] == '/' then p[1..] else p, '/');
    if |parts| >= 3 && parts[0] == "api" && parts[1] == "resolve-cache" then
      var rest := parts[2..];
      var rest := if rest[0] == "models" || IsRepoKind(rest[0]) then rest[1..] else rest;
      if |rest| < 4 then NoModel else Model(rest[0], rest[1])
    else
      var rest := if IsRepoKind(parts[0]) then parts[1..] else parts;
      if |rest| < 5 || rest[2] != "resolve" then NoModel else Model(rest[0], rest[1])
  }

  predicate Matches(p: string, org: string, name: string) {
    p != "" && ParseModel(p) == Model(org, name)
  }

  predicate OwnedBy(m: Meta, org: string, name: string) {
    || Matches(m.originPath, org, name) || Matches(m.path, org, name)
    || exists p :: p in m.originPaths && Matches(p, org, name)
  }

  function Keeping(paths: seq<string>, org: string, name: string): seq<string> {
    if paths == [] then []
    else if Matches(paths[0], org, name) then Keeping(paths[1..], org, name)
    else [paths[0]] + Keeping(paths[1..], org, name)
  }

  /** The metadata without (org, name) as an owner. */
  function Trimmed(m: Meta, org: string, name: string): Meta {
    var kept := Keeping(m.originPaths, org, name);
    m.(originPaths := kept,
       originPath := if !Matches(m.originPath, org, name) then m.originPath else if kept == [] then "" else kept[0])
  }

  /** RemoveOwner: filters into a fresh list and promotes its first entry. */
  method RemoveOwner(m: Meta, org: string, name: string) returns (out: Meta)
    ensures out == Trimmed(m, org, name)
  {
    var kept := [];
    for i := 0 to |m.originPaths|
      invariant kept + Keeping(m.originPaths[i..], org, name) == Keeping(m.originPaths, org, name)
    {
      if !Matches(m.originPaths[i], org, name) {
        kept := kept + [m.originPaths[i]];
      }
    }
    out := m.(originPaths := kept);
    if Matches(out.originPath, org, name) {
      out := out.(originPath := "");
      if |kept| > 0 {
        out := out.(originPath := kept[0]);
      }
    }
  }

  predicate HasAnyOwner(m: Meta) {
    || (m.originPath != "" && ParseModel(m.originPath) != NoModel)
    || exists p :: p in m.originPaths && ParseModel(p) != NoModel
  }

  // ---- the purge decision ----------------------------------------------------

  datatype Decision = Keep | Trim(meta: Meta) | Remove

  /** The decide callback of the admin purge handler. */
  function Decide(m: Meta, org: string, name: string): Decision {
    if !OwnedBy(m, org, name) then Keep
    else if !HasAnyOwner(Trimmed(m, org, name)) then Remove
    else Trim(Trimmed(m, org, name))
  }

  /** Path p names a model, and not (org, name). */
  predicate NamesAnother(p: string, org: string, name: string) {
    p != "" && ParseModel(p) != NoModel && ParseModel(p) != Model(org, name)
  }

  lemma {:induction false} KeepingMembers(paths: seq<string>, org: string, name: string)
    ensures forall p :: p in Keeping(paths, org, name) <==> p in paths && !Matches(p, org, name)
    ensures |Keeping(paths, org, name)| <= |paths|
  {
    if paths != [] {
      KeepingMembers(paths[1..], org, name);
      assert paths == [paths[0]] + paths[1..];
    }
  }

  lemma {:induction false} KeepingSorted(paths: seq<string>, org: string, name: string)
    requires Sorted(paths)
    ensures Sorted(Keeping(paths, org, name))
  {
    if paths != [] {
      var tail := paths[1..];
      var kept := Keeping(tail, org, name);
      KeepingSorted(tail, org, name);
      KeepingMembers(tail, org, name);
      forall j | 0 <= j < |kept|
        ensures Less(paths[0], kept[j])
      {
        assert kept[j] in tail;
      }
    }
  }

  lemma EmptyNamesNoModel()
    ensures ParseModel("") == NoModel
  {
  }

  /** After the decision no surviving entry names the purged owner as an owner; an entry is removed exactly when it was
      owned and nobody else owns it; a trimmed entry changes in its owner fields only and its owner list stays well
      kept. */
  lemma {:induction false} DecideIsRight(m: Meta, org: string, name: string)
    ensures Decide(m, org, name).Keep? ==>
              !Matches(m.originPath, org, name) && forall p :: p in m.originPaths ==> !Matches(p, org, name)
    ensures Decide(m, org, name).Trim? ==>
              var t := Decide(m, org, name).meta;
              && !Matches(t.originPath, org, name) && (forall p :: p in t.originPaths ==> !Matches(p, org, name))
              && t == m.(originPath := t.originPath, originPaths := t.originPaths)
              && (WellKept(m.originPaths) ==> WellKept(t.originPaths))
    ensures Decide(m, org, name).Remove? <==>
              && OwnedBy(m, org, name)
              && !NamesAnother(m.originPath, org, name)
              && (forall p :: p in m.originPaths ==> !NamesAnother(p, org, name))
  {
    EmptyNamesNoModel();
    KeepingMembers(m.originPaths, org, name);
    if Sorted(m.originPaths) { KeepingSorted(m.originPaths, org, name); }
    var t := Trimmed(m, org, name);
    if t.originPath != m.originPath && t.originPath != "" {
      assert t.originPath in t.originPaths;
    }
    assert HasAnyOwner(t) <==>
           NamesAnother(m.originPath, org, name) || exists p :: p in m.originPaths && NamesAnother(p, org, name) by {
      if p :| p in m.originPaths && NamesAnother(p, org, name) {
        assert p in t.originPaths && ParseModel(p) != NoModel;
      }
      if p :| p in t.originPaths && ParseModel(p) != NoModel {
        assert p in m.originPaths && NamesAnother(p, org, name);
      }
      if t.originPath != "" && ParseModel(t.originPath) != NoModel && t.originPath == m.originPath {
        assert NamesAnother(m.originPath, org, name);
      }
    }
  }

  /** A surviving entry still counts as owned by the purged model exactly when its own path names it:
      trimming cannot rewrite the path, so a second purge of the same model trims it again. */
  lemma {:induction false} StillOwnedThroughPath(m: Meta, org: string, name: string)
    requires Decide(m, org, name).Trim?
    ensures OwnedBy(Trimmed(m, org, name), org, name) <==> Matches(m.path, org, name)
  {
    DecideIsRight(m, org, name);
  }
}
