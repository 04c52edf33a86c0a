/**
 The folders of the OPC UA server for tags grouped by group1, group2 and group3: the three passes
 of startOpcuaServer in src/OPC-UA-Server/index.js over the tags read from the database.
 */
module FolderTree {
  import opened Options

  /** A tag; componentOf is the folder it is put into. Groups are never missing, possibly empty. */
  datatype Tag = Tag(group1: string, group2: string, group3: string, hasBrowsePath: bool, componentOf: Option<nat>)

  /** Folder 0 is the root; every other folder has its parent before it. */
  datatype Folder = Folder(parent: nat, name: string)

  type Path = seq<string>

  // ---- paths ----------------------------------------------------------------------------------

  /** The longest non-empty prefix of the groups. */
  function FullPath(t: Tag): Path {
    if t.group1 == "" then []
    else if t.group2 == "" then [t.group1]
    else if t.group3 == "" then [t.group1, t.group2]
    else [t.group1, t.group2, t.group3]
  }

  /** Its groups up to the first that is empty. */
  lemma FullPathIsLongest(t: Tag)
    ensures var groups, p := [t.group1, t.group2, t.group3], FullPath(t);
      && p <= groups && (forall i :: 0 <= i < |p| ==> groups[i] != "") && (|p| < 3 ==> groups[|p|] == "")
  {
  }

  function PathTo(t: Tag, level: nat): Path {
    if |FullPath(t)| <= level then FullPath(t) else FullPath(t)[..level]
  }

  predicate Tree(fs: seq<Folder>) {
    |fs| > 0 && forall i :: 0 < i < |fs| ==> fs[i].parent < i
  }

  function PathOf(fs: seq<Folder>, id: nat): Path
    requires Tree(fs) && id < |fs|
    decreases id
  {
    if id == 0 then [] else PathOf(fs, fs[id].parent) + [fs[id].name]
  }

  /** One folder for each path. */
  predicate Unique(fs: seq<Folder>)
    requires Tree(fs)
  {
    forall a, b :: 0 <= a < b < |fs| ==> PathOf(fs, a) != PathOf(fs, b)
  }

  predicate DeepAtMost(fs: seq<Folder>, level: nat)
    requires Tree(fs)
  {
    forall a :: 0 <= a < |fs| ==> |PathOf(fs, a)| <= level
  }

  predicate IsPrefixOfSome(tags: seq<Tag>, p: Path) {
    exists j :: 0 <= j < |tags| && !tags[j].hasBrowsePath && p <= FullPath(tags[j])
  }

  /** No folder without a tag below it, the root apart. */
  predicate Needed(fs: seq<Folder>, tags: seq<Tag>)
    requires Tree(fs)
  {
    forall a :: 0 < a < |fs| ==> IsPrefixOfSome(tags, PathOf(fs, a))
  }

  /** The list of a pass knows exactly the folders of its level. */
  predicate Lists(list: map<Path, nat>, fs: seq<Folder>, level: nat)
    requires Tree(fs)
  {
    && (forall p :: p in list ==> list[p] < |fs| && PathOf(fs, list[p]) == p)
    && forall a :: 0 <= a < |fs| && |PathOf(fs, a)| == level ==> PathOf(fs, a) in list
  }

  predicate PlacedAt(fs: seq<Folder>, t: Tag, p: Path)
    requires Tree(fs)
  {
    t.componentOf.Some? && t.componentOf.value < |fs| && PathOf(fs, t.componentOf.value) == p
  }

  lemma {:induction false} PathGrows(fs: seq<Folder>, f: Folder, id: nat)
    requires Tree(fs) && f.parent < |fs| && id < |fs|
    ensures Tree(fs + [f]) && PathOf(fs + [f], id) == PathOf(fs, id)
    decreases id
  {
    if id > 0 {
      PathGrows(fs, f, fs[id].parent);
    }
  }

  ghost predicate Grown(fs: seq<Folder>, f: Folder)
    requires Tree(fs) && f.parent < |fs|
  {
    && Tree(fs + [f])
    && PathOf(fs + [f], |fs|) == PathOf(fs, f.parent) + [f.name]
    && forall id :: 0 <= id < |fs| ==> PathOf(fs + [f], id) == PathOf(fs, id)
  }

  lemma Grows(fs: seq<Folder>, f: Folder)
    requires Tree(fs) && f.parent < |fs|
    ensures Grown(fs, f)
  {
    forall id | 0 <= id < |fs| ensures PathOf(fs + [f], id) == PathOf(fs, id) {
      PathGrows(fs, f, id);
    }
    PathGrows(fs, f, f.parent);
  }

  // ---- what a pass keeps ------------------------------------------------------------------------

  /** The folders during the pass of a level, with the list it keeps. */
  ghost predicate Folders(fs: seq<Folder>, list: map<Path, nat>, level: nat, tags: seq<Tag>) {
    Tree(fs) && Unique(fs) && DeepAtMost(fs, level) && Needed(fs, tags) && Lists(list, fs, level)
  }

  /** A folder added for a path p that had none. */
  ghost predicate NewPath(fs: seq<Folder>, f: Folder, p: Path) {
    Tree(fs) && f.parent < |fs| && Grown(fs, f) && PathOf(fs + [f], |fs|) == p
    && forall a :: 0 <= a < |fs| ==> PathOf(fs, a) != p
  }

  lemma AddKeepsUnique(fs: seq<Folder>, f: Folder, p: Path)
    requires NewPath(fs, f, p) && Unique(fs)
    ensures Unique(fs + [f])
  {
    hide PathOf;
  }

  lemma AddKeepsDepth(fs: seq<Folder>, f: Folder, p: Path, level: nat)
    requires NewPath(fs, f, p) && DeepAtMost(fs, level) && |p| <= level
    ensures DeepAtMost(fs + [f], level)
  {
    hide PathOf;
  }

  lemma AddKeepsNeeded(fs: seq<Folder>, f: Folder, p: Path, tags: seq<Tag>)
    requires NewPath(fs, f, p) && Needed(fs, tags) && IsPrefixOfSome(tags, p)
    ensures Needed(fs + [f], tags)
  {
    hide PathOf, IsPrefixOfSome;
  }

  lemma AddKeepsLists(fs: seq<Folder>, f: Folder, p: Path, list: map<Path, nat>, level: nat)
    requires NewPath(fs, f, p) && Lists(list, fs, level)
    ensures Tree(fs + [f]) && Lists(list[p := |fs|], fs + [f], level)
  {
    hide PathOf;
  }

  /** A new folder under the tag's folder of the level above, entered in the list. */
  lemma AddKeepsFolders(fs: seq<Folder>, list: map<Path, nat>, level: nat, tags: seq<Tag>, f: Folder, j: nat)
    requires Folders(fs, list, level, tags) && level >= 1
    requires f.parent < |fs| && j < |tags| && !tags[j].hasBrowsePath && |FullPath(tags[j])| >= level
    requires PathOf(fs, f.parent) == FullPath(tags[j])[..level - 1] && f.name == FullPath(tags[j])[level - 1]
    requires FullPath(tags[j])[..level] !in list
    ensures Folders(fs + [f], list[FullPath(tags[j])[..level] := |fs|], level, tags)
    ensures PathOf(fs + [f], |fs|) == FullPath(tags[j])[..level]
  {
    Grows(fs, f);
    hide PathOf, FullPath, Unique, DeepAtMost, Needed, Grown;
    var p := FullPath(tags[j])[..level];
    IsNew(fs, list, level, p);
    assert FullPath(tags[j])[..level - 1] + [f.name] == p;
    GrownPath(fs, f);
    assert IsPrefixOfSome(tags, p);
    AddKeepsUnique(fs, f, p);
    AddKeepsDepth(fs, f, p, level);
    AddKeepsNeeded(fs, f, p, tags);
    AddKeepsLists(fs, f, p, list, level);
  }

  lemma IsNew(fs: seq<Folder>, list: map<Path, nat>, level: nat, p: Path)
    requires Tree(fs) && Lists(list, fs, level) && p !in list && |p| == level
    ensures forall a :: 0 <= a < |fs| ==> PathOf(fs, a) != p
  {
    hide PathOf;
  }

  lemma GrownPath(fs: seq<Folder>, f: Folder)
    requires Tree(fs) && f.parent < |fs| && Grown(fs, f)
    ensures Tree(fs + [f]) && PathOf(fs + [f], |fs|) == PathOf(fs, f.parent) + [f.name]
  {
    hide PathOf;
  }

  /** Going on to the next level with an empty list. */
  lemma NextLevel(fs: seq<Folder>, list: map<Path, nat>, level: nat, tags: seq<Tag>)
    requires Folders(fs, list, level, tags)
    ensures Folders(fs, map[], level + 1, tags)
  {
    hide PathOf;
  }

  /** Everything about a tag but its folder stays; a tag with a browse path stays entirely. */
  predicate SameTags(now: seq<Tag>, was: seq<Tag>) {
    && |now| == |was|
    && (forall j :: 0 <= j < |now| ==> now[j] == was[j].(componentOf := now[j].componentOf))
    && forall j :: 0 <= j < |now| && was[j].hasBrowsePath ==> now[j] == was[j]
  }

  /** The tags before i are in their folder of this level, the others in that of the level above. */
  ghost predicate Progress(fs: seq<Folder>, now: seq<Tag>, level: nat, i: nat) {
    && Tree(fs)
    && (forall j :: 0 <= j < |now| && j < i && !now[j].hasBrowsePath ==> PlacedAt(fs, now[j], PathTo(now[j], level)))
    && forall j :: i <= j < |now| && level > 1 && !now[j].hasBrowsePath ==>
      PlacedAt(fs, now[j], PathTo(now[j], level - 1))
  }

  /** A tag that has no group of this level, or a browse path, is passed over. */
  lemma PassOver(fs: seq<Folder>, now: seq<Tag>, level: nat, i: nat)
    requires Progress(fs, now, level, i) && i < |now| && level >= 1
    requires now[i].hasBrowsePath || (level > 1 && |FullPath(now[i])| < level)
    ensures Progress(fs, now, level, i + 1)
  {
    hide PathOf, FullPath;
  }

  /** A tag put into a folder with the right path. */
  lemma Place(fs: seq<Folder>, now: seq<Tag>, level: nat, i: nat, id: nat)
    requires Progress(fs, now, level, i) && i < |now| && id < |fs|
    requires PathOf(fs, id) == PathTo(now[i], level)
    ensures Progress(fs, now[i := now[i].(componentOf := Some(id))], level, i + 1)
  {
    var t := now[i].(componentOf := Some(id));
    assert PathTo(t, level) == PathTo(now[i], level);
    hide PathOf, PathTo;
  }

  /** Folders are only added. */
  ghost predicate Extends(gs: seq<Folder>, fs: seq<Folder>) {
    Tree(fs) && Tree(gs) && |fs| <= |gs| && forall id :: 0 <= id < |fs| ==> PathOf(gs, id) == PathOf(fs, id)
  }

  lemma ProgressExtends(gs: seq<Folder>, fs: seq<Folder>, now: seq<Tag>, level: nat, i: nat)
    requires Progress(fs, now, level, i) && Extends(gs, fs)
    ensures Progress(gs, now, level, i)
  {
    hide PathOf, PathTo;
  }

  /** The end of the pass of a level is the start of the next one. */
  lemma ProgressNext(fs: seq<Folder>, now: seq<Tag>, level: nat)
    requires Progress(fs, now, level, |now|) && level >= 1
    ensures Progress(fs, now, level + 1, 0)
  {
  }

  /** The groups of a tag do not change while the passes go over it. */
  lemma SameGroups(now: seq<Tag>, was: seq<Tag>, j: nat)
    requires SameTags(now, was) && j < |now|
    ensures FullPath(now[j]) == FullPath(was[j]) && now[j].hasBrowsePath == was[j].hasBrowsePath
  {
  }

  lemma StaysSame(now: seq<Tag>, was: seq<Tag>, i: nat, id: nat)
    requires SameTags(now, was) && i < |now| && !was[i].hasBrowsePath
    ensures SameTags(now[i := now[i].(componentOf := Some(id))], was)
  {
  }

  /**
   What the three passes are to achieve: tags without a browse path are in the folder of their
   longest non-empty group prefix, nothing else about the tags has changed, there is one folder for
   each path, and none without a tag below it.
   */
  predicate Built(fs: seq<Folder>, now: seq<Tag>, was: seq<Tag>) {
    && SameTags(now, was)
    && Tree(fs) && Unique(fs) && Needed(fs, was)
    && forall j :: 0 <= j < |now| && !now[j].hasBrowsePath ==> PlacedAt(fs, now[j], FullPath(now[j]))
  }

  // ---- the passes ---------------------------------------------------------------------------------

  class Namespace {
    var folders: seq<Folder>

    constructor ()
      ensures folders == [Folder(0, "JsonScadaServer")]
    {
      folders := [Folder(0, "JsonScadaServer")];
    }

    method AddFolder(parent: nat, browseName: string) returns (id: nat)
      modifies this
      ensures folders == old(folders) + [Folder(parent, browseName)] && id == |old(folders)|
    {
      id := |folders|;
      folders := folders + [Folder(parent, browseName)];
    }

    /** The folder of a path in the list, added under its parent if there is none yet. */
    method FolderFor(parent: nat, name: string, key: Path, list: map<Path, nat>,
        ghost level: nat, ghost tags: seq<Tag>, ghost j: nat)
      returns (folder: nat, next: map<Path, nat>)
      requires Folders(folders, list, level, tags) && level >= 1
      requires j < |tags| && !tags[j].hasBrowsePath && |FullPath(tags[j])| >= level && key == FullPath(tags[j])[..level]
      requires parent < |folders| && PathOf(folders, parent) == key[..level - 1] && name == key[level - 1]
      modifies this
      ensures Folders(folders, next, level, tags) && Extends(folders, old(folders))
      ensures folder < |folders| && PathOf(folders, folder) == key
    {
      hide FullPath, PathOf;
      if key in list {
        return list[key], list;
      }
      ghost var f := Folder(parent, name);
      assert FullPath(tags[j])[..level][..level - 1] == FullPath(tags[j])[..level - 1];
      AddKeepsFolders(folders, list, level, tags, f, j);
      Grows(folders, f);
      folder := AddFolder(parent, name);
      next := list[key := folder];
    }

    /** The first pass: folders for group1 under the root. */
    method Group1Pass(res: array<Tag>) returns (ghost listed: map<Path, nat>)
      requires Folders(folders, map[], 1, res[..])
      requires forall j :: 0 <= j < res.Length ==> res[j].componentOf.None?
      modifies this, res
      ensures SameTags(res[..], old(res[..])) && Progress(folders, res[..], 1, res.Length)
      ensures Folders(folders, listed, 1, old(res[..]))
    {
      hide Folders, Progress, FullPath, PathOf, PathTo, SameTags;
      ghost var tags := res[..];
      var group1List: map<Path, nat> := map[];
      SameAtStart(tags);
      ProgressAtStart(folders, tags);
      for i := 0 to res.Length
        invariant forall j :: i <= j < res.Length ==> res[j] == tags[j]
        invariant SameTags(res[..], tags) && Folders(folders, group1List, 1, tags)
        invariant Progress(folders, res[..], 1, i)
      {
        var t := res[i];
        ghost var now := res[..];
        if t.hasBrowsePath {
          PassOver(folders, now, 1, i);
          continue;
        }
        RootPath(folders, group1List, 1, tags);
        Group1Paths(t);
        var folder := 0;
        if t.group1 != "" {
          ghost var fs := folders;
          folder, group1List := FolderFor(0, t.group1, [t.group1], group1List, 1, tags, i);
          ProgressExtends(folders, fs, now, 1, i);
        }
        if t.group1 != "" || t.componentOf.None? {
          Place(folders, now, 1, i, folder);
          StaysSame(now, tags, i, folder);
          res[i] := t.(componentOf := Some(folder));
          assert res[..] == now[i := t.(componentOf := Some(folder))];
        }
      }
      listed := group1List;
    }

    /** The second and the third pass: folders for the next group under the folder the tag is in. */
    method NextGroupPass(res: array<Tag>, level: nat, ghost list0: map<Path, nat>, ghost tags: seq<Tag>)
      returns (ghost listed: map<Path, nat>)
      requires level == 2 || level == 3
      requires Folders(folders, list0, level - 1, tags) && SameTags(res[..], tags)
      requires Progress(folders, res[..], level - 1, res.Length)
      modifies this, res
      ensures SameTags(res[..], tags) && Progress(folders, res[..], level, res.Length)
      ensures Folders(folders, listed, level, tags)
    {
      hide Folders, Progress, FullPath, PathOf, PathTo, SameTags;
      var list: map<Path, nat> := map[];
      NextLevel(folders, list0, level - 1, tags);
      ProgressNext(folders, res[..], level - 1);
      SameLength(res[..], tags);
      for i := 0 to res.Length
        invariant SameTags(res[..], tags) && Folders(folders, list, level, tags)
        invariant Progress(folders, res[..], level, i)
      {
        var t := res[i];
        ghost var now, fs := res[..], folders;
        SameGroups(now, tags, i);
        DeeperPaths(t);
        if t.hasBrowsePath || t.group1 == "" || t.group2 == "" || (level == 3 && t.group3 == "") {
          PassOver(folders, now, level, i);
          continue;
        }
        InParent(fs, now, level, i);
        var key := if level == 2 then [t.group1, t.group2] else [t.group1, t.group2, t.group3];
        var folder;
        folder, list := FolderFor(t.componentOf.value, key[level - 1], key, list, level, tags, i);
        ProgressExtends(folders, fs, now, level, i);
        Place(folders, now, level, i, folder);
        StaysSame(now, tags, i, folder);
        res[i] := t.(componentOf := Some(folder));
        assert res[..] == now[i := t.(componentOf := Some(folder))];
      }
      listed := list;
    }

    /** All three passes. */
    method BuildFolders(res: array<Tag>)
      requires folders == [Folder(0, "JsonScadaServer")]
      requires forall j :: 0 <= j < res.Length ==> res[j].componentOf.None?
      modifies this, res
      ensures Built(folders, res[..], old(res[..]))
    {
      ghost var tags := res[..];
      RootOnly(folders, tags);
      hide Folders, Progress, FullPath, PathOf, PathTo, SameTags, Built;
      ghost var list := Group1Pass(res);
      DeeperPasses(res, list, tags);
    }

    method DeeperPasses(res: array<Tag>, ghost list: map<Path, nat>, ghost tags: seq<Tag>)
      requires Folders(folders, list, 1, tags) && SameTags(res[..], tags) && Progress(folders, res[..], 1, res.Length)
      modifies this, res
      ensures Built(folders, res[..], tags)
    {
      hide Folders, Progress, SameTags, Built;
      ghost var list2 := NextGroupPass(res, 2, list, tags);
      ghost var list3 := NextGroupPass(res, 3, list2, tags);
      Finished(folders, list3, res[..], tags);
    }
  }

  // ---- small steps of the passes ------------------------------------------------------------------

  lemma SameAtStart(tags: seq<Tag>)
    ensures SameTags(tags, tags)
  {
  }

  lemma SameLength(now: seq<Tag>, was: seq<Tag>)
    requires SameTags(now, was)
    ensures |now| == |was|
  {
  }

  lemma ProgressAtStart(fs: seq<Folder>, tags: seq<Tag>)
    requires Folders(fs, map[], 1, tags)
    ensures Progress(fs, tags, 1, 0)
  {
  }

  lemma RootPath(fs: seq<Folder>, list: map<Path, nat>, level: nat, tags: seq<Tag>)
    requires Folders(fs, list, level, tags)
    ensures Tree(fs) && PathOf(fs, 0) == []
  {
  }

  lemma Group1Paths(t: Tag)
    ensures t.group1 == "" ==> PathTo(t, 1) == []
    ensures t.group1 != "" ==> |FullPath(t)| >= 1 && FullPath(t)[..1] == [t.group1] == PathTo(t, 1)
  {
  }

  lemma DeeperPaths(t: Tag)
    ensures |FullPath(t)| >= 2 <==> t.group1 != "" && t.group2 != ""
    ensures |FullPath(t)| >= 3 <==> t.group1 != "" && t.group2 != "" && t.group3 != ""
    ensures |FullPath(t)| >= 2 ==> FullPath(t)[..2] == [t.group1, t.group2] == PathTo(t, 2)
    ensures |FullPath(t)| >= 3 ==> FullPath(t)[..3] == [t.group1, t.group2, t.group3] == PathTo(t, 3)
  {
  }

  /** Before its turn a tag is in the folder of the level above. */
  lemma InParent(fs: seq<Folder>, now: seq<Tag>, level: nat, i: nat)
    requires Progress(fs, now, level, i) && i < |now| && level > 1
    requires !now[i].hasBrowsePath && |FullPath(now[i])| >= level
    ensures now[i].componentOf.Some? && now[i].componentOf.value < |fs|
    ensures PathOf(fs, now[i].componentOf.value) == FullPath(now[i])[..level][..level - 1]
  {
    hide PathOf, FullPath;
    assert PlacedAt(fs, now[i], PathTo(now[i], level - 1));
    assert FullPath(now[i])[..level][..level - 1] == FullPath(now[i])[..level - 1];
  }

  lemma RootOnly(fs: seq<Folder>, tags: seq<Tag>)
    requires |fs| == 1
    ensures Folders(fs, map[], 1, tags)
  {
  }

  lemma Finished(fs: seq<Folder>, list: map<Path, nat>, now: seq<Tag>, tags: seq<Tag>)
    requires Folders(fs, list, 3, tags) && Progress(fs, now, 3, |now|) && SameTags(now, tags)
    ensures Built(fs, now, tags)
  {
    hide PathOf;
    assert forall t :: PathTo(t, 3) == FullPath(t);
  }

  // ---- the tree -------------------------------------------------------------------------------------

  /** A folder's parent is the folder of its path shortened by one, and the only one. */
  lemma ParentHasShorterPath(fs: seq<Folder>, id: nat)
    requires Tree(fs) && Unique(fs) && 0 < id < |fs|
    ensures var p := PathOf(fs, id);
      p != [] && PathOf(fs, fs[id].parent) == p[..|p| - 1] && p[|p| - 1] == fs[id].name
      && forall other :: 0 <= other < |fs| && PathOf(fs, other) == p[..|p| - 1] ==> other == fs[id].parent
  {
    var p := PathOf(fs, id);
    assert p[..|p| - 1] == PathOf(fs, fs[id].parent);
  }

  /** Every prefix of a tag's path has a folder, and exactly one. */
  lemma {:induction false} PrefixesHaveFolders(fs: seq<Folder>, id: nat, n: nat) returns (at: nat)
    requires Tree(fs) && Unique(fs) && id < |fs| && n <= |PathOf(fs, id)|
    ensures at < |fs| && PathOf(fs, at) == PathOf(fs, id)[..n]
    ensures forall other :: 0 <= other < |fs| && PathOf(fs, other) == PathOf(fs, id)[..n] ==> other == at
    decreases id
  {
    var p := PathOf(fs, id);
    if n == |p| {
      at := id;
      assert p[..n] == p;
    } else {
      ParentHasShorterPath(fs, id);
      assert p[..n] == p[..|p| - 1][..n];
      at := PrefixesHaveFolders(fs, fs[id].parent, n);
    }
  }

  /** Two tags without a browse path share a folder exactly when they have the same groups up to the first empty one. */
  lemma SameFolderIffSamePath(fs: seq<Folder>, s: Tag, t: Tag)
    requires Tree(fs) && Unique(fs) && PlacedAt(fs, s, FullPath(s)) && PlacedAt(fs, t, FullPath(t))
    ensures s.componentOf == t.componentOf <==> FullPath(s) == FullPath(t)
  {
    hide PathOf, FullPath;
    var a, b := s.componentOf.value, t.componentOf.value;
    if a < b {
      assert PathOf(fs, a) != PathOf(fs, b);
    } else if b < a {
      assert PathOf(fs, b) != PathOf(fs, a);
    }
  }
}
